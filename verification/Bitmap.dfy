/** The bitmap of kern/fs/sfs/bitmap.c: one bit per disk block, set while the block is free, in 32-bit words.
    A word is given by its bits, lowest first. */
module Bitmaps {
  const WORD_BITS := 32

  type Word = seq<bool>

  ghost predicate WellFormed(map_: seq<Word>) {
    forall w :: 0 <= w < |map_| ==> |map_[w]| == WORD_BITS
  }

  ghost predicate At(map_: seq<Word>, k: nat)
    requires WellFormed(map_) && k < |map_| * WORD_BITS
  {
    map_[k / 32][k % 32]
  }

  /** The words hold the given bits, and clear bits after them. */
  ghost predicate Holds(map_: seq<Word>, bits: seq<bool>) {
    && WellFormed(map_) && |bits| <= |map_| * WORD_BITS
    && forall k: nat :: k < |map_| * WORD_BITS ==> At(map_, k) == (k < |bits| && bits[k])
  }

  lemma Place(w: nat, o: nat)
    requires o < WORD_BITS
    ensures (w * WORD_BITS + o) / WORD_BITS == w && (w * WORD_BITS + o) % WORD_BITS == o
  {
  }

  /** Changing one bit of one word changes that bit of the map. */
  lemma HoldsChange(map_: seq<Word>, bits: seq<bool>, w: nat, o: nat, v: bool)
    requires Holds(map_, bits) && w < |map_| && o < WORD_BITS && w * WORD_BITS + o < |bits|
    ensures Holds(map_[w := map_[w][o := v]], bits[w * WORD_BITS + o := v])
  {
    var m, b := map_[w := map_[w][o := v]], bits[w * WORD_BITS + o := v];
    Place(w, o);
    forall k: nat | k < |m| * WORD_BITS ensures At(m, k) == (k < |b| && b[k]) {
      assert At(map_, k) == (k < |bits| && bits[k]);
      assert k == k / WORD_BITS * WORD_BITS + k % WORD_BITS;
    }
  }

  lemma WordBit(map_: seq<Word>, bits: seq<bool>, w: nat, o: nat)
    requires Holds(map_, bits) && w < |map_| && o < WORD_BITS
    ensures map_[w][o] == (w * WORD_BITS + o < |bits| && bits[w * WORD_BITS + o])
  {
    Place(w, o);
    assert At(map_, w * WORD_BITS + o) == map_[w][o];
  }

  lemma EmptyBefore(map_: seq<Word>, bits: seq<bool>, w: nat)
    requires Holds(map_, bits) && w <= |map_| && forall v :: 0 <= v < w ==> None(map_[v])
    ensures forall k :: 0 <= k < |bits| && k < w * WORD_BITS ==> !bits[k]
  {
    forall k: nat | k < |bits| && k < w * WORD_BITS ensures !bits[k] {
      assert At(map_, k) == bits[k];
      assert None(map_[k / WORD_BITS]);
    }
  }

  lemma FirstInMap(map_: seq<Word>, bits: seq<bool>, w: nat, o: nat)
    requires Holds(map_, bits) && w < |map_| && IsFirst(map_[w], o) && forall v :: 0 <= v < w ==> None(map_[v])
    ensures IsFirst(bits, w * WORD_BITS + o)
  {
    EmptyBefore(map_, bits, w);
    WordBit(map_, bits, w, o);
    forall k: nat | w * WORD_BITS <= k < w * WORD_BITS + o ensures !bits[k] {
      WordBit(map_, bits, w, k - w * WORD_BITS);
    }
  }

  ghost function Count(bits: seq<bool>): nat {
    if bits == [] then 0 else (if bits[0] then 1 else 0) + Count(bits[1..])
  }

  ghost predicate None(bits: seq<bool>) {
    forall k :: 0 <= k < |bits| ==> !bits[k]
  }

  ghost predicate IsFirst(bits: seq<bool>, i: nat) {
    i < |bits| && bits[i] && forall k :: 0 <= k < i ==> !bits[k]
  }

  lemma {:induction false} CountNone(bits: seq<bool>)
    ensures Count(bits) == 0 <==> None(bits)
  {
    if bits != [] {
      CountNone(bits[1..]);
      assert forall k :: 1 <= k < |bits| ==> bits[k] == bits[1..][k - 1];
    }
  }

  lemma {:induction false} CountLast(bits: seq<bool>, v: bool)
    ensures Count(bits + [v]) == Count(bits) + if v then 1 else 0
  {
    if bits != [] {
      CountLast(bits[1..], v);
      assert (bits + [v])[1..] == bits[1..] + [v];
    }
  }

  lemma {:induction false} CountUpdate(bits: seq<bool>, i: nat, v: bool)
    requires i < |bits|
    ensures Count(bits[i := v]) == Count(bits) + (if v then 1 else 0) - (if bits[i] then 1 else 0)
  {
    if i == 0 {
      assert bits[0 := v][1..] == bits[1..];
    } else {
      CountUpdate(bits[1..], i - 1, v);
      assert bits[i := v][1..] == bits[1..][i - 1 := v];
    }
  }

  lemma Loaded(map_: seq<Word>, data: seq<bool>)
    requires |data| == |map_| * WORD_BITS
    requires forall v :: 0 <= v < |map_| ==> map_[v] == data[v * WORD_BITS..v * WORD_BITS + WORD_BITS]
    ensures Holds(map_, data)
  {
    forall k: nat | k < |map_| * WORD_BITS ensures At(map_, k) == data[k] {
      assert k == k / WORD_BITS * WORD_BITS + k % WORD_BITS;
    }
  }

  class Bitmap {
    const nbits: nat
    const map_: array<Word>
    /** The bits of the map, without those that only fill the last word. */
    ghost var bits: seq<bool>

    ghost predicate Valid()
      reads this, map_
    {
      |bits| == nbits && map_.Length * WORD_BITS < nbits + WORD_BITS && Holds(map_[..], bits)
    }

    /** bitmap_create: all bits set, but for those left over in the last word. */
    constructor (nbits: nat)
      requires nbits != 0 && nbits + WORD_BITS < 0x1_0000_0000
      ensures Valid() && this.nbits == nbits && fresh(map_) && forall k :: 0 <= k < nbits ==> bits[k]
    {
      var nwords := (nbits + WORD_BITS - 1) / WORD_BITS;
      var ones := seq(WORD_BITS, o => true);
      this.nbits := nbits;
      bits := seq(nbits, k => true);
      map_ := new Word[nwords](w => ones);
      new;
      var ix := nwords - 1;
      if nbits != nwords * WORD_BITS {
        var overbits := nbits - ix * WORD_BITS;
        while overbits < WORD_BITS
          invariant nbits - ix * WORD_BITS <= overbits <= WORD_BITS && WellFormed(map_[..])
          invariant forall w :: 0 <= w < ix ==> map_[w] == ones
          invariant forall o :: 0 <= o < WORD_BITS ==> map_[ix][o] == !(nbits - ix * WORD_BITS <= o < overbits)
          modifies map_
        {
          map_[ix] := map_[ix][overbits := !map_[ix][overbits]];
          overbits := overbits + 1;
        }
      }
      assert forall w :: 0 <= w < ix ==> map_[w] == ones;
      assert forall o :: 0 <= o < WORD_BITS ==> map_[ix][o] == (ix * WORD_BITS + o < nbits);
    }

    /** sfs_init_freemap: the words are read in, a whole number of them. */
    method Load(data: seq<bool>)
      requires Valid() && |data| == nbits && nbits % WORD_BITS == 0
      modifies `bits, map_
      ensures Valid() && bits == data
    {
      var w := 0;
      while w < map_.Length
        invariant w <= map_.Length && map_.Length * WORD_BITS == nbits
        invariant forall v :: 0 <= v < w ==> map_[v] == data[v * WORD_BITS..v * WORD_BITS + WORD_BITS]
      {
        map_[w] := data[w * WORD_BITS..w * WORD_BITS + WORD_BITS];
        w := w + 1;
      }
      bits := data;
      Loaded(map_[..], data);
    }

    /** The inner loop of bitmap_alloc. */
    method FirstBit(word: Word) returns (offset: nat)
      requires |word| == WORD_BITS && !None(word)
      ensures IsFirst(word, offset)
    {
      offset := 0;
      while !word[offset]
        invariant offset < WORD_BITS && forall o :: 0 <= o < offset ==> !word[o]
        decreases WORD_BITS - offset
      {
        assert offset + 1 == WORD_BITS ==> None(word);
        offset := offset + 1;
      }
    }

    /** bitmap_alloc: takes the lowest set bit, and fails only when there is none. */
    method Alloc() returns (ok: bool, index: nat)
      requires Valid()
      modifies `bits, map_
      ensures Valid() && ok == !None(old(bits))
      ensures if ok then IsFirst(old(bits), index) && bits == old(bits)[index := false] else bits == old(bits)
    {
      var ix := 0;
      while ix < map_.Length
        invariant ix <= map_.Length && forall w :: 0 <= w < ix ==> None(map_[w])
        invariant Valid() && bits == old(bits) && map_[..] == old(map_[..])
      {
        if exists o :: 0 <= o < WORD_BITS && map_[ix][o] {
          var offset := FirstBit(map_[ix]);
          index := ix * WORD_BITS + offset;
          FirstInMap(map_[..], bits, ix, offset);
          HoldsChange(map_[..], bits, ix, offset, false);
          map_[ix] := map_[ix][offset := !map_[ix][offset]];
          bits := bits[index := false];
          assert map_[..] == old(map_[..])[ix := map_[ix]];
          return true, index;
        }
        ix := ix + 1;
      }
      EmptyBefore(map_[..], bits, ix);
      return false, 0;
    }

    /** bitmap_test. */
    method Test(index: nat) returns (set_: bool)
      requires Valid() && index < nbits
      ensures set_ == bits[index]
    {
      assert At(map_[..], index) == bits[index];
      set_ := map_[index / WORD_BITS][index % WORD_BITS];
    }

    /** bitmap_free. */
    method Free(index: nat)
      requires Valid() && index < nbits && !bits[index]
      modifies `bits, map_
      ensures Valid() && bits == old(bits)[index := true]
    {
      var ix, offset := index / WORD_BITS, index % WORD_BITS;
      HoldsChange(map_[..], bits, ix, offset, true);
      map_[ix] := map_[ix][offset := true];
      bits := bits[index := true];
      assert map_[..] == old(map_[..])[ix := map_[ix]];
    }
  }
}
