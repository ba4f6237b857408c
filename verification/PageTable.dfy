/** Page tables and the reference counts of pages (kern/mm/pmm.c). Addresses are page numbers; the page table of a page
    is found in the directory under its upper bits. */
module PageTables {
  const NPTE := 1024
  const NPAGES := 0x10_0000

  /** A page table entry: zero, nonzero without the present bit, or the mapping of a page. */
  datatype Pte = Zero | Absent(entry: bv32) | Present(page: nat, perm: bv32)

  type Table = seq<Pte>
  type Dir = map<nat, Table>
  /** The page directories, by number. */
  type Space = map<nat, Dir>

  ghost predicate Shaped(sp: Space) {
    forall d, i :: d in sp && i in sp[d] ==> |sp[d][i]| == NPTE
  }

  /** The entry for page v in directory d, zero when there is no table. */
  ghost function Entry(sp: Space, d: nat, v: nat): Pte {
    if d in sp && v / 1024 in sp[d] && |sp[d][v / 1024]| == NPTE then sp[d][v / 1024][v % 1024] else Zero
  }

  ghost predicate Maps(sp: Space, d: nat, v: nat, p: nat) {
    Entry(sp, d, v).Present? && Entry(sp, d, v).page == p
  }

  /** The places where page p is mapped. */
  ghost function Users(sp: Space, p: nat): set<(nat, nat)> {
    set d, v: nat | d in sp && v < NPAGES && Maps(sp, d, v, p) :: (d, v)
  }

  lemma IsUser(sp: Space, p: nat, d: nat, v: nat)
    ensures (d, v) in Users(sp, p) <==> v < NPAGES && Maps(sp, d, v, p)
  {
  }

  /** t is s but for the entry of v in d. */
  ghost predicate OneEntry(s: Space, t: Space, d: nat, v: nat, e: Pte) {
    && Entry(t, d, v) == e
    && forall x, y: nat :: (x != d || y != v) ==> Entry(t, x, y) == Entry(s, x, y)
  }

  lemma UsersChange(s: Space, t: Space, d: nat, v: nat, e: Pte, p: nat)
    requires OneEntry(s, t, d, v, e) && v < NPAGES
    ensures e.Present? && e.page == p ==> Users(t, p) == Users(s, p) + {(d, v)}
    ensures !(e.Present? && e.page == p) ==> Users(t, p) == Users(s, p) - {(d, v)}
  {
    forall x: nat, y: nat ensures (x, y) in Users(t, p) <==>
        (if x == d && y == v then e.Present? && e.page == p else (x, y) in Users(s, p)) {
      IsUser(s, p, x, y);
      IsUser(t, p, x, y);
    }
  }

  lemma SameMaps(s: Space, t: Space, p: nat)
    requires forall x, y: nat :: Maps(t, x, y, p) <==> Maps(s, x, y, p)
    ensures Users(t, p) == Users(s, p)
  {
    forall x: nat, y: nat ensures (x, y) in Users(t, p) <==> (x, y) in Users(s, p) {
      IsUser(s, p, x, y);
      IsUser(t, p, x, y);
    }
  }

  lemma UsersSame(s: Space, t: Space, p: nat)
    requires forall x, y: nat :: Entry(t, x, y) == Entry(s, x, y)
    ensures Users(t, p) == Users(s, p)
  {
    hide Entry, Users;
    SameMaps(s, t, p);
  }

  ghost function SetEntry(sp: Space, d: nat, v: nat, e: Pte): Space
    requires d in sp && v / 1024 in sp[d] && |sp[d][v / 1024]| == NPTE
  {
    var i: nat := v / 1024;
    var dir: Dir := sp[d][i := sp[d][i][v % 1024 := e]];
    sp[d := dir]
  }

  lemma SetOne(sp: Space, d: nat, v: nat, e: Pte)
    requires Shaped(sp) && d in sp && v / 1024 in sp[d]
    ensures Shaped(SetEntry(sp, d, v, e)) && OneEntry(sp, SetEntry(sp, d, v, e), d, v, e)
  {
    var t := SetEntry(sp, d, v, e);
    forall x, y: nat ensures Entry(t, x, y) == if x == d && y == v then e else Entry(sp, x, y) {
      if x == d && y / 1024 == v / 1024 && y != v { assert y % 1024 != v % 1024; }
    }
  }

  const PTE_P: bv32 := 1
  const PTE_USER: bv32 := 7

  type Content = seq<int>

  /** The counts of the data pages are their numbers of users, and free pages and pages used for tables have none. */
  ghost predicate Counted(sp: Space, ref: map<nat, int>, free: set<nat>, tables: set<nat>) {
    && free <= ref.Keys && tables <= ref.Keys && free !! tables
    && (forall p: nat :: p in free || p in tables || p !in ref ==> Users(sp, p) == {})
    && (forall p: nat :: p in ref && p !in tables ==> ref[p] == |Users(sp, p)|)
  }

  /** The pages that are neither free nor used for anything. */
  ghost function Leaks(sp: Space, ref: map<nat, int>, free: set<nat>, tables: set<nat>): set<nat> {
    set p | p in ref && p !in free && p !in tables && Users(sp, p) == {}
  }

  /** For each directory, the pages that hold its tables. */
  type Row = map<nat, nat>
  type Pdes = map<nat, Row>

  function PutTable(pde: Pdes, d: nat, i: nat, page: nat): Pdes
    requires d in pde
  {
    var row: Row := pde[d][i := page];
    pde[d := row]
  }

  /** The entries of the directories, and those of pde, are in the same places. */
  ghost predicate Rows(sp: Space, pde: Pdes) {
    pde.Keys == sp.Keys && forall d :: d in sp ==> pde[d].Keys == sp[d].Keys
  }

  /** No two tables share a page. */
  ghost predicate Unshared(pde: Pdes) {
    forall d, i, x, j :: d in pde && i in pde[d] && x in pde && j in pde[x] && pde[d][i] == pde[x][j] ==>
        d == x && i == j
  }

  /** Directories and their tables have pages of their own. */
  ghost predicate Placed(sp: Space, pde: Pdes, tables: set<nat>) {
    && Rows(sp, pde) && pde.Keys <= tables && Unshared(pde)
    && forall d, i :: d in pde && i in pde[d] ==> pde[d][i] in tables && pde[d][i] !in pde
  }

  /** Page p holds a directory or one of its tables. */
  ghost predicate Leads(pde: Pdes, p: nat) {
    p in pde || exists d, i :: d in pde && i in pde[d] && pde[d][i] == p
  }

  /** The pages of tables that no directory leads to any more. */
  ghost function Stray(pde: Pdes, tables: set<nat>): set<nat> {
    set p | p in tables && !Leads(pde, p)
  }

  /** No directory but d has got or lost a table. */
  ghost predicate OneRow(p: Pdes, q: Pdes, d: nat) {
    q.Keys == p.Keys && forall x :: x in p && x != d ==> q[x] == p[x]
  }

  lemma OneRowNone(p: Pdes, d: nat)
    ensures OneRow(p, p, d)
  {
  }

  lemma OneRowTwice(p: Pdes, q: Pdes, r: Pdes, d: nat)
    requires OneRow(p, q, d) && OneRow(q, r, d)
    ensures OneRow(p, r, d)
  {
  }

  lemma OneRowPut(p: Pdes, d: nat, i: nat, page: nat)
    requires d in p
    ensures OneRow(p, PutTable(p, d, i, page), d)
  {
  }

  lemma PlacedSame(s: Space, t: Space, pde: Pdes, tables: set<nat>, d: nat)
    requires Placed(s, pde, tables) && SameTables(s, t, d, {})
    ensures Placed(t, pde, tables)
  {
    forall x | x in s ensures t[x].Keys == s[x].Keys {
      assert t[x].Keys == s[x].Keys + {};
    }
  }

  /** pde with page for the table at i of d: no other place is changed. */
  lemma PutTableAt(pde: Pdes, d: nat, i: nat, page: nat, x: nat, j: nat)
    requires d in pde
    ensures var q := PutTable(pde, d, i, page);
            && q.Keys == pde.Keys && (x in pde ==> (j in q[x] <==> j in pde[x] || (x == d && j == i)))
            && (x in pde && j in q[x] ==> q[x][j] == if x == d && j == i then page else pde[x][j])
  {
  }

  lemma TableUnshared(pde: Pdes, d: nat, i: nat, page: nat)
    requires d in pde && i !in pde[d] && Unshared(pde) && !Leads(pde, page)
    ensures Unshared(PutTable(pde, d, i, page))
  {
    hide PutTable;
    var q := PutTable(pde, d, i, page);
    PutTableAt(pde, d, i, page, d, i);
    forall x, j, y, k | x in q && j in q[x] && y in q && k in q[y] && q[x][j] == q[y][k] ensures x == y && j == k {
      PutTableAt(pde, d, i, page, x, j);
      PutTableAt(pde, d, i, page, y, k);
    }
  }

  lemma TableRows(s: Space, t: Space, pde: Pdes, d: nat, i: nat, page: nat)
    requires Rows(s, pde) && d in s && SameTables(s, t, d, {i})
    ensures d in pde && Rows(t, PutTable(pde, d, i, page))
  {
  }

  lemma TableOwn(s: Space, t: Space, pde: Pdes, tables: set<nat>, d: nat, i: nat, page: nat)
    requires Placed(s, pde, tables) && d in s && i !in s[d] && page !in tables && SameTables(s, t, d, {i})
    ensures d in pde && Placed(t, PutTable(pde, d, i, page), tables + {page})
  {
    hide PutTable, Rows, Unshared, SameTables;
    TableRows(s, t, pde, d, i, page);
    assert !Leads(pde, page);
    assert i !in pde[d] by { RowsAt(s, pde, d); }
    TableUnshared(pde, d, i, page);
    var q := PutTable(pde, d, i, page);
    PutTableAt(pde, d, i, page, d, i);
    forall x, j | x in q && j in q[x] ensures q[x][j] in tables + {page} && q[x][j] !in q {
      PutTableAt(pde, d, i, page, x, j);
    }
  }

  lemma RowsAt(s: Space, pde: Pdes, d: nat)
    requires Rows(s, pde) && d in s
    ensures d in pde && pde[d].Keys == s[d].Keys
  {
  }

  lemma TableLeads(pde: Pdes, d: nat, i: nat, page: nat, p: nat)
    requires d in pde && i !in pde[d]
    ensures Leads(PutTable(pde, d, i, page), p) <==> Leads(pde, p) || p == page
  {
    var q := PutTable(pde, d, i, page);
    assert q[d][i] == page;
    if Leads(pde, p) && p !in pde {
      var x, j :| x in pde && j in pde[x] && pde[x][j] == p;
      assert q[x][j] == p;
    }
  }

  lemma TablePlaced(s: Space, t: Space, pde: Pdes, tables: set<nat>, d: nat, i: nat, page: nat)
    requires Placed(s, pde, tables) && d in s && i !in s[d] && page !in tables && SameTables(s, t, d, {i})
    ensures d in pde
    ensures var q := PutTable(pde, d, i, page);
            Placed(t, q, tables + {page}) && Stray(q, tables + {page}) == Stray(pde, tables)
  {
    hide PutTable, Leads, Unshared;
    TableOwn(s, t, pde, tables, d, i, page);
    assert i !in pde[d];
    forall p: nat ensures Leads(PutTable(pde, d, i, page), p) <==> Leads(pde, p) || p == page {
      TableLeads(pde, d, i, page, p);
    }
  }

  lemma DirPlaced(s: Space, pde: Pdes, tables: set<nat>, page: nat)
    requires Placed(s, pde, tables) && page !in tables
    ensures var dir: Dir, row: Row := map[], map[];
            && Placed(s[page := dir], pde[page := row], tables + {page})
            && Stray(pde[page := row], tables + {page}) == Stray(pde, tables)
  {
    var row: Row := map[];
    var q := pde[page := row];
    forall p: nat ensures Leads(q, p) <==> Leads(pde, p) || p == page {
      if Leads(pde, p) && p !in pde {
        var x, j :| x in pde && j in pde[x] && pde[x][j] == p;
        assert q[x][j] == p;
      }
    }
    assert !Leads(pde, page);
  }

  lemma StrayIsTable(pde: Pdes, tables: set<nat>, p: nat)
    requires p !in tables
    ensures p !in Stray(pde, tables)
  {
  }

  lemma DirIsTable(s: Space, pde: Pdes, tables: set<nat>, p: nat)
    requires Placed(s, pde, tables) && p !in tables
    ensures p !in s
  {
  }

  lemma TakenLeaks(sp: Space, ref: map<nat, int>, free: set<nat>, tables: set<nat>, page: nat)
    requires Counted(sp, ref, free, tables) && page in free
    ensures Leaks(sp, ref, free - {page}, tables) == Leaks(sp, ref, free, tables) + {page}
    ensures page !in Leaks(sp, ref, free, tables)
  {
    hide Users;
  }

  lemma GoneAgain(lost: set<nat>, page: nat)
    requires page !in lost
    ensures (lost + {page}) - {page} == lost
  {
  }

  ghost predicate SameEntries(s: Space, t: Space) {
    forall x, y: nat :: Entry(t, x, y) == Entry(s, x, y)
  }

  /** The pages in use have kept their contents. */
  ghost predicate KeptContent(before: map<nat, Content>, after: map<nat, Content>, free: set<nat>) {
    forall p :: p in before && p !in free ==> p in after && after[p] == before[p]
  }

  /** The tables of all directories are as before, but for one that directory d may have got at i. */
  ghost predicate SameTables(s: Space, t: Space, d: nat, i: set<nat>) {
    t.Keys == s.Keys && forall x :: x in s ==> t[x].Keys == s[x].Keys + if x == d then i else {}
  }

  lemma SameTablesTwice(s: Space, t: Space, u: Space, d: nat, i: set<nat>)
    requires SameTables(s, t, d, i) && SameTables(t, u, d, i)
    ensures SameTables(s, u, d, i)
  {
  }

  lemma SameTablesOn(s: Space, t: Space, u: Space, d: nat, i: set<nat>)
    requires SameTables(s, t, d, i) && SameTables(t, u, d, {})
    ensures SameTables(s, u, d, i)
  {
    forall x | x in s ensures u[x].Keys == s[x].Keys + if x == d then i else {} {
      assert u[x].Keys == t[x].Keys + {} && t[x].Keys + {} == t[x].Keys;
    }
  }

  lemma SameTablesNone(s: Space, d: nat, i: nat)
    ensures SameTables(s, s, d, {}) && (d in s && i in s[d] ==> SameTables(s, s, d, {i}))
  {
    assert d in s && i in s[d] ==> s[d].Keys + {i} == s[d].Keys;
  }

  lemma SameTablesAt(s: Space, t: Space, d: nat, i: set<nat>, x: nat)
    requires SameTables(s, t, d, i) && x in s
    ensures t.Keys == s.Keys && t[x].Keys == s[x].Keys + if x == d then i else {}
  {
  }

  lemma SameEntriesNone(s: Space)
    ensures SameEntries(s, s)
  {
  }

  lemma KeptNone(content: map<nat, Content>, free: set<nat>)
    ensures KeptContent(content, content, free)
  {
  }

  lemma KeptPut(content: map<nat, Content>, free: set<nat>, page: nat, c: Content)
    requires page in free && page in content
    ensures KeptContent(content, content[page := c], free) && content[page := c].Keys == content.Keys
  {
  }

  /** Directory d with a zeroed table at i. */
  function WithTable(sp: Space, d: nat, i: nat): Space
    requires d in sp
  {
    var dir: Dir := sp[d][i := seq(NPTE, j => Zero)];
    sp[d := dir]
  }

  lemma NewTableKeys(sp: Space, d: nat, i: nat)
    requires d in sp
    ensures var t := WithTable(sp, d, i); SameTables(sp, t, d, {i}) && t.Keys == sp.Keys && i in t[d]
  {
  }

  lemma NewTable(sp: Space, ref: map<nat, int>, free: set<nat>, tables: set<nat>, d: nat, i: nat, page: nat)
    requires Shaped(sp) && Counted(sp, ref, free, tables) && d in sp && i !in sp[d]
    requires InUse(ref, free, tables, page) && Users(sp, page) == {}
    ensures var t := WithTable(sp, d, i);
            && Shaped(t) && SameEntries(sp, t) && Counted(t, ref[page := 1], free, tables + {page})
            && Leaks(t, ref[page := 1], free, tables + {page}) == Leaks(sp, ref, free, tables) - {page}
  {
    var t := WithTable(sp, d, i);
    forall x, y: nat ensures Entry(t, x, y) == Entry(sp, x, y) {
    }
    NewlyUsed(sp, t, ref, free, tables, page, 1);
  }

  lemma NewlyUsed(s: Space, t: Space, ref: map<nat, int>, free: set<nat>, tables: set<nat>, page: nat, n: int)
    requires Counted(s, ref, free, tables) && SameEntries(s, t) && Users(s, page) == {} && page in ref && page !in free
    ensures Counted(t, ref[page := n], free, tables + {page})
    ensures Leaks(t, ref[page := n], free, tables + {page}) == Leaks(s, ref, free, tables) - {page}
  {
    hide Users, Entry;
    forall p: nat ensures Users(t, p) == Users(s, p) {
      UsersSame(s, t, p);
    }
  }

  lemma NewDir(sp: Space, ref: map<nat, int>, free: set<nat>, tables: set<nat>, page: nat)
    requires Shaped(sp) && Counted(sp, ref, free, tables) && page in ref && page !in free && page !in tables
    requires page !in sp
    requires Users(sp, page) == {}
    ensures var dir: Dir := map[];
            && Shaped(sp[page := dir]) && SameEntries(sp, sp[page := dir])
            && Counted(sp[page := dir], ref, free, tables + {page})
            && Leaks(sp[page := dir], ref, free, tables + {page}) == Leaks(sp, ref, free, tables) - {page}
  {
    var dir: Dir := map[];
    var t := sp[page := dir];
    forall x, y: nat ensures Entry(t, x, y) == Entry(sp, x, y) {
    }
    NewlyUsed(sp, t, ref, free, tables, page, ref[page]);
    assert ref[page := ref[page]] == ref;
  }

  /** All that a new table changes. */
  lemma TableDone(sp: Space, ref: map<nat, int>, free: set<nat>, tables: set<nat>, pde: Pdes, d: nat, i: nat, page: nat,
                  lost: set<nat>)
    requires Shaped(sp) && Counted(sp, ref, free, tables) && Placed(sp, pde, tables) && d in sp && i !in sp[d]
    requires InUse(ref, free, tables, page) && Users(sp, page) == {} && page !in lost
    requires Leaks(sp, ref, free, tables) + Stray(pde, tables) == lost + {page}
    ensures d in pde
    ensures var t, q := WithTable(sp, d, i), PutTable(pde, d, i, page);
            && Shaped(t) && SameEntries(sp, t) && Counted(t, ref[page := 1], free, tables + {page})
            && Placed(t, q, tables + {page}) && SameTables(sp, t, d, {i}) && t.Keys == sp.Keys && i in t[d]
            && Leaks(t, ref[page := 1], free, tables + {page}) + Stray(q, tables + {page}) == lost
  {
    hide Users, Entry, Leaks, Counted, Shaped, SameEntries, SameTables, Placed, Stray, PutTable, WithTable;
    NewTable(sp, ref, free, tables, d, i, page);
    NewTableKeys(sp, d, i);
    TablePlaced(sp, WithTable(sp, d, i), pde, tables, d, i, page);
    StrayIsTable(pde, tables, page);
    LessOne(Leaks(sp, ref, free, tables), Stray(pde, tables), page, lost);
  }

  lemma LessOne(a: set<nat>, b: set<nat>, page: nat, lost: set<nat>)
    requires a + b == lost + {page} && page !in b && page !in lost
    ensures (a - {page}) + b == lost
  {
  }

  /** All that a new directory changes. */
  lemma DirDone(sp: Space, ref: map<nat, int>, free: set<nat>, tables: set<nat>, pde: Pdes, page: nat, lost: set<nat>)
    requires Shaped(sp) && Counted(sp, ref, free, tables) && Placed(sp, pde, tables)
    requires InUse(ref, free, tables, page) && Users(sp, page) == {} && page !in lost
    requires Leaks(sp, ref, free, tables) + Stray(pde, tables) == lost + {page}
    ensures page !in sp
    ensures var dir: Dir, row: Row := map[], map[];
            var t, q := sp[page := dir], pde[page := row];
            && Shaped(t) && SameEntries(sp, t) && Counted(t, ref, free, tables + {page})
            && Placed(t, q, tables + {page})
            && Leaks(t, ref, free, tables + {page}) + Stray(q, tables + {page}) == lost
  {
    hide Users, Entry, Leaks, Counted, Shaped, SameEntries, Placed, Stray;
    DirIsTable(sp, pde, tables, page);
    NewDir(sp, ref, free, tables, page);
    DirPlaced(sp, pde, tables, page);
    StrayIsTable(pde, tables, page);
    LessOne(Leaks(sp, ref, free, tables), Stray(pde, tables), page, lost);
  }

  // ---------- giving tables and directories back ----------

  /** The table at i lies under some page of [a, b). */
  predicate Under(i: nat, a: nat, b: nat) {
    a / 1024 <= i && i * 1024 < b
  }

  function WithoutTable(sp: Space, d: nat, i: nat): Space
    requires d in sp
  {
    var dir: Dir := sp[d] - {i};
    sp[d := dir]
  }

  function DropTable(pde: Pdes, d: nat, i: nat): Pdes
    requires d in pde
  {
    var row: Row := pde[d] - {i};
    pde[d := row]
  }

  /** The entries of the table at i of d are gone, and no others. */
  ghost predicate Emptied(s: Space, t: Space, d: nat, i: nat) {
    forall x, y: nat :: Entry(t, x, y) == if x == d && y / 1024 == i then Zero else Entry(s, x, y)
  }

  ghost predicate NonePresent(sp: Space, d: nat, i: nat) {
    forall y: nat :: y / 1024 == i ==> !Entry(sp, d, y).Present?
  }

  lemma DropEntries(sp: Space, d: nat, i: nat)
    requires Shaped(sp) && d in sp
    ensures Shaped(WithoutTable(sp, d, i)) && Emptied(sp, WithoutTable(sp, d, i), d, i)
  {
  }

  lemma UsersEmptied(s: Space, t: Space, d: nat, i: nat, p: nat)
    requires Emptied(s, t, d, i) && NonePresent(s, d, i)
    ensures Users(t, p) == Users(s, p)
  {
    hide Entry, Users;
    SameMaps(s, t, p);
  }

  /** A page that held a table becomes free. */
  lemma TableFreed(s: Space, t: Space, ref: map<nat, int>, free: set<nat>, tables: set<nat>, page: nat)
    requires Counted(s, ref, free, tables) && page in tables && forall p: nat :: Users(t, p) == Users(s, p)
    ensures page in ref && page !in free && Counted(t, ref[page := 0], free + {page}, tables - {page})
    ensures Leaks(t, ref[page := 0], free + {page}, tables - {page}) == Leaks(s, ref, free, tables)
  {
    hide Users;
  }

  lemma DropTableAt(pde: Pdes, d: nat, i: nat, x: nat, j: nat)
    requires d in pde
    ensures var q := DropTable(pde, d, i);
            && q.Keys == pde.Keys && (x in pde ==> (j in q[x] <==> j in pde[x] && !(x == d && j == i)))
            && (x in pde && j in q[x] ==> q[x][j] == pde[x][j])
  {
  }

  lemma DropRows(s: Space, pde: Pdes, d: nat, i: nat)
    requires Rows(s, pde) && d in s
    ensures d in pde && Rows(WithoutTable(s, d, i), DropTable(pde, d, i))
  {
  }

  lemma DropPlaced(s: Space, pde: Pdes, tables: set<nat>, d: nat, i: nat)
    requires Placed(s, pde, tables) && d in s && i in s[d]
    ensures d in pde && i in pde[d] && pde[d][i] in tables
    ensures Placed(WithoutTable(s, d, i), DropTable(pde, d, i), tables - {pde[d][i]})
  {
    hide DropTable, WithoutTable, Rows;
    RowsAt(s, pde, d);
    DropRows(s, pde, d, i);
    var q := DropTable(pde, d, i);
    DropTableAt(pde, d, i, d, i);
    forall x, j | x in q && j in q[x] ensures q[x][j] in tables - {pde[d][i]} && q[x][j] !in q {
      DropTableAt(pde, d, i, x, j);
    }
    forall x, j, y, k | x in q && j in q[x] && y in q && k in q[y] && q[x][j] == q[y][k] ensures x == y && j == k {
      DropTableAt(pde, d, i, x, j);
      DropTableAt(pde, d, i, y, k);
    }
  }

  lemma DropLeads(pde: Pdes, d: nat, i: nat, p: nat)
    requires d in pde && i in pde[d] && Unshared(pde) && pde[d][i] !in pde
    ensures Leads(DropTable(pde, d, i), p) <==> Leads(pde, p) && p != pde[d][i]
  {
    hide DropTable;
    var q := DropTable(pde, d, i);
    DropTableAt(pde, d, i, d, i);
    if Leads(q, p) && p !in q {
      var x, j :| x in q && j in q[x] && q[x][j] == p;
      DropTableAt(pde, d, i, x, j);
    }
    if Leads(pde, p) && p != pde[d][i] && p !in pde {
      var x, j :| x in pde && j in pde[x] && pde[x][j] == p;
      DropTableAt(pde, d, i, x, j);
    }
  }

  lemma DropStray(pde: Pdes, tables: set<nat>, d: nat, i: nat)
    requires d in pde && i in pde[d] && Unshared(pde) && pde[d][i] !in pde && pde[d][i] in tables
    ensures Stray(DropTable(pde, d, i), tables - {pde[d][i]}) == Stray(pde, tables)
  {
    hide DropTable, Leads, Unshared;
    forall p: nat ensures Leads(DropTable(pde, d, i), p) <==> Leads(pde, p) && p != pde[d][i] {
      DropLeads(pde, d, i, p);
    }
    assert Leads(pde, pde[d][i]) by { LeadsTo(pde, d, i); }
  }

  lemma LeadsTo(pde: Pdes, d: nat, i: nat)
    requires d in pde && i in pde[d]
    ensures Leads(pde, pde[d][i])
  {
  }

  /** All that giving back a table changes. */
  lemma TableGone(sp: Space, ref: map<nat, int>, free: set<nat>, tables: set<nat>, pde: Pdes, d: nat, i: nat)
    requires Shaped(sp) && Counted(sp, ref, free, tables) && Placed(sp, pde, tables) && d in sp && i in sp[d]
    requires NonePresent(sp, d, i)
    ensures d in pde && i in pde[d]
    ensures var page, t, q := pde[d][i], WithoutTable(sp, d, i), DropTable(pde, d, i);
            && page in ref && page !in free && Shaped(t) && Emptied(sp, t, d, i)
            && Counted(t, ref[page := 0], free + {page}, tables - {page}) && Placed(t, q, tables - {page})
            && Leaks(t, ref[page := 0], free + {page}, tables - {page}) + Stray(q, tables - {page})
               == Leaks(sp, ref, free, tables) + Stray(pde, tables)
  {
    hide Entry, Users, Counted, Leaks, Stray, Shaped, Emptied, NonePresent, WithoutTable, DropTable, Unshared;
    DropPlaced(sp, pde, tables, d, i);
    DropStray(pde, tables, d, i);
    DropEntries(sp, d, i);
    var t := WithoutTable(sp, d, i);
    forall p: nat ensures Users(t, p) == Users(sp, p) {
      UsersEmptied(sp, t, d, i, p);
    }
    TableFreed(sp, t, ref, free, tables, pde[d][i]);
  }

  /** The entries of the tables of d under [a, b), up to the table at n, are gone, and no others. */
  ghost predicate EmptiedTo(s: Space, t: Space, d: nat, a: nat, b: nat, n: nat) {
    forall x, y: nat :: Entry(t, x, y) ==
      if x == d && Under(y / 1024, a, b) && y / 1024 < n then Zero else Entry(s, x, y)
  }

  /** So are these tables. */
  ghost predicate PrunedTo(p: Pdes, q: Pdes, d: nat, a: nat, b: nat, n: nat) {
    && d in p && q.Keys == p.Keys && (forall x :: x in p && x != d ==> q[x] == p[x])
    && (forall i :: i in q[d] <==> i in p[d] && !(Under(i, a, b) && i < n))
    && forall i :: i in q[d] ==> q[d][i] == p[d][i]
  }

  ghost predicate Pruned(p: Pdes, q: Pdes, d: nat, a: nat, b: nat) {
    && d in p && q.Keys == p.Keys && (forall x :: x in p && x != d ==> q[x] == p[x])
    && (forall i :: i in q[d] <==> i in p[d] && !Under(i, a, b)) && forall i :: i in q[d] ==> q[d][i] == p[d][i]
  }

  lemma AllPruned(s: Space, t: Space, p: Pdes, q: Pdes, d: nat, a: nat, b: nat, n: nat)
    requires EmptiedTo(s, t, d, a, b, n) && PrunedTo(p, q, d, a, b, n) && b <= n * 1024
    ensures Pruned(p, q, d, a, b)
    ensures forall x, y: nat :: Entry(t, x, y) == if x == d && Under(y / 1024, a, b) then Zero else Entry(s, x, y)
  {
    hide Entry;
    assert forall i: nat :: Under(i, a, b) ==> i < n;
  }

  lemma NonePruned(s: Space, p: Pdes, d: nat, a: nat, b: nat)
    requires d in p
    ensures EmptiedTo(s, s, d, a, b, a / 1024) && PrunedTo(p, p, d, a, b, a / 1024)
  {
  }

  lemma OnePruned(p: Pdes, q: Pdes, d: nat, a: nat, b: nat, n: nat)
    requires PrunedTo(p, q, d, a, b, n) && Under(n, a, b)
    ensures PrunedTo(p, DropTable(q, d, n), d, a, b, n + 1)
    ensures n !in q[d] ==> PrunedTo(p, q, d, a, b, n + 1)
  {
  }

  lemma OneEmptied(s: Space, t: Space, u: Space, d: nat, a: nat, b: nat, n: nat)
    requires EmptiedTo(s, t, d, a, b, n) && Under(n, a, b) && Emptied(t, u, d, n)
    ensures EmptiedTo(s, u, d, a, b, n + 1)
  {
    hide Entry;
  }

  lemma WithoutKeys(sp: Space, d: nat, i: nat)
    requires d in sp
    ensures WithoutTable(sp, d, i).Keys == sp.Keys
  {
  }

  lemma PlacedAt(sp: Space, pde: Pdes, tables: set<nat>, d: nat)
    requires Placed(sp, pde, tables) && d in sp
    ensures pde.Keys == sp.Keys && pde[d].Keys == sp[d].Keys
  {
  }

  lemma NoTable(sp: Space, d: nat, i: nat)
    requires d in sp && i !in sp[d]
    ensures Emptied(sp, sp, d, i)
  {
  }

  lemma StillNone(s: Space, t: Space, d: nat, a: nat, b: nat, n: nat)
    requires EmptiedTo(s, t, d, a, b, n) && NonePresent(s, d, n)
    ensures NonePresent(t, d, n)
  {
    hide Entry;
  }

  /** Directory d is gone with all its entries, and no others. */
  ghost predicate DirEmptied(s: Space, t: Space, d: nat) {
    forall x, y: nat :: Entry(t, x, y) == if x == d then Zero else Entry(s, x, y)
  }

  lemma UsersNone(s: Space, t: Space, d: nat, p: nat)
    requires DirEmptied(s, t, d) && forall y: nat :: !Entry(s, d, y).Present?
    ensures Users(t, p) == Users(s, p)
  {
    hide Entry, Users;
    SameMaps(s, t, p);
  }

  lemma DirUnplaced(s: Space, pde: Pdes, tables: set<nat>, d: nat)
    requires Placed(s, pde, tables) && d in s
    ensures d in pde && d in tables && Placed(s - {d}, pde - {d}, tables - {d})
  {
  }

  lemma DirLeads(pde: Pdes, d: nat, p: nat)
    requires d in pde
    ensures Leads(pde, p) <==> Leads(pde - {d}, p) || p == d || p in pde[d].Values
  {
    var q := pde - {d};
    if Leads(pde, p) && p !in pde {
      var x, j :| x in pde && j in pde[x] && pde[x][j] == p;
      assert x != d ==> q[x][j] == p;
    }
    if Leads(q, p) && p !in q {
      var x, j :| x in q && j in q[x] && q[x][j] == p;
      assert pde[x][j] == p;
    }
    if p in pde[d].Values {
      var j :| j in pde[d] && pde[d][j] == p;
    }
  }

  /** The tables of a directory do not go with it. */
  lemma DirStray(s: Space, pde: Pdes, tables: set<nat>, d: nat)
    requires Placed(s, pde, tables) && d in pde
    ensures Stray(pde - {d}, tables - {d}) == Stray(pde, tables) + pde[d].Values
  {
    hide Leads, Rows;
    forall p: nat ensures Leads(pde, p) <==> Leads(pde - {d}, p) || p == d || p in pde[d].Values {
      DirLeads(pde, d, p);
    }
    forall p | p in pde[d].Values ensures p in tables && p != d && !Leads(pde - {d}, p) {
      var j :| j in pde[d] && pde[d][j] == p;
      OnlyThere(pde, d, j);
    }
  }

  lemma OnlyThere(pde: Pdes, d: nat, j: nat)
    requires Unshared(pde) && d in pde && j in pde[d] && pde[d][j] !in pde
    ensures !Leads(pde - {d}, pde[d][j])
  {
  }

  /** All that giving back a directory changes. */
  lemma DirGone(sp: Space, ref: map<nat, int>, free: set<nat>, tables: set<nat>, pde: Pdes, d: nat)
    requires Shaped(sp) && Counted(sp, ref, free, tables) && Placed(sp, pde, tables) && d in sp
    requires forall y: nat :: !Entry(sp, d, y).Present?
    ensures d in pde && d in ref && d !in free && d in tables
    ensures Shaped(sp - {d}) && DirEmptied(sp, sp - {d}, d)
    ensures Counted(sp - {d}, ref[d := 0], free + {d}, tables - {d}) && Placed(sp - {d}, pde - {d}, tables - {d})
    ensures Leaks(sp - {d}, ref[d := 0], free + {d}, tables - {d}) + Stray(pde - {d}, tables - {d})
            == Leaks(sp, ref, free, tables) + Stray(pde, tables) + pde[d].Values
  {
    hide Users, Counted, Leaks, Stray, Placed, Unshared, Rows;
    DirUnplaced(sp, pde, tables, d);
    DirStray(sp, pde, tables, d);
    var t := sp - {d};
    assert DirEmptied(sp, t, d);
    forall p: nat ensures Users(t, p) == Users(sp, p) {
      UsersNone(sp, t, d, p);
    }
    TableFreed(sp, t, ref, free, tables, d);
  }

  lemma NoEntry(sp: Space, d: nat, v: nat)
    requires d in sp && v / 1024 !in sp[d]
    ensures Entry(sp, d, v) == Zero
  {
  }

  lemma OneEntryAfter(s: Space, t: Space, u: Space, d: nat, v: nat, e: Pte)
    requires SameEntries(s, t) && OneEntry(t, u, d, v, e)
    ensures OneEntry(s, u, d, v, e)
  {
    hide Entry;
  }

  lemma AtEntry(sp: Space, d: nat, v: nat)
    requires Shaped(sp) && d in sp && v / 1024 in sp[d]
    ensures |sp[d][v / 1024]| == NPTE && Entry(sp, d, v) == sp[d][v / 1024][v % 1024]
  {
  }

  /** A present entry for v in d, and no other, is gone. */
  ghost predicate Removed(s: Space, t: Space, d: nat, v: nat) {
    if Entry(s, d, v).Present? then OneEntry(s, t, d, v, Zero) else t == s
  }

  ghost function Freed(s: Space, free: set<nat>, d: nat, v: nat): set<nat> {
    if Entry(s, d, v).Present? && |Users(s, Entry(s, d, v).page)| == 1 then free + {Entry(s, d, v).page} else free
  }

  lemma RemoveCounted(sp: Space, ref: map<nat, int>, free: set<nat>, tables: set<nat>, d: nat, v: nat)
    requires Shaped(sp) && Counted(sp, ref, free, tables) && d in sp && v < NPAGES && v / 1024 in sp[d]
    requires Entry(sp, d, v).Present?
    ensures |sp[d][v / 1024]| == NPTE
    ensures var p := Entry(sp, d, v).page;
            && p in ref && p !in free && p !in tables && ref[p] == |Users(sp, p)| > 0
            && Counted(SetEntry(sp, d, v, Zero), ref[p := ref[p] - 1], if ref[p] == 1 then free + {p} else free, tables)
            && Leaks(SetEntry(sp, d, v, Zero), ref[p := ref[p] - 1], if ref[p] == 1 then free + {p} else free, tables)
               == Leaks(sp, ref, free, tables)
  {
    hide Entry, Users, Counted, Leaks, SetEntry;
    AtEntry(sp, d, v);
    var p, t := Entry(sp, d, v).page, SetEntry(sp, d, v, Zero);
    SetOne(sp, d, v, Zero);
    IsUser(sp, p, d, v);
    forall q: nat ensures Users(t, q) == if q == p then Users(sp, q) - {(d, v)} else Users(sp, q) {
      UsersChange(sp, t, d, v, Zero, q);
      IsUser(sp, q, d, v);
    }
    FewerUsers(sp, t, ref, free, tables, p, (d, v));
  }

  lemma FewerUsers(s: Space, t: Space, ref: map<nat, int>, free: set<nat>, tables: set<nat>, p: nat, user: (nat, nat))
    requires Counted(s, ref, free, tables) && user in Users(s, p)
    requires forall q: nat :: Users(t, q) == if q == p then Users(s, q) - {user} else Users(s, q)
    ensures p in ref && p !in free && p !in tables && ref[p] == |Users(s, p)| > 0
    ensures var f := if ref[p] == 1 then free + {p} else free;
            && Counted(t, ref[p := ref[p] - 1], f, tables)
            && Leaks(t, ref[p := ref[p] - 1], f, tables) == Leaks(s, ref, free, tables)
  {
    hide Users, Entry;
    assert |Users(t, p)| == |Users(s, p)| - 1;
    assert ref[p] == 1 ==> Users(t, p) == {};
    assert ref[p] != 1 ==> Users(t, p) != {};
  }

  ghost predicate InUse(ref: map<nat, int>, free: set<nat>, tables: set<nat>, page: nat) {
    page in ref && page !in free && page !in tables
  }

  /** One more mapping of a page in use, where there was none or one of the same page. */
  lemma InsertCounted(sp: Space, ref: map<nat, int>, free: set<nat>, tables: set<nat>, d: nat, v: nat, page: nat,
                      perm: bv32)
    requires Shaped(sp) && Counted(sp, ref, free, tables) && d in sp && v < NPAGES && v / 1024 in sp[d]
    requires InUse(ref, free, tables, page)
    requires Entry(sp, d, v).Present? ==> Entry(sp, d, v).page == page
    ensures |sp[d][v / 1024]| == NPTE
    ensures var r := ref[page := ref[page] + if Entry(sp, d, v).Present? then 0 else 1];
            && Counted(SetEntry(sp, d, v, Present(page, perm)), r, free, tables)
            && Leaks(SetEntry(sp, d, v, Present(page, perm)), r, free, tables) == Leaks(sp, ref, free, tables) - {page}
  {
    hide Entry, Users, SetEntry;
    AtEntry(sp, d, v);
    var e := Present(page, perm);
    var t := SetEntry(sp, d, v, e);
    SetOne(sp, d, v, e);
    forall q: nat ensures Users(t, q) == if q == page then Users(sp, q) + {(d, v)} else Users(sp, q) {
      UsersChange(sp, t, d, v, e, q);
      IsUser(sp, q, d, v);
    }
    IsUser(sp, page, d, v);
  }

  lemma SetEntryKeys(sp: Space, d: nat, v: nat, e: Pte)
    requires d in sp && v / 1024 in sp[d] && |sp[d][v / 1024]| == NPTE
    ensures SameTables(sp, SetEntry(sp, d, v, e), d, {}) && SetEntry(sp, d, v, e).Keys == sp.Keys
  {
  }

  /** All that page_remove_pte changes. */
  lemma RemoveDone(sp: Space, ref: map<nat, int>, free: set<nat>, tables: set<nat>, d: nat, v: nat)
    requires Shaped(sp) && Counted(sp, ref, free, tables) && d in sp && v < NPAGES && v / 1024 in sp[d]
    ensures |sp[d][v / 1024]| == NPTE
    ensures !Entry(sp, d, v).Present? ==>
              Removed(sp, sp, d, v) && Freed(sp, free, d, v) == free && SameTables(sp, sp, d, {})
    ensures Entry(sp, d, v).Present? ==>
      var p, t := Entry(sp, d, v).page, SetEntry(sp, d, v, Zero);
      && p in ref && p !in free && p !in tables && ref[p] > 0
      && var f := if ref[p] == 1 then free + {p} else free;
         && Counted(t, ref[p := ref[p] - 1], f, tables)
         && Leaks(t, ref[p := ref[p] - 1], f, tables) == Leaks(sp, ref, free, tables)
         && Shaped(t) && Removed(sp, t, d, v) && Freed(sp, free, d, v) == f && SameTables(sp, t, d, {})
         && t.Keys == sp.Keys
  {
    hide Entry, Users, Counted, Leaks, SetEntry, SameTables;
    AtEntry(sp, d, v);
    SameTablesNone(sp, d, 0);
    if Entry(sp, d, v).Present? {
      RemoveCounted(sp, ref, free, tables, d, v);
      SetOne(sp, d, v, Zero);
      SetEntryKeys(sp, d, v, Zero);
    }
  }

  /** All that the end of page_insert changes. */
  lemma InsertDone(sp: Space, ref: map<nat, int>, free: set<nat>, tables: set<nat>, d: nat, v: nat, page: nat,
                   perm: bv32)
    requires Shaped(sp) && Counted(sp, ref, free, tables) && d in sp && v < NPAGES && v / 1024 in sp[d]
    requires InUse(ref, free, tables, page)
    requires Entry(sp, d, v).Present? ==> Entry(sp, d, v).page == page
    ensures |sp[d][v / 1024]| == NPTE
    ensures var t, r := SetEntry(sp, d, v, Present(page, perm)),
              ref[page := ref[page] + if Entry(sp, d, v).Present? then 0 else 1];
            && Counted(t, r, free, tables) && Leaks(t, r, free, tables) == Leaks(sp, ref, free, tables) - {page}
            && Shaped(t) && OneEntry(sp, t, d, v, Present(page, perm)) && SameTables(sp, t, d, {}) && t.Keys == sp.Keys
  {
    hide Entry, Users, Counted, Leaks, SetEntry, SameTables, OneEntry;
    AtEntry(sp, d, v);
    InsertCounted(sp, ref, free, tables, d, v, page, perm);
    SetOne(sp, d, v, Present(page, perm));
    SetEntryKeys(sp, d, v, Present(page, perm));
  }

  /** The pages that are free and were not before are those that have lost their last mapping. */
  ghost predicate NewlyFree(s: Space, free: set<nat>, t: Space, free': set<nat>) {
    forall p: nat :: p in free' && p !in free <==> Users(s, p) != {} && Users(t, p) == {}
  }

  lemma SameUsers(s: Space, t: Space)
    requires SameEntries(s, t)
    ensures forall p: nat :: Users(t, p) == Users(s, p)
  {
    forall p: nat ensures Users(t, p) == Users(s, p) {
      UsersSame(s, t, p);
    }
  }

  lemma Unused(sp: Space, ref: map<nat, int>, free: set<nat>, tables: set<nat>)
    requires Counted(sp, ref, free, tables)
    ensures forall p: nat :: p in free ==> Users(sp, p) == {}
  {
  }

  /** All entries but that of v in d are the same. */
  ghost predicate ElseSame(s: Space, t: Space, d: nat, v: nat) {
    forall x, y: nat :: (x != d || y != v) ==> Entry(t, x, y) == Entry(s, x, y)
  }

  lemma PutOver(s: Space, t: Space, u: Space, w: Space, d: nat, v: nat, e: Pte)
    requires SameEntries(s, t) && ElseSame(t, u, d, v) && OneEntry(u, w, d, v, e)
    ensures OneEntry(s, w, d, v, e) && OneEntry(t, w, d, v, e)
  {
    hide Entry;
    forall x, y: nat | x != d || y != v ensures Entry(w, x, y) == Entry(s, x, y) == Entry(t, x, y) {
      assert Entry(u, x, y) == Entry(t, x, y);
    }
  }

  lemma NoneFreed(s: Space, free: set<nat>, t: Space, free': set<nat>)
    requires free' == free && forall p: nat :: Users(t, p) == Users(s, p)
    ensures NewlyFree(s, free, t, free')
  {
  }

  lemma UsersPut(t: Space, w: Space, d: nat, v: nat, page: nat, perm: bv32, p: nat)
    requires v < NPAGES && OneEntry(t, w, d, v, Present(page, perm))
    ensures Users(w, p) == (if p == page then Users(t, p) + {(d, v)} else Users(t, p) - {(d, v)})
    ensures (d, v) in Users(t, p) <==> Maps(t, d, v, p)
  {
    hide Entry, Users, OneEntry;
    UsersChange(t, w, d, v, Present(page, perm), p);
    IsUser(t, p, d, v);
  }

  /** The free pages when page has been mapped at v of d. */
  ghost function AfterPut(t: Space, g: set<nat>, d: nat, v: nat, page: nat): set<nat> {
    if Entry(t, d, v).Present? && Entry(t, d, v).page != page then Freed(t, g, d, v) else g
  }

  lemma ReplacedAt(t: Space, f: set<nat>, g: set<nat>, w: Space, d: nat, v: nat, page: nat, perm: bv32, p: nat)
    requires v < NPAGES && OneEntry(t, w, d, v, Present(page, perm)) && (p in f ==> Users(t, p) == {}) && g <= f
    ensures p in AfterPut(t, g, d, v, page) && p !in f <==> Users(t, p) != {} && Users(w, p) == {}
  {
    hide Entry, Users, OneEntry;
    UsersPut(t, w, d, v, page, perm, p);
    LastOne(Users(t, p), (d, v));
  }

  /** Writing an entry over another takes the last mapping of at most the page that was there. */
  lemma Replaced(s: Space, f: set<nat>, t: Space, g: set<nat>, w: Space, d: nat, v: nat, page: nat, perm: bv32)
    requires (forall p: nat :: Users(t, p) == Users(s, p)) && (forall p: nat :: p in f ==> Users(s, p) == {}) && g <= f
    requires v < NPAGES
    requires OneEntry(t, w, d, v, Present(page, perm))
    ensures NewlyFree(s, f, w, AfterPut(t, g, d, v, page))
  {
    hide Entry, Users, OneEntry, AfterPut;
    forall p: nat ensures p in AfterPut(t, g, d, v, page) && p !in f <==> Users(s, p) != {} && Users(w, p) == {} {
      ReplacedAt(t, f, g, w, d, v, page, perm, p);
    }
  }

  lemma LastOne(users: set<(nat, nat)>, u: (nat, nat))
    ensures users - {u} == {} <==> users == {} || users == {u}
    ensures u in users ==> (|users| == 1 <==> users == {u})
  {
    if u in users && |users| == 1 {
      assert |users - {u}| == 0;
    }
  }

  // ---------- ranges ----------

  /** The present entries of d in [a, b) are gone, and nothing else has changed. */
  ghost predicate Unmapped(s: Space, t: Space, d: nat, a: nat, b: nat) {
    forall x, y: nat :: Entry(t, x, y) == if x == d && a <= y < b && Entry(s, x, y).Present? then Zero
        else Entry(s, x, y)
  }

  /** The pages that have lost their last mapping are free now, with those that were before. */
  ghost predicate FreedLast(s: Space, free: set<nat>, t: Space, free': set<nat>) {
    forall p: nat :: p in free' <==> p in free || (Users(s, p) != {} && Users(t, p) == {})
  }

  lemma UnmapNone(s: Space, free: set<nat>, d: nat, a: nat)
    ensures Unmapped(s, s, d, a, a) && FreedLast(s, free, s, free)
  {
  }

  lemma UnmapEnd(s: Space, t: Space, d: nat, a: nat, b: nat, v: nat)
    requires Unmapped(s, t, d, a, v) && a <= b <= v && forall y: nat :: b <= y < v ==> !Entry(s, d, y).Present?
    ensures Unmapped(s, t, d, a, b)
  {
    forall x, y: nat
        ensures Entry(t, x, y) == if x == d && a <= y < b && Entry(s, x, y).Present? then Zero else Entry(s, x, y) {
      assert Entry(t, x, y) == if x == d && a <= y < v && Entry(s, x, y).Present? then Zero else Entry(s, x, y);
    }
  }

  /** There is nothing to unmap where there is no table. */
  lemma UnmapSkip(s: Space, t: Space, d: nat, a: nat, v: nat)
    requires Unmapped(s, t, d, a, v) && a <= v && d in t && v / 1024 !in t[d]
    ensures Unmapped(s, t, d, a, (v / 1024 + 1) * 1024) && v < (v / 1024 + 1) * 1024
    ensures forall y: nat :: v <= y < (v / 1024 + 1) * 1024 ==> !Entry(s, d, y).Present?
  {
    forall y: nat | v <= y < (v / 1024 + 1) * 1024 ensures Entry(t, d, y) == Zero == Entry(s, d, y) {
      assert y / 1024 == v / 1024;
    }
  }

  lemma UnmapStep(s: Space, t: Space, u: Space, d: nat, a: nat, v: nat)
    requires Unmapped(s, t, d, a, v) && a <= v && Removed(t, u, d, v)
    ensures Unmapped(s, u, d, a, v + 1)
  {
    forall x, y: nat
        ensures Entry(u, x, y) == if x == d && a <= y < v + 1 && Entry(s, x, y).Present? then Zero else Entry(s, x, y) {
      assert Entry(t, x, y) == if x == d && a <= y < v && Entry(s, x, y).Present? then Zero else Entry(s, x, y);
    }
  }

  lemma FreedStep(s: Space, free: set<nat>, t: Space, free': set<nat>, u: Space, d: nat, v: nat)
    requires FreedLast(s, free, t, free') && Removed(t, u, d, v) && v < NPAGES
    requires forall p: nat :: Users(t, p) <= Users(s, p)
    ensures FreedLast(s, free, u, Freed(t, free', d, v)) && forall p: nat :: Users(u, p) <= Users(s, p)
  {
    hide Entry, Users;
    if Entry(t, d, v).Present? {
      forall p: nat
          ensures Users(u, p) == Users(t, p) - {(d, v)} && ((d, v) in Users(t, p) <==> p == Entry(t, d, v).page) {
        UsersChange(t, u, d, v, Zero, p);
        IsUser(t, p, d, v);
      }
      var q := Entry(t, d, v).page;
      assert |Users(u, q)| == |Users(t, q)| - 1;
      forall p: nat | p != q ensures Users(u, p) == Users(t, p) {
      }
    }
  }

  // ---------- copying an address space ----------

  datatype Ret = Ok | NoMem | Panic

  /** A page that the parent has mapped is in use. */
  lemma Parent(sp: Space, ref: map<nat, int>, free: set<nat>, tables: set<nat>, d: nat, v: nat)
    requires Counted(sp, ref, free, tables) && v < NPAGES && Entry(sp, d, v).Present?
    ensures InUse(ref, free, tables, Entry(sp, d, v).page)
  {
    IsUser(sp, Entry(sp, d, v).page, d, v);
  }


  /** What copying starts from, and what it has come to. */
  datatype Memory = Memory(space: Space, free: set<nat>, content: map<nat, Content>)

  ghost predicate FreeUnused(m: Memory) {
    forall p: nat :: p in m.free ==> Users(m.space, p) == {}
  }

  /** q is present, is writable and open to the user as p is, and has no other flags. */
  ghost predicate SameRights(p: bv32, q: bv32) {
    q & 1 == 1 && q & 2 == p & 2 && q & 4 == p & 4 && q & 0xFFFF_FFF8 == 0
  }

  lemma CopyRights(perm: bv32)
    ensures SameRights(perm, PTE_P | (perm & PTE_USER))
  {
    var q: bv32 := 1 | (perm & 7);
    assert q & 1 == 1 && q & 2 == perm & 2 && q & 4 == perm & 4 && q & 0xFFFF_FFF8 == 0;
  }

  /** So a mapping with only these flags is copied with its flags. */
  lemma RightsEqual(p: bv32, q: bv32)
    requires SameRights(p, q) && p & 1 == 1 && p & 0xFFFF_FFF8 == 0
    ensures q == p
  {
  }

  /** The entry of the child at v is a mapping of a page of its own with what the parent has there, or as it was. */
  ghost predicate CopiedAt(m: Memory, n: Memory, to: nat, from: nat, v: nat) {
    var e, f := Entry(m.space, from, v), Entry(n.space, to, v);
    if e.Present? then
      && f.Present? && SameRights(e.perm, f.perm) && f.page in m.free && Users(n.space, f.page) == {(to, v)}
      && e.page in m.content && f.page in n.content && n.content[f.page] == m.content[e.page]
    else f == Entry(m.space, to, v)
  }

  /** Pages from a to b have been copied, and nothing else has changed in any address space. */
  ghost predicate Copied(m: Memory, n: Memory, to: nat, from: nat, a: nat, b: nat) {
    && (forall x, y: nat :: (x != to || !(a <= y < b)) ==> Entry(n.space, x, y) == Entry(m.space, x, y))
    && (forall v: nat :: a <= v < b ==> CopiedAt(m, n, to, from, v))
    && KeptContent(m.content, n.content, m.free) && n.free <= m.free
  }

  lemma CopySkip(m: Memory, n: Memory, to: nat, from: nat, a: nat, v: nat, w: nat)
    requires Copied(m, n, to, from, a, v) && a <= v <= w
    requires forall y: nat :: v <= y < w ==> !Entry(m.space, from, y).Present?
    ensures Copied(m, n, to, from, a, w)
  {
    forall y: nat | a <= y < w ensures CopiedAt(m, n, to, from, y) {
    }
  }

  /** The state after the page of the parent at v, p, has been copied to q and q mapped in the child. */
  ghost predicate CopyStep(n: Memory, o: Memory, to: nat, from: nat, v: nat, q: nat) {
    && Entry(n.space, from, v).Present? && q in n.free && q !in o.free && o.free <= n.free
    && OneEntry(n.space, o.space, to, v, Present(q, PTE_P | (Entry(n.space, from, v).perm & PTE_USER)))
    && Entry(n.space, from, v).page in n.content && q in o.content
    && o.content[q] == n.content[Entry(n.space, from, v).page]
    && KeptContent(n.content, o.content, n.free)
  }

  lemma SameAt(s: Space, t: Space, d: nat, v: nat)
    requires SameEntries(s, t)
    ensures Entry(t, d, v) == Entry(s, d, v)
  {
  }

  lemma KeptAt(before: map<nat, Content>, after: map<nat, Content>, free: set<nat>, p: nat)
    requires KeptContent(before, after, free) && p in before && p !in free
    ensures p in after && after[p] == before[p]
  {
  }

  lemma CopyMade(m: Memory, k: Memory, o: Memory, to: nat, from: nat, v: nat, q: nat, e: Pte)
    requires e.Present? && Entry(m.space, from, v) == e && SameEntries(m.space, k.space)
    requires KeptContent(m.content, k.content, m.free)
    requires k.free <= m.free && q in m.free && q !in k.free && e.page in m.content && e.page !in m.free
    requires e.page in k.content
    requires OneEntry(k.space, o.space, to, v, Present(q, PTE_P | (e.perm & PTE_USER)))
    requires KeptContent(k.content[q := k.content[e.page]], o.content, k.free) && o.free <= k.free
    ensures CopyStep(m, o, to, from, v, q)
  {
    hide Entry;
    assert k.content[e.page] == m.content[e.page];
    assert k.content[q := k.content[e.page]][q] == k.content[e.page];
  }

  lemma CopyNone(m: Memory, to: nat, from: nat, a: nat)
    ensures Copied(m, m, to, from, a, a)
  {
  }

  /** What is not copied yet is as it was. */
  lemma Uncopied(m: Memory, n: Memory, to: nat, from: nat, a: nat, v: nat)
    requires Copied(m, n, to, from, a, v) && to != from && a <= v
    ensures forall y: nat :: Entry(n.space, from, y) == Entry(m.space, from, y)
    ensures forall y: nat :: v <= y ==> Entry(n.space, to, y) == Entry(m.space, to, y)
  {
  }

  lemma SkipTable(m: Memory, n: Memory, to: nat, from: nat, a: nat, b: nat, v: nat)
    requires Copied(m, n, to, from, a, v) && to != from && a <= v < b && from in n.space && v / 1024 !in n.space[from]
    ensures var w := (v / 1024 + 1) * 1024; v < w && Copied(m, n, to, from, a, if w < b then w else b)
    ensures forall y: nat :: v <= y < (v / 1024 + 1) * 1024 ==> !Entry(m.space, from, y).Present?
  {
    var w := (v / 1024 + 1) * 1024;
    forall y: nat | v <= y < w ensures !Entry(m.space, from, y).Present? {
      assert y / 1024 == v / 1024;
      assert Entry(n.space, from, y) == Entry(m.space, from, y);
    }
    CopySkip(m, n, to, from, a, v, if w < b then w else b);
  }

  lemma ValidFree(sp: Space, ref: map<nat, int>, free: set<nat>, tables: set<nat>, content: map<nat, Content>)
    requires Counted(sp, ref, free, tables) && content.Keys == ref.Keys
    ensures FreeUnused(Memory(sp, free, content))
    ensures forall d, v: nat :: v < NPAGES && Entry(sp, d, v).Present? ==> Entry(sp, d, v).page in content
  {
    forall d: nat, v: nat | v < NPAGES && Entry(sp, d, v).Present? ensures Entry(sp, d, v).page in content {
      Parent(sp, ref, free, tables, d, v);
    }
  }

  /** A failure changes no mapping. */
  lemma CopyFails(m: Memory, n: Memory, o: Memory, to: nat, from: nat, a: nat, v: nat)
    requires Copied(m, n, to, from, a, v) && SameEntries(n.space, o.space) && o.free == {}
    requires KeptContent(n.content, o.content, n.free)
    requires FreeUnused(n)
    ensures Copied(m, o, to, from, a, v)
  {
    hide Entry, Users;
    forall y: nat | a <= y < v ensures CopiedAt(m, o, to, from, y) {
      assert CopiedAt(m, n, to, from, y);
      var f := Entry(n.space, to, y);
      if f.Present? { UsersSame(n.space, o.space, f.page); }
    }
  }

  lemma CopyKeepsAt(m: Memory, n: Memory, o: Memory, to: nat, from: nat, a: nat, v: nat, q: nat, y: nat)
    requires Copied(m, n, to, from, a, v) && CopyStep(n, o, to, from, v, q) && to != from && a <= y < v < NPAGES
    requires FreeUnused(n)
    ensures CopiedAt(m, o, to, from, y)
  {
    hide Entry, Users, SameRights;
    assert CopiedAt(m, n, to, from, y);
    var e := Present(q, PTE_P | (Entry(n.space, from, v).perm & PTE_USER));
    var f := Entry(n.space, to, y);
    if Entry(m.space, from, y).Present? {
      UsersChange(n.space, o.space, to, v, e, f.page);
      assert f.page !in n.free;
    }
  }

  lemma CopyAt(m: Memory, n: Memory, o: Memory, to: nat, from: nat, a: nat, v: nat, q: nat)
    requires Copied(m, n, to, from, a, v) && CopyStep(n, o, to, from, v, q) && to != from && a <= v < NPAGES
    requires FreeUnused(m) && FreeUnused(n)
    requires Entry(m.space, from, v).Present? ==> Entry(m.space, from, v).page in m.content
    ensures CopiedAt(m, o, to, from, v)
  {
    hide Entry, Users, SameRights;
    var g := Entry(n.space, from, v);
    assert g == Entry(m.space, from, v);
    CopyRights(g.perm);
    var e := Present(q, PTE_P | (g.perm & PTE_USER));
    UsersChange(n.space, o.space, to, v, e, q);
    IsUser(m.space, g.page, from, v);
    assert g.page !in m.free;
  }

  lemma CopyMore(m: Memory, n: Memory, o: Memory, to: nat, from: nat, a: nat, v: nat, q: nat)
    requires Copied(m, n, to, from, a, v) && CopyStep(n, o, to, from, v, q) && to != from && a <= v < NPAGES
    requires FreeUnused(m) && FreeUnused(n)
    requires Entry(m.space, from, v).Present? ==> Entry(m.space, from, v).page in m.content
    ensures Copied(m, o, to, from, a, v + 1)
  {
    hide Entry, Users;
    forall y: nat | a <= y < v + 1 ensures CopiedAt(m, o, to, from, y) {
      if y < v {
        CopyKeepsAt(m, n, o, to, from, a, v, q, y);
      } else {
        CopyAt(m, n, o, to, from, a, v, q);
      }
    }
  }

  // ---------- what copying costs ----------

  /** The pages that a directory maps in [a, b). */
  ghost function Pages(sp: Space, d: nat, a: nat, b: nat): set<nat> {
    set v: nat | a <= v < b && Entry(sp, d, v).Present?
  }

  /** The places of the tables that pages need. */
  ghost function Groups(pages: set<nat>): set<nat> {
    set v | v in pages :: v / 1024
  }

  /** The tables that the child has when the pages of the parent from a to b have been copied. */
  ghost function TablesFor(sp: Space, to: nat, from: nat, a: nat, b: nat): set<nat>
    requires to in sp
  {
    sp[to].Keys + Groups(Pages(sp, from, a, b))
  }

  /** The free pages it takes to copy [a, b): one for each page of the parent and one for each table the child lacks. */
  ghost function Needed(sp: Space, to: nat, from: nat, a: nat, b: nat): nat
    requires to in sp
  {
    |Pages(sp, from, a, b)| + |Groups(Pages(sp, from, a, b)) - sp[to].Keys|
  }

  /** Directory d may have got tables under [a, b), and there are no others that were not there before. */
  ghost predicate MoreTables(s: Space, t: Space, d: nat, a: nat, b: nat) {
    && d in s && t.Keys == s.Keys && (forall x :: x in s && x != d ==> t[x].Keys == s[x].Keys)
    && forall i :: i in t[d] ==> i in s[d] || Under(i, a, b)
  }

  lemma MoreNone(s: Space, d: nat, a: nat, b: nat)
    requires d in s
    ensures MoreTables(s, s, d, a, b)
  {
  }

  lemma MoreKeys(s: Space, t: Space, d: nat, a: nat, b: nat)
    requires MoreTables(s, t, d, a, b)
    ensures t.Keys == s.Keys
  {
  }

  lemma MoreStep(s: Space, t: Space, u: Space, d: nat, a: nat, b: nat, v: nat, i: set<nat>)
    requires MoreTables(s, t, d, a, b) && SameTables(t, u, d, i) && a <= v < b && i <= {v / 1024}
    ensures MoreTables(s, u, d, a, b)
  {
    assert Under(v / 1024, a, b);
  }

  lemma NeededNone(sp: Space, to: nat, from: nat, a: nat)
    requires to in sp
    ensures Needed(sp, to, from, a, a) == 0 && TablesFor(sp, to, from, a, a) == sp[to].Keys
  {
    assert Pages(sp, from, a, a) == {};
    assert Groups({}) == {};
  }

  lemma NeededSkip(sp: Space, to: nat, from: nat, a: nat, v: nat, w: nat)
    requires to in sp && a <= v <= w && forall y: nat :: v <= y < w ==> !Entry(sp, from, y).Present?
    ensures Needed(sp, to, from, a, w) == Needed(sp, to, from, a, v)
    ensures TablesFor(sp, to, from, a, w) == TablesFor(sp, to, from, a, v)
  {
    assert Pages(sp, from, a, w) == Pages(sp, from, a, v);
  }

  lemma NeededNext(sp: Space, to: nat, from: nat, a: nat, v: nat)
    requires to in sp && a <= v && Entry(sp, from, v).Present?
    ensures Needed(sp, to, from, a, v + 1) ==
              Needed(sp, to, from, a, v) + if v / 1024 in TablesFor(sp, to, from, a, v) then 1 else 2
    ensures TablesFor(sp, to, from, a, v + 1) == TablesFor(sp, to, from, a, v) + {v / 1024}
  {
    hide Entry, Pages, Groups;
    PagesNext(sp, from, a, v);
    GroupsNext(Pages(sp, from, a, v), v);
    OneMoreNeeded(Pages(sp, from, a, v), v, Groups(Pages(sp, from, a, v)), sp[to].Keys, v / 1024);
  }

  lemma PagesNext(sp: Space, d: nat, a: nat, v: nat)
    requires a <= v && Entry(sp, d, v).Present?
    ensures Pages(sp, d, a, v + 1) == Pages(sp, d, a, v) + {v} && v !in Pages(sp, d, a, v)
  {
    hide Entry;
  }

  lemma GroupsNext(p: set<nat>, v: nat)
    ensures Groups(p + {v}) == Groups(p) + {v / 1024}
  {
    var q := p + {v};
    forall i | i in Groups(p) ensures i in Groups(q) {
      var x :| x in p && x / 1024 == i;
      assert x in q;
    }
    assert v in q;
  }

  lemma OneMoreNeeded(p: set<nat>, v: nat, g: set<nat>, t: set<nat>, i: nat)
    requires v !in p
    ensures |p + {v}| == |p| + 1 && |(g + {i}) - t| == |g - t| + if i in t + g then 0 else 1
    ensures t + (g + {i}) == t + g + {i}
  {
    assert (g + {i}) - t == if i in t + g then g - t else (g - t) + {i};
  }

  lemma {:induction false} NeededMore(sp: Space, to: nat, from: nat, a: nat, v: nat, w: nat)
    requires to in sp && a <= v <= w
    ensures Needed(sp, to, from, a, v) <= Needed(sp, to, from, a, w)
    decreases w - v
  {
    hide Entry, Needed, TablesFor;
    if v < w {
      if Entry(sp, from, w - 1).Present? {
        NeededNext(sp, to, from, a, w - 1);
      } else {
        NeededSkip(sp, to, from, a, w - 1, w);
      }
      NeededMore(sp, to, from, a, v, w - 1);
    }
  }

  /** The first page of [a, b) for which not enough pages are free is v, and ret is how its copy ends: without a page
      for its table copy_range returns, and without a page of its own an assertion fails. */
  ghost predicate StopsAt(m: Memory, to: nat, from: nat, a: nat, v: nat, ret: Ret)
    requires to in m.space
  {
    && Entry(m.space, from, v).Present?
    && Needed(m.space, to, from, a, v) <= |m.free| < Needed(m.space, to, from, a, v + 1)
    && ret == if Needed(m.space, to, from, a, v) == |m.free| && v / 1024 !in TablesFor(m.space, to, from, a, v)
          then NoMem else Panic
  }

  lemma StopsShort(m: Memory, to: nat, from: nat, a: nat, v: nat, ret: Ret)
    requires to in m.space && StopsAt(m, to, from, a, v, ret)
    ensures |m.free| < Needed(m.space, to, from, a, v + 1)
  {
  }

  lemma CopyStops(m: Memory, n: Memory, to: nat, from: nat, a: nat, v: nat, ret: Ret)
    requires to in m.space && a <= v && Entry(m.space, from, v).Present?
    requires |n.free| == |m.free| - Needed(m.space, to, from, a, v)
    requires var t := v / 1024 in TablesFor(m.space, to, from, a, v);
             && (ret == if !t && n.free == {} then NoMem else if |n.free| < (if t then 1 else 2) then Panic else Ok)
             && !ret.Ok?
    ensures StopsAt(m, to, from, a, v, ret)
  {
    hide Needed, TablesFor, Entry;
    NeededNext(m.space, to, from, a, v);
  }

  class Mmu {
    var space: Space
    var ref: map<nat, int>
    var free: set<nat>
    var content: map<nat, Content>
    /** The addresses in the directory entries. */
    var pde: Pdes
    ghost var tables: set<nat>

    /** All pages free, and no address spaces. */
    constructor (pages: set<nat>)
      ensures Valid() && space == map[] && free == pages == ref.Keys && Lost() == {}
    {
      space := map[];
      ref := map p: nat | p in pages :: 0;
      free := pages;
      content := map p: nat | p in pages :: [];
      pde := map[];
      tables := {};
    }

    ghost predicate Valid()
      reads this
    {
      && Shaped(space) && Counted(space, ref, free, tables) && content.Keys == ref.Keys
      && Placed(space, pde, tables)
    }

    /** The pages that are neither free nor used for anything that can still be reached. */
    ghost function Lost(): set<nat>
      reads `space, `ref, `free, `tables, `pde
    {
      Leaks(space, ref, free, tables) + Stray(pde, tables)
    }

    /** alloc_page, which takes some free page; -1 is the null page. */
    method AllocPage() returns (page: int)
      requires Valid()
      modifies `free
      ensures Valid() && (page == -1 <==> old(free) == {})
      ensures page != -1 ==>
                page >= 0 && page in old(free) && free == old(free) - {page} && InUse(ref, free, tables, page)
      ensures page != -1 ==> Users(space, page) == {} && |free| == |old(free)| - 1
      ensures page == -1 ==> free == old(free)
      ensures page == -1 ==> Lost() == old(Lost())
      ensures page != -1 ==> Lost() == old(Lost()) + {page} && page !in old(Lost())
    {
      hide Users, Leaks;
      if free == {} {
        return -1;
      }
      var p: nat :| p in free;
      TakenLeaks(space, ref, free, tables, p);
      page := p;
      free := free - {p};
    }

    /** setup_pgdir: a directory without user tables, in a page of its own; -1 when there is none. */
    method SetupPgdir() returns (d: int)
      requires Valid()
      modifies this
      ensures Valid() && (d == -1 <==> old(free) == {}) && Lost() == old(Lost()) && ref.Keys == old(ref.Keys)
      ensures SameEntries(old(space), space) && KeptContent(old(content), content, old(free))
      ensures d != -1 ==>
                d >= 0 && d in old(free) && d !in old(space) && space == old(space)[d := map[]]
                && free == old(free) - {d} && pde == old(pde)[d := map[]] && |free| == |old(free)| - 1
      ensures d == -1 ==> space == old(space) && free == old(free) && pde == old(pde)
    {
      hide Users, Entry, Leaks, Counted, Placed, Stray, Shaped, SameEntries, KeptContent;
      SameEntriesNone(space);
      KeptNone(content, free);
      ghost var f, lost := free, Lost();
      var page := AllocPage();
      if page == -1 {
        return -1;
      }
      KeptPut(content, f, page, []);
      DirDone(space, ref, free, tables, pde, page, lost);
      content := content[page := []];
      var dir: Dir, row: Row := map[], map[];
      space, pde := space[page := dir], pde[page := row];
      tables := tables + {page};
      d := page;
    }

    /** Page becomes the table at i of directory d, zeroed. */
    method Install(d: nat, i: nat, page: nat, ghost lost: set<nat>)
      requires Valid() && d in space && i !in space[d] && InUse(ref, free, tables, page) && Users(space, page) == {}
      requires Lost() == lost + {page} && page !in lost
      modifies `space, `ref, `content, `pde, `tables
      ensures Valid() && SameEntries(old(space), space) && space.Keys == old(space.Keys) && i in space[d]
      ensures SameTables(old(space), space, d, {i}) && ref.Keys == old(ref.Keys) && tables == old(tables) + {page}
      ensures page in old(content) && content == old(content)[page := []] && Lost() == lost
      ensures OneRow(old(pde), pde, d)
    {
      hide OneRow, Users, Entry, Leaks, Counted, Placed, Stray, Shaped, SameEntries, KeptContent, SameTables, PutTable,
        WithTable;
      TableDone(space, ref, free, tables, pde, d, i, page, lost);
      OneRowPut(pde, d, i, page);
      ref := ref[page := 1];
      content := content[page := []];
      space, pde := WithTable(space, d, i), PutTable(pde, d, i, page);
      tables := tables + {page};
    }

    /** A zeroed table in a page of its own; false when there is none. */
    method AddTable(d: nat, i: nat) returns (ok: bool)
      requires Valid() && d in space && i !in space[d]
      modifies this
      ensures Valid() && SameEntries(old(space), space) && space.Keys == old(space.Keys)
      ensures ok == (old(free) != {}) == (i in space[d])
      ensures !ok ==>
                space == old(space) && free == old(free) && content == old(content) && ref == old(ref)
                && tables == old(tables) && pde == old(pde)
      ensures free <= old(free) && KeptContent(old(content), content, old(free))
      ensures ref.Keys == old(ref.Keys) && tables <= old(tables) + old(free) && old(tables) <= tables
      ensures ok ==> SameTables(old(space), space, d, {i}) && |free| == |old(free)| - 1
      ensures Lost() == old(Lost()) && OneRow(old(pde), pde, d)
    {
      hide OneRow, Users, Entry, Leaks, Counted, Placed, Stray, Shaped, SameEntries, KeptContent, SameTables, Lost;
      SameEntriesNone(space);
      KeptNone(content, free);
      OneRowNone(pde, d);
      ghost var f, lost := free, Lost();
      var page := AllocPage();
      if page == -1 {
        return false;
      }
      ghost var c := content;
      Install(d, i, page, lost);
      KeptPut(c, f, page, []);
      ok := true;
    }

    /** get_pte: true when there is a table for the page, which create makes. */
    method GetPte(d: nat, v: nat, create: bool) returns (ok: bool)
      requires Valid() && d in space
      modifies this
      ensures Valid() && SameEntries(old(space), space) && space.Keys == old(space.Keys)
      ensures ok == (v / 1024 in old(space)[d] || (create && old(free) != {})) == (v / 1024 in space[d])
      ensures v / 1024 in old(space)[d] || !ok ==>
                space == old(space) && free == old(free) && content == old(content) && ref == old(ref)
                && tables == old(tables) && pde == old(pde)
      ensures free <= old(free) && KeptContent(old(content), content, old(free))
      ensures ref.Keys == old(ref.Keys) && tables <= old(tables) + old(free) && old(tables) <= tables
      ensures SameTables(old(space), space, d, if ok then {v / 1024} else {})
      ensures |free| == |old(free)| - if ok && v / 1024 !in old(space)[d] then 1 else 0
      ensures Lost() == old(Lost()) && OneRow(old(pde), pde, d)
    {
      hide OneRow, Users, Entry, SameTables, Counted, Placed, Stray, SameEntries, KeptContent, Shaped, Leaks;
      var i: nat := v / 1024;
      OneRowNone(pde, d);
      SameTablesNone(space, d, i);
      SameEntriesNone(space);
      KeptNone(content, free);
      if i in space[d] {
        return true;
      }
      if !create {
        return false;
      }
      ok := AddTable(d, i);
    }

    /** page_remove_pte: the page is freed when its last mapping goes. */
    method PageRemovePte(d: nat, v: nat)
      requires Valid() && d in space && v < NPAGES && v / 1024 in space[d]
      modifies `space, `ref, `free
      ensures Valid() && Removed(old(space), space, d, v) && SameTables(old(space), space, d, {})
      ensures free == Freed(old(space), old(free), d, v) && ref.Keys == old(ref.Keys) && Lost() == old(Lost())
    {
      hide Entry, Users, Leaks, Counted, Placed, Stray, Shaped, SameTables, Removed, Freed, OneEntry;
      AtEntry(space, d, v);
      var i: nat := v / 1024;
      var e := space[d][i][v % 1024];
      RemoveDone(space, ref, free, tables, d, v);
      ghost var s := space;
      if e.Present? {
        ref := ref[e.page := ref[e.page] - 1];
        if ref[e.page] == 0 {
          free := free + {e.page};
        }
        var dir: Dir := space[d][i := space[d][i][v % 1024 := Zero]];
        space := space[d := dir];
        PlacedSame(s, space, pde, tables, d);
      }
    }

    /** The end of page_insert: the entry is written, and the count of the page raised unless it was mapped there
        before. */
    method PutEntry(d: nat, v: nat, page: nat, perm: bv32)
      requires Valid() && d in space && v < NPAGES && v / 1024 in space[d] && InUse(ref, free, tables, page)
      requires Entry(space, d, v).Present? ==> Entry(space, d, v).page == page
      modifies `space, `ref
      ensures Valid() && OneEntry(old(space), space, d, v, Present(page, perm)) && SameTables(old(space), space, d, {})
      ensures ref.Keys == old(ref.Keys) && Lost() == old(Lost()) - {page}
    {
      hide Entry, Users, Leaks, Counted, Placed, Stray, Shaped, SameTables, OneEntry;
      AtEntry(space, d, v);
      InsertDone(space, ref, free, tables, d, v, page, perm);
      var i: nat := v / 1024;
      ghost var r := ref[page := ref[page] + if Entry(space, d, v).Present? then 0 else 1];
      ref := ref[page := ref[page] + 1];
      if space[d][i][v % 1024].Present? {
        ref := ref[page := ref[page] - 1];
      }
      assert ref == r;
      PlacedSame(space, SetEntry(space, d, v, Present(page, perm)), pde, tables, d);
      StrayIsTable(pde, tables, page);
      var dir: Dir := space[d][i := space[d][i][v % 1024 := Present(page, perm)]];
      space := space[d := dir];
    }

    /** The part of page_insert that unmaps another page from the place. */
    method ClearOther(d: nat, v: nat, page: nat)
      requires Valid() && d in space && v < NPAGES && v / 1024 in space[d] && InUse(ref, free, tables, page)
      modifies `space, `ref, `free
      ensures Valid() && InUse(ref, free, tables, page) && SameTables(old(space), space, d, {})
      ensures ref.Keys == old(ref.Keys)
      ensures ElseSame(old(space), space, d, v) && Lost() == old(Lost())
      ensures Entry(space, d, v).Present? ==> Entry(space, d, v).page == page
      ensures free == AfterPut(old(space), old(free), d, v, page)
    {
      hide Entry, Users, Counted, Placed, Stray, Leaks, Shaped, SameTables, Lost;
      AtEntry(space, d, v);
      SameTablesNone(space, d, 0);
      var i: nat := v / 1024;
      var e := space[d][i][v % 1024];
      if e.Present? {
        if e.page != page {
          PageRemovePte(d, v);
        }
      }
    }

    /** page_insert: false when there is no page for a table. Another page mapped at the place is unmapped; its count
        and that of the new page do not meet, so the order of the two does not matter. */
    method PageInsert(d: nat, page: nat, v: nat, perm: bv32) returns (ok: bool)
      requires Valid() && d in space && v < NPAGES && InUse(ref, free, tables, page)
      modifies this
      ensures Valid() && SameTables(old(space), space, d, if ok then {v / 1024} else {}) && ref.Keys == old(ref.Keys)
      ensures if ok then OneEntry(old(space), space, d, v, Present(page, PTE_P | perm))
                else SameEntries(old(space), space)
      ensures ok <==> v / 1024 in old(space)[d] || old(free) != {}
      ensures !Entry(old(space), d, v).Present? ==>
                free <= old(free) && (v / 1024 in old(space)[d] ==> free == old(free))
      ensures KeptContent(old(content), content, old(free)) && tables <= old(tables) + old(free)
      ensures NewlyFree(old(space), old(free), space, free)
      ensures if ok then Lost() == old(Lost()) - {page} else Lost() == old(Lost())
      ensures !ok ==> space == old(space) && free == old(free) && ref == old(ref) && tables == old(tables)
      ensures OneRow(old(pde), pde, d)
    {
      hide OneRow, Entry, Users, Counted, Placed, Stray, Leaks, Shaped, OneEntry, ElseSame, SameEntries, SameTables,
        KeptContent, Lost, Freed, NewlyFree;
      ghost var s, f := space, free;
      Unused(s, ref, f, tables);
      ok := GetPte(d, v, true);
      ghost var t, g := space, free;
      SameUsers(s, t);
      if !ok {
        NoneFreed(s, f, t, g);
        return;
      }
      SameAt(s, t, d, v);
      SameTablesAt(s, t, d, {v / 1024}, d);
      ClearOther(d, v, page);
      ghost var u := space;
      SameTablesAt(t, u, d, {}, d);
      PutEntry(d, v, page, PTE_P | perm);
      PutOver(s, t, u, space, d, v, Present(page, PTE_P | perm));
      SameTablesOn(s, t, u, d, {v / 1024});
      SameTablesOn(s, u, space, d, {v / 1024});
      Replaced(s, f, t, g, space, d, v, page, PTE_P | perm);
    }

    /** free_page, of a page that is not mapped. */
    method FreePage(page: nat)
      requires Valid() && InUse(ref, free, tables, page) && Users(space, page) == {}
      modifies `free
      ensures Valid() && free == old(free) + {page} && Lost() == old(Lost()) - {page}
    {
      hide Users;
      free := free + {page};
    }

    /** pgdir_alloc_page: a new page mapped at v; -1 when there is none for it or for its table, and then nothing
        changes. */
    method PgdirAllocPage(d: nat, v: nat, perm: bv32) returns (page: int)
      requires Valid() && d in space && v < NPAGES
      modifies this
      ensures Valid() && space.Keys == old(space.Keys) && ref.Keys == old(ref.Keys) && Lost() == old(Lost())
      ensures page == -1 <==> |old(free)| < if v / 1024 in old(space)[d] then 1 else 2
      ensures page == -1 ==> space == old(space) && free == old(free)
      ensures page != -1 ==> SameTables(old(space), space, d, {v / 1024})
      ensures page != -1 ==>
                page >= 0 && page in old(free) && OneEntry(old(space), space, d, v, Present(page, PTE_P | perm))
      ensures OneRow(old(pde), pde, d)
    {
      hide OneRow, Entry, Users, Counted, Placed, Stray, Leaks, Shaped, OneEntry, SameEntries, SameTables, KeptContent,
        Lost, NewlyFree;
      OneRowNone(pde, d);
      ghost var lost, f := Lost(), free;
      page := AllocPage();
      if page != -1 {
        GoneAgain(lost, page);
        ghost var s := space;
        var ok := PageInsert(d, page, v, perm);
        if !ok {
          FreePage(page);
          return -1;
        }
        SameTablesAt(s, space, d, {v / 1024}, d);
      }
    }

    /** unmap_range: from a page without a table it goes on to the next table. */
    method UnmapRange(d: nat, start: nat, end: nat)
      requires Valid() && d in space && start < end <= NPAGES
      modifies this
      ensures Valid() && SameTables(old(space), space, d, {}) && Unmapped(old(space), space, d, start, end)
      ensures FreedLast(old(space), old(free), space, free) && Lost() == old(Lost()) && ref.Keys == old(ref.Keys)
      ensures pde == old(pde)
    {
      hide Entry, Users, Counted, Placed, Stray, Leaks;
      ghost var s := space;
      UnmapNone(s, free, d, start);
      SameTablesNone(s, d, 0);
      var v := start;
      while v < end
        invariant Valid() && start <= v && SameTables(s, space, d, {}) && Unmapped(s, space, d, start, v)
        invariant forall y: nat :: end <= y < v ==> !Entry(s, d, y).Present?
        invariant Lost() == old(Lost()) && ref.Keys == old(ref.Keys) && pde == old(pde)
        invariant FreedLast(s, old(free), space, free) && forall p: nat :: Users(space, p) <= Users(s, p)
        decreases end - v
      {
        var ok := GetPte(d, v, false);
        if !ok {
          UnmapSkip(s, space, d, start, v);
          v := (v / 1024 + 1) * 1024;
        } else {
          AtEntry(space, d, v);
          ghost var t, f := space, free;
          var i: nat := v / 1024;
          if space[d][i][v % 1024] != Zero {
            PageRemovePte(d, v);
            SameTablesOn(s, t, space, d, {});
          }
          UnmapStep(s, t, space, d, start, v);
          FreedStep(s, old(free), t, f, space, d, v);
          v := v + 1;
        }
      }
      UnmapEnd(s, space, d, start, end, v);
    }

    /** The body of exit_range: the page of the table at i is free again. */
    method FreeTable(d: nat, i: nat)
      requires Valid() && d in space && i in space[d] && NonePresent(space, d, i)
      modifies this
      ensures Valid() && Emptied(old(space), space, d, i) && d in old(pde) && pde == DropTable(old(pde), d, i)
      ensures space.Keys == old(space.Keys) && ref.Keys == old(ref.Keys) && Lost() == old(Lost())
    {
      hide Entry, Users, Counted, Placed, Leaks, Stray, Shaped, Emptied, NonePresent, WithoutTable, DropTable;
      TableGone(space, ref, free, tables, pde, d, i);
      var page := pde[d][i];
      ref := ref[page := 0];
      free, tables := free + {page}, tables - {page};
      WithoutKeys(space, d, i);
      space, pde := WithoutTable(space, d, i), DropTable(pde, d, i);
    }

    /** exit_range: the tables under the range are given back. exit_mmap has emptied them before. */
    method ExitRange(d: nat, start: nat, end: nat)
      requires Valid() && d in space && start < end <= NPAGES
      requires forall i: nat :: Under(i, start, end) ==> NonePresent(space, d, i)
      modifies this
      ensures Valid() && space.Keys == old(space.Keys) && ref.Keys == old(ref.Keys) && Lost() == old(Lost())
      ensures Pruned(old(pde), pde, d, start, end)
      ensures forall x, y: nat :: Entry(space, x, y) ==
                if x == d && Under(y / 1024, start, end) then Zero else Entry(old(space), x, y)
    {
      hide Entry, Users, Counted, Placed, Leaks, Stray, Shaped, Emptied, EmptiedTo, PrunedTo, NonePresent, DropTable,
        Lost, Pruned;
      var i: nat := start / 1024;
      PlacedAt(space, pde, tables, d);
      NonePruned(space, pde, d, start, end);
      while i * 1024 < end
        invariant start / 1024 <= i && Valid() && space.Keys == old(space.Keys) && ref.Keys == old(ref.Keys)
        invariant Lost() == old(Lost()) && EmptiedTo(old(space), space, d, start, end, i)
        invariant PrunedTo(old(pde), pde, d, start, end, i)
        decreases end - i * 1024
      {
        ghost var t, q := space, pde;
        PlacedAt(t, q, tables, d);
        OnePruned(old(pde), q, d, start, end, i);
        if i in space[d] {
          StillNone(old(space), t, d, start, end, i);
          FreeTable(d, i);
        } else {
          NoTable(t, d, i);
        }
        OneEmptied(old(space), t, space, d, start, end, i);
        i := i + 1;
      }
      AllPruned(old(space), space, old(pde), pde, d, start, end, i);
    }

    /** put_pgdir, of a directory that maps nothing: its page is free again, but not those of the tables it has left. */
    method PutPgdir(d: nat)
      requires Valid() && d in space && forall y: nat :: !Entry(space, d, y).Present?
      modifies this
      ensures Valid() && d in old(pde) && DirEmptied(old(space), space, d) && space == old(space) - {d}
      ensures pde == old(pde) - {d} && ref.Keys == old(ref.Keys) && Lost() == old(Lost()) + old(pde)[d].Values
    {
      hide Entry, Users, Counted, Placed, Leaks, Stray, Shaped, DirEmptied;
      DirGone(space, ref, free, tables, pde, d);
      ref := ref[d := 0];
      free, tables := free + {d}, tables - {d};
      space, pde := space - {d}, pde - {d};
    }

    ghost function Snapshot(): Memory
      reads this
    {
      Memory(space, free, content)
    }

    method Memcpy(dst: nat, src: nat)
      requires Valid() && dst in content && src in content
      modifies `content
      ensures Valid() && content == old(content)[dst := old(content)[src]] && Lost() == old(Lost())
    {
      content := content[dst := content[src]];
    }

    /** One page of copy_range: a table for the child if need be, a new page with the same contents, and its mapping. */
    method CopyPage(to: nat, from: nat, v: nat) returns (ret: Ret, ghost q: nat)
      requires to in space && from in space && to != from && v < NPAGES && v / 1024 in space[from] && Valid()
      requires Entry(space, from, v).Present? && !Entry(space, to, v).Present?
      modifies this
      ensures SameTables(old(space), space, to, if ret.NoMem? then {} else {v / 1024})
      ensures ret == if v / 1024 !in old(space)[to] && old(free) == {} then NoMem
                     else if |old(free)| < (if v / 1024 in old(space)[to] then 1 else 2) then Panic else Ok
      ensures ret.Ok? ==> |free| == |old(free)| - if v / 1024 in old(space)[to] then 1 else 2
      ensures Lost() == old(Lost())
      ensures ret.Ok? ==> CopyStep(old(Snapshot()), Snapshot(), to, from, v, q)
      ensures !ret.Ok? ==> SameEntries(old(space), space) && free == {} && KeptContent(old(content), content, old(free))
      ensures Valid() && ref.Keys == old(ref.Keys) && OneRow(old(pde), pde, to)
    {
      hide OneRow, Entry, Users, Counted, Placed, Stray, OneEntry, SameEntries, KeptContent, CopyStep, SameTables,
        Shaped, NewlyFree, Leaks, Lost;
      q := 0;
      ghost var m, lost := Snapshot(), Lost();
      Parent(space, ref, free, tables, from, v);
      var i: nat := v / 1024;
      AtEntry(space, from, v);
      var e := space[from][i][v % 1024];
      var ok := GetPte(to, v, true);
      if !ok {
        return NoMem, q;
      }
      var npage := AllocPage();
      if npage == -1 {
        return Panic, q;
      }
      q := npage;
      var perm := e.perm & PTE_USER;
      KeptAt(m.content, content, m.free, e.page);
      SameAt(m.space, space, to, v);
      ghost var k := Memory(space, free, content);
      Memcpy(npage, e.page);
      SameTablesAt(m.space, space, to, {i}, to);
      GoneAgain(lost, npage);
      ghost var p := pde;
      ok := PageInsert(to, npage, v, perm);
      OneRowTwice(old(pde), p, pde, to);
      SameTablesTwice(m.space, k.space, space, to, {i});
      CopyMade(m, k, Snapshot(), to, from, v, q, e);
      ret := Ok;
    }

    /** Of the range that starts at a, what is below w has been copied, starting from m. */
    ghost predicate Copying(m: Memory, to: nat, from: nat, a: nat, w: nat)
      reads this
    {
      && to in m.space && from in m.space && space.Keys == m.space.Keys && Copied(m, Snapshot(), to, from, a, w)
      && space[to].Keys == TablesFor(m.space, to, from, a, w) && |free| == |m.free| - Needed(m.space, to, from, a, w)
    }

    /** A step of copy_range at a page of the parent. */
    method CopyHere(to: nat, from: nat, v: nat, ghost m: Memory, ghost a: nat, ghost end: nat) returns (ret: Ret)
      requires Valid() && Copying(m, to, from, a, v) && to != from && a <= v < end <= NPAGES && FreeUnused(m)
      requires v / 1024 in space[from] && Entry(m.space, from, v).Present? && Entry(m.space, from, v).page in m.content
      requires !Entry(m.space, to, v).Present? && MoreTables(m.space, space, to, a, end)
      modifies this
      ensures Valid() && Lost() == old(Lost()) && ref.Keys == old(ref.Keys) && MoreTables(m.space, space, to, a, end)
      ensures ret.Ok? ==> Copying(m, to, from, a, v + 1)
      ensures !ret.Ok? ==> free == {} && Copied(m, Snapshot(), to, from, a, v) && StopsAt(m, to, from, a, v, ret)
      ensures !ret.Ok? ==> |m.free| < Needed(m.space, to, from, a, end)
      ensures OneRow(old(pde), pde, to)
    {
      hide OneRow, Entry, Users, Counted, Placed, Stray, Copied, CopyStep, KeptContent, SameEntries, Needed, TablesFor,
        SameTables, Shaped, StopsAt, Leaks, Lost, MoreTables;
      ghost var n := Snapshot();
      Uncopied(m, n, to, from, a, v);
      ValidFree(space, ref, free, tables, content);
      NeededNext(m.space, to, from, a, v);
      ghost var q;
      ret, q := CopyPage(to, from, v);
      SameTablesAt(n.space, space, to, if ret.NoMem? then {} else {v / 1024}, to);
      MoreStep(m.space, n.space, space, to, a, end, v, if ret.NoMem? then {} else {v / 1024});
      if ret.Ok? {
        CopyMore(m, n, Snapshot(), to, from, a, v, q);
      } else {
        CopyFails(m, n, Snapshot(), to, from, a, v);
        NeededMore(m.space, to, from, a, v + 1, end);
        CopyStops(m, n, to, from, a, v, ret);
        StopsShort(m, to, from, a, v, ret);
      }
    }

    /** A step of copy_range at v: the page is copied, if there is one, or the place of a whole table passed over. */
    method CopyOne(to: nat, from: nat, v: nat, ghost m: Memory, ghost a: nat, end: nat) returns (ret: Ret, v': nat)
      requires Valid() && Copying(m, to, from, a, v) && to != from && a <= v < end <= NPAGES && FreeUnused(m)
      requires forall y: nat :: y < NPAGES && Entry(m.space, from, y).Present? ==>
                 Entry(m.space, from, y).page in m.content
      requires forall y: nat :: a <= y < end ==> !Entry(m.space, to, y).Present?
      requires MoreTables(m.space, space, to, a, end)
      modifies this
      ensures Valid() && Lost() == old(Lost()) && ref.Keys == old(ref.Keys) && MoreTables(m.space, space, to, a, end)
      ensures ret.Ok? ==> v < v' && Copying(m, to, from, a, if v' < end then v' else end)
      ensures !ret.Ok? ==> free == {} && Copied(m, Snapshot(), to, from, a, v) && StopsAt(m, to, from, a, v, ret)
      ensures !ret.Ok? ==> |m.free| < Needed(m.space, to, from, a, end)
      ensures OneRow(old(pde), pde, to)
    {
      hide OneRow, Entry, Users, Counted, Placed, Stray, Copied, CopyStep, KeptContent, SameEntries, Needed, TablesFor,
        SameTables, Shaped, StopsAt, Leaks, Lost, MoreTables;
      ghost var n := Snapshot();
      Uncopied(m, n, to, from, a, v);
      OneRowNone(pde, to);
      ret := Ok;
      var ok := GetPte(from, v, false);
      if !ok {
        v' := (v / 1024 + 1) * 1024;
        SkipTable(m, n, to, from, a, end, v);
        NeededSkip(m.space, to, from, a, v, if v' < end then v' else end);
      } else {
        v' := v + 1;
        var i: nat := v / 1024;
        AtEntry(space, from, v);
        if space[from][i][v % 1024].Present? {
          ret := CopyHere(to, from, v, m, a, end);
        } else {
          CopySkip(m, n, to, from, a, v, v + 1);
          NeededSkip(m.space, to, from, a, v, v + 1);
        }
      }
    }

    /** copy_range into an address space with nothing mapped in the range: it succeeds just when enough pages are
        free. */
    method CopyRange(to: nat, from: nat, start: nat, end: nat) returns (ret: Ret)
      requires Valid() && to in space && from in space && to != from && start < end <= NPAGES
      requires forall v: nat :: start <= v < end ==> !Entry(space, to, v).Present?
      modifies this
      ensures Valid() && Lost() == old(Lost()) && ref.Keys == old(ref.Keys)
      ensures MoreTables(old(space), space, to, start, end) && OneRow(old(pde), pde, to)
      ensures ret.Ok? ==> space[to].Keys == TablesFor(old(space), to, from, start, end)
      ensures ret.Ok? <==> Needed(old(space), to, from, start, end) <= |old(free)|
      ensures ret.Ok? ==> Copied(old(Snapshot()), Snapshot(), to, from, start, end)
      ensures ret.Ok? ==> |free| == |old(free)| - Needed(old(space), to, from, start, end)
      ensures !ret.Ok? ==> free == {} && exists v ::
                start <= v < end && Copied(old(Snapshot()), Snapshot(), to, from, start, v)
                    && StopsAt(old(Snapshot()), to, from, start, v, ret)
    {
      hide Entry, Users, Counted, Placed, Stray, Copied, Needed, TablesFor, Shaped, StopsAt, Leaks, Lost, FreeUnused,
        MoreTables, OneRow;
      ghost var m := Snapshot();
      NeededNone(space, to, from, start);
      CopyNone(m, to, from, start);
      MoreNone(space, to, start, end);
      OneRowNone(pde, to);
      ValidFree(space, ref, free, tables, content);
      var v := start;
      ret := Ok;
      while v < end
        invariant Valid() && start <= v && ret.Ok? && Copying(m, to, from, start, if v < end then v else end)
        invariant Lost() == old(Lost()) && ref.Keys == old(ref.Keys) && MoreTables(m.space, space, to, start, end)
        invariant OneRow(old(pde), pde, to)
        decreases end - v
      {
        ghost var p := pde;
        var v';
        ret, v' := CopyOne(to, from, v, m, start, end);
        OneRowTwice(old(pde), p, pde, to);
        if !ret.Ok? {
          return;
        }
        v := v';
      }
    }
  }

  /** When no page is lost, the free pages are those that hold no table or directory and are mapped nowhere. */
  lemma FreeExactly(mmu: Mmu, p: nat)
    requires mmu.Valid() && mmu.Lost() == {}
    ensures p in mmu.free <==> p in mmu.ref && !Leads(mmu.pde, p) && Users(mmu.space, p) == {}
  {
    hide Users, Leads;
    var stray := Stray(mmu.pde, mmu.tables);
    assert p !in stray && p !in Leaks(mmu.space, mmu.ref, mmu.free, mmu.tables);
    if Leads(mmu.pde, p) {
      LeadsIsTable(mmu.space, mmu.pde, mmu.tables, p);
    }
  }

  lemma LeadsIsTable(sp: Space, pde: Pdes, tables: set<nat>, p: nat)
    requires Placed(sp, pde, tables) && Leads(pde, p)
    ensures p in tables
  {
  }

  // ---------- whole runs ----------

  /** A new address space, a page mapped on demand, a mapped page mapped at another place as well, a range unmapped,
      and an address space copied. */
  datatype Event =
    | Exec
    | Touch(d: nat, v: nat, perm: bv32)
    | Share(d: nat, v: nat, to: nat, at: nat, perm: bv32)
    | Unmap(d: nat, a: nat, b: nat)
    | Fork(from: nat)

  lemma NewIsEmpty(s: Space, t: Space, d: nat)
    requires d !in s && SameEntries(s, t)
    ensures forall v: nat :: !Entry(t, d, v).Present?
  {
  }

  /** Directory d is new, and has a copy of every page of directory from; nothing else has changed. */
  ghost predicate Doubled(m: Memory, n: Memory, d: nat, from: nat) {
    && d !in m.space && OthersSame(m.space, n.space, d)
    && forall v: nat :: v < NPAGES && Entry(m.space, from, v).Present? ==> CopiedAt(m, n, d, from, v)
  }

  ghost predicate OthersSame(s: Space, t: Space, d: nat) {
    forall x, y: nat :: x != d ==> Entry(t, x, y) == Entry(s, x, y)
  }

  lemma CopiedSince(m: Memory, k: Memory, n: Memory, d: nat, from: nat, v: nat)
    requires SameEntries(m.space, k.space) && KeptContent(m.content, k.content, m.free) && k.free <= m.free
    requires CopiedAt(k, n, d, from, v) && Entry(m.space, from, v).Present? && v < NPAGES
    requires Entry(m.space, from, v).page in m.content && Entry(m.space, from, v).page !in m.free
    ensures CopiedAt(m, n, d, from, v)
  {
    hide Entry, Users, SameRights;
  }

  /** What is mapped has contents and is not free. */
  ghost predicate Solid(m: Memory, d: nat) {
    forall v: nat :: v < NPAGES && Entry(m.space, d, v).Present? ==>
      Entry(m.space, d, v).page in m.content && Entry(m.space, d, v).page !in m.free
  }

  lemma ValidSolid(mmu: Mmu, d: nat)
    requires mmu.Valid()
    ensures Solid(mmu.Snapshot(), d)
  {
    hide Entry, Users, Counted, Placed, Stray, Shaped;
    forall v: nat | v < NPAGES && Entry(mmu.space, d, v).Present?
      ensures Entry(mmu.space, d, v).page in mmu.content && Entry(mmu.space, d, v).page !in mmu.free
    {
      Parent(mmu.space, mmu.ref, mmu.free, mmu.tables, d, v);
    }
  }

  lemma ForkDoubles(m: Memory, k: Memory, n: Memory, d: nat, from: nat)
    requires Solid(m, from) && d !in m.space
    requires SameEntries(m.space, k.space) && KeptContent(m.content, k.content, m.free) && k.free <= m.free
    requires Copied(k, n, d, from, 0, NPAGES) && OthersSame(m.space, n.space, d)
    ensures Doubled(m, n, d, from)
  {
    hide Entry, CopiedAt, SameEntries, KeptContent;
    forall v: nat | v < NPAGES && Entry(m.space, from, v).Present? ensures CopiedAt(m, n, d, from, v) {
      CopiedSince(m, k, n, d, from, v);
    }
  }

  lemma CopiedOthers(m: Memory, k: Memory, n: Memory, d: nat, from: nat, v: nat)
    requires SameEntries(m.space, k.space) && Copied(k, n, d, from, 0, v)
    ensures OthersSame(m.space, n.space, d)
  {
    hide Entry, CopiedAt, KeptContent;
  }

  /** setup_pgdir and copy_range of all user pages: the mappings of a new process. */
  method ForkSpace(mmu: Mmu, from: nat) returns (ret: Ret, d: int)
    requires mmu.Valid() && from in mmu.space
    modifies mmu
    ensures mmu.Valid() && mmu.Lost() == old(mmu.Lost()) && mmu.ref.Keys == old(mmu.ref.Keys)
    ensures d == -1 <==> old(mmu.free) == {}
    ensures d == -1 ==> ret.NoMem? && mmu.space == old(mmu.space)
    ensures d != -1 ==>
              && d >= 0 && d in old(mmu.free) && d !in old(mmu.space) && OthersSame(old(mmu.space), mmu.space, d)
              && (ret.Ok? <==> NewNeeds(old(mmu.space), d, from) < |old(mmu.free)|)
              && (ret.Ok? ==> Doubled(old(mmu.Snapshot()), mmu.Snapshot(), d, from))
  {
    hide Entry, Users, Counted, Placed, Stray, Leaks, Shaped, SameEntries, Mmu.Lost, Copied, Needed, Doubled, Solid,
      OthersSame, KeptContent;
    ghost var m := mmu.Snapshot();
    ValidSolid(mmu, from);
    d := mmu.SetupPgdir();
    if d == -1 {
      return NoMem, d;
    }
    ghost var k := mmu.Snapshot();
    NewIsEmpty(m.space, k.space, d);
    ret := mmu.CopyRange(d, from, 0, NPAGES);
    if ret.Ok? {
      CopiedOthers(m, k, mmu.Snapshot(), d, from, NPAGES);
      ForkDoubles(m, k, mmu.Snapshot(), d, from);
    } else {
      ghost var v :| 0 <= v < NPAGES && Copied(k, mmu.Snapshot(), d, from, 0, v);
      CopiedOthers(m, k, mmu.Snapshot(), d, from, v);
    }
  }

  /** The pages that copying directory from takes in a new directory d. */
  ghost function NewNeeds(s: Space, d: nat, from: nat): nat {
    var dir: Dir := map[];
    Needed(s[d := dir], d, from, 0, NPAGES)
  }

  /** page_insert of the page that directory d maps at v, in directory to. Its count is then above 1. */
  method ShareAt(mmu: Mmu, d: nat, v: nat, to: nat, at: nat, perm: bv32) returns (ok: bool)
    requires mmu.Valid() && d in mmu.space && to in mmu.space && v < NPAGES && at < NPAGES
    modifies mmu
    ensures mmu.Valid() && mmu.ref.Keys == old(mmu.ref.Keys) && (old(mmu.Lost()) == {} ==> mmu.Lost() == {})
    ensures ok <==> Entry(old(mmu.space), d, v).Present? && (at / 1024 in old(mmu.space)[to] || old(mmu.free) != {})
    ensures if ok then
                OneEntry(old(mmu.space), mmu.space, to, at, Present(Entry(old(mmu.space), d, v).page, PTE_P | perm))
              else mmu.space == old(mmu.space)
    ensures ok && (d, v) != (to, at) ==>
              var p := Entry(old(mmu.space), d, v).page;
              p in mmu.ref && {(d, v), (to, at)} <= Users(mmu.space, p) && mmu.ref[p] >= 2
  {
    hide Entry, Users, Leaks, Shaped, SameEntries, Mmu.Lost, Counted, Placed, Stray, SameTables, KeptContent, NewlyFree,
      OneEntry;
    var i: nat := v / 1024;
    if i !in mmu.space[d] {
      NoEntry(mmu.space, d, v);
      return false;
    }
    AtEntry(mmu.space, d, v);
    var e := mmu.space[d][i][v % 1024];
    if !e.Present? {
      return false;
    }
    Parent(mmu.space, mmu.ref, mmu.free, mmu.tables, d, v);
    ghost var s := mmu.space;
    ok := mmu.PageInsert(to, e.page, at, perm);
    if ok && (d, v) != (to, at) {
      TwoUsers(s, mmu.space, mmu.ref, mmu.free, mmu.tables, d, v, to, at, Present(e.page, PTE_P | perm));
    }
  }

  lemma TwoUsers(s: Space, t: Space, ref: map<nat, int>, free: set<nat>, tables: set<nat>, d: nat, v: nat, to: nat,
                 at: nat, e: Pte)
    requires e.Present? && Maps(s, d, v, e.page) && OneEntry(s, t, to, at, e) && Counted(t, ref, free, tables)
    requires v < NPAGES && at < NPAGES && (d, v) != (to, at)
    ensures e.page in ref && {(d, v), (to, at)} <= Users(t, e.page) && ref[e.page] >= 2
  {
    hide Entry, Users;
    IsUser(t, e.page, d, v);
    IsUser(t, e.page, to, at);
    var pair := {(d, v), (to, at)};
    assert |pair| == 2;
    Subset(pair, Users(t, e.page));
  }

  lemma Subset(a: set<(nat, nat)>, b: set<(nat, nat)>)
    requires a <= b
    ensures |a| <= |b|
  {
    assert b == a + (b - a);
  }

  /** What an event does to the mappings. */
  ghost predicate Effect(e: Event, m: Memory, n: Memory) {
    match e
    case Exec =>
      if m.free == {} then n.space == m.space
      else exists d :: d in m.free && d !in m.space && n.space == m.space[d := NoTables()]
    case Touch(d, v, perm) =>
      if d in m.space && v < NPAGES && |m.free| >= (if v / 1024 in m.space[d] then 1 else 2)
        then exists q :: q in m.free && OneEntry(m.space, n.space, d, v, Present(q, PTE_P | perm))
        else n.space == m.space
    case Share(d, v, to, at, perm) =>
      if && d in m.space && to in m.space && v < NPAGES && at < NPAGES && Entry(m.space, d, v).Present?
         && (at / 1024 in m.space[to] || m.free != {})
        then OneEntry(m.space, n.space, to, at, Present(Entry(m.space, d, v).page, PTE_P | perm))
        else n.space == m.space
    case Unmap(d, a, b) =>
      if d in m.space && a < b <= NPAGES
        then Unmapped(m.space, n.space, d, a, b) && FreedLast(m.space, m.free, n.space, n.free)
        else n.space == m.space
    case Fork(from) =>
      if from in m.space && m.free != {}
        then exists d ::
               && d in m.free && d !in m.space && OthersSame(m.space, n.space, d)
               && (NewNeeds(m.space, d, from) < |m.free| ==> Doubled(m, n, d, from))
        else n.space == m.space
  }

  function NoTables(): Dir {
    map[]
  }

  /** One event. False when an assertion fails. */
  method Step(mmu: Mmu, e: Event) returns (ok: bool)
    requires mmu.Valid()
    modifies mmu
    ensures mmu.Valid() && mmu.ref.Keys == old(mmu.ref.Keys) && (old(mmu.Lost()) == {} ==> mmu.Lost() == {})
    ensures Effect(e, old(mmu.Snapshot()), mmu.Snapshot())
    ensures !ok ==> e.Fork? && e.from in old(mmu.space)
  {
    hide Entry, Users, Counted, Placed, Stray, Leaks, Shaped, Mmu.Lost, OneEntry, SameEntries, Unmapped, FreedLast,
      Doubled, OthersSame, NewNeeds;
    ok := true;
    match e
    case Exec =>
      var d := mmu.SetupPgdir();
    case Touch(d, v, perm) =>
      if d in mmu.space && v < NPAGES {
        var page := mmu.PgdirAllocPage(d, v, perm);
      }
    case Share(d, v, to, at, perm) =>
      if d in mmu.space && to in mmu.space && v < NPAGES && at < NPAGES {
        var shared := ShareAt(mmu, d, v, to, at, perm);
      }
    case Unmap(d, a, b) =>
      if d in mmu.space && a < b <= NPAGES {
        mmu.UnmapRange(d, a, b);
      }
    case Fork(from) =>
      if from in mmu.space {
        var ret, d := ForkSpace(mmu, from);
        ok := !ret.Panic?;
      }
  }

  /** Whatever happens, every page is free, used for tables, or mapped as often as its count says, and none is lost. */
  method Run(pages: set<nat>, events: seq<Event>) returns (mmu: Mmu, done: nat)
    ensures mmu.Valid() && mmu.Lost() == {} && mmu.ref.Keys == pages && done <= |events|
  {
    hide Entry, Users, Counted, Placed, Stray, Leaks, Shaped, Mmu.Lost, Effect;
    mmu := new Mmu(pages);
    done := 0;
    while done < |events|
      invariant fresh(mmu) && mmu.Valid() && mmu.Lost() == {} && mmu.ref.Keys == pages && done <= |events|
    {
      var ok := Step(mmu, events[done]);
      if !ok {
        return;
      }
      done := done + 1;
    }
  }
}
