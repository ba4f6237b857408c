/** The part of `struct proc_struct` that the scheduler reads and writes. */
module Process {

  const WORD := 0x1_0000_0000

  /** A uint32_t. */
  type Word = x: int | 0 <= x < 0x1_0000_0000

  datatype State = Uninit | Sleeping | Runnable | Zombie

  class Proc {
    const pid: int
    var state: State
    var waitState: bv32
    var runs: int
    var needResched: bool
    var timeSlice: int
    var stride: Word
    var stridePrior: Word
    var vruntime: Word
    var cfsPrior: Word

    /** alloc_proc's initial values, with the pid that do_fork assigns. */
    constructor (pid: int)
      ensures this.pid == pid && state == Uninit && waitState == 0 && runs == 0
      ensures !needResched && timeSlice == 0
      ensures stride == 0 && stridePrior == 19 && vruntime == 0 && cfsPrior == 19
    {
      this.pid := pid;
      state := Uninit;
      waitState := 0;
      runs := 0;
      needResched := false;
      timeSlice := 0;
      stride := 0;
      stridePrior := 19;
      vruntime := 0;
      cfsPrior := 19;
    }
  }
}
