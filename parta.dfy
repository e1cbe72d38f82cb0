/** The five routines of parta.c over an in-place array of process control blocks, each
    proved to compute what its reference definition in `Scheduling` describes. The length
    of the array plays the part of `plen`. */
module Parta {
  import opened Procs
  import opened Scheduling

  /** `init_procs`: a fresh table with one record per burst, pid `i`, no wait. */
  method InitProcs(bursts: array<int>, blen: int) returns (procs: array<Pcb>)
    requires 0 <= blen <= bursts.Length
    ensures fresh(procs) && procs.Length == blen
    ensures procs[..] == Initial(bursts[..blen])
    ensures forall i :: 0 <= i < blen ==> procs[i] == Pcb(i, bursts[i], 0)
  {
    procs := new Pcb[blen];
    for i := 0 to blen
      invariant forall j :: 0 <= j < i ==> procs[j] == Pcb(j, bursts[j], 0)
    {
      procs[i] := procs[i].(pid := i);
      procs[i] := procs[i].(burstLeft := bursts[i]);
      procs[i] := procs[i].(wait := 0);
    }
  }

  /** `run_proc`: `current` runs for `amount`; every other process with work left waits. */
  method RunProc(procs: array<Pcb>, current: int, amount: int)
    requires 0 <= current < procs.Length
    requires 0 <= amount <= procs[current].burstLeft
    modifies procs
    ensures procs[..] == Run(old(procs[..]), current, amount)
  {
    ghost var goal := Run(procs[..], current, amount);
    procs[current] := procs[current].(burstLeft := procs[current].burstLeft - amount);
    for i := 0 to procs.Length
      invariant procs[current] == goal[current]
      invariant forall j :: 0 <= j < i ==> procs[j] == goal[j]
      invariant forall j :: i <= j < procs.Length && j != current ==> procs[j] == old(procs[j])
    {
      if i != current && procs[i].burstLeft > 0 {
        procs[i] := procs[i].(wait := procs[i].wait + amount);
      }
    }
  }

  /** `fcfs_run`: runs every process to completion in index order and returns the elapsed
      time, which is the total initial burst; each process that had work waited for the
      bursts of all processes before it. */
  method FcfsRun(procs: array<Pcb>) returns (currentTime: int)
    requires NonNegative(procs[..])
    modifies procs
    ensures procs[..] == Fcfs(old(procs[..]), procs.Length)
    ensures currentTime == Total(old(procs[..]))
    ensures Finished(procs[..])
    ensures forall i :: 0 <= i < procs.Length ==>
      procs[i].pid == old(procs[i].pid) && procs[i].burstLeft == 0 &&
      procs[i].wait == old(procs[i].wait) +
        (if old(procs[i].burstLeft) > 0 then Total(old(procs[..])[..i]) else 0)
  {
    ghost var s := procs[..];
    currentTime := 0;
    for i := 0 to procs.Length
      invariant procs[..] == Fcfs(s, i)
      invariant currentTime == Total(s[..i])
    {
      FcfsAt(s, i, i);
      var burst := procs[i].burstLeft;
      RunProc(procs, i, burst);
      currentTime := currentTime + burst;
      assert s[..i + 1][..i] == s[..i];
    }
    assert s[..procs.Length] == s;
    FcfsCompletes(s);
  }

  /** `rr_next`: scans circularly from just after `current` for a process whose burst is
      not zero; -1 when every process has completed. Reads the table only. */
  method RrNext(current: int, procs: array<Pcb>) returns (r: int)
    requires 0 <= current < procs.Length
    ensures r == Next(procs[..], current)
    ensures IsNext(procs[..], current, r)
  {
    var next := Succ(current, procs.Length);
    var start := next;
    while procs[next].burstLeft == 0
      invariant 0 <= next < procs.Length
      invariant ScanFrom(procs[..], current, next) == Next(procs[..], current)
      invariant forall j :: 0 <= j < procs.Length && Between(current, j, next) ==> procs[j].burstLeft == 0
      decreases if next <= current then current - next else current + procs.Length - next
    {
      next := Succ(next, procs.Length);
      if next == start {
        return -1;
      }
    }
    return next;
  }

  /** `rr_run`: grants slices of at most `quantum` in circular order until no process has
      work left; returns the elapsed time, which is the total initial burst. */
  method RrRun(procs: array<Pcb>, quantum: int) returns (currentTime: int)
    requires procs.Length >= 1 && quantum >= 1 && NonNegative(procs[..])
    modifies procs
    ensures Outcome(procs[..], currentTime) == RrFrom(old(procs[..]), 0, quantum)
    ensures currentTime == Total(old(procs[..]))
    ensures Finished(procs[..])
    ensures forall i :: 0 <= i < procs.Length ==>
      procs[i].pid == old(procs[i].pid) && procs[i].wait >= old(procs[i].wait)
    ensures forall i :: 0 <= i < procs.Length && old(procs[i].burstLeft) == 0 ==> procs[i] == old(procs[i])
  {
    ghost var goal := RrFrom(procs[..], 0, quantum);
    RrFromWork(procs[..], 0, quantum);
    RrFromKeepsRecords(procs[..], 0, quantum);
    currentTime := 0;
    var current := 0;
    while true
      invariant 0 <= current < procs.Length && NonNegative(procs[..])
      invariant RrFrom(procs[..], current, quantum).table == goal.table
      invariant currentTime + RrFrom(procs[..], current, quantum).elapsed == goal.elapsed
      decreases Total(procs[..]), if procs[current].burstLeft > 0 then 0 else 1
    {
      TotalOfNonNegative(procs[..]);
      if procs[current].burstLeft > 0 {
        var amount := Slice(procs[current].burstLeft, quantum);
        RunStep(procs[..], current, amount);
        RunProc(procs, current, amount);
        currentTime := currentTime + amount;
      }
      var next := RrNext(current, procs);
      if next == -1 {
        break;
      }
      current := next;
    }
  }
}
