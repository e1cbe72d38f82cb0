/** Reference definitions of what parta.c computes, on values: one `run_proc` step, the
    circular search of `rr_next`, and the FCFS and Round-Robin schedules as folds of that
    step; then the properties the schedules are meant to have. */
module Scheduling {
  import opened Procs

  // ---------------------------------------------------------------------------
  // run_proc

  /** The table after `current` runs for `amount`: its burst drops by `amount`, every other
      process that still has work waits `amount` longer, nothing else changes. */
  function Run(s: seq<Pcb>, current: int, amount: int): (r: seq<Pcb>)
    requires 0 <= current < |s|
    ensures |r| == |s|
  {
    seq(|s|, i requires 0 <= i < |s| =>
      if i == current then s[i].(burstLeft := s[i].burstLeft - amount)
      else if s[i].burstLeft > 0 then s[i].(wait := s[i].wait + amount)
      else s[i])
  }

  /** Running a process for a legal amount conserves work: the outstanding total drops by
      exactly that amount, and no burst becomes negative. */
  lemma RunStep(s: seq<Pcb>, current: int, amount: int)
    requires 0 <= current < |s| && NonNegative(s)
    requires 0 <= amount <= s[current].burstLeft
    ensures Total(Run(s, current, amount)) == Total(s) - amount
    ensures NonNegative(Run(s, current, amount))
  {
    TotalAfterUpdate(s, Run(s, current, amount), current, amount);
  }

  /** Running for no time changes nothing. */
  lemma RunNothing(s: seq<Pcb>, current: int)
    requires 0 <= current < |s|
    ensures Run(s, current, 0) == s
  {
    assert forall i :: 0 <= i < |s| ==> Run(s, current, 0)[i] == s[i];
  }

  // ---------------------------------------------------------------------------
  // rr_next

  /** `(i + 1) % n`, the circular successor of a table index. */
  function Succ(i: int, n: int): (r: int)
    requires 0 <= i < n
    ensures r == if i + 1 == n then 0 else i + 1
  {
    (i + 1) % n
  }

  /** `j` is visited strictly after `c` and strictly before `r` when indices are scanned
      circularly starting just after `c`; with `r == c` this is every index but `c`. */
  predicate Between(c: int, j: int, r: int) {
    if c < r then c < j < r else c < j || j < r
  }

  /** What `rr_next` promises: -1 exactly when every process has completed, and otherwise
      the first index in the circular order after `current` whose burst is not zero. */
  predicate IsNext(s: seq<Pcb>, current: int, r: int)
    requires 0 <= current < |s|
  {
    (r == -1 <==> Finished(s)) &&
    (r != -1 ==>
      0 <= r < |s| && s[r].burstLeft != 0 &&
      forall j :: 0 <= j < |s| && Between(current, j, r) ==> s[j].burstLeft == 0)
  }

  /** The scan of `rr_next`, currently looking at `next`. */
  function ScanFrom(s: seq<Pcb>, current: int, next: int): (r: int)
    requires 0 <= current < |s| && 0 <= next < |s|
    ensures r == -1 || (0 <= r < |s| && s[r].burstLeft != 0)
    decreases if next <= current then current - next else current + |s| - next
  {
    if s[next].burstLeft != 0 then next
    else if Succ(next, |s|) == Succ(current, |s|) then -1
    else ScanFrom(s, current, Succ(next, |s|))
  }

  /** The index `rr_next` returns. */
  function Next(s: seq<Pcb>, current: int): (r: int)
    requires 0 <= current < |s|
    ensures r == -1 || (0 <= r < |s| && s[r].burstLeft != 0)
  {
    ScanFrom(s, current, Succ(current, |s|))
  }

  /** A scan that has so far passed over only completed processes finds the right answer. */
  lemma {:induction false} ScanFromIsNext(s: seq<Pcb>, current: int, next: int)
    requires 0 <= current < |s| && 0 <= next < |s|
    requires forall j :: 0 <= j < |s| && Between(current, j, next) ==> s[j].burstLeft == 0
    ensures IsNext(s, current, ScanFrom(s, current, next))
    decreases if next <= current then current - next else current + |s| - next
  {
    if s[next].burstLeft == 0 && Succ(next, |s|) != Succ(current, |s|) {
      ScanFromIsNext(s, current, Succ(next, |s|));
    }
  }

  /** `Next` meets the promise of `rr_next`. */
  lemma NextIsNext(s: seq<Pcb>, current: int)
    requires 0 <= current < |s|
    ensures IsNext(s, current, Next(s, current))
  {
    ScanFromIsNext(s, current, Succ(current, |s|));
  }

  /** When `current` is the only process left with work, the search comes back to it. */
  lemma NextOnlyCurrent(s: seq<Pcb>, current: int)
    requires 0 <= current < |s| && s[current].burstLeft != 0
    requires forall j :: 0 <= j < |s| && j != current ==> s[j].burstLeft == 0
    ensures Next(s, current) == current
  {
    NextIsNext(s, current);
  }

  // ---------------------------------------------------------------------------
  // fcfs_run

  /** The table after the FCFS loop has run processes `0 .. k-1`, each for the burst it had
      left when its turn came. */
  function Fcfs(s: seq<Pcb>, k: nat): (r: seq<Pcb>)
    requires k <= |s|
    ensures |r| == |s|
  {
    if k == 0 then s
    else
      var prev := Fcfs(s, k - 1);
      Run(prev, k - 1, prev[k - 1].burstLeft)
  }

  /** Closed form of the FCFS schedule: after `k` turns, the first `k` processes have
      completed, and a process that had work waited for exactly the bursts of the processes
      before it that have had their turn; a process with no work never waits. */
  lemma {:induction false} FcfsAt(s: seq<Pcb>, k: nat, i: int)
    requires k <= |s| && 0 <= i < |s|
    ensures Fcfs(s, k)[i].pid == s[i].pid
    ensures Fcfs(s, k)[i].burstLeft == if i < k then 0 else s[i].burstLeft
    ensures Fcfs(s, k)[i].wait ==
      s[i].wait + (if s[i].burstLeft > 0 then Total(s[..if i < k then i else k]) else 0)
  {
    if k > 0 {
      FcfsAt(s, k - 1, i);
      FcfsAt(s, k - 1, k - 1);
      assert s[..k][..k - 1] == s[..k - 1];
    }
  }

  /** At the end of FCFS every process has completed, and each one that had work waited
      for the total burst of the processes ahead of it. */
  lemma FcfsCompletes(s: seq<Pcb>)
    ensures Finished(Fcfs(s, |s|))
    ensures forall i :: 0 <= i < |s| ==>
      Fcfs(s, |s|)[i] == Pcb(s[i].pid, 0, s[i].wait + (if s[i].burstLeft > 0 then Total(s[..i]) else 0))
  {
    forall i | 0 <= i < |s|
      ensures Fcfs(s, |s|)[i] == Pcb(s[i].pid, 0, s[i].wait + (if s[i].burstLeft > 0 then Total(s[..i]) else 0))
    {
      FcfsAt(s, |s|, i);
    }
  }

  /** FCFS turns of processes with no work change nothing. */
  lemma {:induction false} FcfsSkip(s: seq<Pcb>, k: nat, m: nat)
    requires k <= m <= |s|
    requires forall j :: k <= j < m ==> s[j].burstLeft == 0
    ensures Fcfs(s, m) == Fcfs(s, k)
    decreases m
  {
    if k < m {
      FcfsSkip(s, k, m - 1);
      FcfsAt(s, m - 1, m - 1);
      RunNothing(Fcfs(s, m - 1), m - 1);
    }
  }

  /** Under FCFS, among processes that had work and started with the same wait, a later
      process never waits less than an earlier one. */
  lemma FcfsLaterWaitsLonger(s: seq<Pcb>, i: int, j: int)
    requires NonNegative(s) && 0 <= i < j < |s|
    requires s[i].burstLeft > 0 && s[j].burstLeft > 0 && s[i].wait == s[j].wait
    ensures Fcfs(s, |s|)[i].wait + s[i].burstLeft <= Fcfs(s, |s|)[j].wait
  {
    FcfsAt(s, |s|, i);
    FcfsAt(s, |s|, j);
    TotalPrefixGrows(s, i + 1, j);
    assert s[..i + 1][..i] == s[..i];
  }

  // ---------------------------------------------------------------------------
  // rr_run

  /** The time slice `rr_run` grants: `min(quantum, burstLeft)`. */
  function Slice(burstLeft: int, quantum: int): (amount: int)
    requires burstLeft > 0 && quantum >= 1
    ensures 1 <= amount <= quantum && amount <= burstLeft
    ensures amount == quantum || amount == burstLeft
  {
    if burstLeft < quantum then burstLeft else quantum
  }

  /** Final table and elapsed time of a schedule. */
  datatype Outcome = Outcome(table: seq<Pcb>, elapsed: int)

  /** The Round-Robin loop from the iteration that starts at `current`: run `current` for a
      slice if it has work, move to the next process with work, stop when there is none. */
  function RrFrom(s: seq<Pcb>, current: int, quantum: int): (r: Outcome)
    requires 0 <= current < |s| && quantum >= 1 && NonNegative(s)
    ensures |r.table| == |s|
    decreases Total(s), if s[current].burstLeft > 0 then 0 else 1
  {
    TotalOfNonNegative(s);
    var amount := if s[current].burstLeft > 0 then Slice(s[current].burstLeft, quantum) else 0;
    var after := if s[current].burstLeft > 0 then Run(s, current, amount) else s;
    RunStep(s, current, amount);
    NextIsNext(after, current);
    var next := Next(after, current);
    if next == -1 then Outcome(after, amount)
    else
      var rest := RrFrom(after, next, quantum);
      Outcome(rest.table, amount + rest.elapsed)
  }

  /** Round-Robin completes every process and takes exactly the total outstanding work as
      elapsed time. */
  lemma {:induction false} RrFromWork(s: seq<Pcb>, current: int, quantum: int)
    requires 0 <= current < |s| && quantum >= 1 && NonNegative(s)
    ensures Finished(RrFrom(s, current, quantum).table)
    ensures RrFrom(s, current, quantum).elapsed == Total(s)
    decreases Total(s), if s[current].burstLeft > 0 then 0 else 1
  {
    TotalOfNonNegative(s);
    var amount := if s[current].burstLeft > 0 then Slice(s[current].burstLeft, quantum) else 0;
    var after := if s[current].burstLeft > 0 then Run(s, current, amount) else s;
    RunStep(s, current, amount);
    NextIsNext(after, current);
    var next := Next(after, current);
    if next == -1 {
      TotalOfNonNegative(after);
    } else {
      RrFromWork(after, next, quantum);
    }
  }

  /** Round-Robin keeps every pid and never shortens a wait, and a process that had no work
      to begin with is left exactly as it was: it neither runs nor waits. */
  lemma {:induction false} RrFromKeepsRecords(s: seq<Pcb>, current: int, quantum: int)
    requires 0 <= current < |s| && quantum >= 1 && NonNegative(s)
    ensures forall i :: 0 <= i < |s| ==>
      RrFrom(s, current, quantum).table[i].pid == s[i].pid &&
      RrFrom(s, current, quantum).table[i].wait >= s[i].wait
    ensures forall i :: 0 <= i < |s| && s[i].burstLeft == 0 ==> RrFrom(s, current, quantum).table[i] == s[i]
    decreases Total(s), if s[current].burstLeft > 0 then 0 else 1
  {
    TotalOfNonNegative(s);
    var amount := if s[current].burstLeft > 0 then Slice(s[current].burstLeft, quantum) else 0;
    var after := if s[current].burstLeft > 0 then Run(s, current, amount) else s;
    RunStep(s, current, amount);
    NextIsNext(after, current);
    var next := Next(after, current);
    if next != -1 {
      RrFromKeepsRecords(after, next, quantum);
    }
  }

  /** With a quantum no smaller than any burst, Round-Robin ends in exactly the state FCFS
      ends in: every process runs to completion in its first slice, in index order. */
  lemma RrLargeQuantumIsFcfs(s: seq<Pcb>, quantum: int)
    requires |s| >= 1 && quantum >= 1 && NonNegative(s)
    requires forall i :: 0 <= i < |s| ==> s[i].burstLeft <= quantum
    ensures RrFrom(s, 0, quantum).table == Fcfs(s, |s|)
  {
    RrFromFcfsTurn(s, 0, quantum);
  }

  /** One iteration of the Round-Robin loop when the quantum covers the current burst: the
      current process runs to completion, then the search moves on. */
  lemma RrFromWholeBurst(s: seq<Pcb>, current: int, quantum: int)
    requires 0 <= current < |s| && quantum >= 1 && NonNegative(s)
    requires s[current].burstLeft <= quantum
    ensures NonNegative(Run(s, current, s[current].burstLeft))
    ensures var after := Run(s, current, s[current].burstLeft);
      var next := Next(after, current);
      RrFrom(s, current, quantum).table ==
        if next == -1 then after else RrFrom(after, next, quantum).table
  {
    RunNothing(s, current);
    RunStep(s, current, s[current].burstLeft);
  }

  /** The bursts of the FCFS table after turn `k`: the first `k + 1` processes are done, the
      rest untouched. */
  lemma FcfsTurnBursts(s: seq<Pcb>, k: nat)
    requires k < |s| && NonNegative(s)
    ensures NonNegative(Fcfs(s, k)) && Fcfs(s, k)[k].burstLeft == s[k].burstLeft
    ensures forall i :: 0 <= i < |s| ==>
      Fcfs(s, k + 1)[i].burstLeft == if i <= k then 0 else s[i].burstLeft
  {
    forall i | 0 <= i < |s| ensures Fcfs(s, k)[i].burstLeft >= 0 { FcfsAt(s, k, i); }
    FcfsAt(s, k, k);
    forall i | 0 <= i < |s| ensures Fcfs(s, k + 1)[i].burstLeft == if i <= k then 0 else s[i].burstLeft {
      FcfsAt(s, k + 1, i);
    }
  }

  /** On a table whose processes up to `k` are done and whose later processes have the
      bursts of `s`, the search from `k` returns the first later process with work in `s`,
      or -1 when there is none. */
  lemma NextPastDone(s: seq<Pcb>, a: seq<Pcb>, k: int)
    requires 0 <= k < |a| == |s|
    requires forall i :: 0 <= i < |a| ==> a[i].burstLeft == if i <= k then 0 else s[i].burstLeft
    ensures Next(a, k) == -1 ==> forall j :: k < j < |s| ==> s[j].burstLeft == 0
    ensures Next(a, k) != -1 ==>
      k < Next(a, k) && forall j :: k < j < Next(a, k) ==> s[j].burstLeft == 0
  {
    NextIsNext(a, k);
  }

  /** After FCFS turn `k`, when the search from `k` finds no process with work, FCFS has
      nothing left to do. */
  lemma FcfsNoNextTurn(s: seq<Pcb>, k: nat)
    requires k < |s| && NonNegative(s) && Next(Fcfs(s, k + 1), k) == -1
    ensures Fcfs(s, |s|) == Fcfs(s, k + 1)
  {
    FcfsTurnBursts(s, k);
    NextPastDone(s, Fcfs(s, k + 1), k);
    FcfsSkip(s, k + 1, |s|);
  }

  /** After FCFS turn `k`, the process the search from `k` picks is the next one FCFS
      actually runs: the FCFS turns in between change nothing. */
  lemma FcfsNextTurn(s: seq<Pcb>, k: nat)
    requires k < |s| && NonNegative(s) && Next(Fcfs(s, k + 1), k) != -1
    ensures k < Next(Fcfs(s, k + 1), k)
    ensures Fcfs(s, Next(Fcfs(s, k + 1), k)) == Fcfs(s, k + 1)
  {
    FcfsTurnBursts(s, k);
    NextPastDone(s, Fcfs(s, k + 1), k);
    FcfsSkip(s, k + 1, Next(Fcfs(s, k + 1), k));
  }

  /** Induction step of RrLargeQuantumIsFcfs: Round-Robin started at process `k` on the
      table FCFS has after `k` turns ends where FCFS ends. */
  lemma {:induction false} RrFromFcfsTurn(s: seq<Pcb>, k: nat, quantum: int)
    requires k < |s| && quantum >= 1 && NonNegative(s)
    requires forall i :: 0 <= i < |s| ==> s[i].burstLeft <= quantum
    ensures NonNegative(Fcfs(s, k))
    ensures RrFrom(Fcfs(s, k), k, quantum).table == Fcfs(s, |s|)
    decreases |s| - k
  {
    var p := Fcfs(s, k);
    var after := Fcfs(s, k + 1);
    assert NonNegative(p) && p[k].burstLeft <= quantum by { FcfsTurnBursts(s, k); }
    assert after == Run(p, k, p[k].burstLeft);
    RrFromWholeBurst(p, k, quantum);
    var next := Next(after, k);
    if next == -1 {
      FcfsNoNextTurn(s, k);
    } else {
      FcfsNextTurn(s, k);
      RrFromFcfsTurn(s, next, quantum);
    }
  }

  // ---------------------------------------------------------------------------
  // Worked scenarios

  /** Bursts 5, 3, 8 under FCFS: 16 time units, waits 0, 5 and 8. */
  lemma FcfsExample()
    ensures Total(Initial([5, 3, 8])) == 16
    ensures Fcfs(Initial([5, 3, 8]), 3) == [Pcb(0, 0, 0), Pcb(1, 0, 5), Pcb(2, 0, 8)]
  {
    var s := Initial([5, 3, 8]);
    assert s == [Pcb(0, 5, 0), Pcb(1, 3, 0), Pcb(2, 8, 0)];
    assert s[..0] == [] && s[..1] == [s[0]] && s[..2] == [s[0], s[1]];
    assert s[..3] == s;
    FcfsCompletes(s);
  }

  /** One iteration of the Round-Robin loop on a process with work: it runs for a slice,
      then the loop stops or continues at the process the search picks. */
  lemma RrFromStep(s: seq<Pcb>, current: int, quantum: int)
    requires 0 <= current < |s| && quantum >= 1 && NonNegative(s) && s[current].burstLeft > 0
    ensures var amount := Slice(s[current].burstLeft, quantum);
      var after := Run(s, current, amount);
      NonNegative(after) &&
      (Next(after, current) == -1 ==> RrFrom(s, current, quantum) == Outcome(after, amount)) &&
      (Next(after, current) != -1 ==>
        var rest := RrFrom(after, Next(after, current), quantum);
        RrFrom(s, current, quantum) == Outcome(rest.table, amount + rest.elapsed))
  {
    RunStep(s, current, Slice(s[current].burstLeft, quantum));
  }

  /** The last three slices of the Round-Robin example below: processes 2, 0, 2 run for 4,
      1 and 4 from the table reached after the first two slices. */
  lemma RrExampleLastSlices()
    ensures RrFrom([Pcb(0, 1, 3), Pcb(1, 0, 4), Pcb(2, 8, 7)], 2, 4) ==
      Outcome([Pcb(0, 0, 7), Pcb(1, 0, 4), Pcb(2, 0, 8)], 9)
  {
    var s2 := [Pcb(0, 1, 3), Pcb(1, 0, 4), Pcb(2, 8, 7)];
    var s3 := [Pcb(0, 1, 7), Pcb(1, 0, 4), Pcb(2, 4, 7)];
    var s4 := [Pcb(0, 0, 7), Pcb(1, 0, 4), Pcb(2, 4, 8)];
    var s5 := [Pcb(0, 0, 7), Pcb(1, 0, 4), Pcb(2, 0, 8)];
    assert Run(s4, 2, 4) == s5 && Next(s5, 2) == -1;
    RrFromStep(s4, 2, 4);
    assert Run(s3, 0, 1) == s4 && Next(s4, 0) == 2;
    RrFromStep(s3, 0, 4);
    assert Run(s2, 2, 4) == s3 && Next(s3, 2) == 0;
    RrFromStep(s2, 2, 4);
  }

  /** The last four slices of the Round-Robin example below, from the table reached after
      the first slice: process 1 runs for 3, then the last three slices follow. */
  lemma RrExampleLaterSlices()
    ensures RrFrom([Pcb(0, 1, 0), Pcb(1, 3, 4), Pcb(2, 8, 4)], 1, 4) ==
      Outcome([Pcb(0, 0, 7), Pcb(1, 0, 4), Pcb(2, 0, 8)], 12)
  {
    var s1 := [Pcb(0, 1, 0), Pcb(1, 3, 4), Pcb(2, 8, 4)];
    var s2 := [Pcb(0, 1, 3), Pcb(1, 0, 4), Pcb(2, 8, 7)];
    RrExampleLastSlices();
    assert Run(s1, 1, 3) == s2 && Next(s2, 1) == 2;
    RrFromStep(s1, 1, 4);
  }

  /** Bursts 5, 3, 8 under Round-Robin with quantum 4: slices 4, 3, 4, 1, 4 for processes
      0, 1, 2, 0, 2; 16 time units, waits 7, 4 and 8. */
  lemma RrExample()
    ensures RrFrom(Initial([5, 3, 8]), 0, 4) == Outcome([Pcb(0, 0, 7), Pcb(1, 0, 4), Pcb(2, 0, 8)], 16)
  {
    var s0 := Initial([5, 3, 8]);
    assert s0 == [Pcb(0, 5, 0), Pcb(1, 3, 0), Pcb(2, 8, 0)];
    var s1 := [Pcb(0, 1, 0), Pcb(1, 3, 4), Pcb(2, 8, 4)];
    RrExampleLaterSlices();
    assert Run(s0, 0, 4) == s1 && Next(s1, 0) == 1;
    RrFromStep(s0, 0, 4);
  }
}
