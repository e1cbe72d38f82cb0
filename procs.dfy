/** The process control block and the table of them (the `struct pcb` array of parta.c),
    with the sums over burst lengths that every scheduling property is stated in. */
module Procs {

  /** One process control block: its identity, the CPU time it still needs, and the time
      it has spent ready but not running. */
  datatype Pcb = Pcb(pid: int, burstLeft: int, wait: int)

  /** Sum of a sequence of burst lengths. */
  function Sum(xs: seq<int>): (total: int) {
    if xs == [] then 0 else Sum(xs[..|xs| - 1]) + xs[|xs| - 1]
  }

  /** Total work still outstanding in a table: the sum of its `burstLeft` fields. */
  function Total(s: seq<Pcb>): (total: int) {
    if s == [] then 0 else Total(s[..|s| - 1]) + s[|s| - 1].burstLeft
  }

  /** Every process still needs a non-negative amount of CPU time. */
  predicate NonNegative(s: seq<Pcb>) {
    forall i :: 0 <= i < |s| ==> s[i].burstLeft >= 0
  }

  /** Every process has completed. */
  predicate Finished(s: seq<Pcb>) {
    forall i :: 0 <= i < |s| ==> s[i].burstLeft == 0
  }

  /** The table `init_procs` builds: record `i` has pid `i`, burst `bursts[i]`, no wait. */
  function Initial(bursts: seq<int>): (s: seq<Pcb>)
    ensures |s| == |bursts|
    ensures forall i :: 0 <= i < |s| ==> s[i].pid == i && s[i].burstLeft == bursts[i] && s[i].wait == 0
  {
    seq(|bursts|, i requires 0 <= i < |bursts| => Pcb(i, bursts[i], 0))
  }

  /** The work outstanding in a freshly built table is the sum of the bursts it was built from. */
  lemma {:induction false} TotalInitial(bursts: seq<int>)
    ensures Total(Initial(bursts)) == Sum(bursts)
  {
    if bursts != [] {
      var m := |bursts| - 1;
      assert Initial(bursts)[..m] == Initial(bursts[..m]);
      TotalInitial(bursts[..m]);
    }
  }

  /** Changing one record's burst by `d` (and no other burst) changes the total by `d`. */
  lemma {:induction false} TotalAfterUpdate(s: seq<Pcb>, r: seq<Pcb>, c: int, d: int)
    requires |r| == |s|
    requires forall i :: 0 <= i < |s| ==> r[i].burstLeft == s[i].burstLeft - (if i == c then d else 0)
    ensures Total(r) == Total(s) - (if 0 <= c < |s| then d else 0)
  {
    if s != [] {
      var m := |s| - 1;
      TotalAfterUpdate(s[..m], r[..m], c, d);
    }
  }

  /** With no negative bursts the outstanding work is never negative, and it is zero
      exactly when every process has completed. */
  lemma {:induction false} TotalOfNonNegative(s: seq<Pcb>)
    requires NonNegative(s)
    ensures Total(s) >= 0
    ensures Total(s) == 0 <==> Finished(s)
  {
    if s != [] {
      var m := |s| - 1;
      var p := s[..m];
      assert forall i :: 0 <= i < m ==> p[i] == s[i];
      TotalOfNonNegative(p);
      if Total(s) == 0 {
        assert Finished(p) && s[m].burstLeft == 0;
        forall i | 0 <= i < |s| ensures s[i].burstLeft == 0 {
          if i < m { assert p[i].burstLeft == 0; }
        }
      }
      if Finished(s) {
        assert Finished(p);
      }
    }
  }

  /** With no negative bursts, a longer prefix never holds less work than a shorter one. */
  lemma {:induction false} TotalPrefixGrows(s: seq<Pcb>, i: nat, j: nat)
    requires NonNegative(s) && i <= j <= |s|
    ensures Total(s[..i]) <= Total(s[..j])
    decreases j - i
  {
    if i < j {
      assert s[..j][..j - 1] == s[..j - 1];
      TotalPrefixGrows(s, i, j - 1);
    }
  }
}
