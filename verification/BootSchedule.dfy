/** The order in which a bootchooser with retry works through its targets. */
module BootSchedule {
  import opened Seqs
  import opened BootStore
  import opened BootModel
  import opened BootOrder

  /** n times position k. */
  function Repeat(k: nat, n: nat): (r: seq<nat>)
    ensures |r| == n
  {
    seq(n, _ => k)
  }

  /** How often a target is tried. */
  function Tries(t: Target): nat {
    if Ok(t) then t.attempts else 0
  }

  /** Positions in the order they are tried: each OK target in list order, as often as it has attempts. */
  function Schedule(ts: seq<Target>): seq<nat> {
    if ts == [] then [] else Schedule(ts[..|ts| - 1]) + Repeat(|ts| - 1, Tries(ts[|ts| - 1]))
  }

  function TotalTries(ts: seq<Target>): nat {
    if ts == [] then 0 else TotalTries(ts[..|ts| - 1]) + Tries(ts[|ts| - 1])
  }

  lemma {:induction false} ScheduleLength(ts: seq<Target>)
    ensures |Schedule(ts)| == TotalTries(ts)
  {
    if ts != [] {
      ScheduleLength(ts[..|ts| - 1]);
    }
  }

  /** Without an OK target there is nothing to try. */
  lemma {:induction false} NothingToTry(ts: seq<Target>)
    requires forall i :: 0 <= i < |ts| ==> !Ok(ts[i])
    ensures Schedule(ts) == []
  {
    if ts != [] {
      NothingToTry(ts[..|ts| - 1]);
    }
  }

  /** The list after counting target k down. */
  function CountDown(ts: seq<Target>, k: nat): seq<Target>
    requires k < |ts| && Ok(ts[k])
  {
    ts[k := ts[k].(attempts := ts[k].attempts - 1)]
  }

  /** Picking the first OK target is the first entry of the schedule, and counting it down leaves the rest. */
  lemma {:induction false} PickIsNext(ts: seq<Target>, k: nat)
    requires k < |ts| && Ok(ts[k]) && forall i :: 0 <= i < k ==> !Ok(ts[i])
    ensures Schedule(ts) == [k] + Schedule(CountDown(ts, k))
  {
    var n := |ts| - 1;
    var t' := ts[k].(attempts := ts[k].attempts - 1);
    var ts' := ts[k := t'];
    if k == n {
      NothingToTry(ts[..n]);
      assert ts'[..n] == ts[..n];
      assert Repeat(n, Tries(ts[n])) == [n] + Repeat(n, Tries(t'));
    } else {
      PickIsNext(ts[..n], k);
      assert ts'[..n] == ts[..n][k := t'];
    }
  }

  /** Where position k sits in the schedule: behind all tries of the positions before it. */
  lemma {:induction false} ScheduleBlock(ts: seq<Target>, k: nat, j: nat)
    requires k < |ts| && j < Tries(ts[k])
    ensures TotalTries(ts[..k]) + j < |Schedule(ts)|
    ensures Schedule(ts)[TotalTries(ts[..k]) + j] == k
  {
    var n := |ts| - 1;
    ScheduleLength(ts[..n]);
    if k < n {
      ScheduleBlock(ts[..n], k, j);
      assert ts[..n][..k] == ts[..k];
    }
  }

  lemma {:induction false} ScheduleEntries(ts: seq<Target>, i: nat)
    requires i < |Schedule(ts)|
    ensures Schedule(ts)[i] < |ts| && Ok(ts[Schedule(ts)[i]])
    ensures forall j :: i <= j < |Schedule(ts)| ==> Schedule(ts)[i] <= Schedule(ts)[j]
  {
    var n := |ts| - 1;
    if i < |Schedule(ts[..n])| {
      ScheduleEntries(ts[..n], i);
    }
  }

  /** In a list with higher priorities first, no target is tried before one of higher priority. */
  lemma {:induction false} ScheduleDescends(ts: seq<Target>, i: nat, j: nat)
    requires DescendingEnabled(ts) && i < j < |Schedule(ts)|
    ensures Schedule(ts)[i] < |ts| && Schedule(ts)[j] < |ts|
    ensures ts[Schedule(ts)[i]].priority >= ts[Schedule(ts)[j]].priority
  {
    ScheduleEntries(ts, i);
    ScheduleEntries(ts, j);
  }

  /** The chooser after n rounds in which every boot fails. */
  function AfterRounds(c: Chooser, n: nat): (r: Chooser)
    ensures r.locked == c.locked && |r.targets| == |c.targets|
  {
    if n == 0 then c else
      var prev := AfterRounds(c, n - 1);
      var k := FirstOk(prev.targets);
      if k < |prev.targets| then Picked(prev, k) else prev
  }

  predicate Exhausted(c: Chooser) {
    FirstOk(c.targets) == |c.targets|
  }

  lemma {:induction false} LockedStays(c: Chooser, n: nat)
    requires c.locked
    ensures AfterRounds(c, n).targets == c.targets
  {
    if n > 0 {
      LockedStays(c, n - 1);
    }
  }

  lemma {:induction false} UnlockedCountsDown(c: Chooser, n: nat)
    requires !c.locked && n <= |Schedule(c.targets)|
    ensures Schedule(AfterRounds(c, n).targets) == Schedule(c.targets)[n..]
  {
    if n > 0 {
      UnlockedCountsDown(c, n - 1);
      var ts := AfterRounds(c, n - 1).targets;
      if FirstOk(ts) == |ts| {
        NothingToTry(ts);
      } else {
        PickIsNext(ts, FirstOk(ts));
      }
    }
  }

  /**
   With retry and failing boots, the rounds come to an end exactly if the counters are not locked or nothing was
   bootable.
   */
  lemma {:induction false} RetryEnds(c: Chooser, n: nat)
    ensures c.locked ==> (Exhausted(AfterRounds(c, n)) <==> Exhausted(c))
    ensures !c.locked ==> Exhausted(AfterRounds(c, |Schedule(c.targets)|))
  {
    if c.locked {
      LockedStays(c, n);
    } else {
      UnlockedCountsDown(c, |Schedule(c.targets)|);
      var ts := AfterRounds(c, |Schedule(c.targets)|).targets;
      if FirstOk(ts) < |ts| {
        PickIsNext(ts, FirstOk(ts));
      }
    }
  }
}
