/** In which order the targets of a loaded bootchooser are tried. */
module BootOrder {
  import opened Seqs
  import opened BootStore
  import opened BootModel

  predicate Descending(ts: seq<Target>) {
    forall i, j :: 0 <= i < j < |ts| ==> ts[i].priority >= ts[j].priority
  }

  /** Among the enabled targets, a higher priority comes first. */
  predicate DescendingEnabled(ts: seq<Target>) {
    forall i, j :: 0 <= i < j < |ts| && Enabled(ts[i]) && Enabled(ts[j]) ==> ts[i].priority >= ts[j].priority
  }

  lemma {:induction false} InsertSplits(ts: seq<Target>, t: Target)
    requires Descending(ts)
    ensures var k := InsertPosition(ts, t);
            && (forall i :: 0 <= i < k ==> ts[i].priority >= t.priority)
            && (forall i :: k <= i < |ts| ==> ts[i].priority < t.priority)
  {
    if ts != [] && ts[0].priority >= t.priority {
      InsertSplits(ts[1..], t);
    }
  }

  lemma {:induction false} InsertDescending(ts: seq<Target>, t: Target)
    requires Descending(ts)
    ensures Descending(Insert(ts, t))
  {
    InsertSplits(ts, t);
  }

  lemma {:induction false} LoadDescending(env: Env, cfg: Config, names: seq<string>)
    ensures Descending(LoadAll(env, cfg, names))
  {
    if names != [] {
      var n := |names| - 1;
      LoadDescending(env, cfg, names[..n]);
      InsertDescending(LoadAll(env, cfg, names[..n]), LoadTarget(env, cfg, names[n], n + 1));
    }
  }

  /** r came from ts by changing attempts and disabling. */
  predicate OnlyDisabled(ts: seq<Target>, r: seq<Target>) {
    |r| == |ts| && forall i :: 0 <= i < |ts| ==> r[i].priority == ts[i].priority || r[i].priority == 0
  }

  lemma {:induction false} LaterStepsOnlyDisable(env: Env, cfg: Config, resetted: bool, successful: bool,
                                                 ts: seq<Target>)
    ensures var a := AttemptsStep(cfg, resetted, ts);
            OnlyDisabled(ts, DisableStep(cfg, MarkStep(a, LoadLast(env, a), successful)))
  {
  }

  /** The list is in descending order of priority unless the all-zero priority reset fired. */
  lemma {:induction false} OrderKept(env: Env, cfg: Config, resetted: bool, successful: bool)
    requires Get(env, cfg, resetted, successful).Some?
    requires !PrioritiesResetFires(cfg, LoadAll(env, cfg, Names(cfg.availableTargets)))
    ensures DescendingEnabled(Get(env, cfg, resetted, successful).value.targets)
  {
    var ts := LoadAll(env, cfg, Names(cfg.availableTargets));
    LoadDescending(env, cfg, Names(cfg.availableTargets));
    LaterStepsOnlyDisable(env, cfg, resetted, successful, ts);
  }

  /** The attempt counters of the enabled targets are set to their defaults. */
  predicate Refilled(cfg: Config, resetted: bool, ts: seq<Target>) {
    SourceReset(cfg, resetted) || (cfg.resetAllZero && SumAttempts(ts) % TWO32 == 0)
  }

  /** A loaded target that is enabled in the end if the priority reset fires. */
  predicate Revived(env: Env, cfg: Config, resetted: bool, successful: bool, ts: seq<Target>, i: nat)
    requires i < |ts|
  {
    && ts[i].defaultPriority > 0
    && (cfg.disableOnZeroAttempts ==>
          if Refilled(cfg, resetted, ts) || (successful && LoadLast(env, ts) == Some(i)) then ts[i].defaultAttempts > 0
          else ts[i].attempts > 0)
  }

  /** The default priorities of the revived targets happen to descend. */
  predicate DefaultsDescend(env: Env, cfg: Config, resetted: bool, successful: bool, ts: seq<Target>) {
    forall i, j ::
      0 <= i < j < |ts| && Revived(env, cfg, resetted, successful, ts, i)
        && Revived(env, cfg, resetted, successful, ts, j) ==>
        ts[i].defaultPriority >= ts[j].defaultPriority
  }

  lemma {:induction false} SameIds(a: seq<Target>, b: seq<Target>, id: nat)
    requires SameTargets(a, b)
    ensures ById(a, id) == ById(b, id)
  {
    if a != [] {
      SameIds(a[1..], b[1..], id);
    }
  }

  lemma {:induction false} SameSum(a: seq<Target>, b: seq<Target>)
    requires |a| == |b| && forall i :: 0 <= i < |a| ==> a[i].attempts == b[i].attempts
    ensures SumAttempts(a) == SumAttempts(b)
  {
    if a != [] {
      SameSum(a[..|a| - 1], b[..|b| - 1]);
    }
  }

  /** Attempts of an enabled target after the two attempt resets. */
  lemma {:induction false} AttemptsAfter(cfg: Config, resetted: bool, ts: seq<Target>, p: seq<Target>, i: nat)
    requires i < |ts| && p == Each(ResetPriority, ts)
    ensures var t := AttemptsStep(cfg, resetted, p)[i];
            && t.priority == ts[i].defaultPriority && t.defaultAttempts == ts[i].defaultAttempts
            && (t.priority > 0 ==>
               t.attempts == if Refilled(cfg, resetted, ts) then ts[i].defaultAttempts else ts[i].attempts)
  {
    SameSum(ts, p);
    hide SumAttempts;
  }

  /** The priority each target ends with when the priority reset fires. */
  lemma {:induction false} PriorityAfter(env: Env, cfg: Config, resetted: bool, successful: bool, ts: seq<Target>,
                                         locked: bool, i: nat)
    requires i < |ts| && PrioritiesResetFires(cfg, ts)
    ensures Finished(env, cfg, resetted, successful, ts, locked).targets[i].priority
         == if Revived(env, cfg, resetted, successful, ts, i) then ts[i].defaultPriority else 0
  {
    hide AttemptsStep, PrioritiesResetFires, Refilled, SumAttempts, SumPriorities;
    var p := Each(ResetPriority, ts);
    var a := AttemptsStep(cfg, resetted, p);
    AttemptsAfter(cfg, resetted, ts, p, i);
    SameIds(ts, a, GetU32(env, LastChosen, 0));
  }

  /**
   The order is right exactly if the priority reset did not fire or the default priorities of the targets it
   revives happen to descend.
   */
  lemma {:induction false} OrderExact(env: Env, cfg: Config, resetted: bool, successful: bool)
    requires Get(env, cfg, resetted, successful).Some?
    ensures var ts := LoadAll(env, cfg, Names(cfg.availableTargets));
            DescendingEnabled(Get(env, cfg, resetted, successful).value.targets)
            <==> !PrioritiesResetFires(cfg, ts) || DefaultsDescend(env, cfg, resetted, successful, ts)
  {
    var ts := LoadAll(env, cfg, Names(cfg.availableTargets));
    if !PrioritiesResetFires(cfg, ts) {
      OrderKept(env, cfg, resetted, successful);
    } else {
      hide LoadAll, Names, PrioritiesResetFires, Finished, Revived;
      var r := Get(env, cfg, resetted, successful).value.targets;
      forall i | 0 <= i < |ts|
        ensures r[i].priority == if Revived(env, cfg, resetted, successful, ts, i) then ts[i].defaultPriority else 0
      {
        PriorityAfter(env, cfg, resetted, successful, ts, Locked(env, cfg), i);
      }
      RevivedOrder(env, cfg, resetted, successful, ts, r);
    }
  }

  lemma {:induction false} RevivedOrder(env: Env, cfg: Config, resetted: bool, successful: bool, ts: seq<Target>,
                                        r: seq<Target>)
    requires |r| == |ts|
    requires forall i :: 0 <= i < |ts| ==>
               r[i].priority == if Revived(env, cfg, resetted, successful, ts, i) then ts[i].defaultPriority else 0
    ensures DescendingEnabled(r) <==> DefaultsDescend(env, cfg, resetted, successful, ts)
  {
    assert forall i :: 0 <= i < |ts| ==> (Enabled(r[i]) <==> Revived(env, cfg, resetted, successful, ts, i));
    hide Refilled, LoadLast;
  }

  lemma {:induction false} InsertBehindEqual(ts: seq<Target>, t: Target)
    requires forall i :: 0 <= i < |ts| ==> ts[i].priority >= t.priority
    ensures Insert(ts, t) == ts + [t]
  {
    PositionAtEnd(ts, t);
  }

  lemma {:induction false} PositionAtEnd(ts: seq<Target>, t: Target)
    requires forall i :: 0 <= i < |ts| ==> ts[i].priority >= t.priority
    ensures InsertPosition(ts, t) == |ts|
  {
    if ts != [] {
      PositionAtEnd(ts[1..], t);
    }
  }

  /** When every stored priority is 0 the list is in configured order, and the reset leaves it so. */
  lemma {:induction false} AllDisabledKeepsOrder(env: Env, cfg: Config, names: seq<string>)
    requires forall i :: 0 <= i < |names| ==> LoadTarget(env, cfg, names[i], i + 1).priority == 0
    ensures |LoadAll(env, cfg, names)| == |names|
    ensures forall i :: 0 <= i < |names| ==> LoadAll(env, cfg, names)[i] == LoadTarget(env, cfg, names[i], i + 1)
  {
    if names != [] {
      var n := |names| - 1;
      AllDisabledKeepsOrder(env, cfg, names[..n]);
      InsertBehindEqual(LoadAll(env, cfg, names[..n]), LoadTarget(env, cfg, names[n], n + 1));
    }
  }

  lemma {:induction false} TwoNames()
    ensures Names("a b") == ["a", "b"]
  {
    var s := "a b";
    assert TokenLength(s) == 1 by {
      assert s[1..] == " b";
    }
    assert s[..1] == "a" && s[2..] == "b";
    assert TokenLength("b") == 1 by {
      assert "b"[1..] == [];
    }
  }

  lemma {:induction false} TwoDisabledTargets(env: Env, cfg: Config)
    requires env == map[Priority("a") := "0", Priority("b") := "0",
                        DefaultPriority("a") := "1", DefaultPriority("b") := "2"]
    ensures var ts := LoadAll(env, cfg, ["a", "b"]);
            |ts| == 2 && ts[0].priority == ts[1].priority == 0 && ts[0].defaultPriority == 1
              && ts[1].defaultPriority == 2
  {
    var names := ["a", "b"];
    FormatParse(0);
    FormatParse(1);
    FormatParse(2);
    assert FormatInt(0) == "0" && FormatInt(1) == "1" && FormatInt(2) == "2";
    AllDisabledKeepsOrder(env, cfg, names);
    assert names[0] == "a" && names[1] == "b";
  }

  /**
   The reset re-enables with default priorities but does not sort again: a target of priority 1 comes before one of
   priority 2.
   */
  lemma {:induction false} ResetDoesNotSort(cfg: Config) returns (env: Env)
    requires cfg.availableTargets == "a b" && cfg.resetPrioritiesAllZero && !cfg.disableOnZeroAttempts
    ensures Get(env, cfg, false, false).Some? && !DescendingEnabled(Get(env, cfg, false, false).value.targets)
  {
    env := map[Priority("a") := "0", Priority("b") := "0", DefaultPriority("a") := "1", DefaultPriority("b") := "2"];
    TwoNames();
    TwoDisabledTargets(env, cfg);
    var ts := LoadAll(env, cfg, ["a", "b"]);
    SumZero(ts);
    assert Revived(env, cfg, false, false, ts, 0) && Revived(env, cfg, false, false, ts, 1);
    OrderExact(env, cfg, false, false);
  }

  /** Sums that fit 32 bits are zero exactly if every summand is. */
  lemma {:induction false} SumZero(ts: seq<Target>)
    ensures SumPriorities(ts) == 0 <==> forall i :: 0 <= i < |ts| ==> ts[i].priority == 0
    ensures SumAttempts(ts) == 0 <==> forall i :: 0 <= i < |ts| ==> ts[i].attempts == 0
  {
    if ts != [] {
      SumZero(ts[..|ts| - 1]);
    }
  }
}
