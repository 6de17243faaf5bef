/** The all-zero reset of the attempt counters always brings a bootable target back. */
module BootRecovery {
  import opened Seqs
  import opened BootStore
  import opened BootModel
  import opened BootOrder

  predicate SomeOk(ts: seq<Target>) {
    exists i :: 0 <= i < |ts| && Ok(ts[i])
  }

  predicate SomeEnabled(ts: seq<Target>) {
    exists i :: 0 <= i < |ts| && Enabled(ts[i])
  }

  /** Attempts left only on enabled targets, and every reset leaves some. */
  predicate Consistent(ts: seq<Target>) {
    forall i :: 0 <= i < |ts| ==> ts[i].defaultAttempts > 0 && (ts[i].attempts > 0 ==> Enabled(ts[i]))
  }

  lemma {:induction false} LoadConsistent(env: Env, cfg: Config, names: seq<string>)
    requires forall i :: 0 <= i < |names| ==> GetU32(env, DefaultAttempts(names[i]), cfg.defaultAttempts) > 0
    ensures Consistent(LoadAll(env, cfg, names))
  {
    if names != [] {
      LoadConsistent(env, cfg, names[..|names| - 1]);
    }
  }

  /** A re-enabled target had no attempts before, since its priority was 0, or keeps its attempts. */
  lemma {:induction false} PriorityStepConsistent(cfg: Config, ts: seq<Target>)
    requires Consistent(ts)
    requires SumPriorities(ts) < TWO32 || forall i :: 0 <= i < |ts| ==> ts[i].defaultPriority > 0
    ensures Consistent(PriorityStep(cfg, ts))
  {
    SumZero(ts);
  }

  lemma {:induction false} ZeroSum(ts: seq<Target>)
    requires SumAttempts(ts) % TWO32 != 0
    ensures exists i :: 0 <= i < |ts| && ts[i].attempts > 0
  {
    SumZero(ts);
  }

  /** After the attempt resets an OK target exists exactly if any target is enabled. */
  lemma {:induction false} AttemptsRecover(cfg: Config, resetted: bool, ts: seq<Target>)
    requires cfg.resetAllZero && Consistent(ts)
    ensures SomeOk(AttemptsStep(cfg, resetted, ts)) <==> SomeEnabled(ts)
    ensures SomeEnabled(AttemptsStep(cfg, resetted, ts)) ==> SomeEnabled(ts)
    ensures Consistent(AttemptsStep(cfg, resetted, ts))
  {
    var s := SourceStep(cfg, resetted, ts);
    var a := AllZeroStep(cfg, s);
    if SumAttempts(s) % TWO32 == 0 {
      if SomeEnabled(ts) {
        var i :| 0 <= i < |ts| && Enabled(ts[i]);
        assert Enabled(s[i]) && Ok(a[i]);
      }
    } else {
      ZeroSum(s);
      var i :| 0 <= i < |s| && s[i].attempts > 0;
      assert Ok(a[i]) && Enabled(ts[i]);
    }
    if SomeEnabled(a) {
      var i :| 0 <= i < |a| && Enabled(a[i]);
      assert Enabled(ts[i]);
    }
    if SomeOk(a) {
      var i :| 0 <= i < |a| && Ok(a[i]);
      assert Enabled(ts[i]);
    }
  }

  /** Neither the success mark nor disabling exhausted targets takes an OK target away or makes one up. */
  lemma {:induction false} LaterStepsKeepOk(env: Env, cfg: Config, successful: bool, a: seq<Target>)
    requires Consistent(a)
    ensures SomeOk(a) ==> SomeOk(DisableStep(cfg, MarkStep(a, LoadLast(env, a), successful)))
    ensures SomeOk(DisableStep(cfg, MarkStep(a, LoadLast(env, a), successful))) ==> SomeEnabled(a)
  {
    var m := MarkStep(a, LoadLast(env, a), successful);
    var d := DisableStep(cfg, m);
    if SomeOk(a) {
      var i :| 0 <= i < |a| && Ok(a[i]);
      assert m[i].attempts > 0 && Enabled(m[i]);
      assert Ok(d[i]);
    }
    if SomeOk(d) {
      var i :| 0 <= i < |d| && Ok(d[i]);
      assert Enabled(a[i]);
    }
  }

  /**
   All-zero recovery: with that reset on and positive default attempts, bootchooser_get ends with
   a bootable target exactly if some target is enabled after the priority step, whatever the other
   resets, the success mark and disable-on-zero do.
   */
  lemma {:induction false} AllZeroRecovery(env: Env, cfg: Config, resetted: bool, successful: bool)
    requires Get(env, cfg, resetted, successful).Some? && cfg.resetAllZero
    requires forall name :: name in Names(cfg.availableTargets) ==>
             GetU32(env, DefaultAttempts(name), cfg.defaultAttempts) > 0
    requires SumPriorities(LoadAll(env, cfg, Names(cfg.availableTargets))) < TWO32
          || forall name :: name in Names(cfg.availableTargets) ==>
             GetU32(env, DefaultPriority(name), cfg.defaultPriority) > 0
    ensures SomeOk(Get(env, cfg, resetted, successful).value.targets)
            <==> SomeEnabled(PriorityStep(cfg, LoadAll(env, cfg, Names(cfg.availableTargets))))
  {
    hide LoadAll, Names, PriorityStep, AttemptsStep, MarkStep, DisableStep, SomeOk, SomeEnabled, Consistent, GetU32,
         LoadLast;
    var names := Names(cfg.availableTargets);
    var ts := LoadAll(env, cfg, names);
    var p := PriorityStep(cfg, ts);
    LoadConsistent(env, cfg, names);
    LoadAllDefaults(env, cfg, names);
    PriorityStepConsistent(cfg, ts);
    AttemptsRecover(cfg, resetted, p);
    var a := AttemptsStep(cfg, resetted, p);
    LaterStepsKeepOk(env, cfg, successful, a);
  }

  lemma {:induction false} ResetEnables(cfg: Config, ts: seq<Target>)
    requires cfg.resetPrioritiesAllZero && |ts| > 0
    requires forall i :: 0 <= i < |ts| ==> ts[i].defaultPriority > 0
    ensures SomeEnabled(PriorityStep(cfg, ts))
  {
    var p := PriorityStep(cfg, ts);
    SumZero(ts);
    if PrioritiesResetFires(cfg, ts) {
      assert Enabled(p[0]);
    } else {
      var i :| 0 <= i < |ts| && ts[i].priority != 0;
      assert Enabled(p[i]);
    }
  }

  /** With both all-zero resets and positive defaults a bootable target always comes out. */
  lemma {:induction false} AlwaysBootable(env: Env, cfg: Config, resetted: bool, successful: bool)
    requires Get(env, cfg, resetted, successful).Some? && cfg.resetAllZero && cfg.resetPrioritiesAllZero
    requires forall name :: name in Names(cfg.availableTargets) ==>
               GetU32(env, DefaultAttempts(name), cfg.defaultAttempts) > 0
                 && GetU32(env, DefaultPriority(name), cfg.defaultPriority) > 0
    ensures SomeOk(Get(env, cfg, resetted, successful).value.targets)
  {
    var names := Names(cfg.availableTargets);
    AllZeroRecovery(env, cfg, resetted, successful);
    LoadAllDefaults(env, cfg, names);
    ResetEnables(cfg, LoadAll(env, cfg, names));
  }

  lemma {:induction false} LoadAllDefaults(env: Env, cfg: Config, names: seq<string>)
    ensures |LoadAll(env, cfg, names)| == |names|
    ensures (forall name :: name in names ==> GetU32(env, DefaultPriority(name), cfg.defaultPriority) > 0) ==>
              forall i :: 0 <= i < |names| ==> LoadAll(env, cfg, names)[i].defaultPriority > 0
  {
    if names != [] {
      LoadAllDefaults(env, cfg, names[..|names| - 1]);
    }
  }
}
