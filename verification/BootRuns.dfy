/** Attempt counting over any number of power cycles. */
module BootRuns {
  import opened Seqs
  import opened BootStore
  import opened BootModel
  import opened BootSave

  // ---- the machine -------------------------------------------------------------------------------------

  /** Off; on without a chooser; loaded; or a target picked and saved, about to be booted. */
  datatype Phase = Off | Idle | Ready(c: Chooser) | Armed(c: Chooser, k: nat)

  /** The stored variables and those in RAM, the boots so far, and the picks whose save failed. */
  datatype Machine = Machine(disk: Env, env: Env, phase: Phase, boots: multiset<string>, unsaved: multiset<string>)

  predicate PhaseOk(p: Phase) {
    match p
    case Off => true
    case Idle => true
    case Ready(c) => ChooserOk(c)
    case Armed(c, k) => ChooserOk(c) && k < |c.targets|
  }

  predicate PowerOn(m: Machine, m': Machine) {
    m.phase.Off? && m' == m.(phase := Idle, env := m.disk)
  }

  /** bootchooser_get loads from RAM. */
  predicate Open(cfg: Config, m: Machine, m': Machine) {
    && m.phase.Idle? && Get(m.env, cfg, false, false).Some?
    && m' == m.(phase := Ready(Get(m.env, cfg, false, false).value))
  }

  /** bootchooser_save: all is written and committed, or it stops somewhere and the stored variables stay. */
  ghost predicate Saving(m: Machine, m': Machine, c: Chooser, saved: bool)
    requires ChooserOk(c)
  {
    && Partly(m.env, c, m'.env)
    && if saved then Saves(m.env, c, m'.env) && m'.disk == m'.env else m'.disk == m.disk
  }

  /** bootchooser_get_target: count down in RAM, then save; the save's result is ignored. */
  ghost predicate Pick(m: Machine, m': Machine)
    requires PhaseOk(m.phase)
  {
    && m.phase.Ready? && FirstOk(m.phase.c.targets) < |m.phase.c.targets|
    && var k := FirstOk(m.phase.c.targets);
       PickedAs(m, m', k, Picked(m.phase.c, k), true) || PickedAs(m, m', k, Picked(m.phase.c, k), false)
  }

  ghost predicate PickedAs(m: Machine, m': Machine, k: nat, c: Chooser, saved: bool) {
    && ChooserOk(c) && k < |c.targets| && Saving(m, m', c, saved)
    && m' == Machine(m'.disk, m'.env, Armed(c, k), m.boots,
                     if saved then m.unsaved else m.unsaved + multiset{c.targets[k].name})
  }

  predicate Boot(m: Machine, m': Machine)
    requires PhaseOk(m.phase)
  {
    m.phase.Armed?
    && m' == m.(phase := Ready(m.phase.c), boots := m.boots + multiset{m.phase.c.targets[m.phase.k].name})
  }

  /** Nothing bootable is found for the picked target. */
  predicate Skip(m: Machine, m': Machine) {
    m.phase.Armed? && m' == m.(phase := Ready(m.phase.c))
  }

  /** bootchooser_put of the last reference saves once more, or fails to. */
  ghost predicate Put(m: Machine, m': Machine)
    requires PhaseOk(m.phase)
  {
    && m.phase.Ready? && (Saving(m, m', m.phase.c, true) || Saving(m, m', m.phase.c, false))
    && m' == m.(disk := m'.disk, env := m'.env, phase := Idle)
  }

  predicate PowerCut(m: Machine, m': Machine) {
    m' == m.(phase := Off)
  }

  ghost predicate Next(cfg: Config, m: Machine, m': Machine) {
    && PhaseOk(m.phase)
    && (|| PowerOn(m, m') || Open(cfg, m, m') || Pick(m, m') || Boot(m, m') || Skip(m, m') || Put(m, m')
       || PowerCut(m, m'))
  }

  /** No reset condition, no lock, distinct target names. */
  predicate Counting(cfg: Config) {
    && !cfg.resetPowerOn && !cfg.resetSrcRst && !cfg.resetAllZero && !cfg.resetPrioritiesAllZero && !cfg.attemptsLocked
    && DistinctStrings(Names(cfg.availableTargets)) && |Names(cfg.availableTargets)| < TWO32
  }

  // ---- what every step keeps ------------------------------------------------------------------------------

  /** The attempts bootchooser_get finds for a target. */
  function StoredAttempts(env: Env, cfg: Config, name: string): u32 {
    LoadTarget(env, cfg, name, 0).attempts
  }

  function Pending(p: Phase, name: string): nat
    requires PhaseOk(p)
  {
    if p.Armed? && p.c.targets[p.k].name == name then 1 else 0
  }

  /** Boots done and decided, plus what is left, never exceed what was there at first plus the unsaved ones. */
  predicate Counted(cfg: Config, first: Env, m: Machine, name: string, left: nat)
    requires PhaseOk(m.phase)
  {
    m.boots[name] + Pending(m.phase, name) + left <= StoredAttempts(first, cfg, name) + m.unsaved[name]
  }

  /** The variables do not lock the counters and leave no target more attempts than it may have. */
  ghost predicate EnvInv(cfg: Config, first: Env, m: Machine, env: Env)
    requires PhaseOk(m.phase)
  {
    GetU32(env, AttemptsLocked, 0) == 0 && forall name :: Counted(cfg, first, m, name, StoredAttempts(env, cfg, name))
  }

  ghost predicate RamInv(cfg: Config, first: Env, m: Machine, c: Chooser)
    requires PhaseOk(m.phase)
  {
    && !c.locked && DistinctNames(c.targets)
    && forall i :: 0 <= i < |c.targets| ==> Counted(cfg, first, m, c.targets[i].name, c.targets[i].attempts)
  }

  ghost predicate Inv(cfg: Config, first: Env, m: Machine) {
    && PhaseOk(m.phase) && EnvInv(cfg, first, m, m.disk)
    && (!m.phase.Off? ==> EnvInv(cfg, first, m, m.env))
    && (m.phase.Ready? || m.phase.Armed? ==> RamInv(cfg, first, m, m.phase.c))
  }

  // ---- loading and saving ----------------------------------------------------------------------------------

  /** Without resets, target i of the chooser is the loaded one, perhaps disabled. */
  lemma {:induction false} LoadedTarget(env: Env, cfg: Config, c: Chooser, i: nat)
    requires Counting(cfg) && Get(env, cfg, false, false) == Some(c) && i < |c.targets|
    ensures var names := Names(cfg.availableTargets);
            var t := c.targets[i];
            && 1 <= t.id <= |names| && t.name == names[t.id - 1] && t.attempts <= StoredAttempts(env, cfg, t.name)
            && |LoadAll(env, cfg, names)| == |c.targets| && t.id == LoadAll(env, cfg, names)[i].id
  {
    var names := Names(cfg.availableTargets);
    var ts := LoadAll(env, cfg, names);
    LoadFromNames(env, cfg, names);
    assert |c.targets| == |ts| && c.targets[i].attempts <= ts[i].attempts;
    hide Finished, LoadAll, Names;
    assert ts[i] in ts;
  }

  /** A power-on loads the stored attempts or fewer. */
  lemma {:induction false} LoadedChooser(env: Env, cfg: Config, c: Chooser)
    requires Counting(cfg) && Get(env, cfg, false, false) == Some(c) && GetU32(env, AttemptsLocked, 0) == 0
    ensures ChooserOk(c) && !c.locked && DistinctNames(c.targets)
    ensures forall i :: 0 <= i < |c.targets| ==> c.targets[i].attempts <= StoredAttempts(env, cfg, c.targets[i].name)
  {
    LoadFromNames(env, cfg, Names(cfg.availableTargets));
    assert !c.locked && (c.last.Some? ==> c.last.value < |c.targets|);
    hide Names, LoadAll, Finished, Get, StoredAttempts;
    forall i | 0 <= i < |c.targets|
      ensures 0 < c.targets[i].id < TWO32
      ensures c.targets[i].attempts <= StoredAttempts(env, cfg, c.targets[i].name)
    {
      LoadedTarget(env, cfg, c, i);
    }
    forall i, j | 0 <= i < j < |c.targets|
      ensures c.targets[i].name != c.targets[j].name
    {
      LoadedTarget(env, cfg, c, i);
      LoadedTarget(env, cfg, c, j);
    }
  }

  /** A target's variables after all of ts were written. */
  lemma {:induction false} TargetsWritten(env: Env, cfg: Config, ts: seq<Target>, name: string)
    requires DistinctNames(ts)
    ensures GetU32(SaveTargets(env, ts), AttemptsLocked, 0) == GetU32(env, AttemptsLocked, 0)
    ensures var now := StoredAttempts(SaveTargets(env, ts), cfg, name);
            || now == StoredAttempts(env, cfg, name)
            || exists k :: 0 <= k < |ts| && ts[k].name == name && now <= ts[k].attempts
  {
    SaveTargetsOther(env, ts, AttemptsLocked);
    SaveTargetsOther(env, ts, DefaultAttempts(name));
    SaveTargetsOther(env, ts, DefaultPriority(name));
    if k :| 0 <= k < |ts| && ts[k].name == name {
      SaveTargetsGet(env, ts, k);
      FormatParse(ts[k].attempts);
    } else {
      SaveTargetsOther(env, ts, RemainingAttempts(name));
      SaveTargetsOther(env, ts, Priority(name));
    }
  }

  /** The same after one more counter. */
  lemma {:induction false} CounterWritten(env: Env, cfg: Config, t: Target, name: string)
    ensures var env' := env[RemainingAttempts(t.name) := FormatInt(t.attempts)];
            && GetU32(env', AttemptsLocked, 0) == GetU32(env, AttemptsLocked, 0)
            && (t.name != name ==> StoredAttempts(env', cfg, name) == StoredAttempts(env, cfg, name))
            && (t.name == name ==> StoredAttempts(env', cfg, name) <= t.attempts)
  {
    FormatParse(t.attempts);
  }

  /** And wherever writing the targets stops. */
  lemma {:induction false} WrittenAttempts(env: Env, cfg: Config, ts: seq<Target>, env': Env, i: nat, name: string)
    requires DistinctNames(ts) && Written(env, ts, env', i)
    ensures GetU32(env', AttemptsLocked, 0) == GetU32(env, AttemptsLocked, 0)
    ensures StoredAttempts(env', cfg, name) == StoredAttempts(env, cfg, name)
         || exists k :: 0 <= k < |ts| && ts[k].name == name && StoredAttempts(env', cfg, name) <= ts[k].attempts
  {
    hide StoredAttempts, GetU32, SaveTargets;
    TargetsWritten(env, cfg, ts[..i], name);
    if i < |ts| {
      CounterWritten(SaveTargets(env, ts[..i]), cfg, ts[i], name);
    }
    assert forall k :: 0 <= k < i ==> ts[..i][k] == ts[k];
  }

  /** Wherever a save stops, a name has the attempts it had or at most those in RAM. */
  lemma {:induction false} PartlyAttempts(env: Env, cfg: Config, c: Chooser, env': Env, name: string)
    requires ChooserOk(c) && DistinctNames(c.targets) && Partly(env, c, env')
    ensures GetU32(env', AttemptsLocked, 0) == GetU32(env, AttemptsLocked, 0)
    ensures StoredAttempts(env', cfg, name) == StoredAttempts(env, cfg, name)
         || exists k :: 0 <= k < |c.targets| && c.targets[k].name == name &&
                        StoredAttempts(env', cfg, name) <= c.targets[k].attempts
  {
    var i: nat :| Written(env, c.targets, env', i) || Written(SaveLast(env, c), c.targets, env', i);
    var base := if Written(env, c.targets, env', i) then env else SaveLast(env, c);
    WrittenAttempts(base, cfg, c.targets, env', i, name);
  }

  /** A complete save leaves at most the attempts in RAM. */
  lemma {:induction false} SavedAttempts(env: Env, cfg: Config, c: Chooser, env': Env, k: nat)
    requires ChooserOk(c) && DistinctNames(c.targets) && Saves(env, c, env') && k < |c.targets|
    ensures StoredAttempts(env', cfg, c.targets[k].name) <= c.targets[k].attempts
  {
    SaveThenLoad(env, cfg, c, env', k, 0);
  }

  // ---- step by step --------------------------------------------------------------------------------------------

  lemma {:induction false} OpenKeeps(cfg: Config, first: Env, m: Machine, m': Machine)
    requires Counting(cfg) && Inv(cfg, first, m) && Open(cfg, m, m')
    ensures Inv(cfg, first, m')
  {
    var c := m'.phase.c;
    LoadedChooser(m.env, cfg, c);
    hide Get, StoredAttempts;
    SameCounts(cfg, first, m, m');
    forall i | 0 <= i < |c.targets|
      ensures Counted(cfg, first, m', c.targets[i].name, c.targets[i].attempts)
    {
      assert Counted(cfg, first, m, c.targets[i].name, StoredAttempts(m.env, cfg, c.targets[i].name));
    }
  }

  /** What was counted stays counted if boots, decided boots and failed saves change in step. */
  lemma {:induction false} SameCounts(cfg: Config, first: Env, m: Machine, m': Machine)
    requires PhaseOk(m.phase) && PhaseOk(m'.phase)
    requires forall name :: m'.boots[name] + Pending(m'.phase, name) + m.unsaved[name]
                         <= m.boots[name] + Pending(m.phase, name) + m'.unsaved[name]
    ensures forall name, left: nat :: Counted(cfg, first, m, name, left) ==> Counted(cfg, first, m', name, left)
    ensures forall env :: EnvInv(cfg, first, m, env) ==> EnvInv(cfg, first, m', env)
    ensures forall c :: RamInv(cfg, first, m, c) ==> RamInv(cfg, first, m', c)
  {
  }

  /** Counting down in RAM pays for the boot that is now decided, whether or not it was saved. */
  lemma {:induction false} PickKeepsRam(cfg: Config, first: Env, m: Machine, m': Machine, saved: bool)
    requires Inv(cfg, first, m) && m.phase.Ready? && FirstOk(m.phase.c.targets) < |m.phase.c.targets|
    requires var k := FirstOk(m.phase.c.targets); PickedAs(m, m', k, Picked(m.phase.c, k), saved)
    ensures PhaseOk(m'.phase) && RamInv(cfg, first, m', m'.phase.c)
  {
    hide StoredAttempts;
    var ts, k := m.phase.c.targets, FirstOk(m.phase.c.targets);
    var c := m'.phase.c;
    forall i | 0 <= i < |c.targets|
      ensures Counted(cfg, first, m', c.targets[i].name, c.targets[i].attempts)
    {
      assert Counted(cfg, first, m, ts[i].name, ts[i].attempts);
      assert i != k ==> ts[i].name != ts[k].name;
    }
  }

  /** A save keeps the variables in bounds: those it wrote are as in RAM, the others as before. */
  lemma {:induction false} SaveKeepsEnv(cfg: Config, first: Env, m: Machine, m': Machine, c: Chooser, saved: bool)
    requires PhaseOk(m.phase) && PhaseOk(m'.phase) && EnvInv(cfg, first, m, m.env) && EnvInv(cfg, first, m, m.disk)
    requires ChooserOk(c) && RamInv(cfg, first, m', c) && Saving(m, m', c, saved)
    requires forall name :: (m'.boots[name] + Pending(m'.phase, name) + m.unsaved[name]
                             <= m.boots[name] + Pending(m.phase, name) + m'.unsaved[name])
                         || (saved && exists k :: 0 <= k < |c.targets| && c.targets[k].name == name)
    ensures EnvInv(cfg, first, m', m'.env) && (saved ==> EnvInv(cfg, first, m', m'.disk))
  {
    hide StoredAttempts, Partly, Saves, Pending;
    PartlyAttempts(m.env, cfg, c, m'.env, "");
    forall name
      ensures Counted(cfg, first, m', name, StoredAttempts(m'.env, cfg, name))
    {
      assert Counted(cfg, first, m, name, StoredAttempts(m.env, cfg, name));
      PartlyAttempts(m.env, cfg, c, m'.env, name);
      if saved {
        if k :| 0 <= k < |c.targets| && c.targets[k].name == name {
          SavedAttempts(m.env, cfg, c, m'.env, k);
          assert Counted(cfg, first, m', c.targets[k].name, c.targets[k].attempts);
        }
      }
      if k :| 0 <= k < |c.targets| && c.targets[k].name == name &&
              StoredAttempts(m'.env, cfg, name) <= c.targets[k].attempts {
        assert Counted(cfg, first, m', c.targets[k].name, c.targets[k].attempts);
      }
    }
  }

  lemma {:induction false} PickKeeps(cfg: Config, first: Env, m: Machine, m': Machine)
    requires Inv(cfg, first, m) && Pick(m, m')
    ensures Inv(cfg, first, m')
  {
    var k := FirstOk(m.phase.c.targets);
    var c := Picked(m.phase.c, k);
    var saved := PickedAs(m, m', k, c, true);
    PickKeepsRam(cfg, first, m, m', saved);
    hide EnvInv, RamInv, Saving, FirstOk;
    assert c.targets[k].name == m.phase.c.targets[k].name;
    SaveKeepsEnv(cfg, first, m, m', c, saved);
    if !saved {
      SameCounts(cfg, first, m, m');
      assert m'.disk == m.disk by { UnsavedDisk(m, m', c); }
    }
  }

  lemma {:induction false} UnsavedDisk(m: Machine, m': Machine, c: Chooser)
    requires ChooserOk(c) && Saving(m, m', c, false)
    ensures m'.disk == m.disk
  {
  }

  lemma {:induction false} PutKeeps(cfg: Config, first: Env, m: Machine, m': Machine)
    requires Inv(cfg, first, m) && Put(m, m')
    ensures Inv(cfg, first, m')
  {
    var c := m.phase.c;
    var saved := Saving(m, m', c, true);
    hide EnvInv, RamInv, Saving;
    SameCounts(cfg, first, m, m');
    SaveKeepsEnv(cfg, first, m, m', c, saved);
    if !saved {
      UnsavedDisk(m, m', c);
    }
  }

  lemma {:induction false} NextKeeps(cfg: Config, first: Env, m: Machine, m': Machine)
    requires Counting(cfg) && Inv(cfg, first, m) && Next(cfg, m, m')
    ensures Inv(cfg, first, m')
  {
    if Open(cfg, m, m') {
      OpenKeeps(cfg, first, m, m');
    } else if Pick(m, m') {
      PickKeeps(cfg, first, m, m');
    } else if Put(m, m') {
      PutKeeps(cfg, first, m, m');
    } else {
      hide EnvInv, RamInv, Open, Pick, Put;
      SameCounts(cfg, first, m, m');
    }
  }

  /** A run starts switched off and takes one step after another; it may be cut at any point. */
  ghost predicate IsRun(cfg: Config, first: Env, run: seq<Machine>) {
    && |run| > 0 && run[0] == Machine(first, first, Off, multiset{}, multiset{})
    && forall i :: 0 <= i < |run| - 1 ==> Next(cfg, run[i], run[i + 1])
  }

  lemma {:induction false} RunKeeps(cfg: Config, first: Env, run: seq<Machine>, i: nat)
    requires Counting(cfg) && GetU32(first, AttemptsLocked, 0) == 0 && IsRun(cfg, first, run) && i < |run|
    ensures Inv(cfg, first, run[i])
  {
    if i == 0 {
      assert forall name :: Counted(cfg, first, run[0], name, StoredAttempts(first, cfg, name));
    } else {
      RunKeeps(cfg, first, run, i - 1);
      assert Next(cfg, run[i - 1], run[i - 1 + 1]);
      NextKeeps(cfg, first, run[i - 1], run[i]);
    }
  }

  /**
   Crash-safe counting: over any number of power cycles, cut anywhere, a target is booted at most
   as often as its stored attempts said at first, plus once for every save that failed before a boot of it.
   */
  lemma {:induction false} BootsBounded(cfg: Config, first: Env, run: seq<Machine>, name: string)
    requires Counting(cfg) && GetU32(first, AttemptsLocked, 0) == 0 && IsRun(cfg, first, run)
    ensures var m := run[|run| - 1];
            m.boots[name] + StoredAttempts(m.disk, cfg, name) <= StoredAttempts(first, cfg, name) + m.unsaved[name]
  {
    RunKeeps(cfg, first, run, |run| - 1);
    var m := run[|run| - 1];
    assert Counted(cfg, first, m, name, StoredAttempts(m.disk, cfg, name));
  }
}
