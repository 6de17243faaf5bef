/** What bootchooser_get finds, said through the variables alone. */
module BootLoad {
  import opened Seqs
  import opened BootStore
  import opened BootModel
  import opened BootOrder
  import opened BootSave

  // ---- the configured names --------------------------------------------------------------------------------

  predicate Word(s: string) {
    s != [] && ' ' !in s
  }

  /** Names with one space between them. */
  function Spaced(names: seq<string>): string {
    if names == [] then "" else if |names| == 1 then names[0] else names[0] + " " + Spaced(names[1..])
  }

  lemma {:induction false} TokenIs(s: string, rest: string)
    requires ' ' !in s
    ensures TokenLength(s) == |s| && TokenLength(s + " " + rest) == |s|
  {
    if s != [] {
      TokenIs(s[1..], rest);
      assert (s + " " + rest)[1..] == s[1..] + " " + rest;
    }
  }

  lemma {:induction false} FirstName(name: string, tail: string)
    requires Word(name)
    ensures Names(name + " " + tail) == [name] + Names(tail) && Names(name) == [name] && Names(" " + tail) == []
  {
    TokenIs(name, tail);
    var s := name + " " + tail;
    assert s[..|name|] == name && s[|name| + 1..] == tail;
  }

  lemma {:induction false} NoNames()
    ensures Names(Spaced([])) == []
  {
  }

  lemma {:induction false} SpacedNext(names: seq<string>, rest: string)
    requires names != []
    ensures if |names| == 1 then names == [names[0]] && Spaced(names) == names[0] && Spaced([]) == ""
            else Spaced(names) == names[0] + " " + Spaced(names[1..])
    ensures |names| > 1 ==> Spaced(names) + rest == names[0] + " " + (Spaced(names[1..]) + rest)
  {
  }

  /** The list of targets is read as it was written; behind a second space in a row nothing is read. */
  lemma {:induction false} NamesRead(names: seq<string>, rest: string)
    requires forall i :: 0 <= i < |names| ==> Word(names[i])
    ensures Names(Spaced(names)) == names
    ensures names != [] ==> Names(Spaced(names) + "  " + rest) == names
  {
    hide *;
    if names == [] {
      NoNames();
      return;
    }
    var name := names[0];
    SpacedNext(names, "  " + rest);
    assert Spaced(names) + "  " + rest == Spaced(names) + ("  " + rest);
    if |names| == 1 {
      FirstName(name, " " + rest);
      FirstName(name, rest);
      assert name + "  " + rest == name + " " + (" " + rest);
    } else {
      var more := Spaced(names[1..]);
      NamesRead(names[1..], rest);
      FirstName(name, more);
      FirstName(name, more + ("  " + rest));
      assert more + ("  " + rest) == more + "  " + rest;
      assert [name] + names[1..] == names;
    }
  }

  // ---- values of variables ---------------------------------------------------------------------------------

  /** A variable, or what stands in for it. */
  function Setting(env: Env, key: Key, otherwise: u32): u32 {
    if key in env then ParseU32(env[key]) else otherwise
  }

  function OwnPriority(env: Env, cfg: Config, name: string): u32 {
    Setting(env, DefaultPriority(name), cfg.defaultPriority)
  }

  function OwnAttempts(env: Env, cfg: Config, name: string): u32 {
    Setting(env, DefaultAttempts(name), cfg.defaultAttempts)
  }

  function StoredPriority(env: Env, cfg: Config, name: string): u32 {
    Setting(env, Priority(name), OwnPriority(env, cfg, name))
  }

  function Remaining(env: Env, cfg: Config, name: string): u32 {
    if StoredPriority(env, cfg, name) == 0 then 0
    else Setting(env, RemainingAttempts(name), OwnAttempts(env, cfg, name))
  }

  /** Target i of a loaded list says what the variables of its name say. */
  lemma {:induction false} LoadedValues(env: Env, cfg: Config, names: seq<string>, i: nat)
    requires i < |LoadAll(env, cfg, names)|
    ensures var t := LoadAll(env, cfg, names)[i];
            && 1 <= t.id <= |names| && t.name == names[t.id - 1]
            && t.defaultPriority == OwnPriority(env, cfg, t.name) && t.defaultAttempts == OwnAttempts(env, cfg, t.name)
            && t.priority == StoredPriority(env, cfg, t.name) && t.attempts == Remaining(env, cfg, t.name)
  {
    var ts := LoadAll(env, cfg, names);
    LoadFromNames(env, cfg, names);
    assert ts[i] in ts;
    hide LoadAll;
  }

  // ---- resets ---------------------------------------------------------------------------------------------------

  /** The reset source is one that refills the counters, and they have not been refilled since power-on. */
  predicate RefillsBySource(cfg: Config, resetted: bool) {
    && !resetted
    && match cfg.source
       case PowerOn => cfg.resetPowerOn
       case ResetLine => cfg.resetSrcRst
       case OtherSource => false
  }

  /** The counters are refilled: by the reset source, or because all are at 0 (as a sum in 32 bits). */
  predicate Refills(env: Env, cfg: Config, resetted: bool, names: seq<string>) {
    RefillsBySource(cfg, resetted) || (cfg.resetAllZero && SumAttempts(LoadAll(env, cfg, names)) % TWO32 == 0)
  }

  /** The priority before targets without attempts are disabled. */
  function GivenPriority(env: Env, cfg: Config, names: seq<string>, name: string): u32 {
    if cfg.resetPrioritiesAllZero && SumPriorities(LoadAll(env, cfg, names)) % TWO32 == 0
    then OwnPriority(env, cfg, name) else StoredPriority(env, cfg, name)
  }

  /** The target with this number was chosen last and booted. */
  predicate Booted(env: Env, successful: bool, id: nat) {
    successful && LastChosen in env && ParseU32(env[LastChosen]) == id
  }

  /** The attempts: refilled if the target is enabled, or if it booted last time; what is left otherwise. */
  function GivenAttempts(env: Env, cfg: Config, resetted: bool, successful: bool, names: seq<string>, id: nat): u32
    requires 1 <= id <= |names|
  {
    var name := names[id - 1];
    if Booted(env, successful, id) then OwnAttempts(env, cfg, name)
    else if Refills(env, cfg, resetted, names) && GivenPriority(env, cfg, names, name) != 0
    then OwnAttempts(env, cfg, name)
    else Remaining(env, cfg, name)
  }

  lemma {:induction false} PriorityStepAt(env: Env, cfg: Config, names: seq<string>, i: nat)
    requires i < |LoadAll(env, cfg, names)|
    ensures var loaded := LoadAll(env, cfg, names);
            var t := PriorityStep(cfg, loaded)[i];
            t == loaded[i].(priority := GivenPriority(env, cfg, names, loaded[i].name))
  {
    LoadedValues(env, cfg, names, i);
    hide LoadAll, Setting, SumPriorities;
  }

  lemma {:induction false} AttemptsStepAt(cfg: Config, resetted: bool, ts: seq<Target>, i: nat)
    requires i < |ts|
    ensures var refill := RefillsBySource(cfg, resetted) || (cfg.resetAllZero && SumAttempts(ts) % TWO32 == 0);
            AttemptsStep(cfg, resetted, ts)[i]
            == ts[i].(attempts := if refill && ts[i].priority != 0 then ts[i].defaultAttempts else ts[i].attempts)
  {
    hide SumAttempts;
  }

  lemma {:induction false} SumUnchanged(cfg: Config, ts: seq<Target>)
    ensures SumAttempts(PriorityStep(cfg, ts)) == SumAttempts(ts)
  {
    SameSum(ts, PriorityStep(cfg, ts));
  }

  /** Attempts and priority of target i before the success mark. */
  lemma {:induction false} StepValues(env: Env, cfg: Config, resetted: bool, names: seq<string>, i: nat)
    requires i < |LoadAll(env, cfg, names)|
    ensures var loaded := LoadAll(env, cfg, names);
            var t := AttemptsStep(cfg, resetted, PriorityStep(cfg, loaded))[i];
            && 1 <= t.id <= |names| && t.name == names[t.id - 1] && t.id == loaded[i].id
            && t.defaultAttempts == OwnAttempts(env, cfg, t.name)
            && t.priority == GivenPriority(env, cfg, names, t.name)
            && t.attempts == if Refills(env, cfg, resetted, names) && t.priority != 0
                             then OwnAttempts(env, cfg, t.name) else Remaining(env, cfg, t.name)
  {
    var loaded := LoadAll(env, cfg, names);
    LoadedValues(env, cfg, names, i);
    PriorityStepAt(env, cfg, names, i);
    AttemptsStepAt(cfg, resetted, PriorityStep(cfg, loaded), i);
    SumUnchanged(cfg, loaded);
    hide LoadAll, SumAttempts, PriorityStep, AttemptsStep, RefillsBySource, OwnAttempts, Remaining, GivenPriority;
  }

  /** The success mark goes to the target whose number is stored, if there is one. */
  lemma {:induction false} MarkAt(env: Env, ts: seq<Target>, successful: bool, i: nat)
    requires i < |ts| && forall k, j :: 0 <= k < j < |ts| ==> ts[k].id != ts[j].id
    requires forall k :: 0 <= k < |ts| ==> ts[k].id > 0
    ensures MarkStep(ts, LoadLast(env, ts), successful)[i]
         == if Booted(env, successful, ts[i].id) then ts[i].(attempts := ts[i].defaultAttempts) else ts[i]
  {
    hide ParseU32;
  }

  /** Each target is what its variables, the resets and the last boot say. */
  lemma {:induction false} GetValues(env: Env, cfg: Config, resetted: bool, successful: bool, c: Chooser, i: nat)
    requires Get(env, cfg, resetted, successful) == Some(c) && i < |c.targets|
    ensures var names := Names(cfg.availableTargets);
            var t := c.targets[i];
            && 1 <= t.id <= |names| && t.name == names[t.id - 1]
            && t.attempts == GivenAttempts(env, cfg, resetted, successful, names, t.id)
            && t.priority == if cfg.disableOnZeroAttempts && t.attempts == 0 then 0
                             else GivenPriority(env, cfg, names, t.name)
  {
    hide *;
    var names := Names(cfg.availableTargets);
    var loaded := LoadAll(env, cfg, names);
    var ts := AttemptsStep(cfg, resetted, PriorityStep(cfg, loaded));
    GetIs(env, cfg, resetted, successful, c);
    FinishedAt(env, cfg, resetted, successful, loaded, Locked(env, cfg), i);
    StepValues(env, cfg, resetted, names, i);
    IdsApart(env, cfg, names, ts);
    MarkAt(env, ts, successful, i);
    GivenIs(env, cfg, resetted, successful, names, ts[i].id);
  }

  lemma {:induction false} GetIs(env: Env, cfg: Config, resetted: bool, successful: bool, c: Chooser)
    requires Get(env, cfg, resetted, successful) == Some(c)
    ensures var names := Names(cfg.availableTargets);
            && names != [] && c == Finished(env, cfg, resetted, successful, LoadAll(env, cfg, names), Locked(env, cfg))
  {
  }

  lemma {:induction false} FinishedAt(env: Env, cfg: Config, resetted: bool, successful: bool, loaded: seq<Target>,
                                      locked: bool, i: nat)
    requires i < |Finished(env, cfg, resetted, successful, loaded, locked).targets|
    ensures var ts := AttemptsStep(cfg, resetted, PriorityStep(cfg, loaded));
            && i < |ts| == |loaded| && SameTargets(loaded, ts)
            && var t := MarkStep(ts, LoadLast(env, ts), successful)[i];
               Finished(env, cfg, resetted, successful, loaded, locked).targets[i]
               == if cfg.disableOnZeroAttempts && t.attempts == 0 then t.(priority := 0) else t
  {
    hide AttemptsStep, PriorityStep, MarkStep, LoadLast;
  }

  lemma {:induction false} GivenIs(env: Env, cfg: Config, resetted: bool, successful: bool, names: seq<string>, id: nat)
    requires 1 <= id <= |names|
    ensures var name := names[id - 1];
            GivenAttempts(env, cfg, resetted, successful, names, id)
            == if Booted(env, successful, id) then OwnAttempts(env, cfg, name)
               else if Refills(env, cfg, resetted, names) && GivenPriority(env, cfg, names, name) != 0
               then OwnAttempts(env, cfg, name) else Remaining(env, cfg, name)
  {
    hide Booted, Refills, GivenPriority, OwnAttempts, Remaining;
  }

  lemma {:induction false} IdsApart(env: Env, cfg: Config, names: seq<string>, ts: seq<Target>)
    requires SameTargets(LoadAll(env, cfg, names), ts)
    ensures forall k, j :: 0 <= k < j < |ts| ==> ts[k].id != ts[j].id
    ensures forall k :: 0 <= k < |ts| ==> ts[k].id > 0
  {
    var loaded := LoadAll(env, cfg, names);
    LoadFromNames(env, cfg, names);
    assert forall k :: 0 <= k < |loaded| ==> loaded[k] in loaded;
    hide LoadAll, LoadTarget;
  }

  // ---- the first boot -----------------------------------------------------------------------------------------

  /** No state has been stored yet, and every target may be tried at least once. */
  predicate Untouched(env: Env, cfg: Config, names: seq<string>) {
    && LastChosen !in env
    && forall i :: 0 <= i < |names| ==>
                     && Priority(names[i]) !in env && RemainingAttempts(names[i]) !in env
                     && OwnAttempts(env, cfg, names[i]) > 0
  }

  /** Then every target has its own default priority and attempts, whatever resets are configured. */
  lemma {:induction false} FirstBoot(env: Env, cfg: Config, resetted: bool, successful: bool, c: Chooser, i: nat)
    requires Get(env, cfg, resetted, successful) == Some(c) && i < |c.targets|
    requires Untouched(env, cfg, Names(cfg.availableTargets))
    ensures c.targets[i].priority == OwnPriority(env, cfg, c.targets[i].name)
    ensures c.targets[i].priority > 0 ==> c.targets[i].attempts == OwnAttempts(env, cfg, c.targets[i].name)
  {
    var names := Names(cfg.availableTargets);
    GetValues(env, cfg, resetted, successful, c, i);
    var t := c.targets[i];
    assert names[t.id - 1] == t.name;
    hide Names, Get, Refills, OwnPriority, OwnAttempts, LoadAll, SumPriorities;
  }

  /** The first loaded target comes before every configured one. */
  lemma {:induction false} LoadedFirst(env: Env, cfg: Config, names: seq<string>, n: nat)
    requires n < |names| && |LoadAll(env, cfg, names)| > 0
    ensures var t := LoadAll(env, cfg, names)[0];
            var mine, other := StoredPriority(env, cfg, t.name), StoredPriority(env, cfg, names[n]);
            mine > other || (mine == other && t.id <= n + 1)
  {
    var ts := LoadAll(env, cfg, names);
    LoadStable(env, cfg, names);
    LoadHolds(env, cfg, names, n);
    var j :| 0 <= j < |ts| && ts[j] == LoadTarget(env, cfg, names[n], n + 1);
    LoadedValues(env, cfg, names, 0);
    LoadedValues(env, cfg, names, j);
    hide LoadAll, StoredPriority, OwnPriority, OwnAttempts, Remaining;
    assert j > 0 ==> Precedes(ts[0], ts[j]);
  }

  /**
   On the first boot the target of the highest default priority is tried, the one configured first among equals, if
   any target is enabled by default; and it is counted down, unless the configuration or the stored variable locks
   the counters.
   */
  lemma {:induction false} FirstPick(env: Env, cfg: Config, resetted: bool, successful: bool, c: Chooser, n: nat)
    requires Get(env, cfg, resetted, successful) == Some(c) && Untouched(env, cfg, Names(cfg.availableTargets))
    requires n < |Names(cfg.availableTargets)| && OwnPriority(env, cfg, Names(cfg.availableTargets)[n]) > 0
    ensures var k := FirstOk(c.targets);
            && k < |c.targets|
            && var mine := OwnPriority(env, cfg, c.targets[k].name);
               var other := OwnPriority(env, cfg, Names(cfg.availableTargets)[n]);
               mine > other || (mine == other && c.targets[k].id <= n + 1)
    ensures var k := FirstOk(c.targets);
            var t := c.targets[k];
            var free := !cfg.attemptsLocked && Setting(env, AttemptsLocked, 0) == 0;
            var own := OwnAttempts(env, cfg, t.name);
            own > 0 && Picked(c, k).targets == c.targets[k := t.(attempts := if free then own - 1 else own)]
  {
    hide *;
    var names := Names(cfg.availableTargets);
    var loaded := LoadAll(env, cfg, names);
    GetIs(env, cfg, resetted, successful, c);
    SizeIs(env, cfg, resetted, successful, names, Locked(env, cfg));
    LoadedFirst(env, cfg, names, n);
    LoadedValues(env, cfg, names, 0);
    NothingStored(env, cfg, names, loaded[0].id - 1);
    NothingStored(env, cfg, names, n);
    FirstBoot(env, cfg, resetted, successful, c, 0);
    FirstIsOk(c.targets);
    PickCounts(env, cfg, resetted, successful, c);
  }

  lemma {:induction false} SizeIs(env: Env, cfg: Config, resetted: bool, successful: bool, names: seq<string>,
                                  locked: bool)
    requires names != []
    ensures var ts := LoadAll(env, cfg, names);
            var c := Finished(env, cfg, resetted, successful, ts, locked);
            0 < |ts| == |c.targets| && c.targets[0].name == ts[0].name && c.targets[0].id == ts[0].id
  {
    LoadStable(env, cfg, names);
    hide LoadAll;
  }

  lemma {:induction false} NothingStored(env: Env, cfg: Config, names: seq<string>, i: nat)
    requires i < |names| && Untouched(env, cfg, names)
    ensures StoredPriority(env, cfg, names[i]) == OwnPriority(env, cfg, names[i])
    ensures OwnAttempts(env, cfg, names[i]) > 0
  {
    hide OwnPriority, OwnAttempts;
  }

  lemma {:induction false} FirstIsOk(ts: seq<Target>)
    requires |ts| > 0
    ensures ts[0].priority > 0 && ts[0].attempts > 0 ==> FirstOk(ts) == 0
  {
  }

  lemma {:induction false} PickCounts(env: Env, cfg: Config, resetted: bool, successful: bool, c: Chooser)
    requires Get(env, cfg, resetted, successful) == Some(c) && FirstOk(c.targets) < |c.targets|
    ensures var k := FirstOk(c.targets);
            var free := !cfg.attemptsLocked && Setting(env, AttemptsLocked, 0) == 0;
            c.targets[k].attempts > 0
            && Picked(c, k).targets
               == c.targets[k := c.targets[k].(attempts := c.targets[k].attempts - if free then 1 else 0)]
  {
    GetIs(env, cfg, resetted, successful, c);
    hide Get, Finished, Names, LoadAll;
  }
}
