/** What a loaded list looks like, and what the next load finds after a save. */
module BootSave {
  import opened Seqs
  import opened BootStore
  import opened BootModel
  import opened BootOrder

  // ---- what a loaded list looks like --------------------------------------------------------------

  predicate DistinctStrings(s: seq<string>) {
    forall i, j :: 0 <= i < j < |s| ==> s[i] != s[j]
  }

  /** Every target is the one configured under its id, and no two share an id. */
  predicate FromNames(env: Env, cfg: Config, names: seq<string>, ts: seq<Target>) {
    && (forall t :: t in ts ==> 1 <= t.id <= |names| && t == LoadTarget(env, cfg, names[t.id - 1], t.id))
    && (forall i, j :: 0 <= i < j < |ts| ==> ts[i].id != ts[j].id)
  }

  lemma {:induction false} LoadFromNames(env: Env, cfg: Config, names: seq<string>)
    ensures FromNames(env, cfg, names, LoadAll(env, cfg, names))
  {
    if names != [] {
      var n := |names| - 1;
      LoadFromNames(env, cfg, names[..n]);
      InsertFromNames(env, cfg, names, LoadAll(env, cfg, names[..n]), LoadTarget(env, cfg, names[n], n + 1));
    }
  }

  lemma {:induction false} InsertFromNames(env: Env, cfg: Config, names: seq<string>, ts: seq<Target>, t: Target)
    requires names != [] && FromNames(env, cfg, names[..|names| - 1], ts) && t.id == |names|
    requires t == LoadTarget(env, cfg, names[|names| - 1], |names|)
    ensures FromNames(env, cfg, names, Insert(ts, t))
  {
    hide LoadTarget, InsertPosition;
    var k, r := InsertPosition(ts, t), Insert(ts, t);
    forall u | u in ts
      ensures u.id < |names| && u == LoadTarget(env, cfg, names[u.id - 1], u.id)
    {
      assert names[..|names| - 1][u.id - 1] == names[u.id - 1];
    }
    forall i, j | 0 <= i < j < |r|
      ensures r[i].id != r[j].id
    {
      assert r[i] == (if i < k then ts[i] else if i == k then t else ts[i - 1]);
      assert r[j] == (if j < k then ts[j] else if j == k then t else ts[j - 1]);
    }
  }

  /** A chooser that was just loaded can be saved. */
  lemma {:induction false} GetIsOk(env: Env, cfg: Config, resetted: bool, successful: bool)
    requires Get(env, cfg, resetted, successful).Some? && |Names(cfg.availableTargets)| < TWO32
    ensures ChooserOk(Get(env, cfg, resetted, successful).value)
  {
    var names := Names(cfg.availableTargets);
    var ts := LoadAll(env, cfg, names);
    LoadFromNames(env, cfg, names);
    var c := Get(env, cfg, resetted, successful).value;
    hide Finished, LoadAll, Names;
    forall i | 0 <= i < |ts|
      ensures 0 < c.targets[i].id < TWO32
    {
      assert ts[i] in ts;
    }
  }

  predicate DistinctNames(ts: seq<Target>) {
    forall i, j :: 0 <= i < j < |ts| ==> ts[i].name != ts[j].name
  }

  // ---- save, then load ------------------------------------------------------------------------------

  lemma {:induction false} SaveTargetsOther(env: Env, ts: seq<Target>, key: Key)
    requires forall i :: 0 <= i < |ts| ==> key != RemainingAttempts(ts[i].name) && key != Priority(ts[i].name)
    ensures key in SaveTargets(env, ts) <==> key in env
    ensures key in env ==> SaveTargets(env, ts)[key] == env[key]
  {
    if ts != [] {
      SaveTargetsOther(env, ts[..|ts| - 1], key);
    }
  }

  lemma {:induction false} SaveTargetsGet(env: Env, ts: seq<Target>, i: nat)
    requires i < |ts| && DistinctNames(ts)
    ensures var e := SaveTargets(env, ts);
            && RemainingAttempts(ts[i].name) in e && e[RemainingAttempts(ts[i].name)] == FormatInt(ts[i].attempts)
            && Priority(ts[i].name) in e && e[Priority(ts[i].name)] == FormatInt(ts[i].priority)
  {
    var n := |ts| - 1;
    if i < n {
      SaveTargetsGet(env, ts[..n], i);
      assert ts[..n][i] == ts[i];
    }
  }

  /** What the next power-on finds under a target's name after bootchooser_save. */
  lemma {:induction false} SaveThenLoad(env: Env, cfg: Config, c: Chooser, env': Env, i: nat, id: nat)
    requires ChooserOk(c) && DistinctNames(c.targets) && i < |c.targets| && Saves(env, c, env')
    ensures var t := c.targets[i];
            LoadTarget(env', cfg, t.name, id)
            == LoadTarget(env, cfg, t.name, id).(priority := Stored(t.priority),
                                                 attempts := if Stored(t.priority) == 0 then 0 else Stored(t.attempts))
  {
    var t := c.targets[i];
    var base := if env' == SaveTargets(env, c.targets) then env else SaveLast(env, c);
    SaveTargetsGet(base, c.targets, i);
    SaveTargetsOther(base, c.targets, DefaultAttempts(t.name));
    SaveTargetsOther(base, c.targets, DefaultPriority(t.name));
    FormatParse(t.priority);
    FormatParse(t.attempts);
  }

  /** A saved target is reloaded as it was exactly if both numbers are below 2^31 and a disabled one has no attempts. */
  lemma {:induction false} SaveThenLoadExact(env: Env, cfg: Config, c: Chooser, i: nat)
    requires ChooserOk(c) && DistinctNames(c.targets) && i < |c.targets|
    ensures var t := c.targets[i];
            var r := LoadTarget(Save(env, c), cfg, t.name, t.id);
            (r.priority == t.priority && r.attempts == t.attempts)
            <==> t.priority < TWO31 && t.attempts < TWO31 && (t.priority == 0 ==> t.attempts == 0)
  {
    SaveThenLoad(env, cfg, c, Save(env, c), i, c.targets[i].id);
  }

  /** The target remembered as last chosen is found again by its number, if that is below 2^31. */
  lemma {:induction false} SaveThenLoadLast(env: Env, c: Chooser, ts: seq<Target>)
    requires ChooserOk(c) && c.last.Some?
    ensures var id := c.targets[c.last.value].id;
            LoadLast(Save(env, c), ts) == if id < TWO31 then ById(ts, id) else None
  {
    SaveTargetsOther(SaveLast(env, c), c.targets, LastChosen);
    FormatParse(c.targets[c.last.value].id);
  }

  /**
   A save makes good for earlier ones that failed half way: whatever they left in RAM, it leaves the same values as
   on top of the stored ones.  Only last_chosen, whose write may fail unnoticed, can be left over.
   */
  lemma {:induction false} SaveOverwrites(disk: Env, env: Env, c: Chooser, env': Env, key: Key)
    requires ChooserOk(c) && OnlyTouches(disk, env, c.targets) && Saves(env, c, env')
    requires key != LastChosen || (c.last.Some? && env' == Save(env, c))
    ensures key in env' <==> key in Save(disk, c)
    ensures key in env' ==> env'[key] == Save(disk, c)[key]
  {
    var a := if env' == Save(env, c) then SaveLast(env, c) else env;
    var b := SaveLast(disk, c);
    SavedKey(a, c.targets, key);
    SavedKey(b, c.targets, key);
    if Touched(c.targets, key) && key != LastChosen {
      SavedSame(b, a, c.targets, key);
    }
  }

  lemma {:induction false} SavedKey(env: Env, ts: seq<Target>, key: Key)
    ensures key == LastChosen || !Touched(ts, key) ==>
              (key in SaveTargets(env, ts) <==> key in env) && (key in env ==> SaveTargets(env, ts)[key] == env[key])
  {
    if key == LastChosen || !Touched(ts, key) {
      SaveTargetsOther(env, ts, key);
    }
  }

  lemma {:induction false} SavedSame(disk: Env, env: Env, ts: seq<Target>, key: Key)
    requires Touched(ts, key) && key != LastChosen
    ensures key in SaveTargets(env, ts) && key in SaveTargets(disk, ts)
    ensures SaveTargets(env, ts)[key] == SaveTargets(disk, ts)[key]
  {
    var n := |ts| - 1;
    if key != RemainingAttempts(ts[n].name) && key != Priority(ts[n].name) {
      var i :| 0 <= i < |ts| && (key == RemainingAttempts(ts[i].name) || key == Priority(ts[i].name));
      assert ts[..n][i] == ts[i];
      SavedSame(disk, env, ts[..n], key);
    }
  }

  // ---- the whole chooser -------------------------------------------------------------------------------

  /** Higher priorities first, and among equal ones the order of configuration. */
  predicate Precedes(t: Target, u: Target) {
    t.priority > u.priority || (t.priority == u.priority && t.id < u.id)
  }

  predicate StablySorted(ts: seq<Target>) {
    forall i, j :: 0 <= i < j < |ts| ==> Precedes(ts[i], ts[j])
  }

  lemma {:induction false} InsertStable(ts: seq<Target>, t: Target)
    requires StablySorted(ts) && forall i :: 0 <= i < |ts| ==> ts[i].id < t.id
    ensures StablySorted(Insert(ts, t))
  {
    InsertSplits(ts, t);
    hide InsertPosition;
    var k, r := InsertPosition(ts, t), Insert(ts, t);
    forall i, j | 0 <= i < j < |r|
      ensures Precedes(r[i], r[j])
    {
      assert r[i] == (if i < k then ts[i] else if i == k then t else ts[i - 1]);
      assert r[j] == (if j < k then ts[j] else if j == k then t else ts[j - 1]);
    }
  }

  /** Loading leaves one target for every configured name. */
  lemma {:induction false} LoadHolds(env: Env, cfg: Config, names: seq<string>, i: nat)
    requires i < |names|
    ensures LoadTarget(env, cfg, names[i], i + 1) in LoadAll(env, cfg, names)
  {
    hide LoadTarget, Insert;
    var n := |names| - 1;
    var ts := LoadAll(env, cfg, names[..n]);
    if i < n {
      LoadHolds(env, cfg, names[..n], i);
    }
    InsertHolds(ts, LoadTarget(env, cfg, names[n], n + 1), LoadTarget(env, cfg, names[i], i + 1));
  }

  /** Loading sorts stably. */
  lemma {:induction false} LoadStable(env: Env, cfg: Config, names: seq<string>)
    ensures |LoadAll(env, cfg, names)| == |names| && StablySorted(LoadAll(env, cfg, names))
  {
    hide LoadTarget, StablySorted, InsertPosition;
    if names == [] {
      NothingSorted();
    } else {
      var n := |names| - 1;
      var ts, t := LoadAll(env, cfg, names[..n]), LoadTarget(env, cfg, names[n], n + 1);
      LoadStable(env, cfg, names[..n]);
      LoadFromNames(env, cfg, names[..n]);
      assert forall i :: 0 <= i < |ts| ==> ts[i] in ts;
      LoadedId(env, cfg, names[n], n + 1);
      InsertStable(ts, t);
    }
  }

  lemma {:induction false} NothingSorted()
    ensures StablySorted([])
  {
  }

  lemma {:induction false} LoadedId(env: Env, cfg: Config, name: string, id: nat)
    ensures LoadTarget(env, cfg, name, id).id == id
  {
  }

  lemma {:induction false} InsertHolds(ts: seq<Target>, t: Target, u: Target)
    ensures u in ts || u == t ==> u in Insert(ts, t)
  {
    var k, r := InsertPosition(ts, t), Insert(ts, t);
    if u in ts {
      var i :| 0 <= i < |ts| && ts[i] == u;
      assert r[if i < k then i else i + 1] == u;
    } else if u == t {
      assert r[k] == t;
    }
  }

  /** There is one way to sort. */
  lemma {:induction false} SortedOnce(a: seq<Target>, b: seq<Target>)
    requires StablySorted(a) && StablySorted(b) && |a| == |b| && forall t :: t in a <==> t in b
    ensures a == b
  {
    if a != [] {
      assert a[0] in a && b[0] in b;
      var k :| 0 <= k < |b| && b[k] == a[0];
      var m :| 0 <= m < |a| && a[m] == b[0];
      assert k == 0;
      forall t
        ensures t in a[1..] <==> t in b[1..]
      {
        assert t in a <==> t == a[0] || t in a[1..];
        assert t in b <==> t == b[0] || t in b[1..];
      }
      SortedOnce(a[1..], b[1..]);
    }
  }

  /** The targets are the configured ones, whatever their counters say. */
  predicate Configured(env: Env, cfg: Config, names: seq<string>, ts: seq<Target>) {
    && |ts| == |names| && (forall i, j :: 0 <= i < j < |ts| ==> ts[i].id != ts[j].id)
    && (forall id :: 1 <= id <= |names| ==> ById(ts, id).Some?)
    && (forall i :: 0 <= i < |ts| ==>
          && 1 <= ts[i].id <= |names| && ts[i].name == names[ts[i].id - 1]
          && ts[i].defaultAttempts == GetU32(env, DefaultAttempts(ts[i].name), cfg.defaultAttempts)
          && ts[i].defaultPriority == GetU32(env, DefaultPriority(ts[i].name), cfg.defaultPriority))
  }

  /** Numbers that survive being written and read. */
  predicate Storable(ts: seq<Target>) {
    forall i :: 0 <= i < |ts| ==>
      ts[i].priority < TWO31 && ts[i].attempts < TWO31 && (ts[i].priority == 0 ==> ts[i].attempts == 0)
  }

  lemma {:induction false} SavedTarget(env: Env, cfg: Config, c: Chooser, names: seq<string>, i: nat)
    requires ChooserOk(c) && DistinctStrings(names) && Configured(env, cfg, names, c.targets) && Storable(c.targets)
    requires i < |c.targets|
    ensures LoadTarget(Save(env, c), cfg, c.targets[i].name, c.targets[i].id) == c.targets[i]
  {
    assert DistinctNames(c.targets);
    SaveThenLoad(env, cfg, c, Save(env, c), i, c.targets[i].id);
  }

  /** Every target of a sorted chooser comes back in its place. */
  lemma {:induction false} SaveThenLoadAll(env: Env, cfg: Config, c: Chooser, names: seq<string>)
    requires ChooserOk(c) && DistinctStrings(names) && Configured(env, cfg, names, c.targets)
    requires Storable(c.targets) && StablySorted(c.targets)
    ensures LoadAll(Save(env, c), cfg, names) == c.targets
  {
    hide ChooserOk, Storable, StablySorted, LoadTarget, LoadAll, Save, DistinctStrings, GetU32;
    var env', ts := Save(env, c), c.targets;
    var r := LoadAll(env', cfg, names);
    LoadStable(env', cfg, names);
    LoadFromNames(env', cfg, names);
    forall i | 0 <= i < |ts|
      ensures ts[i] in r
    {
      SavedTarget(env, cfg, c, names, i);
      LoadHolds(env', cfg, names, ts[i].id - 1);
    }
    forall t | t in r
      ensures t in ts
    {
      var k := ById(ts, t.id).value;
      SavedTarget(env, cfg, c, names, k);
    }
    SortedOnce(r, ts);
  }

  /** No step after loading changes these targets. */
  predicate Settled(cfg: Config, resetted: bool, ts: seq<Target>) {
    && !PrioritiesResetFires(cfg, ts) && !SourceReset(cfg, resetted)
    && !(cfg.resetAllZero && SumAttempts(ts) % TWO32 == 0)
    && (cfg.disableOnZeroAttempts ==> forall i :: 0 <= i < |ts| ==> Disable(ts[i]) == ts[i])
  }

  /** The next bootchooser_get gives the whole saved chooser back. */
  lemma {:induction false} SaveThenGet(env: Env, cfg: Config, c: Chooser, resetted: bool)
    requires ChooserOk(c) && c.last.Some? && c.targets[c.last.value].id < TWO31
    requires DistinctStrings(Names(cfg.availableTargets))
             && Configured(env, cfg, Names(cfg.availableTargets), c.targets)
    requires Storable(c.targets) && StablySorted(c.targets) && Settled(cfg, resetted, c.targets)
    ensures Get(Save(env, c), cfg, resetted, false) == Some(c.(locked := Locked(env, cfg)))
  {
    assert c.last.value < |c.targets|;
    hide *;
    var names, ts, k := Names(cfg.availableTargets), c.targets, c.last.value;
    SaveThenLoadAll(env, cfg, c, names);
    SaveThenLoadLast(env, c, ts);
    SettledStays(Save(env, c), cfg, resetted, ts, Locked(env, cfg));
    LockedStays(env, cfg, c);
    OwnId(env, cfg, names, ts, k);
    GetIs(Save(env, c), cfg, resetted);
  }

  lemma {:induction false} SettledStays(env: Env, cfg: Config, resetted: bool, ts: seq<Target>, locked: bool)
    requires Settled(cfg, resetted, ts)
    ensures Finished(env, cfg, resetted, false, ts, locked) == Chooser(ts, LoadLast(env, ts), locked)
  {
    hide SumAttempts, SumPriorities, LoadLast;
    assert cfg.disableOnZeroAttempts ==> DisableStep(cfg, ts) == ts;
  }

  lemma {:induction false} LockedStays(env: Env, cfg: Config, c: Chooser)
    requires ChooserOk(c)
    ensures Locked(Save(env, c), cfg) == Locked(env, cfg)
  {
    SaveTargetsOther(SaveLast(env, c), c.targets, AttemptsLocked);
  }

  lemma {:induction false} OwnId(env: Env, cfg: Config, names: seq<string>, ts: seq<Target>, k: nat)
    requires Configured(env, cfg, names, ts) && k < |ts|
    ensures ById(ts, ts[k].id) == Some(k) && names != []
  {
    var i := ById(ts, ts[k].id).value;
    assert ts[i].id == ts[k].id;
  }

  lemma {:induction false} GetIs(env: Env, cfg: Config, resetted: bool)
    requires Names(cfg.availableTargets) != []
    ensures var ts := LoadAll(env, cfg, Names(cfg.availableTargets));
            Get(env, cfg, resetted, false) == Some(Finished(env, cfg, resetted, false, ts, Locked(env, cfg)))
  {
  }
}
