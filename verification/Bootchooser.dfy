/** The bootchooser of common/bootchooser.c. */
module Bootchooser {
  import opened Seqs
  import opened BootStore
  import opened BootModel
  import opened BootSchedule

  const ENOENT: int := -2
  const ENODEV: int := -19
  const EINVAL: int := -22

  /** The variables in RAM and the copy that survives a power cut. */
  class Store {
    const reliable: bool
    var env: Env
    var disk: Env

    constructor (reliable: bool, disk: Env)
      ensures this.reliable == reliable && this.disk == disk && env == disk
    {
      this.reliable, this.disk, env := reliable, disk, disk;
    }

    /** Power comes on: RAM holds what was stored. */
    method Restart()
      modifies this`env
      ensures env == disk
    {
      env := disk;
    }

    /** bc_setenv: writes a variable only if its value changes. */
    method SetEnv(key: Key, value: string) returns (ret: int)
      modifies this`env
      ensures ret <= 0 && (reliable ==> ret == 0)
      ensures env == if ret == 0 then old(env)[key := value] else old(env)
    {
      if key in env && env[key] == value {
        assert env == env[key := value];
        return 0;
      }
      ret := *;
      if reliable || ret > 0 {
        ret := 0;
      }
      if ret == 0 {
        env := env[key := value];
      }
    }

    /** state_save or nvvar_save: all or nothing. */
    method Commit() returns (ret: int)
      modifies this`disk
      ensures ret <= 0 && (reliable ==> ret == 0)
      ensures disk == if ret == 0 then env else old(disk)
    {
      ret := *;
      if reliable || ret > 0 {
        ret := 0;
      }
      if ret == 0 {
        disk := env;
      }
    }
  }

  class BootTarget {
    const name: string
    const defaultAttempts: u32
    const defaultPriority: u32
    var id: nat
    var priority: u32
    var remainingAttempts: u32

    /** bootchooser_target_new */
    constructor (env: Env, cfg: Config, name: string)
      ensures V() == LoadTarget(env, cfg, name, 0)
    {
      this.name := name;
      var dp := GetU32(env, DefaultPriority(name), cfg.defaultPriority);
      var da := GetU32(env, DefaultAttempts(name), cfg.defaultAttempts);
      defaultPriority, defaultAttempts := dp, da;
      var p := GetU32(env, Priority(name), dp);
      var a := GetU32(env, RemainingAttempts(name), da);
      if a != 0 && p == 0 {
        a := 0;
      }
      priority, remainingAttempts, id := p, a, 0;
    }

    ghost function V(): Target
      reads this
    {
      Target(name, id, priority, remainingAttempts, defaultAttempts, defaultPriority)
    }

    /** bootchooser_target_ok */
    predicate IsOk()
      reads this
      ensures IsOk() <==> Ok(V())
    {
      priority != 0 && remainingAttempts != 0
    }

    /** bootchooser_target_set_attempts */
    method SetAttempts(attempts: int)
      requires attempts < TWO31
      modifies this`remainingAttempts
      ensures V() == old(V()).(attempts := if attempts >= 0 then attempts else defaultAttempts)
    {
      if attempts >= 0 {
        remainingAttempts := attempts;
      } else {
        remainingAttempts := defaultAttempts;
      }
    }

    /** bootchooser_target_set_priority */
    method SetPriority(priority: int)
      requires priority < TWO31
      modifies this`priority
      ensures V() == old(V()).(priority := if priority >= 0 then priority else defaultPriority)
    {
      if priority >= 0 {
        this.priority := priority;
      } else {
        this.priority := defaultPriority;
      }
    }
  }

  /** Splicing a new element into a list of distinct ones. */
  lemma {:induction false} SpliceIn<T>(s: seq<T>, k: nat, x: T)
    requires k <= |s| && x !in s && forall i, j :: 0 <= i < j < |s| ==> s[i] != s[j]
    ensures var r := s[..k] + [x] + s[k..];
            && (forall i, j :: 0 <= i < j < |r| ==> r[i] != r[j])
            && (forall y :: y in r <==> y in s || y == x)
  {
    var r := s[..k] + [x] + s[k..];
    assert forall i :: 0 <= i < |r| ==> r[i] == if i < k then s[i] else if i == k then x else s[i - 1];
    forall y | y in s
      ensures y in r
    {
      var i :| 0 <= i < |s| && s[i] == y;
      assert r[if i < k then i else i + 1] == y;
    }
    assert r[k] == x;
  }

  class Bootchooser {
    var targets: seq<BootTarget>
    var lastChosen: BootTarget?
    var attemptsLocked: bool
    ghost var vals: seq<Target>

    constructor (locked: bool)
      ensures Valid() && targets == [] && lastChosen == null && attemptsLocked == locked
    {
      targets, lastChosen, attemptsLocked, vals := [], null, locked, [];
    }

    ghost predicate Valid()
      reads this, targets
    {
      && (forall i, j :: 0 <= i < j < |targets| ==> targets[i] != targets[j])
      && |vals| == |targets|
      && (forall i :: 0 <= i < |targets| ==> vals[i] == targets[i].V())
      && (lastChosen != null ==> lastChosen in targets)
    }

    ghost function V(): Chooser
      reads this, targets
      requires Valid()
    {
      Chooser(vals, if lastChosen == null then None else Some(Position(targets, lastChosen)), attemptsLocked)
    }

    /** Where list_add_sort puts a target: behind every target of at least its priority. */
    method SortedPosition(target: BootTarget) returns (k: nat)
      requires Valid()
      ensures k == InsertPosition(vals, target.V())
    {
      k := 0;
      while k < |targets| && targets[k].priority >= target.priority
        invariant k <= |targets|
        invariant InsertPosition(vals, target.V()) == k + InsertPosition(vals[k..], target.V())
      {
        assert vals[k..][0] == vals[k] && vals[k..][1..] == vals[k + 1..];
        k := k + 1;
      }
    }

    /** list_add_sort with bootchooser_target_compare */
    method AddSorted(target: BootTarget)
      requires Valid() && target !in targets && lastChosen == null
      modifies this`targets, this`vals
      ensures Valid() && vals == Insert(old(vals), target.V())
      ensures forall t :: t in targets <==> t in old(targets) || t == target
    {
      var k := SortedPosition(target);
      SpliceIn(targets, k, target);
      targets := targets[..k] + [target] + targets[k..];
      vals := vals[..k] + [target.V()] + vals[k..];
    }

    /** bootchooser_reset_attempts */
    method ResetAllAttempts()
      requires Valid()
      modifies this`vals, targets
      ensures Valid() && vals == Each(ResetAttempts, old(vals))
    {
      for i := 0 to |targets|
        invariant Valid() && |vals| == |old(vals)|
        invariant forall k :: 0 <= k < |vals| ==> vals[k] == if k < i then ResetAttempts(old(vals)[k]) else old(vals)[k]
      {
        if targets[i].priority != 0 {
          targets[i].SetAttempts(-1);
        }
        vals := vals[i := targets[i].V()];
      }
    }

    /** bootchooser_reset_priorities */
    method ResetAllPriorities()
      requires Valid()
      modifies this`vals, targets
      ensures Valid() && vals == Each(ResetPriority, old(vals))
    {
      for i := 0 to |targets|
        invariant Valid() && |vals| == |old(vals)|
        invariant forall k :: 0 <= k < |vals| ==> vals[k] == if k < i then ResetPriority(old(vals)[k]) else old(vals)[k]
      {
        targets[i].SetPriority(-1);
        vals := vals[i := targets[i].V()];
      }
    }

    method DisableExhausted()
      requires Valid()
      modifies this`vals, targets
      ensures Valid() && vals == Each(Disable, old(vals))
    {
      for i := 0 to |targets|
        invariant Valid() && |vals| == |old(vals)|
        invariant forall k :: 0 <= k < |vals| ==> vals[k] == if k < i then Disable(old(vals)[k]) else old(vals)[k]
      {
        if targets[i].remainingAttempts == 0 {
          targets[i].priority := 0;
          targets[i].remainingAttempts := 0;
        }
        vals := vals[i := targets[i].V()];
      }
    }

    /** The 32-bit sums behind the all-zero conditions. */
    method Sums() returns (priorities: u32, attempts: u32)
      requires Valid()
      ensures priorities == SumPriorities(vals) % TWO32 && attempts == SumAttempts(vals) % TWO32
    {
      priorities, attempts := 0, 0;
      assert vals[..0] == [];
      for i := 0 to |targets|
        invariant priorities == SumPriorities(vals[..i]) % TWO32 && attempts == SumAttempts(vals[..i]) % TWO32
      {
        assert vals[..i + 1][..i] == vals[..i];
        AddWrapped(SumPriorities(vals[..i]), vals[i].priority);
        AddWrapped(SumAttempts(vals[..i]), vals[i].attempts);
        priorities := (priorities + targets[i].priority) % TWO32;
        attempts := (attempts + targets[i].remainingAttempts) % TWO32;
      }
      assert vals[..|targets|] == vals;
    }

    /** bootchooser_target_by_id */
    method TargetById(id: nat) returns (t: BootTarget?)
      requires Valid()
      ensures t == null <==> ById(vals, id).None?
      ensures t != null ==> t == targets[ById(vals, id).value]
    {
      for i := 0 to |targets|
        invariant ById(vals, id) == match ById(vals[i..], id) case None => None case Some(k) => Some(k + i)
      {
        assert vals[i..][0] == vals[i] && vals[i..][1..] == vals[i + 1..];
        if targets[i].id == id {
          return targets[i];
        }
      }
      t := null;
    }

    /** Creates the target of the given name and sorts it in. */
    method AddTarget(env: Env, cfg: Config, name: string, id: nat)
      requires Valid() && lastChosen == null
      modifies this`targets, this`vals
      ensures Valid() && vals == Insert(old(vals), LoadTarget(env, cfg, name, id))
      ensures forall t :: t in targets ==> t in old(targets) || fresh(t)
    {
      var target := new BootTarget(env, cfg, name);
      target.id := id;
      AddSorted(target);
    }

    /** Loads the targets in configured order, numbering them from 1. */
    method LoadTargets(env: Env, cfg: Config, names: seq<string>)
      requires Valid() && targets == [] && lastChosen == null
      modifies this`targets, this`vals
      ensures Valid() && vals == LoadAll(env, cfg, names)
      ensures fresh(targets)
    {
      for n := 0 to |names|
        invariant Valid() && lastChosen == null && forall t :: t in targets ==> fresh(t)
        invariant vals == LoadAll(env, cfg, names[..n])
      {
        AddTarget(env, cfg, names[n], n + 1);
        assert names[..n + 1][..n] == names[..n];
      }
      assert names[..|names|] == names;
      assert forall i :: 0 <= i < |targets| ==> targets[i] in targets;
    }

    method ResetPrioritiesIfZero(cfg: Config)
      requires Valid()
      modifies this`vals, targets
      ensures Valid() && vals == PriorityStep(cfg, old(vals))
    {
      if cfg.resetPrioritiesAllZero {
        var priorities, _ := Sums();
        if priorities == 0 {
          ResetAllPriorities();
        }
      }
    }

    /** Power-on and reset-line resets, each at most once until the next start of barebox. */
    method ResetOnSource(cfg: Config, resetted: bool) returns (resetted': bool)
      requires Valid()
      modifies this`vals, targets
      ensures Valid() && vals == SourceStep(cfg, resetted, old(vals))
      ensures resetted' == (resetted || SourceReset(cfg, resetted))
    {
      resetted' := resetted;
      if cfg.resetPowerOn && cfg.source == PowerOn && !resetted' {
        ResetAllAttempts();
        resetted' := true;
      }
      if cfg.resetSrcRst && cfg.source == ResetLine && !resetted' {
        ResetAllAttempts();
        resetted' := true;
      }
    }

    method ResetAttemptsIfZero(cfg: Config)
      requires Valid()
      modifies this`vals, targets
      ensures Valid() && vals == AllZeroStep(cfg, old(vals))
    {
      if cfg.resetAllZero {
        var _, attempts := Sums();
        if attempts == 0 {
          ResetAllAttempts();
        }
      }
    }

    /** last_chosen and the success mark. */
    method MarkSuccess(env: Env, successful: bool)
      requires Valid() && lastChosen == null
      modifies this`vals, this`lastChosen, targets
      ensures Valid()
      ensures V() == Chooser(MarkStep(old(vals), LoadLast(env, old(vals)), successful), LoadLast(env, old(vals)),
              attemptsLocked)
    {
      var last := GetU32(env, LastChosen, 0);
      if last > 0 {
        lastChosen := TargetById(last);
      }
      ghost var k := LoadLast(env, vals);
      assert lastChosen != null ==> Position(targets, lastChosen) == k.value;
      if lastChosen != null && successful {
        lastChosen.SetAttempts(-1);
        vals := vals[k.value := lastChosen.V()];
      }
    }

    /** Disables exhausted targets if configured. */
    method DisableIfSet(cfg: Config)
      requires Valid()
      modifies this`vals, targets
      ensures Valid() && V() == old(V()).(targets := DisableStep(cfg, old(vals)))
    {
      if cfg.disableOnZeroAttempts {
        DisableExhausted();
      }
    }

    /** Writes attempts and priority of every target; stops at the first failure. */
    method SaveAll(store: Store) returns (ret: int)
      requires Valid()
      modifies store`env
      ensures ret <= 0 && (store.reliable ==> ret == 0)
      ensures OnlyTouches(old(store.env), store.env, vals)
      ensures ret == 0 ==> store.env == SaveTargets(old(store.env), vals)
      ensures exists i: nat :: Written(old(store.env), vals, store.env, i)
    {
      for i := 0 to |targets|
        invariant store.env == SaveTargets(old(store.env), vals[..i])
        invariant OnlyTouches(old(store.env), store.env, vals)
      {
        assert vals[..i + 1][..i] == vals[..i];
        assert Touched(vals, RemainingAttempts(vals[i].name)) && Touched(vals, Priority(vals[i].name));
        ret := store.SetEnv(RemainingAttempts(targets[i].name), FormatInt(targets[i].remainingAttempts));
        assert Written(old(store.env), vals, store.env, i);
        if ret < 0 {
          return;
        }
        ret := store.SetEnv(Priority(targets[i].name), FormatInt(targets[i].priority));
        if ret < 0 {
          return;
        }
      }
      assert vals[..|targets|] == vals;
      assert Written(old(store.env), vals, store.env, |vals|);
      ret := 0;
    }

    /** bootchooser_save; a failure to write last_chosen goes unnoticed. */
    method SaveTo(store: Store) returns (ret: int)
      requires Valid() && ChooserOk(V())
      modifies store
      ensures ret <= 0 && (store.reliable ==> ret == 0)
      ensures OnlyTouches(old(store.env), store.env, vals)
      ensures ret == 0 ==> store.disk == store.env && Saves(old(store.env), V(), store.env)
      ensures store.reliable ==> store.env == Save(old(store.env), V())
      ensures Partly(old(store.env), V(), store.env)
      ensures ret < 0 ==> store.disk == old(store.disk)
    {
      if lastChosen != null {
        var _ := store.SetEnv(LastChosen, FormatInt(lastChosen.id));
      }
      ghost var mid := store.env;
      assert mid == old(store.env) || mid == SaveLast(old(store.env), V());
      ret := SaveAll(store);
      ghost var i: nat :| Written(mid, vals, store.env, i);
      assert Written(old(store.env), V().targets, store.env, i)
             || Written(SaveLast(old(store.env), V()), V().targets, store.env, i);
      if ret < 0 {
        return;
      }
      ret := store.Commit();
    }

    /** bootchooser_get_target: the first OK target is counted down, remembered and saved. */
    method GetTarget(store: Store) returns (ret: int, target: BootTarget?, ghost saved: bool)
      requires Valid() && ChooserOk(V())
      modifies this`vals, this`lastChosen, targets, store
      ensures Valid() && ChooserOk(V()) && targets == old(targets)
      ensures var k := FirstOk(old(vals));
              if k == |old(vals)| then
                && ret == ENOENT && target == null && V() == old(V())
                && store.disk == old(store.disk) && store.env == old(store.env)
              else
                && ret == 0 && target == targets[k] && V() == Picked(old(V()), k)
                && (if saved then store.disk == store.env && Saves(old(store.env), V(), store.env)
                    else store.disk == old(store.disk))
                && Partly(old(store.env), V(), store.env)
      ensures OnlyTouches(old(store.env), store.env, vals)
      ensures store.reliable ==> saved
    {
      saved := true;
      var k := FirstOkTarget();
      if k == |targets| {
        return ENOENT, null, true;
      }
      target := targets[k];
      Choose(k);
      var r := SaveTo(store);
      ret, saved := 0, r == 0;
    }

    method FirstOkTarget() returns (k: nat)
      requires Valid()
      ensures k == FirstOk(vals)
    {
      k := 0;
      while k < |targets| && !targets[k].IsOk()
        invariant k <= |targets| && FirstOk(vals) == k + FirstOk(vals[k..])
      {
        assert vals[k..][0] == vals[k] && vals[k..][1..] == vals[k + 1..];
        k := k + 1;
      }
      assert k < |targets| ==> vals[k..][0] == vals[k];
    }

    /** Counts target k down unless the counters are locked, and remembers it. */
    method Choose(k: nat)
      requires Valid() && ChooserOk(V()) && k < |targets| && Ok(vals[k])
      modifies this`vals, this`lastChosen, targets
      ensures Valid() && ChooserOk(V()) && targets == old(targets)
      ensures V() == Picked(old(V()), k)
    {
      var target := targets[k];
      if !attemptsLocked {
        target.remainingAttempts := target.remainingAttempts - 1;
        vals := vals[k := target.V()];
      }
      lastChosen := target;
    }
  }

  lemma {:induction false} NamesStep(s: string)
    requires TokenLength(s) > 0
    ensures var n := TokenLength(s); Names(s) == [s[..n]] + Names(if n == |s| then [] else s[n + 1..])
  {
    if TokenLength(s) == |s| {
      assert s[..|s|] == s;
    }
  }

  /** The strsep loop of bootchooser_get: names up to the first empty token. */
  method SplitNames(s: string) returns (names: seq<string>)
    ensures names == Names(s)
  {
    var rest, n := s, TokenLength(s);
    names := [];
    while n > 0
      invariant n == TokenLength(rest) && Names(s) == names + Names(rest)
      decreases |rest|
    {
      var token := rest[..n];
      ghost var rest0 := rest;
      rest := if n == |rest| then [] else rest[n + 1..];
      NamesStep(rest0);
      n, names := TokenLength(rest), names + [token];
    }
    assert names + [] == names;
  }

  /** bootchooser_get when no bootchooser exists yet; the configured state backend may be missing. */
  method GetBootchooser(env: Env, cfg: Config, resetted: bool, successful: bool, noState: bool)
    returns (ret: int, bc: Bootchooser?, resetted': bool)
    ensures noState ==> ret == ENODEV && bc == null && resetted' == resetted
    ensures !noState && Get(env, cfg, resetted, successful).None? ==>
            ret == EINVAL && bc == null && resetted' == resetted
    ensures !noState && Get(env, cfg, resetted, successful).Some? ==>
              && ret == 0 && bc != null && fresh(bc) && fresh(bc.targets) && bc.Valid()
              && bc.V() == Get(env, cfg, resetted, successful).value
              && resetted' == (resetted || SourceReset(cfg, resetted))
  {
    hide Names, LoadAll, Finished, Bootchooser.V, SourceReset, Bootchooser.Valid;
    resetted' := resetted;
    if noState {
      return ENODEV, null, resetted;
    }
    bc := new Bootchooser(Locked(env, cfg));
    var names := SplitNames(cfg.availableTargets);
    bc.LoadTargets(env, cfg, names);
    NoNamesNoTargets(env, cfg, names);
    if |names| == 0 {
      return EINVAL, null, resetted;
    }
    ret, resetted' := FinishGet(bc, env, cfg, resetted, successful);
  }

  /** The steps of bootchooser_get after the targets have been loaded. */
  method FinishGet(bc: Bootchooser, env: Env, cfg: Config, resetted: bool, successful: bool)
    returns (ret: int, resetted': bool)
    requires bc.Valid() && bc.lastChosen == null
    modifies bc`vals, bc`lastChosen, bc.targets
    ensures bc.Valid() && ret == 0
    ensures bc.V() == Finished(env, cfg, resetted, successful, old(bc.vals), bc.attemptsLocked)
    ensures resetted' == (resetted || SourceReset(cfg, resetted))
  {
    bc.ResetPrioritiesIfZero(cfg);
    resetted' := bc.ResetOnSource(cfg, resetted);
    bc.ResetAttemptsIfZero(cfg);
    bc.MarkSuccess(env, successful);
    bc.DisableIfSet(cfg);
    ret := 0;
  }

  lemma {:induction false} NoNamesNoTargets(env: Env, cfg: Config, names: seq<string>)
    ensures |LoadAll(env, cfg, names)| == |names|
  {
    if names != [] {
      NoNamesNoTargets(env, cfg, names[..|names| - 1]);
    }
  }

  // ---- booting ---------------------------------------------------------------------------------------

  /**
   What booting the picked target comes to: no boot entry found, all entries fail with the last error, or one boots.
   */
  datatype Outcome = NothingFound | Fails(error: int) | Boots

  /** The error bootchooser_boot_one returns. */
  function ErrorOf(o: Outcome): int {
    match o
    case NothingFound => ENODEV
    case Fails(error) => error
    case Boots => 0
  }

  predicate Failing(o: Outcome) {
    o != Boots
  }

  /** bootchooser_boot_one; k is the position of the target tried. */
  method BootOne(bc: Bootchooser, store: Store, outcome: Outcome) returns (ret: int, tryagain: bool, ghost k: nat)
    requires bc.Valid() && ChooserOk(bc.V())
    modifies bc`vals, bc`lastChosen, bc.targets, store
    ensures bc.Valid() && ChooserOk(bc.V()) && bc.targets == old(bc.targets)
    ensures k == FirstOk(old(bc.vals))
    ensures k == |old(bc.vals)| ==> ret == ENOENT && !tryagain && bc.vals == old(bc.vals)
    ensures k < |old(bc.vals)| ==> bc.V() == Picked(old(bc.V()), k) && tryagain == Failing(outcome)
    ensures k < |old(bc.vals)| && !bc.attemptsLocked ==> bc.vals == CountDown(old(bc.vals), k)
    ensures k < |old(bc.vals)| ==> ret == ErrorOf(outcome) && (!tryagain ==> ret == 0)
  {
    hide FirstOk, ChooserOk;
    k := FirstOk(bc.vals);
    var r, target, saved := bc.GetTarget(store);
    if r < 0 {
      return r, false, k;
    }
    match outcome
    case NothingFound => ret, tryagain := ENODEV, true;
    case Fails(error) => ret, tryagain := error, true;
    case Boots => ret, tryagain := 0, false;
  }

  /** The loop has tried a prefix of the schedule without success and the rest is still to come. */
  ghost predicate Trying(all: seq<nat>, tried: seq<nat>, ts: seq<Target>, outcomes: nat -> Outcome) {
    && all == tried + Schedule(ts)
    && forall i: nat :: i < |tried| ==> Failing(outcomes(i))
  }

  /** How the loop may end: a target booted, or the schedule is exhausted. */
  ghost predicate Ended(all: seq<nat>, tried: seq<nat>, ts: seq<Target>, outcomes: nat -> Outcome, ret: int) {
    && all == tried + Schedule(ts)
    && (|| (ret == ENOENT && tried == all && forall i: nat :: i < |tried| ==> Failing(outcomes(i)))
        || (ret == 0 && |tried| > 0 && outcomes(|tried| - 1) == Boots
            && forall i: nat :: i < |tried| - 1 ==> Failing(outcomes(i))))
  }

  /** One more try: the first OK target heads what is left of the schedule. */
  lemma {:induction false} TryNext(all: seq<nat>, tried: seq<nat>, ts: seq<Target>, k: nat, outcomes: nat -> Outcome)
    requires Trying(all, tried, ts, outcomes) && k == FirstOk(ts) < |ts|
    ensures var ts' := CountDown(ts, k);
            && |Schedule(ts')| < |Schedule(ts)|
            && if Failing(outcomes(|tried|)) then Trying(all, tried + [k], ts', outcomes)
               else Ended(all, tried + [k], ts', outcomes, 0)
  {
    PickIsNext(ts, k);
  }

  lemma {:induction false} TryEnds(all: seq<nat>, tried: seq<nat>, ts: seq<Target>, outcomes: nat -> Outcome)
    requires Trying(all, tried, ts, outcomes) && FirstOk(ts) == |ts|
    ensures Ended(all, tried, ts, outcomes, ENOENT)
  {
    NothingToTry(ts);
  }

  /** One round of the retry loop. */
  method TryOne(bc: Bootchooser, store: Store, outcomes: nat -> Outcome, n: nat, ghost all: seq<nat>,
                ghost tried: seq<nat>)
    returns (ret: int, again: bool, ghost tried': seq<nat>)
    requires bc.Valid() && ChooserOk(bc.V()) && !bc.attemptsLocked
    requires |tried| == n && Trying(all, tried, bc.vals, outcomes)
    modifies bc`vals, bc`lastChosen, bc.targets, store
    ensures bc.Valid() && ChooserOk(bc.V()) && bc.targets == old(bc.targets)
    ensures if again then |tried'| == n + 1 && Trying(all, tried', bc.vals, outcomes)
            else Ended(all, tried', bc.vals, outcomes, ret)
    ensures again ==> |Schedule(bc.vals)| < |Schedule(old(bc.vals))|
  {
    hide *;
    ghost var ts := bc.vals;
    ghost var k;
    ret, again, k := BootOne(bc, store, outcomes(n));
    if k < |ts| {
      TryNext(all, tried, ts, k, outcomes);
      tried' := tried + [k];
    } else {
      TryEnds(all, tried, ts, outcomes);
      tried' := tried;
    }
  }

  /**
   bootchooser_boot with retry: the targets are tried as scheduled until one boots; if none does,
   the whole schedule was tried and the result is -ENOENT.
   */
  method BootWithRetry(bc: Bootchooser, store: Store, outcomes: nat -> Outcome)
    returns (ret: int, ghost tried: seq<nat>)
    requires bc.Valid() && ChooserOk(bc.V()) && !bc.attemptsLocked
    modifies bc`vals, bc`lastChosen, bc.targets, store
    ensures bc.Valid() && bc.targets == old(bc.targets)
    ensures Ended(Schedule(old(bc.vals)), tried, bc.vals, outcomes, ret)
  {
    tried, ret := [], 0;
    ghost var all := Schedule(bc.vals);
    var n: nat, again := 0, true;
    assert Trying(all, tried, bc.vals, outcomes);
    hide *;
    while again
      invariant bc.Valid() && ChooserOk(bc.V()) && bc.targets == old(bc.targets)
      invariant if again then |tried| == n && Trying(all, tried, bc.vals, outcomes)
                else Ended(all, tried, bc.vals, outcomes, ret)
      decreases again, |Schedule(bc.vals)|
    {
      ret, again, tried := TryOne(bc, store, outcomes, n, all, tried);
      n := n + 1;
    }
  }

  /** bootchooser_boot without retry: one try. */
  method BootOnce(bc: Bootchooser, store: Store, outcomes: nat -> Outcome) returns (ret: int)
    requires bc.Valid() && ChooserOk(bc.V())
    modifies bc`vals, bc`lastChosen, bc.targets, store
    ensures bc.Valid() && bc.targets == old(bc.targets)
    ensures var k := FirstOk(old(bc.vals));
            if k < |old(bc.vals)| then bc.V() == Picked(old(bc.V()), k) && ret == ErrorOf(outcomes(0))
            else bc.vals == old(bc.vals) && ret == ENOENT
  {
    var again;
    ghost var k;
    ret, again, k := BootOne(bc, store, outcomes(0));
  }

  lemma {:induction false} AddWrapped(a: nat, b: nat)
    ensures (a % TWO32 + b) % TWO32 == (a + b) % TWO32
  {
  }
}
