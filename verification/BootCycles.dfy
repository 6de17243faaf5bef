/** Power cycles of the real objects are runs of the counting machine. */
module BootCycles {
  import opened Seqs
  import opened BootStore
  import opened BootModel
  import opened BootSave
  import opened BootRuns
  import opened Bootchooser

  /** What happens next; an action that does not fit the state of the board does nothing. */
  datatype Action = SwitchOn | OpenChooser | PickTarget | BootIt(found: bool) | CloseChooser | CutPower

  /** What an action does; only how a save ends is up to the device. */
  ghost predicate Takes(cfg: Config, action: Action, m: Machine, m': Machine) {
    && PhaseOk(m.phase)
    && match action
       case SwitchOn => if m.phase.Off? then BootRuns.PowerOn(m, m') else m' == m
       case OpenChooser =>
         if m.phase.Idle? && Get(m.env, cfg, false, false).Some? then Open(cfg, m, m') else m' == m
       case PickTarget => if CanPick(m) then Pick(m, m') else m' == m
       case BootIt(found) => if !m.phase.Armed? then m' == m else if found then Boot(m, m') else Skip(m, m')
       case CloseChooser => if m.phase.Ready? then Put(m, m') else m' == m
       case CutPower => PowerCut(m, m')
  }

  predicate CanPick(m: Machine) {
    m.phase.Ready? && FirstOk(m.phase.c.targets) < |m.phase.c.targets|
  }

  lemma {:induction false} TakesNext(cfg: Config, action: Action, m: Machine, m': Machine)
    requires Takes(cfg, action, m, m')
    ensures m' == m || Next(cfg, m, m')
  {
    hide Open, Pick, Boot, Skip, Put;
  }

  /** A board that starts with nothing done and takes the actions one after the other. */
  ghost predicate Follows(cfg: Config, first: Env, actions: seq<Action>, states: seq<Machine>) {
    && |states| == |actions| + 1 && states[0] == Machine(first, first, Off, multiset{}, multiset{})
    && forall i :: 0 <= i < |actions| ==> Takes(cfg, actions[i], states[i], states[i + 1])
  }

  lemma {:induction false} FollowsOn(cfg: Config, first: Env, actions: seq<Action>, states: seq<Machine>, i: nat,
                                     m: Machine)
    requires i < |actions| && Follows(cfg, first, actions[..i], states) && Takes(cfg, actions[i], states[i], m)
    ensures Follows(cfg, first, actions[..i + 1], states + [m])
  {
    hide Takes;
    forall j | 0 <= j < i + 1
      ensures Takes(cfg, actions[..i + 1][j], (states + [m])[j], (states + [m])[j + 1])
    {
      assert actions[..i + 1][j] == actions[j];
      if j < i {
        assert actions[..i][j] == actions[j];
      }
    }
  }

  /** How often a target is booted by the first n actions. */
  function Started(actions: seq<Action>, states: seq<Machine>, n: nat, name: string): nat
    requires n <= |actions| && n <= |states|
  {
    if n == 0 then 0
    else
      Started(actions, states, n - 1, name)
      + if actions[n - 1] == BootIt(true) && About(states[n - 1], name) then 1 else 0
  }

  /** A target of this name is picked and saved. */
  predicate About(m: Machine, name: string) {
    m.phase.Armed? && m.phase.k < |m.phase.c.targets| && m.phase.c.targets[m.phase.k].name == name
  }

  /** How often a target was picked without anything new on the disk. */
  function Lost(actions: seq<Action>, states: seq<Machine>, n: nat, name: string): nat
    requires n <= |actions| && n < |states|
  {
    if n == 0 then 0
    else
      Lost(actions, states, n - 1, name)
      + if actions[n - 1] == PickTarget && CanPick(states[n - 1]) && About(states[n], name)
           && states[n].disk == states[n - 1].disk then 1 else 0
  }

  /** The machine counts exactly the boots, and at most the picks that did not reach the disk as unsaved. */
  lemma {:induction false} BootsAre(cfg: Config, first: Env, actions: seq<Action>, states: seq<Machine>, n: nat,
                                    name: string)
    requires Follows(cfg, first, actions, states) && n <= |actions|
    ensures states[n].boots[name] == Started(actions, states, n, name)
    ensures states[n].unsaved[name] <= Lost(actions, states, n, name)
  {
    if n > 0 {
      BootsAre(cfg, first, actions, states, n - 1, name);
      assert Takes(cfg, actions[n - 1], states[n - 1], states[n - 1 + 1]);
      BootsStep(cfg, actions[n - 1], states[n - 1], states[n], name);
      UnsavedStep(cfg, actions[n - 1], states[n - 1], states[n], name);
      hide Takes, About, CanPick;
    }
  }

  lemma {:induction false} BootsStep(cfg: Config, action: Action, m: Machine, m': Machine, name: string)
    requires Takes(cfg, action, m, m')
    ensures m'.boots[name] == m.boots[name] + if action == BootIt(true) && About(m, name) then 1 else 0
  {
    hide Get, Saving, FirstOk, ChooserOk, Picked;
  }

  lemma {:induction false} UnsavedStep(cfg: Config, action: Action, m: Machine, m': Machine, name: string)
    requires Takes(cfg, action, m, m')
    ensures m'.unsaved[name]
         <= m.unsaved[name]
            + if action == PickTarget && CanPick(m) && About(m', name) && m'.disk == m.disk then 1 else 0
  {
    hide Get, Saves, Partly, FirstOk, ChooserOk, Picked;
  }

  lemma {:induction false} SizeOf(bc: Bootchooser)
    requires bc.Valid()
    ensures bc.V().targets == bc.vals && |bc.vals| == |bc.targets|
  {
  }

  lemma {:induction false} NameOf(bc: Bootchooser, k: nat)
    requires bc.Valid() && k < |bc.targets|
    ensures bc.V().targets[k].name == bc.targets[k].name
  {
  }

  /**
   A board: its stored variables, whether it is on, its chooser, the target about to be booted, and all boots so far.
   */
  class Board {
    const store: Store
    var on: bool
    var bc: Bootchooser?
    var armed: bool
    var target: BootTarget?
    var boots: multiset<string>

    constructor (reliable: bool, first: Env)
      ensures fresh(store) && store.reliable == reliable && Valid(Machine(first, first, Off, multiset{}, multiset{}))
      ensures bc == null
    {
      store := new Store(reliable, first);
      on, bc, armed, target, boots := false, null, false, null, multiset{};
    }

    /** The board is in the state m of the machine. */
    ghost predicate Valid(m: Machine)
      reads this, store, bc, if bc == null then [] else bc.targets
    {
      && PhaseOk(m.phase) && m.disk == store.disk && m.env == store.env && m.boots == boots
      && (store.reliable ==> m.unsaved == multiset{})
      && match m.phase
         case Off => !on
         case Idle => on && bc == null
         case Ready(c) => on && !armed && bc != null && bc.Valid() && bc.V() == c
         case Armed(c, k) =>
           on && armed && bc != null && bc.Valid() && bc.V() == c && k < |bc.targets| && target == bc.targets[k]
    }

    method TryOpen(cfg: Config, ghost m: Machine) returns (ghost m': Machine)
      requires Counting(cfg) && Valid(m) && m.phase.Idle?
      modifies this`bc, this`armed
      ensures Valid(m') && if Get(m.env, cfg, false, false).Some? then Open(cfg, m, m') else m' == m
      ensures bc == null || (fresh(bc) && fresh(bc.targets))
    {
      hide Get;
      m' := m;
      if Get(store.env, cfg, false, false).Some? {
        GetIsOk(store.env, cfg, false, false);
      }
      var ret, chooser, _ := GetBootchooser(store.env, cfg, false, false, false);
      if ret == 0 {
        bc, armed := chooser, false;
        m' := m.(phase := Ready(bc.V()));
      } else {
        bc := null;
      }
    }

    method TryPick(cfg: Config, ghost m: Machine) returns (ghost m': Machine)
      requires Valid(m) && m.phase.Ready?
      modifies this`armed, this`target, bc`vals, bc`lastChosen, bc.targets, store
      ensures Valid(m') && bc.targets == old(bc.targets)
      ensures if CanPick(m) then Pick(m, m') else m' == m
    {
      hide Partly, Saves, FirstOk, Bootchooser.Valid, Bootchooser.V;
      ghost var c := bc.V();
      SizeOf(bc);
      ghost var saved;
      var ret;
      ret, target, saved := bc.GetTarget(store);
      if ret < 0 {
        m' := m;
      } else {
        armed := true;
        ghost var k := FirstOk(c.targets);
        m' := Machine(store.disk, store.env, Armed(bc.V(), k), m.boots,
                      if saved then m.unsaved else m.unsaved + multiset{bc.V().targets[k].name});
        assert PickedAs(m, m', k, Picked(c, k), saved);
      }
    }

    method Release(cfg: Config, ghost m: Machine) returns (ghost m': Machine)
      requires Valid(m) && m.phase.Ready?
      modifies this`bc, store
      ensures Valid(m') && Put(m, m') && bc == null
    {
      var ret := bc.SaveTo(store);
      m' := m.(disk := store.disk, env := store.env, phase := Idle);
      assert Saving(m, m', m.phase.c, ret == 0);
      bc := null;
    }

    method TryBoot(found: bool, ghost m: Machine) returns (ghost m': Machine)
      requires Valid(m) && m.phase.Armed?
      modifies this`armed, this`boots
      ensures Valid(m') && (if found then Boot(m, m') else Skip(m, m'))
    {
      SizeOf(bc);
      hide Bootchooser.Valid, Bootchooser.V;
      m' := m.(phase := Ready(m.phase.c));
      if found {
        NameOf(bc, m.phase.k);
        boots := boots + multiset{target.name};
        m' := m'.(boots := m.boots + multiset{m.phase.c.targets[m.phase.k].name});
      }
      armed := false;
    }

    method Act(cfg: Config, action: Action, ghost m: Machine) returns (ghost m': Machine)
      requires Counting(cfg) && Valid(m)
      modifies this, store, bc, if bc == null then [] else bc.targets
      ensures Valid(m') && Takes(cfg, action, m, m')
      ensures bc == null || fresh(bc) || bc == old(bc)
      ensures bc == null || fresh(bc.targets) || bc.targets == old(if bc == null then [] else bc.targets)
    {
      hide Open, Pick, Boot, Skip, Put, Bootchooser.Valid, Bootchooser.V, Counting;
      m' := m;
      match action
      case SwitchOn =>
        if !on {
          store.Restart();
          on, bc, armed := true, null, false;
          m' := m.(phase := Idle, env := m.disk);
        }
      case OpenChooser =>
        if on && bc == null {
          m' := TryOpen(cfg, m);
        }
      case PickTarget =>
        if on && bc != null && !armed {
          m' := TryPick(cfg, m);
        }
      case BootIt(found) =>
        if on && bc != null && armed {
          m' := TryBoot(found, m);
        }
      case CloseChooser =>
        if on && bc != null && !armed {
          m' := Release(cfg, m);
        }
      case CutPower =>
        on := false;
        m' := m.(phase := Off);
    }
  }

  /**
   A board does what the actions say, and its history is a run of the machine; so a target is booted at most as often
   as first stored, plus once for every pick whose save failed, and exactly within its attempts if no save fails.
   */
  method PowerCycles(cfg: Config, reliable: bool, first: Env, actions: seq<Action>)
    returns (board: Board, ghost states: seq<Machine>, ghost run: seq<Machine>)
    requires Counting(cfg) && GetU32(first, AttemptsLocked, 0) == 0
    ensures Follows(cfg, first, actions, states) && board.Valid(states[|actions|])
    ensures IsRun(cfg, first, run) && run[|run| - 1] == states[|actions|]
    ensures forall name :: board.boots[name] + StoredAttempts(board.store.disk, cfg, name)
                        <= StoredAttempts(first, cfg, name) + if reliable then 0 else run[|run| - 1].unsaved[name]
  {
    hide Counting, Next, StoredAttempts, GetU32, Takes;
    board := new Board(reliable, first);
    run := [Machine(first, first, Off, multiset{}, multiset{})];
    states := run;
    for i := 0 to |actions|
      invariant Follows(cfg, first, actions[..i], states) && board.Valid(states[i])
      invariant IsRun(cfg, first, run) && run[|run| - 1] == states[i]
      invariant fresh(board) && fresh(board.store) && board.store.reliable == reliable
      invariant board.bc != null ==> fresh(board.bc) && fresh(board.bc.targets)
    {
      var m := board.Act(cfg, actions[i], states[i]);
      TakesNext(cfg, actions[i], states[i], m);
      FollowsOn(cfg, first, actions, states, i, m);
      if m != states[i] {
        run := run + [m];
      }
      states := states + [m];
    }
    assert actions[..|actions|] == actions;
    forall name
      ensures board.boots[name] + StoredAttempts(board.store.disk, cfg, name)
           <= StoredAttempts(first, cfg, name) + if reliable then 0 else run[|run| - 1].unsaved[name]
    {
      BootsBounded(cfg, first, run, name);
    }
  }
}
