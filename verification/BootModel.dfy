/** Bootchooser on values: targets as loaded, reset, picked and saved. */
module BootModel {
  import opened Seqs
  import opened BootStore

  /** Environment variables below the configuration and state prefixes. */
  datatype Key =
    | DefaultAttempts(name: string)
    | DefaultPriority(name: string)
    | RemainingAttempts(name: string)
    | Priority(name: string)
    | LastChosen
    | AttemptsLocked

  type Env = map<Key, string>

  datatype ResetSource = PowerOn | ResetLine | OtherSource

  datatype Config = Config(
    availableTargets: string,
    defaultAttempts: u32,
    defaultPriority: u32,
    resetPowerOn: bool,
    resetSrcRst: bool,
    resetAllZero: bool,
    resetPrioritiesAllZero: bool,
    disableOnZeroAttempts: bool,
    retry: bool,
    attemptsLocked: bool,
    source: ResetSource)

  datatype Target = Target(
    name: string, id: nat, priority: u32, attempts: u32, defaultAttempts: u32, defaultPriority: u32)

  datatype Chooser = Chooser(targets: seq<Target>, last: Option<nat>, locked: bool)

  predicate Ok(t: Target) {
    t.priority != 0 && t.attempts != 0
  }

  predicate Enabled(t: Target) {
    t.priority != 0
  }

  // ---- loading -------------------------------------------------------------------------------

  function GetU32(env: Env, key: Key, default: u32): u32 {
    if key in env then ParseU32(env[key]) else default
  }

  function LoadTarget(env: Env, cfg: Config, name: string, id: nat): Target {
    var defaultPriority := GetU32(env, DefaultPriority(name), cfg.defaultPriority);
    var defaultAttempts := GetU32(env, DefaultAttempts(name), cfg.defaultAttempts);
    var priority := GetU32(env, Priority(name), defaultPriority);
    var attempts := GetU32(env, RemainingAttempts(name), defaultAttempts);
    Target(name, id, priority, if priority == 0 then 0 else attempts, defaultAttempts, defaultPriority)
  }

  /** strsep on " ": the names before the first empty token. */
  function Names(s: string): seq<string>
    decreases |s|
  {
    var n := TokenLength(s);
    if n == 0 then []
    else if n == |s| then [s]
    else [s[..n]] + Names(s[n + 1..])
  }

  function TokenLength(s: string): (n: nat)
    ensures n <= |s|
    ensures n < |s| ==> s[n] == ' '
  {
    if s == [] || s[0] == ' ' then 0 else 1 + TokenLength(s[1..])
  }

  /** list_add_sort with the descending-priority comparison: behind every target of at least its priority. */
  function InsertPosition(ts: seq<Target>, t: Target): (k: nat)
    ensures k <= |ts|
  {
    if ts == [] || ts[0].priority < t.priority then 0 else 1 + InsertPosition(ts[1..], t)
  }

  function Insert(ts: seq<Target>, t: Target): seq<Target> {
    var k := InsertPosition(ts, t);
    ts[..k] + [t] + ts[k..]
  }

  function LoadAll(env: Env, cfg: Config, names: seq<string>): seq<Target> {
    if names == [] then [] else
      var n := |names| - 1;
      Insert(LoadAll(env, cfg, names[..n]), LoadTarget(env, cfg, names[n], n + 1))
  }

  // ---- resets --------------------------------------------------------------------------------

  function ResetAttempts(t: Target): Target {
    if Enabled(t) then t.(attempts := t.defaultAttempts) else t
  }

  function ResetPriority(t: Target): Target {
    t.(priority := t.defaultPriority)
  }

  function Disable(t: Target): Target {
    if t.attempts == 0 then t.(priority := 0, attempts := 0) else t
  }

  function Each(f: Target -> Target, ts: seq<Target>): (r: seq<Target>)
    ensures |r| == |ts|
    ensures forall i :: 0 <= i < |ts| ==> r[i] == f(ts[i])
  {
    seq(|ts|, i requires 0 <= i < |ts| => f(ts[i]))
  }

  function SumPriorities(ts: seq<Target>): nat {
    if ts == [] then 0 else SumPriorities(ts[..|ts| - 1]) + ts[|ts| - 1].priority
  }

  function SumAttempts(ts: seq<Target>): nat {
    if ts == [] then 0 else SumAttempts(ts[..|ts| - 1]) + ts[|ts| - 1].attempts
  }

  /** The C code sums in 32 bits. */
  predicate PrioritiesResetFires(cfg: Config, ts: seq<Target>) {
    cfg.resetPrioritiesAllZero && SumPriorities(ts) % TWO32 == 0
  }

  /** The same targets in the same order. */
  predicate SameTargets(ts: seq<Target>, r: seq<Target>) {
    |r| == |ts| && forall i :: 0 <= i < |ts| ==> r[i].id == ts[i].id && r[i].name == ts[i].name
  }

  function PriorityStep(cfg: Config, ts: seq<Target>): (r: seq<Target>)
    ensures SameTargets(ts, r)
  {
    if PrioritiesResetFires(cfg, ts) then Each(ResetPriority, ts) else ts
  }

  predicate SourceReset(cfg: Config, resetted: bool) {
    !resetted && ((cfg.resetPowerOn && cfg.source == PowerOn) || (cfg.resetSrcRst && cfg.source == ResetLine))
  }

  function SourceStep(cfg: Config, resetted: bool, ts: seq<Target>): (r: seq<Target>)
    ensures SameTargets(ts, r)
  {
    if SourceReset(cfg, resetted) then Each(ResetAttempts, ts) else ts
  }

  function AllZeroStep(cfg: Config, ts: seq<Target>): (r: seq<Target>)
    ensures SameTargets(ts, r)
  {
    if cfg.resetAllZero && SumAttempts(ts) % TWO32 == 0 then Each(ResetAttempts, ts) else ts
  }

  function AttemptsStep(cfg: Config, resetted: bool, ts: seq<Target>): (r: seq<Target>)
    ensures SameTargets(ts, r)
  {
    AllZeroStep(cfg, SourceStep(cfg, resetted, ts))
  }

  /** The position of the target with the given id. */
  function ById(ts: seq<Target>, id: nat): (r: Option<nat>)
    ensures r.Some? ==> r.value < |ts| && ts[r.value].id == id
    ensures r.None? ==> forall i :: 0 <= i < |ts| ==> ts[i].id != id
  {
    if ts == [] then None
    else if ts[0].id == id then Some(0)
    else match ById(ts[1..], id)
         case None => None
         case Some(i) => Some(i + 1)
  }

  function LoadLast(env: Env, ts: seq<Target>): (r: Option<nat>)
    ensures r.Some? ==> r.value < |ts|
  {
    var last := GetU32(env, LastChosen, 0);
    if last > 0 then ById(ts, last) else None
  }

  function MarkStep(ts: seq<Target>, last: Option<nat>, successful: bool): (r: seq<Target>)
    requires last.Some? ==> last.value < |ts|
    ensures SameTargets(ts, r)
  {
    if last.Some? && successful
    then ts[last.value := ts[last.value].(attempts := ts[last.value].defaultAttempts)] else ts
  }

  function DisableStep(cfg: Config, ts: seq<Target>): (r: seq<Target>)
    ensures SameTargets(ts, r)
  {
    if cfg.disableOnZeroAttempts then Each(Disable, ts) else ts
  }

  /** The steps after loading: resets, last_chosen with the success mark, disabling. */
  function Finished(env: Env, cfg: Config, resetted: bool, successful: bool, loaded: seq<Target>,
                    locked: bool): (c: Chooser)
    ensures SameTargets(loaded, c.targets) && c.locked == locked && (c.last.Some? ==> c.last.value < |c.targets|)
  {
    var ts := AttemptsStep(cfg, resetted, PriorityStep(cfg, loaded));
    var last := LoadLast(env, ts);
    Chooser(DisableStep(cfg, MarkStep(ts, last, successful)), last, locked)
  }

  predicate Locked(env: Env, cfg: Config) {
    cfg.attemptsLocked || GetU32(env, AttemptsLocked, 0) != 0
  }

  /** bootchooser_get for a first reference; None is -EINVAL for an empty target list. */
  function Get(env: Env, cfg: Config, resetted: bool, successful: bool): (r: Option<Chooser>) {
    var names := Names(cfg.availableTargets);
    if names == [] then None
    else Some(Finished(env, cfg, resetted, successful, LoadAll(env, cfg, names), Locked(env, cfg)))
  }

  // ---- choosing and saving ----------------------------------------------------------------------

  function FirstOk(ts: seq<Target>): (k: nat)
    ensures k <= |ts|
    ensures k < |ts| ==> Ok(ts[k])
    ensures forall i :: 0 <= i < k ==> !Ok(ts[i])
  {
    if ts == [] then 0 else if Ok(ts[0]) then 0 else 1 + FirstOk(ts[1..])
  }

  /** The chooser after picking its target k. */
  function Picked(c: Chooser, k: nat): Chooser
    requires k < |c.targets| && Ok(c.targets[k])
  {
    c.(targets := if c.locked then c.targets else c.targets[k := c.targets[k].(attempts := c.targets[k].attempts - 1)],
       last := Some(k))
  }

  function SaveTargets(env: Env, ts: seq<Target>): Env {
    if ts == [] then env else
      var t := ts[|ts| - 1];
      var before := SaveTargets(env, ts[..|ts| - 1]);
      before[RemainingAttempts(t.name) := FormatInt(t.attempts)][Priority(t.name) := FormatInt(t.priority)]
  }

  predicate ChooserOk(c: Chooser) {
    && (c.last.Some? ==> c.last.value < |c.targets|)
    && forall i :: 0 <= i < |c.targets| ==> 0 < c.targets[i].id < TWO32
  }

  function SaveLast(env: Env, c: Chooser): Env
    requires ChooserOk(c)
  {
    if c.last.Some? then env[LastChosen := FormatInt(c.targets[c.last.value].id)] else env
  }

  /** The environment bootchooser_save leaves. */
  function Save(env: Env, c: Chooser): Env
    requires ChooserOk(c)
  {
    SaveTargets(SaveLast(env, c), c.targets)
  }

  /** What a successful save may leave: it does not notice if writing last_chosen fails. */
  predicate Saves(env: Env, c: Chooser, env': Env)
    requires ChooserOk(c)
  {
    env' == Save(env, c) || env' == SaveTargets(env, c.targets)
  }

  /** The first i targets have been written, and perhaps the attempts of the next one. */
  predicate Written(env: Env, ts: seq<Target>, env': Env, i: nat) {
    && i <= |ts|
    && var done := SaveTargets(env, ts[..i]);
       env' == done || (i < |ts| && env' == done[RemainingAttempts(ts[i].name) := FormatInt(ts[i].attempts)])
  }

  /** What a save may leave in RAM, wherever it stops. */
  ghost predicate Partly(env: Env, c: Chooser, env': Env)
    requires ChooserOk(c)
  {
    exists i: nat :: Written(env, c.targets, env', i) || Written(SaveLast(env, c), c.targets, env', i)
  }

  predicate Touched(ts: seq<Target>, key: Key) {
    key == LastChosen
    || exists i :: 0 <= i < |ts| && (key == RemainingAttempts(ts[i].name) || key == Priority(ts[i].name))
  }

  /** Only variables of the given targets and last_chosen differ. */
  predicate OnlyTouches(env: Env, env': Env, ts: seq<Target>) {
    forall key :: key in env.Keys + env'.Keys && !Touched(ts, key) ==>
      key in env && key in env' && env[key] == env'[key]
  }
}
