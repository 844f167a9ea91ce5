/**
 Concurrent calls of `index` (crates/code-search/src/service.rs, lines 167 to 182 and 239 to 304) as a state
 machine over the build coordination of `Singleflight`: the warm check, the build's own walk, the result shared
 with followers, and the store that every caller makes afterwards. An index is known by the walk it was built
 from; files are known by how often they have changed.
 */
module SharedIndex {
  import opened Wrappers
  import opened Types
  import Flight = Singleflight

  type Key = Flight.Key

  /** A directory walk: how often the key's files had changed when it listed them. */
  datatype Walk = Walk(key: Key, version: nat, at: int)

  /** A warm index: its walk, when it was installed, and whether its watcher has seen no event. */
  datatype Warm = Warm(walk: nat, version: nat, at: int, clean: bool)

  /**
   Where a result came from: the caller's own build, the build of the leader it followed, or a warm index,
   installed when its files had changed `version` times.
   */
  datatype Origin = Own | Shared | Reused(version: nat, at: int)

  /** `InFlight` callers are inside the coordinated build or about to enter it; builders have walked. */
  datatype Stage = Ahead | InFlight(own: Option<nat>) | Failed | Served(walk: nat, origin: Origin)

  /** A caller, with the files' version and the clock at its call. */
  datatype Caller = Caller(stage: Stage, version: nat, at: int)

  datatype State = State(
    flight: Flight.State, callers: seq<Caller>, walks: seq<Walk>, warm: map<Key, Warm>, changes: map<Key, nat>,
    clock: int)

  /**
   `Call` is the warm check, `List` a builder's walk, `Restore` the store of a matching memory index inside a
   build, `Store` the store after the build; `Evict` stands for pruning.
   */
  datatype Action =
    | Call(t: nat) | Move(step: Flight.Action) | List(t: nat) | Restore(t: nat, watching: bool)
    | Store(t: nat, watching: bool) | Fail(t: nat) | Change(key: Key) | Tick(passed: nat) | Evict(key: Key)

  function Version(s: State, k: Key): nat {
    if k in s.changes then s.changes[k] else 0
  }

  predicate Reusable(s: State, k: Key) {
    k in s.warm && s.warm[k].clean && s.clock - s.warm[k].at < MANIFEST_SAFETY_INTERVAL
  }

  predicate WellFormed(s: State) {
    Flight.WellFormed(s.flight) && |s.callers| == |s.flight.pcs|
  }

  /** A step inside `run` that the caller's stage allows: a successful build returns the index of its own walk. */
  predicate MayMove(s: State, step: Flight.Action)
    requires WellFormed(s)
  {
    && Flight.Enabled(s.flight, step)
    && (step.Enter? ==> s.callers[step.t].stage == InFlight(None))
    && (step.FinishBuild? && step.outcome.Ok? ==> s.callers[step.t].stage == InFlight(Some(step.outcome.value)))
  }

  predicate Enabled(s: State, a: Action)
    requires WellFormed(s)
  {
    match a
    case Call(t) => t < |s.callers| && s.callers[t].stage.Ahead? && s.flight.pcs[t].Idle?
    case Move(step) => MayMove(s, step)
    case List(t) => t < |s.callers| && s.flight.pcs[t].Building? && s.callers[t].stage == InFlight(None)
    case Restore(t, _) =>
      && t < |s.callers| && s.flight.pcs[t].Building? && s.flight.keys[t] in s.warm
      && s.callers[t].stage.InFlight? && s.callers[t].stage.own.Some?
    case Store(t, _) =>
      && t < |s.callers| && s.callers[t].stage.InFlight?
      && s.flight.pcs[t].Returned? && s.flight.pcs[t].outcome.Ok?
    case Fail(t) =>
      && t < |s.callers| && s.callers[t].stage.InFlight?
      && s.flight.pcs[t].Returned? && s.flight.pcs[t].outcome.Err?
    case _ => true
  }

  function Staged(s: State, t: nat, stage: Stage): State
    requires t < |s.callers|
  {
    s.(callers := s.callers[t := s.callers[t].(stage := stage)])
  }

  /** `store_index`: install with a fresh watcher and a fresh time of the last manifest check. */
  function Installed(s: State, k: Key, walk: nat, watching: bool): State {
    s.(warm := s.warm[k := Warm(walk, Version(s, k), s.clock, watching)])
  }

  function Apply(s: State, a: Action): State
    requires WellFormed(s) && Enabled(s, a)
  {
    match a
    case Call(t) =>
      var k := s.flight.keys[t];
      var stage :=
        if Reusable(s, k) then Served(s.warm[k].walk, Reused(s.warm[k].version, s.warm[k].at)) else InFlight(None);
      s.(callers := s.callers[t := Caller(stage, Version(s, k), s.clock)])
    case Move(step) => s.(flight := Flight.Apply(s.flight, step))
    case List(t) =>
      var k := s.flight.keys[t];
      Staged(s, t, InFlight(Some(|s.walks|))).(walks := s.walks + [Walk(k, Version(s, k), s.clock)])
    case Restore(t, watching) => Installed(s, s.flight.keys[t], s.callers[t].stage.own.value, watching)
    case Store(t, watching) =>
      var walk := s.flight.pcs[t].outcome.value;
      var origin := if s.callers[t].stage.own.Some? then Own else Shared;
      Staged(Installed(s, s.flight.keys[t], walk, watching), t, Served(walk, origin))
    case Fail(t) => Staged(s, t, Failed)
    case Change(k) =>
      s.(changes := s.changes[k := Version(s, k) + 1],
         warm := if k in s.warm then s.warm[k := s.warm[k].(clean := false)] else s.warm)
    case Tick(passed) => s.(clock := s.clock + passed)
    case Evict(k) => s.(warm := s.warm - {k})
  }

  predicate Initial(s: State) {
    && Flight.Initial(s.flight) && |s.callers| == |s.flight.pcs|
    && s.walks == [] && s.warm == map[] && s.changes == map[]
    && forall t | 0 <= t < |s.callers| :: s.callers[t].stage.Ahead?
  }

  /** Walk `w` is of caller `t`'s own build: it was made after the call, on files no older than then. */
  predicate OwnWalk(s: State, t: nat, w: nat) {
    && t < |s.callers| && t < |s.flight.keys| && w < |s.walks| && s.walks[w].key == s.flight.keys[t]
    && s.walks[w].version >= s.callers[t].version && s.walks[w].at >= s.callers[t].at
    && (s.callers[t].stage == InFlight(Some(w)) || s.callers[t].stage == Served(w, Own))
  }

  predicate CallerOk(s: State, t: nat)
    requires WellFormed(s) && t < |s.callers|
  {
    var c, pc := s.callers[t], s.flight.pcs[t];
    && (!c.stage.Ahead? ==> c.version <= Version(s, s.flight.keys[t]) && c.at <= s.clock)
    && match c.stage
       case Ahead => pc.Idle?
       case InFlight(own) =>
         if own.Some?
         then
           && OwnWalk(s, t, own.value) && !pc.Idle? && s.flight.gates[pc.gate].leader == t
           && (pc.Built? && pc.outcome.Ok? ==> pc.outcome.value == own.value)
         else !(pc.Built? && pc.outcome.Ok?)
       case Failed => pc.Returned?
       case Served(w, Own) => pc.Returned? && OwnWalk(s, t, w)
       case Served(w, Shared) =>
         pc.Returned? && pc.outcome == Ok(w) && s.flight.gates[pc.gate].leader != t
       case Served(w, Reused(version, at)) =>
         && pc.Idle? && w < |s.walks| && s.walks[w].key == s.flight.keys[t]
         && s.walks[w].version <= version == c.version
         && s.walks[w].at <= at && c.at - at < MANIFEST_SAFETY_INTERVAL
  }

  /** A successful result in a gate is of the leader's own walk. */
  predicate GateOk(s: State, g: nat)
    requires g < |s.flight.gates|
  {
    var gate := s.flight.gates[g];
    gate.result.Some? && gate.result.value.Ok? ==> OwnWalk(s, gate.leader, gate.result.value.value)
  }

  predicate WalkOk(s: State, w: nat)
    requires w < |s.walks|
  {
    s.walks[w].version <= Version(s, s.walks[w].key) && s.walks[w].at <= s.clock
  }

  /** A walk that saw fewer changes than a call was made no later, one that saw more no earlier. */
  predicate Ordered(s: State, t: nat, w: nat)
    requires t < |s.callers| && t < |s.flight.keys| && w < |s.walks|
  {
    var c, walk := s.callers[t], s.walks[w];
    !c.stage.Ahead? && walk.key == s.flight.keys[t] ==>
      && (walk.version < c.version ==> walk.at <= c.at)
      && (walk.version > c.version ==> walk.at >= c.at)
  }

  predicate WarmOk(s: State, k: Key)
    requires k in s.warm
  {
    var warm := s.warm[k];
    && warm.walk < |s.walks| && s.walks[warm.walk].key == k
    && s.walks[warm.walk].version <= warm.version && s.walks[warm.walk].at <= warm.at <= s.clock
    && (if warm.clean then warm.version == Version(s, k) else warm.version <= Version(s, k))
  }

  ghost predicate Inv(s: State) {
    && WellFormed(s) && Flight.Inv(s.flight)
    && (forall t | 0 <= t < |s.callers| :: CallerOk(s, t))
    && (forall g | 0 <= g < |s.flight.gates| :: GateOk(s, g))
    && (forall w | 0 <= w < |s.walks| :: WalkOk(s, w))
    && (forall t, w | 0 <= t < |s.callers| && 0 <= w < |s.walks| :: Ordered(s, t, w))
    && (forall k | k in s.warm :: WarmOk(s, k))
  }

  /** What a step inside `run` leaves alone, and what it does to its own caller. */
  lemma StepKeepsFlight(f: Flight.State, step: Flight.Action)
    requires Flight.Inv(f) && Flight.Enabled(f, step)
    ensures var f' := Flight.Apply(f, step);
            && Flight.Inv(f') && f'.keys == f.keys && |f'.pcs| == |f.pcs| && |f'.gates| >= |f.gates|
            && (forall g | 0 <= g < |f.gates| :: f'.gates[g].leader == f.gates[g].leader)
            && (forall g | 0 <= g < |f'.gates| && f'.gates[g].result.Some? ::
                  || (g < |f.gates| && f'.gates[g].result == f.gates[g].result)
                  || (step.Complete? && g == f.pcs[step.t].gate && f'.gates[g].leader == step.t
                      && f'.gates[g].result == Some(f.pcs[step.t].outcome)))
  {
    Flight.StepKeepsInv(f, step);
    assert Flight.CallerOk(f, step.t);
    hide Flight.Lookup, Flight.Inv;
  }

  lemma StepKeepsCallers(f: Flight.State, step: Flight.Action, t: nat)
    requires Flight.Inv(f) && Flight.Enabled(f, step) && t < |f.pcs| == |Flight.Apply(f, step).pcs|
    ensures var pc, pc' := f.pcs[t], Flight.Apply(f, step).pcs[t];
            && (t != step.t ==> pc' == pc || (pc.Sleeping? && pc' == Flight.Checking(pc.gate)))
            && (t == step.t ==> !pc'.Idle? && (!pc.Idle? ==> pc'.gate == pc.gate && !pc.Returned?))
            && (pc'.Built? && pc' != pc ==> step.FinishBuild? && t == step.t && pc'.outcome == step.outcome)
            && (pc.Idle? && t == step.t ==> step.Enter?)
  {
    hide Flight.Lookup, Flight.Inv;
  }

  /** The caller an action is of, unless it is a step inside `run` or of nobody. */
  predicate ActsFor(a: Action, t: nat) {
    (a.Call? || a.List? || a.Restore? || a.Store? || a.Fail?) && a.t == t
  }

  /** Walks are only added, and neither changes nor time are undone. */
  predicate Grows(s: State, s': State) {
    && |s'.callers| == |s.callers| && s'.flight.keys == s.flight.keys
    && |s.walks| <= |s'.walks| && (forall w | 0 <= w < |s.walks| :: s'.walks[w] == s.walks[w])
    && s.clock <= s'.clock
  }

  lemma StepGrows(s: State, a: Action)
    requires Inv(s) && Enabled(s, a)
    ensures WellFormed(Apply(s, a)) && Flight.Inv(Apply(s, a).flight) && Grows(s, Apply(s, a))
    ensures |Apply(s, a).flight.pcs| == |s.flight.pcs|
    ensures !a.Move? ==> Apply(s, a).flight == s.flight
  {
    if a.Move? {
      StepKeepsFlight(s.flight, a.step);
    }
    hide Flight.Apply, Flight.WellFormed, Flight.Enabled, Flight.Inv;
  }

  lemma VersionGrows(s: State, a: Action, k: Key)
    requires Inv(s) && Enabled(s, a)
    ensures Version(Apply(s, a), k) == Version(s, k) + if a == Change(k) then 1 else 0
  {
    hide Inv;
  }

  /** An own walk stays one while its caller keeps it. */
  lemma OwnWalkKept(s: State, a: Action, t: nat, w: nat)
    requires Inv(s) && Enabled(s, a) && OwnWalk(s, t, w) && Grows(s, Apply(s, a)) && a != Fail(t)
    ensures OwnWalk(Apply(s, a), t, w)
  {
    assert CallerOk(s, t);
    hide Flight.Apply, Flight.WellFormed, Flight.Enabled, Flight.Inv, Inv, MayMove;
    if a.Store? && a.t == t {
      OwnStored(s, t, w);
    }
  }

  /** What a builder stores is the index of its own walk. */
  lemma OwnStored(s: State, t: nat, w: nat)
    requires Inv(s) && t < |s.callers| && s.callers[t].stage == InFlight(Some(w))
    requires s.flight.pcs[t].Returned? && s.flight.pcs[t].outcome.Ok?
    ensures s.flight.pcs[t].outcome.value == w
  {
    assert CallerOk(s, t) && Flight.CallerOk(s.flight, t);
    var g := s.flight.pcs[t].gate;
    assert GateOk(s, g);
  }

  /** A gate with a successful result: its leader has not failed. */
  lemma LeaderHasNotFailed(s: State, g: nat)
    requires Inv(s) && g < |s.flight.gates|
    requires s.flight.gates[g].result.Some? && s.flight.gates[g].result.value.Ok?
    ensures s.flight.gates[g].leader < |s.callers| && !Enabled(s, Fail(s.flight.gates[g].leader))
  {
    var leader := s.flight.gates[g].leader;
    assert Flight.GateOk(s.flight, g) && Flight.CallerOk(s.flight, leader);
    hide Flight.Apply, Flight.Enabled, OwnWalk;
  }

  lemma GateKept(s: State, a: Action, g: nat)
    requires Inv(s) && Enabled(s, a) && g < |Apply(s, a).flight.gates|
    ensures GateOk(Apply(s, a), g)
  {
    StepGrows(s, a);
    var s' := Apply(s, a);
    var gate := s'.flight.gates[g];
    if gate.result.Some? && gate.result.value.Ok? {
      var w := gate.result.value.value;
      if a.Move? {
        StepKeepsFlight(s.flight, a.step);
      }
      if g < |s.flight.gates| && gate.result == s.flight.gates[g].result {
        assert GateOk(s, g);
        LeaderHasNotFailed(s, g);
        OwnWalkKept(s, a, gate.leader, w);
      } else {
        assert CallerOk(s, a.step.t) && Flight.CallerOk(s.flight, a.step.t);
        hide Flight.Apply, Flight.Inv, Inv;
        OwnWalkKept(s, a, gate.leader, w);
      }
    }
  }

  lemma WalkKept(s: State, a: Action, w: nat)
    requires Inv(s) && Enabled(s, a) && w < |Apply(s, a).walks|
    ensures WalkOk(Apply(s, a), w)
  {
    StepGrows(s, a);
    VersionGrows(s, a, Apply(s, a).walks[w].key);
    if w < |s.walks| {
      assert WalkOk(s, w);
    }
    hide Flight.Apply, Flight.WellFormed, Flight.Enabled, Flight.Inv, Inv;
  }

  lemma OrderedKept(s: State, a: Action, t: nat, w: nat)
    requires Inv(s) && Enabled(s, a) && t < |Apply(s, a).callers| && t < |Apply(s, a).flight.keys|
    requires w < |Apply(s, a).walks|
    ensures Ordered(Apply(s, a), t, w)
  {
    StepGrows(s, a);
    assert CallerOk(s, t);
    if w < |s.walks| {
      assert WalkOk(s, w) && Ordered(s, t, w);
    }
    hide Flight.Apply, Flight.WellFormed, Flight.Enabled, Flight.Inv, Inv, OwnWalk;
  }

  lemma WarmKept(s: State, a: Action, k: Key)
    requires Inv(s) && Enabled(s, a) && k in Apply(s, a).warm
    ensures WarmOk(Apply(s, a), k)
  {
    StepGrows(s, a);
    VersionGrows(s, a, k);
    if k in s.warm {
      assert WarmOk(s, k);
    }
    if a.Restore? || a.Store? {
      StoredWalk(s, a);
    }
    hide Flight.Apply, Flight.WellFormed, Flight.Enabled, Flight.Inv, Inv, OwnWalk;
  }

  /** What is stored is the index of a walk of the same key. */
  lemma StoredWalk(s: State, a: Action)
    requires Inv(s) && Enabled(s, a) && (a.Restore? || a.Store?)
    ensures var w := if a.Restore? then s.callers[a.t].stage.own.value else s.flight.pcs[a.t].outcome.value;
            && w < |s.walks| && s.walks[w].key == s.flight.keys[a.t] && WalkOk(s, w)
  {
    assert CallerOk(s, a.t) && Flight.CallerOk(s.flight, a.t);
    if a.Store? {
      assert GateOk(s, s.flight.pcs[a.t].gate) && Flight.GateOk(s.flight, s.flight.pcs[a.t].gate);
    }
  }

  lemma BystanderKept(s: State, a: Action, t: nat)
    requires Inv(s) && Enabled(s, a) && t < |s.callers| && !a.Move? && !ActsFor(a, t)
    requires WellFormed(Apply(s, a)) && |Apply(s, a).callers| == |s.callers|
    ensures CallerOk(Apply(s, a), t)
  {
    StepGrows(s, a);
    VersionGrows(s, a, s.flight.keys[t]);
    assert CallerOk(s, t);
    var s' := Apply(s, a);
    assert s'.callers[t] == s.callers[t];
    hide *;
    StillStands(s, s', t);
  }

  lemma StillStands(s: State, s': State, t: nat)
    requires WellFormed(s) && WellFormed(s') && t < |s.callers| && CallerOk(s, t) && Grows(s, s')
    requires s'.flight == s.flight && s'.callers[t] == s.callers[t]
    requires Version(s', s.flight.keys[t]) >= Version(s, s.flight.keys[t])
    ensures CallerOk(s', t)
  {
    hide Version;
  }

  lemma ActorKept(s: State, a: Action, t: nat)
    requires Inv(s) && Enabled(s, a) && t < |s.callers| && ActsFor(a, t)
    requires WellFormed(Apply(s, a)) && |Apply(s, a).callers| == |s.callers|
    ensures CallerOk(Apply(s, a), t)
  {
    StepGrows(s, a);
    VersionGrows(s, a, s.flight.keys[t]);
    assert CallerOk(s, t) && Flight.CallerOk(s.flight, t);
    if a.Call? && s.flight.keys[t] in s.warm {
      assert WarmOk(s, s.flight.keys[t]);
    }
    if a.Store? {
      StoredWalk(s, a);
      StoredByLeaderIff(s, t);
    }
    hide Flight.Apply, Flight.Inv, Inv;
  }

  /** The caller that has walked is the leader of the gate it returned from. */
  lemma StoredByLeaderIff(s: State, t: nat)
    requires Inv(s) && Enabled(s, Store(t, true))
    ensures s.callers[t].stage.own.Some? <==> s.flight.gates[s.flight.pcs[t].gate].leader == t
    ensures s.callers[t].stage.own.Some? ==> s.callers[t].stage.own == Some(s.flight.pcs[t].outcome.value)
  {
    assert CallerOk(s, t) && Flight.CallerOk(s.flight, t) && GateOk(s, s.flight.pcs[t].gate);
  }

  /** `CallerOk` sees only the caller, where it stands, and who leads its gate. */
  lemma SameStanding(s: State, s': State, t: nat)
    requires WellFormed(s) && WellFormed(s') && t < |s.callers| && CallerOk(s, t)
    requires s' == s.(flight := s'.flight) && s'.flight.keys == s.flight.keys
    requires s'.flight.pcs[t] == s.flight.pcs[t]
          || (s.flight.pcs[t].Sleeping? && s'.flight.pcs[t] == Flight.Checking(s.flight.pcs[t].gate))
    requires !s.flight.pcs[t].Idle? ==>
               var g := s.flight.pcs[t].gate;
               g < |s'.flight.gates| && s'.flight.gates[g].leader == s.flight.gates[g].leader
    ensures CallerOk(s', t)
  {
    assert forall w :: OwnWalk(s', t, w) == OwnWalk(s, t, w);
    hide OwnWalk;
  }

  lemma MoverKept(s: State, a: Action, t: nat)
    requires Inv(s) && Enabled(s, a) && t < |s.callers| && a.Move?
    requires WellFormed(Apply(s, a)) && |Apply(s, a).callers| == |s.callers|
    ensures CallerOk(Apply(s, a), t)
  {
    StepGrows(s, a);
    StepKeepsFlight(s.flight, a.step);
    StepKeepsCallers(s.flight, a.step, t);
    var s' := Apply(s, a);
    assert CallerOk(s, t) && Flight.CallerOk(s.flight, t) && s' == s.(flight := s'.flight);
    if t != a.step.t {
      hide Flight.Apply, Flight.Inv, Inv, Apply, OwnWalk, Flight.Enabled, Enabled, CallerOk;
      SameStanding(s, s', t);
    } else {
      assert MayMove(s, a.step);
      assert forall w :: OwnWalk(s', t, w) == OwnWalk(s, t, w);
      hide Flight.Apply, Flight.Inv, Inv, Apply, OwnWalk, Flight.Enabled, Enabled;
    }
  }

  lemma StepKeepsInv(s: State, a: Action)
    requires Inv(s) && Enabled(s, a)
    ensures Inv(Apply(s, a))
  {
    var s' := Apply(s, a);
    StepGrows(s, a);
    hide Apply, Enabled, CallerOk, GateOk, WalkOk, Ordered, WarmOk, OwnWalk, Flight.Inv, Flight.Apply;
    forall t | 0 <= t < |s'.callers|
      ensures CallerOk(s', t)
    {
      if a.Move? {
        MoverKept(s, a, t);
      } else if ActsFor(a, t) {
        ActorKept(s, a, t);
      } else {
        BystanderKept(s, a, t);
      }
    }
    forall g | 0 <= g < |s'.flight.gates|
      ensures GateOk(s', g)
    {
      GateKept(s, a, g);
    }
    forall w | 0 <= w < |s'.walks|
      ensures WalkOk(s', w)
    {
      WalkKept(s, a, w);
    }
    forall t, w | 0 <= t < |s'.callers| && 0 <= w < |s'.walks|
      ensures Ordered(s', t, w)
    {
      OrderedKept(s, a, t, w);
    }
    forall k | k in s'.warm
      ensures WarmOk(s', k)
    {
      WarmKept(s, a, k);
    }
  }

  /** `actions` lead from `s` to `last`, each enabled when taken. */
  ghost predicate Reaches(s: State, actions: seq<Action>, last: State)
    decreases |actions|
  {
    if actions == [] then s == last
    else WellFormed(s) && Enabled(s, actions[0]) && Reaches(Apply(s, actions[0]), actions[1..], last)
  }

  lemma {:induction false} RunKeepsInv(s: State, actions: seq<Action>, last: State)
    requires Inv(s) && Reaches(s, actions, last)
    ensures Inv(last) && Grows(s, last)
    decreases |actions|
  {
    if actions != [] {
      StepGrows(s, actions[0]);
      StepKeepsInv(s, actions[0]);
      hide Inv, Apply;
      RunKeepsInv(Apply(s, actions[0]), actions[1..], last);
    }
  }

  predicate IsServed(s: State, t: nat) {
    t < |s.callers| && s.callers[t].stage.Served? && s.callers[t].stage.walk < |s.walks|
  }

  /** The caller's result lacks a change that its files had undergone before it called. */
  predicate Missed(s: State, t: nat)
    requires IsServed(s, t)
  {
    s.walks[s.callers[t].stage.walk].version < s.callers[t].version
  }

  /** The walk behind a result that a follower shares is its leader's own. */
  predicate SharesOwnWalk(s: State, t: nat, leader: nat, w: nat) {
    leader != t && t < |s.flight.keys| && OwnWalk(s, leader, w) && s.flight.keys[leader] == s.flight.keys[t]
  }

  /**
   Which walk a result reflects, in every interleaving. A builder's own walk follows its call and lacks nothing.
   A follower gets its leader's own walk, which may precede the call, and must where it lacks a change. A warm
   index was installed less than the safety interval ago, whatever the age of its walk, and lacks a change
   exactly when one came between its walk and its installation.
   */
  lemma Safety(s: State, actions: seq<Action>, last: State, t: nat)
    requires Initial(s) && Reaches(s, actions, last) && t < |last.callers| && last.callers[t].stage.Served?
    ensures IsServed(last, t) && t < |last.flight.keys|
    ensures var c, walk := last.callers[t], last.walks[last.callers[t].stage.walk];
            && walk.key == last.flight.keys[t]
            && match c.stage.origin
               case Own => !Missed(last, t) && walk.at >= c.at
               case Shared =>
                 && (exists leader :: SharesOwnWalk(last, t, leader, c.stage.walk))
                 && (Missed(last, t) ==> walk.at <= c.at)
               case Reused(version, at) =>
                 && c.at - at < MANIFEST_SAFETY_INTERVAL && walk.at <= at
                 && (Missed(last, t) <==> walk.version < version)
  {
    assert Inv(s);
    RunKeepsInv(s, actions, last);
    assert CallerOk(last, t) && Flight.CallerOk(last.flight, t);
    var c := last.callers[t];
    if c.stage.origin.Shared? {
      var g := last.flight.pcs[t].gate;
      assert GateOk(last, g) && Flight.GateOk(last.flight, g);
      assert SharesOwnWalk(last, t, last.flight.gates[g].leader, c.stage.walk);
    }
    assert c.stage.walk < |last.walks| ==> Ordered(last, t, c.stage.walk);
  }

  /** How often files of this key change in a run. */
  function Changes(actions: seq<Action>, k: Key): nat {
    if actions == [] then 0 else (if actions[0] == Change(k) then 1 else 0) + Changes(actions[1..], k)
  }

  lemma {:induction false} VersionCounts(s: State, actions: seq<Action>, last: State, k: Key)
    requires Inv(s) && Reaches(s, actions, last)
    ensures Version(last, k) == Version(s, k) + Changes(actions, k)
    decreases |actions|
  {
    if actions != [] {
      StepKeepsInv(s, actions[0]);
      VersionGrows(s, actions[0], k);
      hide Inv, Apply;
      VersionCounts(Apply(s, actions[0]), actions[1..], last, k);
    }
  }

  /** How much time passes in a run. */
  function Passed(actions: seq<Action>): nat {
    if actions == [] then 0 else (if actions[0].Tick? then actions[0].passed else 0) + Passed(actions[1..])
  }

  lemma {:induction false} ClockCounts(s: State, actions: seq<Action>, last: State)
    requires Inv(s) && Reaches(s, actions, last)
    ensures last.clock == s.clock + Passed(actions)
    decreases |actions|
  {
    if actions != [] {
      StepKeepsInv(s, actions[0]);
      assert Apply(s, actions[0]).clock == s.clock + if actions[0].Tick? then actions[0].passed else 0;
      hide Inv, Apply;
      ClockCounts(Apply(s, actions[0]), actions[1..], last);
    }
  }

  /** A call is answered from memory exactly while the key is warm and clean, for less than 30 seconds. */
  lemma ServedIff(s: State, t: nat)
    requires WellFormed(s) && Enabled(s, Call(t))
    ensures var stage, k := Apply(s, Call(t)).callers[t].stage, s.flight.keys[t];
            && (stage.Served? <==> k in s.warm && s.warm[k].clean && s.clock < s.warm[k].at + 30_000_000_000)
            && (stage.Served? ==> stage == Served(s.warm[k].walk, Reused(s.warm[k].version, s.warm[k].at)))
            && (!stage.Served? ==> stage == InFlight(None))
  {
  }

  /** It is not, right after its files changed, its entry was pruned or 30 seconds passed. */
  lemma NotServedAfter(s: State, a: Action, t: nat)
    requires Inv(s) && t < |s.callers| && Enabled(s, Call(t))
    requires a == Change(s.flight.keys[t]) || a == Evict(s.flight.keys[t]) || (a.Tick? && a.passed >= 30_000_000_000)
    ensures WellFormed(Apply(s, a)) && Enabled(Apply(s, a), Call(t))
    ensures Apply(Apply(s, a), Call(t)).callers[t].stage == InFlight(None)
  {
    var k := s.flight.keys[t];
    assert k in s.warm ==> WarmOk(s, k);
    hide Flight.Apply, Flight.WellFormed, Flight.Enabled, Flight.Inv;
  }

  /** Only the store after a build makes a key warm; the one inside a build replaces what is warm already. */
  lemma WarmedByStore(s: State, a: Action, k: Key)
    requires WellFormed(s) && Enabled(s, a) && k in Apply(s, a).warm && k !in s.warm
    ensures a.Store? && k == s.flight.keys[a.t]
  {
    hide Flight.Apply, Flight.WellFormed, Flight.Enabled;
  }

  /** What was noted at a call stays. */
  lemma {:induction false} CallStays(s: State, actions: seq<Action>, last: State, t: nat)
    requires Inv(s) && Reaches(s, actions, last) && t < |s.callers| && !s.callers[t].stage.Ahead?
    ensures t < |last.callers| && !last.callers[t].stage.Ahead?
    ensures last.callers[t].version == s.callers[t].version && last.callers[t].at == s.callers[t].at
    decreases |actions|
  {
    if actions != [] {
      StepKeepsInv(s, actions[0]);
      OneCallStays(s, actions[0], t);
      hide Inv, Apply;
      CallStays(Apply(s, actions[0]), actions[1..], last, t);
    }
  }

  lemma OneCallStays(s: State, a: Action, t: nat)
    requires Inv(s) && Enabled(s, a) && t < |s.callers| && !s.callers[t].stage.Ahead?
    ensures t < |Apply(s, a).callers| && !Apply(s, a).callers[t].stage.Ahead?
    ensures Apply(s, a).callers[t].version == s.callers[t].version && Apply(s, a).callers[t].at == s.callers[t].at
  {
    hide Flight.Apply, Flight.WellFormed, Flight.Enabled, Flight.Inv, Inv;
  }

  /**
   A result whose walk was made before the call lacks a change if and only if, in the run, files of its key
   changed between that walk and the call; and it is older than the call by the time that passed between the two.
   */
  lemma MissedIff(
    s: State, before: seq<Action>, m: State, builder: nat, between: seq<Action>, n: State, t: nat,
    after: seq<Action>, last: State)
    requires Initial(s) && Reaches(s, before, m) && WellFormed(m) && Enabled(m, List(builder))
    requires Reaches(Apply(m, List(builder)), between, n) && WellFormed(n) && Enabled(n, Call(t))
    requires Reaches(Apply(n, Call(t)), after, last)
    requires t < |last.callers| && last.callers[t].stage.Served? && last.callers[t].stage.walk == |m.walks|
    ensures IsServed(last, t)
    ensures Missed(last, t) <==> t < |last.flight.keys| && Changes(between, last.flight.keys[t]) > 0
    ensures |m.walks| < |last.walks| && last.callers[t].at == last.walks[|m.walks|].at + Passed(between)
  {
    assert Inv(s);
    RunKeepsInv(s, before, m);
    var listed, called := Apply(m, List(builder)), Apply(n, Call(t));
    StepKeepsInv(m, List(builder));
    RunKeepsInv(listed, between, n);
    StepKeepsInv(n, Call(t));
    RunKeepsInv(called, after, last);
    assert CallerOk(last, t);
    var w, k := |m.walks|, last.flight.keys[t];
    assert listed.walks[w] == Walk(m.flight.keys[builder], Version(m, m.flight.keys[builder]), m.clock);
    assert n.walks[w] == listed.walks[w] && called.walks == n.walks && last.walks[w] == listed.walks[w];
    assert called.callers[t].version == Version(n, k) && called.callers[t].at == n.clock;
    assert listed.clock == m.clock;
    VersionGrows(m, List(builder), k);
    hide Inv, Apply, Reaches;
    ServedWalkHasKey(last, t);
    VersionCounts(listed, between, n, k);
    ClockCounts(listed, between, n);
    CallStays(called, after, last, t);
  }

  lemma ServedWalkHasKey(s: State, t: nat)
    requires Inv(s) && IsServed(s, t)
    ensures t < |s.flight.keys| && s.walks[s.callers[t].stage.walk].key == s.flight.keys[t]
  {
    assert CallerOk(s, t) && Flight.CallerOk(s.flight, t);
    if s.callers[t].stage.origin.Shared? {
      assert GateOk(s, s.flight.pcs[t].gate) && Flight.GateOk(s.flight, s.flight.pcs[t].gate);
    }
  }

  /** The gate that the callers of the run below share, with the walk of its leader and the change after it. */
  function Gated(pcs: seq<Flight.Pc>, result: Option<Flight.BuildResult>, waiters: int): Flight.State {
    Flight.State(["k", "k", "k"], pcs, map["k" := 0], [Flight.Gate("k", 0, result, waiters)])
  }

  function Run(flight: Flight.State, follower: Stage, last: Caller, warm: map<Key, Warm>): State {
    State(flight, [Caller(InFlight(Some(0)), 0, 0), Caller(follower, 1, 0), last], [Walk("k", 0, 0)], warm,
          map["k" := 1], 0)
  }

  const AHEAD := Caller(Ahead, 0, 0)

  lemma Then(s: State, a: Action, next: State, rest: seq<Action>, last: State) returns (actions: seq<Action>)
    requires WellFormed(s) && Enabled(s, a) && Apply(s, a) == next && Reaches(next, rest, last)
    ensures actions == [a] + rest && Reaches(s, actions, last)
  {
    actions := [a] + rest;
    assert actions[1..] == rest;
  }

  /** A follower and a later caller of the warm index both lack a change made before they called. */
  predicate BothMissed(s: State) {
    && IsServed(s, 1) && IsServed(s, 2)
    && s.callers[1].stage.origin.Shared? && Missed(s, 1)
    && s.callers[2].stage.origin.Reused? && Missed(s, 2)
  }

  /**
   Both kinds of staleness happen in one run: a follower joins a build whose walk precedes a change made before
   its call, and stores the index anew; the next caller reuses it under a clean watcher.
   */
  lemma FollowerCanMissChange()
    ensures exists s, actions, last :: Initial(s) && Reaches(s, actions, last) && BothMissed(last)
  {
    var idle := [Flight.Idle, Flight.Idle, Flight.Idle];
    var building := Gated([Flight.Building(0), Flight.Idle, Flight.Idle], None, 0);
    var s0 := State(Flight.State(["k", "k", "k"], idle, map[], []), [AHEAD, AHEAD, AHEAD], [], map[], map[], 0);
    var s1 := s0.(callers := [Caller(InFlight(None), 0, 0), AHEAD, AHEAD]);
    var s2 := s1.(flight := building);
    var s3 := s2.(callers := [Caller(InFlight(Some(0)), 0, 0), AHEAD, AHEAD], walks := [Walk("k", 0, 0)]);
    var s4 := s3.(changes := map["k" := 1]);
    var s5 := Run(building, InFlight(None), AHEAD, map[]);
    assert Apply(s0, Call(0)) == s1 && Apply(s1, Move(Flight.Enter(0))) == s2;
    assert Apply(s2, List(0)) == s3 && Apply(s3, Change("k")) == s4 && Apply(s4, Call(1)) == s5;
    assert Initial(s0);
    hide Reaches, Apply, Run, Missed, Initial;
    var actions, last := FollowerJoins(building);
    actions := Then(s4, Call(1), s5, actions, last);
    actions := Then(s3, Change("k"), s4, actions, last);
    actions := Then(s2, List(0), s3, actions, last);
    actions := Then(s1, Move(Flight.Enter(0)), s2, actions, last);
    actions := Then(s0, Call(0), s1, actions, last);
  }

  /** The second caller joins the build and waits; the build completes. */
  lemma FollowerJoins(building: Flight.State) returns (actions: seq<Action>, last: State)
    requires building == Gated([Flight.Building(0), Flight.Idle, Flight.Idle], None, 0)
    ensures Reaches(Run(building, InFlight(None), AHEAD, map[]), actions, last) && BothMissed(last)
  {
    var f6 := Gated([Flight.Building(0), Flight.Joined(0), Flight.Idle], None, 0);
    var f7 := Gated([Flight.Built(0, Ok(0)), Flight.Joined(0), Flight.Idle], None, 0);
    var f8 := Gated([Flight.Unregistering(0, Ok(0)), Flight.Joined(0), Flight.Idle], Some(Ok(0)), 0);
    assert building.pcs[0].Holds(0);
    assert Flight.Apply(building, Flight.Enter(1)) == f6;
    assert Flight.Apply(f6, Flight.FinishBuild(0, Ok(0))) == f7;
    assert Flight.Apply(f7, Flight.Complete(0)) == f8;
    hide Reaches, Flight.Apply, Flight.Lookup;
    actions, last := FollowerReturns(f8);
    actions := Moves(f7, Flight.Complete(0), f8, actions, last);
    actions := Moves(f6, Flight.FinishBuild(0, Ok(0)), f7, actions, last);
    actions := Moves(building, Flight.Enter(1), f6, actions, last);
  }

  /** A step inside `run`, the follower not having stored yet. */
  lemma Moves(f: Flight.State, step: Flight.Action, f': Flight.State, rest: seq<Action>, last: State)
    returns (actions: seq<Action>)
    requires |f.pcs| == 3 && Flight.WellFormed(f) && Flight.Enabled(f, step) && Flight.Apply(f, step) == f'
    requires step.Enter? ==> step.t == 1
    requires step.FinishBuild? ==> step.t == 0 && step.outcome == Ok(0)
    requires Reaches(Run(f', InFlight(None), AHEAD, map[]), rest, last)
    ensures Reaches(Run(f, InFlight(None), AHEAD, map[]), actions, last)
  {
    hide Reaches, Flight.Apply, Flight.Enabled, Flight.WellFormed;
    var s, next := Run(f, InFlight(None), AHEAD, map[]), Run(f', InFlight(None), AHEAD, map[]);
    actions := Then(s, Move(step), next, rest, last);
  }

  /** The follower finds the result, returns and stores it; the third caller reuses what it stored. */
  lemma FollowerReturns(f8: Flight.State) returns (actions: seq<Action>, last: State)
    requires f8 == Gated([Flight.Unregistering(0, Ok(0)), Flight.Joined(0), Flight.Idle], Some(Ok(0)), 0)
    ensures Reaches(Run(f8, InFlight(None), AHEAD, map[]), actions, last) && BothMissed(last)
  {
    var f9 := Gated([Flight.Unregistering(0, Ok(0)), Flight.Checking(0), Flight.Idle], Some(Ok(0)), 1);
    var f10 := Gated([Flight.Unregistering(0, Ok(0)), Flight.Leaving(0, Ok(0)), Flight.Idle], Some(Ok(0)), 1);
    var f11 := Gated([Flight.Unregistering(0, Ok(0)), Flight.Returned(0, Ok(0)), Flight.Idle], Some(Ok(0)), 0);
    assert Flight.Apply(f8, Flight.StartWait(1)) == f9;
    assert Flight.Apply(f9, Flight.Check(1)) == f10;
    assert Flight.Apply(f10, Flight.Leave(1)) == f11;
    hide Reaches, Flight.Apply, Flight.Lookup;
    actions, last := StoredAnew(f11);
    actions := Moves(f10, Flight.Leave(1), f11, actions, last);
    actions := Moves(f9, Flight.Check(1), f10, actions, last);
    actions := Moves(f8, Flight.StartWait(1), f9, actions, last);
  }

  lemma StoredAnew(f: Flight.State) returns (actions: seq<Action>, last: State)
    requires f == Gated([Flight.Unregistering(0, Ok(0)), Flight.Returned(0, Ok(0)), Flight.Idle], Some(Ok(0)), 0)
    ensures Reaches(Run(f, InFlight(None), AHEAD, map[]), actions, last) && BothMissed(last)
  {
    var warm := map["k" := Warm(0, 1, 0, true)];
    var s11, s12 := Run(f, InFlight(None), AHEAD, map[]), Run(f, Served(0, Shared), AHEAD, warm);
    last := Run(f, Served(0, Shared), Caller(Served(0, Reused(1, 0)), 1, 0), warm);
    assert Apply(s11, Store(1, true)) == s12 && Apply(s12, Call(2)) == last;
    assert BothMissed(last) && Reaches(last, [], last);
    hide Reaches, Apply, Run;
    actions := Then(s12, Call(2), last, [], last);
    actions := Then(s11, Store(1, true), s12, actions, last);
  }
}
