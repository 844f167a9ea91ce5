/**
 Process-wide coordination of index builds (crates/code-search/src/singleflight.rs) as a state
 machine. Each caller is a thread making one call of `run` for one key; one action is one critical
 section or one local step. Gates are numbered in the order they are allocated.
 */
module Singleflight {
  import opened Wrappers

  type Key = string
  /** The outcome of a build: the id of a shared index, or an error. */
  type BuildResult = Result<nat, string>

  datatype Gate = Gate(key: Key, leader: nat, result: Option<BuildResult>, waiters: int)

  /** Where a caller stands inside `run`. */
  datatype Pc =
    | Idle
    | Building(gate: nat)
    | Built(gate: nat, outcome: BuildResult)
    | Unregistering(gate: nat, outcome: BuildResult)
    | Joined(gate: nat)
    | Checking(gate: nat)
    | Sleeping(gate: nat)
    | Leaving(gate: nat, outcome: BuildResult)
    | Returned(gate: nat, outcome: BuildResult)
  {
    /** The caller still owns a strong reference to the gate. */
    predicate Holds(g: nat) {
      !Idle? && !Returned? && gate == g
    }

    predicate Leads(g: nat) {
      (Building? || Built? || Unregistering?) && gate == g
    }

    /** Inside `BuildGate::wait`, between the two counter updates. */
    predicate Waits(g: nat) {
      (Checking? || Sleeping? || Leaving?) && gate == g
    }
  }

  datatype State = State(keys: seq<Key>, pcs: seq<Pc>, registry: map<Key, nat>, gates: seq<Gate>)

  /** `Weak::upgrade` succeeds while somebody holds the gate. */
  predicate Live(s: State, g: nat) {
    exists t | 0 <= t < |s.pcs| :: s.pcs[t].Holds(g)
  }

  /** `Wake` is a spurious wake-up of the condition variable. */
  datatype Action =
    | Enter(t: nat) | FinishBuild(t: nat, outcome: BuildResult) | Complete(t: nat) | Unregister(t: nat)
    | StartWait(t: nat) | Check(t: nat) | Wake(t: nat) | Leave(t: nat)

  predicate Enabled(s: State, a: Action) {
    a.t < |s.pcs| &&
    match a
    case Enter(t) => s.pcs[t].Idle?
    case FinishBuild(t, _) => s.pcs[t].Building?
    case Complete(t) => s.pcs[t].Built?
    case Unregister(t) => s.pcs[t].Unregistering?
    case StartWait(t) => s.pcs[t].Joined?
    case Check(t) => s.pcs[t].Checking?
    case Wake(t) => s.pcs[t].Sleeping?
    case Leave(t) => s.pcs[t].Leaving?
  }

  /** All references are in range. */
  predicate WellFormed(s: State) {
    && |s.keys| == |s.pcs|
    && (forall t | 0 <= t < |s.pcs| && !s.pcs[t].Idle? :: s.pcs[t].gate < |s.gates|)
    && (forall k | k in s.registry :: s.registry[k] < |s.gates|)
  }

  /** The live gate registered for a key, if any. */
  function Lookup(s: State, k: Key): Option<nat> {
    if k in s.registry && Live(s, s.registry[k]) then Some(s.registry[k]) else None
  }

  /** `notify_all`: every sleeper of the gate goes back to checking the slot. */
  function WakeAll(pcs: seq<Pc>, g: nat): (woken: seq<Pc>)
    ensures |woken| == |pcs|
    ensures forall t | 0 <= t < |pcs| :: woken[t] == if pcs[t] == Sleeping(g) then Checking(g) else pcs[t]
  {
    seq(|pcs|, t requires 0 <= t < |pcs| => if pcs[t] == Sleeping(g) then Checking(g) else pcs[t])
  }

  function Apply(s: State, a: Action): State
    requires WellFormed(s) && Enabled(s, a)
  {
    var pc := s.pcs[a.t];
    match a
    case Enter(t) =>
      var k := s.keys[t];
      (match Lookup(s, k)
       case Some(g) => s.(pcs := s.pcs[t := Joined(g)])
       case None =>
         s.(pcs := s.pcs[t := Building(|s.gates|)], registry := s.registry[k := |s.gates|],
            gates := s.gates + [Gate(k, t, None, 0)]))
    case FinishBuild(t, outcome) => s.(pcs := s.pcs[t := Built(pc.gate, outcome)])
    case Complete(t) =>
      s.(pcs := WakeAll(s.pcs, pc.gate)[t := Unregistering(pc.gate, pc.outcome)],
         gates := s.gates[pc.gate := s.gates[pc.gate].(result := Some(pc.outcome))])
    case Unregister(t) =>
      s.(pcs := s.pcs[t := Returned(pc.gate, pc.outcome)],
         registry := if Lookup(s, s.keys[t]) == Some(pc.gate) then s.registry - {s.keys[t]} else s.registry)
    case StartWait(t) =>
      s.(pcs := s.pcs[t := Checking(pc.gate)],
         gates := s.gates[pc.gate := s.gates[pc.gate].(waiters := s.gates[pc.gate].waiters + 1)])
    case Check(t) =>
      (match s.gates[pc.gate].result
       case Some(r) => s.(pcs := s.pcs[t := Leaving(pc.gate, r)])
       case None => s.(pcs := s.pcs[t := Sleeping(pc.gate)]))
    case Wake(t) => s.(pcs := s.pcs[t := Checking(pc.gate)])
    case Leave(t) =>
      s.(pcs := s.pcs[t := Returned(pc.gate, pc.outcome)],
         gates := s.gates[pc.gate := s.gates[pc.gate].(waiters := s.gates[pc.gate].waiters - 1)])
  }

  predicate Initial(s: State) {
    && |s.keys| == |s.pcs| && s.registry == map[] && s.gates == []
    && forall t | 0 <= t < |s.pcs| :: s.pcs[t].Idle?
  }

  /**
   What is true of one caller: it holds a gate of its key; a leader is the leader its gate names and
   its gate is the registered one; and the slot holds what the caller may rely on.
   */
  predicate CallerOk(s: State, t: nat)
    requires WellFormed(s) && t < |s.pcs|
  {
    var pc := s.pcs[t];
    !pc.Idle? ==>
      var gate := s.gates[pc.gate];
      && gate.key == s.keys[t]
      && (pc.Leads(pc.gate) ==> gate.leader == t && s.keys[t] in s.registry && s.registry[s.keys[t]] == pc.gate)
      && match pc
         case Building(_) => gate.result == None
         case Built(_, _) => gate.result == None
         case Sleeping(_) => gate.result == None
         case Unregistering(_, r) => gate.result == Some(r)
         case Leaving(_, r) => gate.result == Some(r)
         case Returned(_, r) => gate.result == Some(r)
         case _ => true
  }

  /** One gate: its leader exists and has not moved on to anything but having returned. */
  predicate GateOk(s: State, g: nat)
    requires WellFormed(s) && g < |s.gates|
  {
    var leader := s.gates[g].leader;
    && leader < |s.pcs| && s.keys[leader] == s.gates[g].key
    && (s.pcs[leader].Leads(g) || (s.pcs[leader].Returned? && s.pcs[leader].gate == g))
  }

  /** One registry entry: the gate is of that key and its leader has not unregistered it. */
  predicate EntryOk(s: State, k: Key)
    requires WellFormed(s) && k in s.registry
  {
    var gate := s.gates[s.registry[k]];
    gate.key == k && gate.leader < |s.pcs| && s.pcs[gate.leader].Leads(s.registry[k])
  }

  ghost predicate Inv(s: State) {
    && WellFormed(s)
    && (forall t | 0 <= t < |s.pcs| :: CallerOk(s, t))
    && (forall g | 0 <= g < |s.gates| :: GateOk(s, g))
    && (forall k | k in s.registry :: EntryOk(s, k))
  }

  /** A registered gate is always live: its leader holds it. */
  lemma RegisteredIsLive(s: State, k: Key)
    requires Inv(s)
    ensures Lookup(s, k) == if k in s.registry then Some(s.registry[k]) else None
  {
    if k in s.registry {
      assert EntryOk(s, k);
      assert s.pcs[s.gates[s.registry[k]].leader].Holds(s.registry[k]);
    }
  }

  lemma WellFormedKept(s: State, a: Action)
    requires WellFormed(s) && Enabled(s, a)
    ensures WellFormed(Apply(s, a)) && |Apply(s, a).pcs| == |s.pcs| && Apply(s, a).keys == s.keys
  {
    hide Live;
  }

  lemma ActorKept(s: State, a: Action)
    requires Inv(s) && Enabled(s, a) && WellFormed(Apply(s, a))
    ensures |Apply(s, a).pcs| == |s.pcs| && CallerOk(Apply(s, a), a.t)
  {
    RegisteredIsLive(s, s.keys[a.t]);
    assert CallerOk(s, a.t);
    hide Lookup, Inv;
  }

  lemma OtherKept(s: State, a: Action, t: nat)
    requires Inv(s) && Enabled(s, a) && WellFormed(Apply(s, a)) && t < |s.pcs| && t != a.t
    ensures |Apply(s, a).pcs| == |s.pcs| && CallerOk(Apply(s, a), t)
  {
    RegisteredIsLive(s, s.keys[a.t]);
    assert CallerOk(s, t) && CallerOk(s, a.t);
    hide Lookup, Inv;
  }

  lemma GateKept(s: State, a: Action, g: nat)
    requires Inv(s) && Enabled(s, a) && WellFormed(Apply(s, a)) && g < |Apply(s, a).gates|
    ensures GateOk(Apply(s, a), g)
  {
    RegisteredIsLive(s, s.keys[a.t]);
    assert CallerOk(s, a.t);
    if g < |s.gates| {
      assert GateOk(s, g);
    }
    hide Lookup;
  }

  lemma EntryKept(s: State, a: Action, k: Key)
    requires Inv(s) && Enabled(s, a) && WellFormed(Apply(s, a)) && k in Apply(s, a).registry
    ensures EntryOk(Apply(s, a), k)
  {
    RegisteredIsLive(s, s.keys[a.t]);
    assert CallerOk(s, a.t);
    if k in s.registry {
      assert EntryOk(s, k);
    }
    hide Lookup;
  }

  lemma StepKeepsInv(s: State, a: Action)
    requires Inv(s) && Enabled(s, a)
    ensures Inv(Apply(s, a))
  {
    hide CallerOk, GateOk, EntryOk, Apply;
    var s' := Apply(s, a);
    WellFormedKept(s, a);
    forall t | 0 <= t < |s'.pcs|
      ensures CallerOk(s', t)
    {
      if t == a.t {
        ActorKept(s, a);
      } else {
        OtherKept(s, a, t);
      }
    }
    forall g | 0 <= g < |s'.gates|
      ensures GateOk(s', g)
    {
      GateKept(s, a, g);
    }
    forall k | k in s'.registry
      ensures EntryOk(s', k)
    {
      EntryKept(s, a, k);
    }
  }

  /** `actions` lead from `s` to `last`, each enabled when taken. */
  ghost predicate Reaches(s: State, actions: seq<Action>, last: State)
    decreases |actions|
  {
    if actions == [] then s == last
    else WellFormed(s) && Enabled(s, actions[0]) && Reaches(Apply(s, actions[0]), actions[1..], last)
  }

  lemma {:induction false} RunKeepsInv(s: State, actions: seq<Action>, last: State)
    requires Inv(s) && Reaches(s, actions, last)
    ensures Inv(last)
    decreases |actions|
  {
    if actions != [] {
      StepKeepsInv(s, actions[0]);
      hide Inv, Apply;
      RunKeepsInv(Apply(s, actions[0]), actions[1..], last);
    }
  }

  /** The leader of gate `g` has finished its build with this outcome. */
  predicate LeaderGave(s: State, g: nat, outcome: BuildResult) {
    && g < |s.gates| && s.gates[g].leader < |s.pcs|
    && var leader := s.pcs[s.gates[g].leader];
       (leader.Unregistering? || leader.Returned?) && leader.gate == g && leader.outcome == outcome
  }

  /** The leader of gate `g` has left `run`, having removed the registry entry. */
  predicate Finished(s: State, g: nat) {
    g < |s.gates| && s.gates[g].leader < |s.pcs| && s.pcs[s.gates[g].leader].Returned?
  }

  /** Caller `t` runs a build for key `k` that is not unregistered yet. */
  predicate BuildInFlight(s: State, t: nat, k: Key) {
    t < |s.pcs| && t < |s.keys| && s.keys[t] == k && (s.pcs[t].Building? || s.pcs[t].Built? || s.pcs[t].Unregistering?)
  }

  /**
   In every interleaving: at most one build per key is in flight; a key is registered exactly while a
   leader has not unregistered it; and whoever returned from a gate has the result of its leader.
   */
  lemma Safety(s: State, actions: seq<Action>, last: State)
    requires Initial(s) && Reaches(s, actions, last)
    ensures Inv(last)
    ensures forall t, u, k | BuildInFlight(last, t, k) && BuildInFlight(last, u, k) :: t == u
    ensures forall k :: k in last.registry <==> exists t :: BuildInFlight(last, t, k)
    ensures forall t | 0 <= t < |last.pcs| && last.pcs[t].Returned? ::
              LeaderGave(last, last.pcs[t].gate, last.pcs[t].outcome)
  {
    RunKeepsInv(s, actions, last);
    forall t, u, k | BuildInFlight(last, t, k) && BuildInFlight(last, u, k)
      ensures t == u && k in last.registry
    {
      assert CallerOk(last, t) && CallerOk(last, u);
    }
    forall k | k in last.registry
      ensures exists t :: BuildInFlight(last, t, k)
    {
      assert EntryOk(last, k);
      var leader := last.gates[last.registry[k]].leader;
      assert GateOk(last, last.registry[k]);
      assert BuildInFlight(last, leader, k);
    }
    forall t | 0 <= t < |last.pcs| && last.pcs[t].Returned?
      ensures LeaderGave(last, last.pcs[t].gate, last.pcs[t].outcome)
    {
      var g := last.pcs[t].gate;
      assert CallerOk(last, t) && GateOk(last, g) && CallerOk(last, last.gates[g].leader);
    }
  }

  /** The caller has taken part in gate `g`. */
  predicate Attached(s: State, t: nat, g: nat)
    requires t < |s.pcs|
  {
    !s.pcs[t].Idle? && s.pcs[t].gate == g
  }

  lemma AttachOnlyToLiveBuild(s: State, a: Action, t: nat, g: nat)
    requires Inv(s) && Enabled(s, a) && t < |s.pcs|
    requires Finished(s, g) && !Attached(s, t, g)
    ensures |Apply(s, a).pcs| == |s.pcs| && Finished(Apply(s, a), g) && !Attached(Apply(s, a), t, g)
  {
    WellFormedKept(s, a);
    RegisteredIsLive(s, s.keys[a.t]);
    assert GateOk(s, g) && CallerOk(s, a.t);
    if s.keys[a.t] in s.registry {
      assert EntryOk(s, s.keys[a.t]);
    }
    hide Lookup, Inv;
  }

  /** Once its leader has returned, a gate, failed or not, is never handed to a caller entering later. */
  lemma {:induction false} FinishedGateIsNeverJoined(s: State, actions: seq<Action>, last: State, t: nat, g: nat)
    requires Inv(s) && Reaches(s, actions, last) && t < |s.pcs|
    requires Finished(s, g) && !Attached(s, t, g)
    ensures t < |last.pcs| && !Attached(last, t, g)
    decreases |actions|
  {
    if actions != [] {
      StepKeepsInv(s, actions[0]);
      AttachOnlyToLiveBuild(s, actions[0], t, g);
      hide Apply, Attached, Inv, Finished;
      FinishedGateIsNeverJoined(Apply(s, actions[0]), actions[1..], last, t, g);
    }
  }

  /** Remaining work of one caller; a wake-up with the slot still empty costs a look and another sleep. */
  function Work(s: State, t: nat): nat
    requires WellFormed(s) && t < |s.pcs|
  {
    match s.pcs[t]
    case Idle => 8
    case Building(_) => 7
    case Built(_, _) => 6
    case Unregistering(_, _) => 5
    case Joined(_) => 6
    case Checking(g) => if s.gates[g].result.None? then 4 else 2
    case Sleeping(_) => 3
    case Leaving(_, _) => 1
    case Returned(_, _) => 0
  }

  function TotalWork(s: State, n: nat): nat
    requires WellFormed(s) && n <= |s.pcs|
  {
    if n == 0 then 0 else TotalWork(s, n - 1) + Work(s, n - 1)
  }

  /** One action never adds work to another caller, and takes work from its own unless it is spurious. */
  lemma ActionWork(s: State, a: Action, t: nat)
    requires Inv(s) && Enabled(s, a) && t < |s.pcs|
    ensures WellFormed(Apply(s, a)) && |Apply(s, a).pcs| == |s.pcs|
    ensures t != a.t ==> Work(Apply(s, a), t) <= Work(s, t)
    ensures t == a.t && !a.Wake? ==> Work(Apply(s, a), t) < Work(s, t)
    ensures t == a.t && a.Wake? ==> Work(Apply(s, a), t) <= Work(s, t) + 1
  {
    WellFormedKept(s, a);
    assert CallerOk(s, a.t) && CallerOk(s, t);
    hide Lookup, Inv;
  }

  lemma {:induction false} ActionTotalWork(s: State, a: Action, n: nat)
    requires Inv(s) && Enabled(s, a) && n <= |s.pcs|
    ensures WellFormed(Apply(s, a)) && |Apply(s, a).pcs| == |s.pcs|
    ensures TotalWork(Apply(s, a), n)
         <= TotalWork(s, n) + (if a.t >= n then 0 else if a.Wake? then 1 else -1)
  {
    WellFormedKept(s, a);
    if n > 0 {
      ActionTotalWork(s, a, n - 1);
      ActionWork(s, a, n - 1);
      hide Apply, Inv, Work;
    }
  }

  /** Spurious wake-ups in a run. */
  function Wakes(actions: seq<Action>): nat {
    if actions == [] then 0 else (if actions[0].Wake? then 1 else 0) + Wakes(actions[1..])
  }

  lemma {:induction false} RunWork(s: State, actions: seq<Action>, last: State)
    requires Inv(s) && Reaches(s, actions, last)
    ensures WellFormed(last) && |actions| + TotalWork(last, |last.pcs|) <= TotalWork(s, |s.pcs|) + 2 * Wakes(actions)
    decreases |actions|
  {
    if actions != [] {
      StepKeepsInv(s, actions[0]);
      ActionTotalWork(s, actions[0], |s.pcs|);
      hide Apply, TotalWork, Inv;
      RunWork(Apply(s, actions[0]), actions[1..], last);
    }
  }

  lemma {:induction false} InitialWork(s: State, n: nat)
    requires Initial(s) && n <= |s.pcs|
    ensures WellFormed(s) && TotalWork(s, n) == 8 * n
  {
    if n > 0 {
      InitialWork(s, n - 1);
    }
  }

  /** Every run of n callers ends: it has at most 8n actions plus two for each spurious wake-up. */
  lemma RunsAreBounded(s: State, actions: seq<Action>, last: State)
    requires Initial(s) && Reaches(s, actions, last)
    ensures |actions| <= 8 * |s.pcs| + 2 * Wakes(actions)
  {
    InitialWork(s, |s.pcs|);
    RunWork(s, actions, last);
  }

  /** No wake-up is lost: until every caller has returned, some caller can take a step that is not spurious. */
  lemma SomeStepIsEnabled(s: State, t: nat) returns (a: Action)
    requires Inv(s) && t < |s.pcs| && !s.pcs[t].Returned?
    ensures Enabled(s, a) && !a.Wake?
  {
    match s.pcs[t]
    case Idle => a := Enter(t);
    case Building(_) => a := FinishBuild(t, Err("any"));
    case Built(_, _) => a := Complete(t);
    case Unregistering(_, _) => a := Unregister(t);
    case Joined(_) => a := StartWait(t);
    case Checking(_) => a := Check(t);
    case Leaving(_, _) => a := Leave(t);
    case Sleeping(g) =>
      assert CallerOk(s, t) && GateOk(s, g) && CallerOk(s, s.gates[g].leader);
      var leader := s.gates[g].leader;
      a := if s.pcs[leader].Building? then FinishBuild(leader, Err("any")) else Complete(leader);
  }

  /** Callers inside `wait` on a gate. */
  function Waiting(pcs: seq<Pc>, g: nat): int {
    if pcs == [] then 0 else (if pcs[0].Waits(g) then 1 else 0) + Waiting(pcs[1..], g)
  }

  lemma {:induction false} WaitingUpdate(pcs: seq<Pc>, t: nat, pc: Pc, g: nat)
    requires t < |pcs|
    ensures Waiting(pcs[t := pc], g)
         == Waiting(pcs, g) - (if pcs[t].Waits(g) then 1 else 0) + (if pc.Waits(g) then 1 else 0)
  {
    if t == 0 {
      assert pcs[t := pc][1..] == pcs[1..];
    } else {
      WaitingUpdate(pcs[1..], t - 1, pc, g);
      assert pcs[t := pc][1..] == pcs[1..][t - 1 := pc];
    }
  }

  lemma {:induction false} WaitingWoken(pcs: seq<Pc>, woken: nat, g: nat)
    ensures Waiting(WakeAll(pcs, woken), g) == Waiting(pcs, g)
  {
    if pcs != [] {
      WaitingWoken(pcs[1..], woken, g);
      assert WakeAll(pcs, woken)[1..] == WakeAll(pcs[1..], woken);
    }
  }

  /** The atomic counter of every gate is the number of callers inside its `wait`. */
  ghost predicate WaitersCounted(s: State)
    requires WellFormed(s)
  {
    forall g | 0 <= g < |s.gates| :: s.gates[g].waiters == Waiting(s.pcs, g)
  }

  lemma {:induction false} NobodyWaits(pcs: seq<Pc>, g: nat)
    requires forall t | 0 <= t < |pcs| :: !pcs[t].Waits(g)
    ensures Waiting(pcs, g) == 0
  {
    if pcs != [] {
      NobodyWaits(pcs[1..], g);
    }
  }

  lemma StepCountsWaiters(s: State, a: Action)
    requires Inv(s) && Enabled(s, a) && WaitersCounted(s)
    ensures WellFormed(Apply(s, a)) && WaitersCounted(Apply(s, a))
  {
    WellFormedKept(s, a);
    var s' := Apply(s, a);
    NobodyWaits(s.pcs, |s.gates|);
    forall g | 0 <= g < |s'.gates|
      ensures s'.gates[g].waiters == Waiting(s'.pcs, g)
    {
      if a.Complete? {
        WaitingWoken(s.pcs, s.pcs[a.t].gate, g);
        WaitingUpdate(WakeAll(s.pcs, s.pcs[a.t].gate), a.t, s'.pcs[a.t], g);
      } else {
        WaitingUpdate(s.pcs, a.t, s'.pcs[a.t], g);
      }
      assert g < |s.gates| ==> s.gates[g].waiters == Waiting(s.pcs, g);
      hide Lookup, Inv, WaitersCounted, Waiting;
    }
  }
}
