/**
 Client-side request routing (crates/client/src/client_core.rs) as a state machine: calls that wait for a
 response, detached prompts, the transport reader, and the table of pending responses they share. One action
 is one critical section or one local step. Responses are matched by id as in section 5 of the JSON-RPC 2.0
 specification.
 */
module Routing {
  import opened Wrappers

  /** A JSON `id`: an unsigned 64-bit number, or any other value. */
  datatype Id = Number(n: nat) | OtherValue

  /** An inbound payload: its `id` member, its `method` member when that is a string, and the payload itself. */
  datatype Message = Message(id: Option<Id>, methodName: Option<string>, payload: string)

  datatype Class = ClientRequest(requestId: Id, name: string) | Response(n: nat) | NotificationOrNothing

  /** `handle_message`: which of the three kinds an inbound payload is. */
  function Classify(m: Message): Class {
    if m.id.Some? && m.methodName.Some? then ClientRequest(m.id.value, m.methodName.value)
    else if m.id.Some? && m.id.value.Number? then Response(m.id.value.n)
    else NotificationOrNothing
  }

  /** A response to request `id`: a payload with that number for an id and no method. */
  predicate ResponseTo(m: Message, id: nat) {
    m.methodName.None? && m.id == Some(Number(id))
  }

  /** The one-shot channel of a registered request. */
  datatype Slot = Open | Filled(message: Message) | Dropped

  /** How a call ended. */
  datatype Outcome = Unsent | Answered(message: Message) | Lost | TimedOut

  /** Where a call stands; `Watching` is the task spawned for a detached prompt. */
  datatype Pc =
    | Idle
    | Numbered(id: nat)
    | Registered(id: nat)
    | Withdrawing(id: nat)
    | Awaiting(id: nat)
    | Abandoning(id: nat, why: Outcome)
    | Announcing(id: nat)
    | Watching(id: nat)
    | Ended(id: nat, outcome: Outcome)

  datatype Call = Call(detached: bool, pc: Pc)

  /** The synthetic notices of detached prompts, in the order sent. */
  datatype Notice = Started(call: nat) | Completed(call: nat, outcome: Outcome)

  datatype State = State(
    calls: seq<Call>, pending: set<nat>, slots: map<nat, Slot>, nextId: nat, notices: seq<Notice>, readerDone: bool)

  datatype Action =
    | Issue(c: nat) | Register(c: nat) | Send(c: nat, ok: bool) | Withdraw(c: nat) | Announce(c: nat)
    | Receive(c: nat) | TimeOut(c: nat) | Abandon(c: nat)
    | Deliver(m: Message) | FinishReader

  predicate IsCallStep(a: Action) {
    !a.Deliver? && !a.FinishReader?
  }

  predicate WellFormed(s: State) {
    forall c | 0 <= c < |s.calls| && !s.calls[c].pc.Idle? && !s.calls[c].pc.Numbered? :: s.calls[c].pc.id in s.slots
  }

  predicate Enabled(s: State, a: Action)
    requires WellFormed(s)
  {
    if a.Deliver? || a.FinishReader? then !s.readerDone
    else
      a.c < |s.calls| &&
      var pc := s.calls[a.c].pc;
      match a
      case Issue(_) => pc.Idle?
      case Register(_) => pc.Numbered?
      case Send(_, _) => pc.Registered?
      case Withdraw(_) => pc.Withdrawing?
      case Announce(_) => pc.Announcing?
      case Receive(_) => (pc.Awaiting? || pc.Watching?) && !s.slots[pc.id].Open?
      case TimeOut(_) => pc.Awaiting? && s.slots[pc.id].Open?
      case Abandon(_) => pc.Abandoning?
  }

  function At(s: State, c: nat, pc: Pc): State
    requires c < |s.calls|
  {
    s.(calls := s.calls[c := s.calls[c].(pc := pc)])
  }

  function Received(slot: Slot): Outcome
    requires !slot.Open?
  {
    if slot.Filled? then Answered(slot.message) else Lost
  }

  function Apply(s: State, a: Action): State
    requires WellFormed(s) && Enabled(s, a)
  {
    match a
    case Issue(c) => At(s, c, Numbered(s.nextId)).(nextId := s.nextId + 1)
    case Register(c) =>
      var id := s.calls[c].pc.id;
      At(s, c, Registered(id)).(pending := s.pending + {id}, slots := s.slots[id := Open])
    case Send(c, ok) =>
      var id := s.calls[c].pc.id;
      At(s, c, if !ok then Withdrawing(id) else if s.calls[c].detached then Announcing(id) else Awaiting(id))
    case Withdraw(c) =>
      var id := s.calls[c].pc.id;
      At(s, c, Ended(id, Unsent)).(pending := s.pending - {id})
    case Announce(c) => At(s, c, Watching(s.calls[c].pc.id)).(notices := s.notices + [Started(c)])
    case Receive(c) =>
      var id := s.calls[c].pc.id;
      var outcome := Received(s.slots[id]);
      if s.calls[c].pc.Watching? then
        At(s, c, Ended(id, outcome)).(notices := s.notices + [Completed(c, outcome)])
      else if outcome.Lost? then At(s, c, Abandoning(id, Lost))
      else At(s, c, Ended(id, outcome))
    case TimeOut(c) => At(s, c, Abandoning(s.calls[c].pc.id, TimedOut))
    case Abandon(c) =>
      var pc := s.calls[c].pc;
      At(s, c, Ended(pc.id, pc.why)).(pending := s.pending - {pc.id})
    case Deliver(m) =>
      var kind := Classify(m);
      if kind.Response? && kind.n in s.pending
      then s.(pending := s.pending - {kind.n}, slots := s.slots[kind.n := Filled(m)])
      else s
    case FinishReader =>
      s.(pending := {}, readerDone := true,
         slots := map id | id in s.slots :: if id in s.pending then Dropped else s.slots[id])
  }

  predicate Initial(s: State) {
    && s.pending == {} && s.slots == map[] && s.nextId == 1 && s.notices == [] && !s.readerDone
    && forall c | 0 <= c < |s.calls| :: s.calls[c].pc.Idle?
  }

  /** One call: its slot, its place in the table, and what its end says. */
  predicate CallOk(s: State, c: nat)
    requires WellFormed(s) && c < |s.calls|
  {
    var call := s.calls[c];
    match call.pc
    case Idle => true
    case Numbered(id) => 1 <= id < s.nextId && id !in s.slots && id !in s.pending
    case Awaiting(id) => 1 <= id < s.nextId && !call.detached && (id in s.pending <==> s.slots[id].Open?)
    case Announcing(id) => 1 <= id < s.nextId && call.detached && (id in s.pending <==> s.slots[id].Open?)
    case Watching(id) => 1 <= id < s.nextId && call.detached && (id in s.pending <==> s.slots[id].Open?)
    case Abandoning(id, why) =>
      1 <= id < s.nextId && !call.detached && (why.Lost? || why.TimedOut?) && (why.Lost? ==> s.slots[id].Dropped?)
    case Ended(id, outcome) =>
      && 1 <= id < s.nextId && id !in s.pending
      && (outcome.Answered? ==> s.slots[id] == Filled(outcome.message))
      && (outcome.Lost? ==> s.slots[id].Dropped?)
      && (outcome.TimedOut? ==> !call.detached)
    case _ => 1 <= call.pc.id < s.nextId && (call.pc.id in s.pending <==> s.slots[call.pc.id].Open?)
  }

  /** Two calls never share an id. */
  predicate Apart(s: State, c: nat, d: nat)
    requires c < |s.calls| && d < |s.calls|
  {
    !s.calls[c].pc.Idle? && !s.calls[d].pc.Idle? && s.calls[c].pc.id == s.calls[d].pc.id ==> c == d
  }

  /** A registered id: some call that has not ended owns a pending one, and only a response with it fills its slot. */
  ghost predicate IdOk(s: State, id: nat) {
    && 1 <= id < s.nextId
    && (id in s.pending ==> id in s.slots && s.slots[id].Open? && exists c :: Owns(s, c, id))
    && (id in s.slots && s.slots[id].Filled? ==> ResponseTo(s.slots[id].message, id))
  }

  /** The call is between registering this id and its end. */
  predicate Owns(s: State, c: nat, id: nat) {
    c < |s.calls| && !s.calls[c].pc.Idle? && !s.calls[c].pc.Numbered? && !s.calls[c].pc.Ended?
    && s.calls[c].pc.id == id
  }

  predicate IsFor(n: Notice, c: nat) {
    n.call == c
  }

  function NoticesOf(notices: seq<Notice>, c: nat): seq<Notice> {
    if notices == [] then []
    else
      NoticesOf(notices[..|notices| - 1], c)
      + if IsFor(notices[|notices| - 1], c) then [notices[|notices| - 1]] else []
  }

  /** The notices a call has sent at each point: none, the start, or the start and then one completion. */
  function NoticesDue(call: Call, c: nat): seq<Notice> {
    if !call.detached then []
    else if call.pc.Watching? then [Started(c)]
    else if call.pc.Ended? && !call.pc.outcome.Unsent? then [Started(c), Completed(c, call.pc.outcome)]
    else []
  }

  ghost predicate Inv(s: State) {
    && WellFormed(s)
    && s.nextId >= 1
    && (forall c | 0 <= c < |s.calls| :: CallOk(s, c))
    && (forall c, d | 0 <= c < |s.calls| && 0 <= d < |s.calls| :: Apart(s, c, d))
    && (forall id | id in s.slots || id in s.pending :: IdOk(s, id))
    && (forall c | 0 <= c < |s.calls| :: NoticesOf(s.notices, c) == NoticesDue(s.calls[c], c))
  }

  lemma WellFormedKept(s: State, a: Action)
    requires Inv(s) && Enabled(s, a)
    ensures WellFormed(Apply(s, a)) && |Apply(s, a).calls| == |s.calls| && Apply(s, a).nextId >= s.nextId
  {
    hide NoticesOf, NoticesDue, IdOk;
  }

  /** The table and the slot treat this id alike in both states. */
  predicate SameAt(s: State, s': State, id: nat) {
    && (id in s.pending <==> id in s'.pending) && (id in s.slots <==> id in s'.slots)
    && (id in s.slots && id in s'.slots ==> s.slots[id] == s'.slots[id])
  }

  lemma UnchangedCall(s: State, s': State, c: nat)
    requires WellFormed(s) && WellFormed(s') && c < |s.calls| == |s'.calls| && CallOk(s, c)
    requires s'.calls[c] == s.calls[c] && s.nextId <= s'.nextId
    requires !s.calls[c].pc.Idle? ==> SameAt(s, s', s.calls[c].pc.id)
    ensures CallOk(s', c)
  {
  }

  lemma OtherCallKept(s: State, a: Action, c: nat)
    requires Inv(s) && Enabled(s, a) && WellFormed(Apply(s, a)) && c < |s.calls| == |Apply(s, a).calls|
    requires IsCallStep(a) && a.c != c
    ensures CallOk(Apply(s, a), c)
  {
    var s' := Apply(s, a);
    assert CallOk(s, c) && Apart(s, a.c, c);
    assert s'.calls[c] == s.calls[c] && s.nextId <= s'.nextId;
    assert !s.calls[c].pc.Idle? ==> SameAt(s, s', s.calls[c].pc.id);
    hide *;
    UnchangedCall(s, s', c);
  }

  lemma ActorKept(s: State, a: Action)
    requires Inv(s) && Enabled(s, a) && WellFormed(Apply(s, a)) && IsCallStep(a) && |s.calls| == |Apply(s, a).calls|
    ensures CallOk(Apply(s, a), a.c)
  {
    FreshId(s);
    assert CallOk(s, a.c);
    hide NoticesOf, NoticesDue, IdOk, Inv, Apart;
  }

  lemma ReaderKept(s: State, a: Action, c: nat)
    requires Inv(s) && Enabled(s, a) && WellFormed(Apply(s, a)) && c < |s.calls| == |Apply(s, a).calls|
    requires !IsCallStep(a)
    ensures CallOk(Apply(s, a), c)
  {
    assert CallOk(s, c);
    hide NoticesOf, NoticesDue, IdOk, Inv, Apart;
  }

  lemma CallKept(s: State, a: Action, c: nat)
    requires Inv(s) && Enabled(s, a) && WellFormed(Apply(s, a)) && c < |s.calls| == |Apply(s, a).calls|
    ensures CallOk(Apply(s, a), c)
  {
    hide CallOk, Apply, WellFormed, Inv;
    if !IsCallStep(a) {
      ReaderKept(s, a, c);
    } else if a.c == c {
      ActorKept(s, a);
    } else {
      OtherCallKept(s, a, c);
    }
  }

  lemma FreshId(s: State)
    requires Inv(s)
    ensures forall id | id in s.slots || id in s.pending :: id < s.nextId
  {
    hide NoticesOf, NoticesDue, CallOk, Apart;
    forall id | id in s.slots || id in s.pending
      ensures id < s.nextId
    {
      assert IdOk(s, id);
    }
  }

  lemma ApartKept(s: State, a: Action, c: nat, d: nat)
    requires Inv(s) && Enabled(s, a) && c < |s.calls| == |Apply(s, a).calls| && d < |s.calls|
    ensures Apart(Apply(s, a), c, d)
  {
    hide NoticesOf, NoticesDue, IdOk;
    assert Apart(s, c, d) && CallOk(s, c) && CallOk(s, d);
  }

  lemma OwnerKept(s: State, a: Action, c: nat, id: nat)
    requires Inv(s) && Enabled(s, a) && Owns(s, c, id) && id in s.pending && id in Apply(s, a).pending
    ensures Owns(Apply(s, a), c, id)
  {
    if IsCallStep(a) && a.c == c {
      OwnStep(s, a);
    } else {
      StepsAreBounded(s, a, c);
      hide Apply, Inv, Enabled;
    }
  }

  lemma OwnStep(s: State, a: Action)
    requires Inv(s) && Enabled(s, a) && IsCallStep(a)
    requires !s.calls[a.c].pc.Idle? && s.calls[a.c].pc.id in Apply(s, a).pending
    ensures var pc := Apply(s, a).calls[a.c].pc; !pc.Idle? && !pc.Numbered? && !pc.Ended? && pc.id == s.calls[a.c].pc.id
  {
    assert CallOk(s, a.c);
    hide NoticesOf, NoticesDue, IdOk, Inv, Apart;
  }

  lemma KnownIdKept(s: State, a: Action, id: nat)
    requires Inv(s) && Enabled(s, a) && (id in s.slots || id in s.pending)
    ensures IdOk(Apply(s, a), id)
  {
    assert IdOk(s, id);
    var s' := Apply(s, a);
    if id in s.pending && id in s'.pending {
      var c :| Owns(s, c, id);
      OwnerKept(s, a, c, id);
    }
    if IsCallStep(a) {
      assert CallOk(s, a.c);
    }
    hide NoticesOf, NoticesDue, Inv, Owns;
  }

  lemma IdKept(s: State, a: Action, id: nat)
    requires Inv(s) && Enabled(s, a) && (id in Apply(s, a).slots || id in Apply(s, a).pending)
    ensures IdOk(Apply(s, a), id)
  {
    if id in s.slots || id in s.pending {
      KnownIdKept(s, a, id);
    } else {
      hide NoticesOf, NoticesDue;
      assert a.Register? && CallOk(s, a.c);
      assert Owns(Apply(s, a), a.c, id);
    }
  }

  lemma NoticesAppend(notices: seq<Notice>, n: Notice, c: nat)
    ensures NoticesOf(notices + [n], c) == NoticesOf(notices, c) + if IsFor(n, c) then [n] else []
  {
    assert (notices + [n])[..|notices|] == notices;
  }

  /** What an action sends, and what that makes of the notices due to each call. */
  function Sent(s: State, a: Action): seq<Notice>
    requires WellFormed(s) && Enabled(s, a)
  {
    match a
    case Announce(d) => [Started(d)]
    case Receive(d) =>
      if s.calls[d].pc.Watching? then [Completed(d, Received(s.slots[s.calls[d].pc.id]))] else []
    case _ => []
  }

  lemma SentIsDue(s: State, a: Action, c: nat)
    requires WellFormed(s) && Enabled(s, a) && c < |s.calls| == |Apply(s, a).calls| && CallOk(s, c)
    ensures Apply(s, a).notices == s.notices + Sent(s, a)
    ensures NoticesDue(Apply(s, a).calls[c], c)
         == NoticesDue(s.calls[c], c) + if Sent(s, a) != [] && IsFor(Sent(s, a)[0], c) then Sent(s, a) else []
  {
    hide NoticesOf;
  }

  lemma NoticesKept(s: State, a: Action, c: nat)
    requires Inv(s) && Enabled(s, a) && c < |s.calls| == |Apply(s, a).calls|
    ensures NoticesOf(Apply(s, a).notices, c) == NoticesDue(Apply(s, a).calls[c], c)
  {
    assert CallOk(s, c) && NoticesOf(s.notices, c) == NoticesDue(s.calls[c], c);
    assert |Sent(s, a)| <= 1;
    SentIsDue(s, a, c);
    hide *;
    if Sent(s, a) != [] {
      assert Sent(s, a) == [Sent(s, a)[0]];
      NoticesAppend(s.notices, Sent(s, a)[0], c);
    } else {
      assert s.notices + [] == s.notices;
    }
  }

  lemma StepKeepsInv(s: State, a: Action)
    requires Inv(s) && Enabled(s, a)
    ensures Inv(Apply(s, a))
  {
    var s' := Apply(s, a);
    WellFormedKept(s, a);
    hide CallOk, Apart, IdOk, NoticesOf, NoticesDue, Apply, Enabled;
    forall c | 0 <= c < |s'.calls|
      ensures CallOk(s', c) && NoticesOf(s'.notices, c) == NoticesDue(s'.calls[c], c)
    {
      CallKept(s, a, c);
      NoticesKept(s, a, c);
    }
    forall c, d | 0 <= c < |s'.calls| && 0 <= d < |s'.calls|
      ensures Apart(s', c, d)
    {
      ApartKept(s, a, c, d);
    }
    forall id | id in s'.slots || id in s'.pending
      ensures IdOk(s', id)
    {
      IdKept(s, a, id);
    }
  }

  ghost predicate Reaches(s: State, actions: seq<Action>, last: State)
    decreases |actions|
  {
    if actions == [] then s == last
    else WellFormed(s) && Enabled(s, actions[0]) && Reaches(Apply(s, actions[0]), actions[1..], last)
  }

  lemma {:induction false} RunKeepsInv(s: State, actions: seq<Action>, last: State)
    requires Inv(s) && Reaches(s, actions, last)
    ensures Inv(last) && |last.calls| == |s.calls|
    decreases |actions|
  {
    if actions != [] {
      StepKeepsInv(s, actions[0]);
      WellFormedKept(s, actions[0]);
      hide Inv, Apply;
      RunKeepsInv(Apply(s, actions[0]), actions[1..], last);
    }
  }

  /**
   In every interleaving of calls, deliveries, time-outs and reader shutdown: no two calls share an id; a
   call that ended left no pending id behind; an answer was delivered under the call's own id; and each
   detached prompt announced its start before its at most one completion.
   */
  lemma Safety(s: State, actions: seq<Action>, last: State)
    requires Initial(s) && Reaches(s, actions, last)
    ensures Inv(last)
    ensures forall c, d | 0 <= c < d < |last.calls| && !last.calls[c].pc.Idle? && !last.calls[d].pc.Idle? ::
              last.calls[c].pc.id != last.calls[d].pc.id
    ensures forall c | 0 <= c < |last.calls| && last.calls[c].pc.Ended? ::
              var pc := last.calls[c].pc;
              && pc.id !in last.pending
              && (pc.outcome.Answered? ==> ResponseTo(pc.outcome.message, pc.id))
    ensures forall id | id in last.pending :: exists c :: Owns(last, c, id)
    ensures forall c | 0 <= c < |last.calls| :: NoticesOf(last.notices, c) == NoticesDue(last.calls[c], c)
  {
    assert Inv(s);
    RunKeepsInv(s, actions, last);
    forall c, d | 0 <= c < d < |last.calls| && !last.calls[c].pc.Idle? && !last.calls[d].pc.Idle?
      ensures last.calls[c].pc.id != last.calls[d].pc.id
    {
      assert Apart(last, c, d);
    }
    forall c | 0 <= c < |last.calls| && last.calls[c].pc.Ended?
      ensures last.calls[c].pc.id !in last.pending
      ensures last.calls[c].pc.outcome.Answered? ==> ResponseTo(last.calls[c].pc.outcome.message, last.calls[c].pc.id)
    {
      assert CallOk(last, c) && IdOk(last, last.calls[c].pc.id);
    }
    forall id | id in last.pending
      ensures exists c :: Owns(last, c, id)
    {
      assert IdOk(last, id);
    }
  }

  /** A slot that has been filled or dropped never changes again: each id is resolved at most once. */
  lemma StepResolvesOnce(s: State, a: Action, id: nat)
    requires Inv(s) && Enabled(s, a) && id in s.slots && !s.slots[id].Open?
    ensures id in Apply(s, a).slots && Apply(s, a).slots[id] == s.slots[id]
  {
    hide NoticesOf, NoticesDue;
    assert IdOk(s, id);
    if IsCallStep(a) {
      assert CallOk(s, a.c);
    }
  }

  lemma {:induction false} ResolvedOnce(s: State, actions: seq<Action>, last: State, id: nat)
    requires Inv(s) && Reaches(s, actions, last) && id in s.slots && !s.slots[id].Open?
    ensures id in last.slots && last.slots[id] == s.slots[id]
    decreases |actions|
  {
    if actions != [] {
      StepKeepsInv(s, actions[0]);
      StepResolvesOnce(s, actions[0], id);
      hide Inv, Apply;
      ResolvedOnce(Apply(s, actions[0]), actions[1..], last, id);
    }
  }

  /**
   A payload changes anything exactly when it has no method and its id is the number of a pending request; it
   then fills that request's slot and nothing else. Unknown, late and duplicate responses are ignored, and so is
   a request of the server's own, whatever its id.
   */
  lemma DeliveryIff(s: State, m: Message)
    requires Inv(s) && !s.readerDone
    ensures Apply(s, Deliver(m)) != s
       <==> m.methodName.None? && m.id.Some? && m.id.value.Number? && m.id.value.n in s.pending
    ensures Apply(s, Deliver(m)) != s ==>
              var id := m.id.value.n;
              Apply(s, Deliver(m)) == s.(pending := s.pending - {id}, slots := s.slots[id := Filled(m)])
    ensures forall c | 0 <= c < |s.calls| && s.calls[c].pc.Ended? && ResponseTo(m, s.calls[c].pc.id) ::
              Apply(s, Deliver(m)) == s
  {
    hide NoticesOf, NoticesDue, IdOk;
    forall c | 0 <= c < |s.calls| && s.calls[c].pc.Ended? && ResponseTo(m, s.calls[c].pc.id)
      ensures Apply(s, Deliver(m)) == s
    {
      assert CallOk(s, c);
    }
  }

  /** Once a response has been delivered, delivering it again is ignored at any later point of any run. */
  lemma DuplicateIsIgnored(s: State, m: Message, actions: seq<Action>, last: State)
    requires Inv(s) && !s.readerDone && m.id.Some? && m.id.value.Number? && ResponseTo(m, m.id.value.n)
    requires m.id.value.n in s.pending
    requires Reaches(Apply(s, Deliver(m)), actions, last) && !last.readerDone
    ensures WellFormed(last) && Apply(last, Deliver(m)) == last
  {
    var once, id := Apply(s, Deliver(m)), m.id.value.n;
    assert IdOk(s, id) && once.slots[id] == Filled(m);
    StepKeepsInv(s, Deliver(m));
    RunKeepsInv(once, actions, last);
    ResolvedOnce(once, actions, last, id);
    assert IdOk(last, id);
  }

  /** Writing the request failed, and the call is to end unsent or has. */
  predicate SendFailed(s: State, c: nat) {
    c < |s.calls| && var pc := s.calls[c].pc; pc.Withdrawing? || (pc.Ended? && pc.outcome.Unsent?)
  }

  /** The wait was given up for time. */
  predicate GaveUp(s: State, c: nat) {
    && c < |s.calls|
    && var pc := s.calls[c].pc; (pc.Abandoning? && pc.why.TimedOut?) || (pc.Ended? && pc.outcome.TimedOut?)
  }

  lemma OwnFate(s: State, a: Action)
    requires WellFormed(s) && Enabled(s, a) && IsCallStep(a) && CallOk(s, a.c) && a.c < |Apply(s, a).calls|
    ensures SendFailed(Apply(s, a), a.c) <==> SendFailed(s, a.c) || a == Send(a.c, false)
    ensures GaveUp(Apply(s, a), a.c) <==> GaveUp(s, a.c) || a == TimeOut(a.c)
  {
  }

  lemma FateStep(s: State, a: Action, c: nat)
    requires Inv(s) && Enabled(s, a) && c < |s.calls|
    ensures SendFailed(Apply(s, a), c) <==> SendFailed(s, c) || a == Send(c, false)
    ensures GaveUp(Apply(s, a), c) <==> GaveUp(s, c) || a == TimeOut(c)
  {
    StepsAreBounded(s, a, c);
    assert WellFormed(s) && CallOk(s, c);
    if IsCallStep(a) && a.c == c {
      hide Inv, Apply, CallOk, WellFormed, Enabled, SendFailed, GaveUp;
      OwnFate(s, a);
    } else {
      hide Inv, Apply, CallOk, WellFormed, Enabled;
    }
  }

  lemma SlotStep(s: State, a: Action, id: nat)
    requires Inv(s) && Enabled(s, a) && id in Apply(s, a).slots
    ensures Apply(s, a).slots[id].Filled? ==>
              (id in s.slots && s.slots[id] == Apply(s, a).slots[id]) || a == Deliver(Apply(s, a).slots[id].message)
    ensures Apply(s, a).slots[id].Dropped? ==> (id in s.slots && s.slots[id].Dropped?) || a == FinishReader
  {
    hide NoticesOf, NoticesDue, IdOk, Inv;
  }

  /** The slot says what happened: filled with a delivered payload, or dropped by the reader's end. */
  predicate SlotTells(s: State, actions: seq<Action>, last: State, id: nat) {
    id in last.slots ==>
      && (last.slots[id].Filled? ==>
            (id in s.slots && s.slots[id] == last.slots[id]) || Deliver(last.slots[id].message) in actions)
      && (last.slots[id].Dropped? ==> (id in s.slots && s.slots[id].Dropped?) || FinishReader in actions)
  }

  lemma {:induction false} RunTells(s: State, actions: seq<Action>, last: State, c: nat, id: nat)
    requires Inv(s) && Reaches(s, actions, last) && c < |s.calls|
    ensures SendFailed(last, c) <==> SendFailed(s, c) || Send(c, false) in actions
    ensures GaveUp(last, c) <==> GaveUp(s, c) || TimeOut(c) in actions
    ensures SlotTells(s, actions, last, id)
    decreases |actions|
  {
    if actions != [] {
      var a, rest := actions[0], actions[1..];
      assert actions == [a] + rest;
      StepKeepsInv(s, a);
      WellFormedKept(s, a);
      FateStep(s, a, c);
      if id in Apply(s, a).slots {
        SlotStep(s, a, id);
      }
      hide Inv, Apply, SendFailed, GaveUp, Enabled;
      RunTells(Apply(s, a), rest, last, c, id);
    }
  }

  /**
   A call ends as it went: unsent exactly when its write failed, timed out exactly when its wait did, answered
   only by a payload that was delivered, and lost only when the reader has stopped.
   */
  lemma EndsAsItWent(s: State, actions: seq<Action>, last: State, c: nat)
    requires Initial(s) && Reaches(s, actions, last) && c < |last.calls| && last.calls[c].pc.Ended?
    ensures last.calls[c].pc.outcome.Unsent? <==> Send(c, false) in actions
    ensures last.calls[c].pc.outcome.TimedOut? <==> TimeOut(c) in actions
    ensures last.calls[c].pc.outcome.Answered? ==> Deliver(last.calls[c].pc.outcome.message) in actions
    ensures last.calls[c].pc.outcome.Lost? ==> FinishReader in actions
  {
    assert Inv(s);
    RunKeepsInv(s, actions, last);
    RunTells(s, actions, last, c, last.calls[c].pc.id);
    assert CallOk(last, c);
    hide NoticesOf, NoticesDue, Reaches;
  }

  /** Steps a call still has to take. */
  function Remaining(pc: Pc): nat {
    match pc
    case Idle => 6
    case Numbered(_) => 5
    case Registered(_) => 4
    case Withdrawing(_) => 1
    case Announcing(_) => 3
    case Awaiting(_) => 2
    case Watching(_) => 2
    case Abandoning(_, _) => 1
    case Ended(_, _) => 0
  }

  function Next(s: State, c: nat): Action
    requires WellFormed(s) && c < |s.calls|
  {
    var pc := s.calls[c].pc;
    match pc
    case Idle => Issue(c)
    case Numbered(_) => Register(c)
    case Registered(_) => Send(c, true)
    case Withdrawing(_) => Withdraw(c)
    case Announcing(_) => Announce(c)
    case Awaiting(id) => if s.slots[id].Open? then TimeOut(c) else Receive(c)
    case Watching(_) => Receive(c)
    case _ => Abandon(c)
  }

  /** A call that has not ended can always take a step, except a detached prompt whose id is pending. */
  lemma BlockedIff(s: State, c: nat)
    requires Inv(s) && c < |s.calls| && !s.calls[c].pc.Ended?
    ensures Enabled(s, Next(s, c)) <==> !(s.calls[c].pc.Watching? && s.calls[c].pc.id in s.pending)
  {
    hide NoticesOf, NoticesDue, IdOk;
    assert CallOk(s, c);
  }

  /** Each own step brings a call nearer its end, and no other action sets it back. */
  lemma StepsAreBounded(s: State, a: Action, c: nat)
    requires Inv(s) && Enabled(s, a) && c < |s.calls|
    ensures |Apply(s, a).calls| == |s.calls|
    ensures if IsCallStep(a) && a.c == c then Remaining(Apply(s, a).calls[c].pc) < Remaining(s.calls[c].pc)
            else Apply(s, a).calls[c] == s.calls[c]
  {
    hide NoticesOf, NoticesDue, IdOk;
    assert CallOk(s, c);
  }

  /** A call that has not entered the table of pending responses yet. */
  predicate Unregistered(s: State, c: nat)
    requires c < |s.calls|
  {
    s.calls[c].pc.Idle? || s.calls[c].pc.Numbered?
  }

  /** After shutdown: registered in time, so nothing is awaited any more. */
  predicate InTime(s: State, c: nat) {
    s.readerDone && c < |s.calls| && !Unregistered(s, c) && s.calls[c].pc.id !in s.pending
  }

  /** After shutdown: not registered in time, so a response is awaited in vain, or the request was never sent. */
  predicate TooLate(s: State, c: nat) {
    && s.readerDone && c < |s.calls| && s.calls[c].detached
    && var pc := s.calls[c].pc;
       pc.Idle? || pc.Numbered? || (if pc.Ended? then pc.outcome.Unsent? else pc.id in s.pending)
  }

  lemma InTimeStep(s: State, a: Action, c: nat)
    requires Inv(s) && Enabled(s, a) && InTime(s, c)
    ensures InTime(Apply(s, a), c)
  {
    hide NoticesOf, NoticesDue, IdOk;
    assert CallOk(s, c) && CallOk(s, a.c) && Apart(s, a.c, c);
  }

  lemma TooLateStep(s: State, a: Action, c: nat)
    requires Inv(s) && Enabled(s, a) && TooLate(s, c)
    ensures TooLate(Apply(s, a), c)
  {
    hide NoticesOf, NoticesDue, IdOk;
    assert CallOk(s, c) && CallOk(s, a.c) && Apart(s, a.c, c);
  }

  /** Whether a call was in time is decided by the shutdown and never changes in a further run. */
  lemma {:induction false} RunKeepsTiming(s: State, actions: seq<Action>, last: State, c: nat)
    requires Inv(s) && Reaches(s, actions, last)
    ensures InTime(s, c) ==> InTime(last, c)
    ensures TooLate(s, c) ==> TooLate(last, c)
    decreases |actions|
  {
    if actions != [] {
      var a := actions[0];
      StepKeepsInv(s, a);
      if InTime(s, c) {
        InTimeStep(s, a, c);
      }
      if TooLate(s, c) {
        TooLateStep(s, a, c);
      }
      hide Inv, Apply, InTime, TooLate;
      RunKeepsTiming(Apply(s, a), actions[1..], last, c);
    }
  }

  lemma ShutdownDecides(s: State, c: nat)
    requires Inv(s) && !s.readerDone && c < |s.calls| && s.calls[c].detached
    ensures if Unregistered(s, c) then TooLate(Apply(s, FinishReader), c) else InTime(Apply(s, FinishReader), c)
  {
    hide NoticesOf, NoticesDue, IdOk;
  }

  /** Some further run sends the completion of this prompt, or it has been sent. */
  ghost predicate CanComplete(s: State, c: nat) {
    exists actions, last :: Reaches(s, actions, last) && HasCompleted(last, c)
  }

  predicate HasCompleted(s: State, c: nat) {
    c < |s.calls| && s.calls[c].pc.Ended? && !s.calls[c].pc.outcome.Unsent?
  }

  /** The start of this prompt has been announced. */
  predicate Announced(s: State, c: nat) {
    c < |s.calls| && s.calls[c].detached && (s.calls[c].pc.Watching? || HasCompleted(s, c))
  }

  lemma InTimeCompletes(s: State, c: nat)
    requires Inv(s) && InTime(s, c) && Announced(s, c)
    ensures CanComplete(s, c)
  {
    if s.calls[c].pc.Watching? {
      BlockedIff(s, c);
      var actions, last := [Receive(c)], Apply(s, Receive(c));
      assert actions[1..] == [] && Reaches(last, actions[1..], last);
      assert Reaches(s, actions, last) && HasCompleted(last, c);
    } else {
      assert Reaches(s, [], s);
    }
  }

  lemma TooLateNeverCompletes(s: State, c: nat)
    requires Inv(s) && TooLate(s, c)
    ensures !CanComplete(s, c)
  {
    forall actions, last | Reaches(s, actions, last)
      ensures !HasCompleted(last, c)
    {
      RunKeepsTiming(s, actions, last, c);
    }
  }

  /**
   An announced detached prompt is completed in some further run if and only if it was registered before the
   reader stopped; one registered in time can always take its next step until it has ended.
   */
  lemma CompletionIff(s: State, before: seq<Action>, stop: State, after: seq<Action>, last: State, c: nat)
    requires Initial(s) && Reaches(s, before, stop) && !stop.readerDone
    requires WellFormed(stop) && Reaches(Apply(stop, FinishReader), after, last)
    requires c < |stop.calls| && stop.calls[c].detached
    ensures Announced(last, c) ==> (CanComplete(last, c) <==> !Unregistered(stop, c))
    ensures !Unregistered(stop, c) ==>
              && WellFormed(last) && c < |last.calls|
              && (last.calls[c].pc.Ended? || Enabled(last, Next(last, c)))
  {
    assert Inv(s);
    RunKeepsInv(s, before, stop);
    ShutdownDecides(stop, c);
    StepKeepsInv(stop, FinishReader);
    hide Inv, Apply, Reaches, InTime, TooLate;
    RunKeepsInv(Apply(stop, FinishReader), after, last);
    RunKeepsTiming(Apply(stop, FinishReader), after, last, c);
    if Unregistered(stop, c) {
      TooLateNeverCompletes(last, c);
    } else {
      StillEnabled(last, c);
      if Announced(last, c) {
        InTimeCompletes(last, c);
      }
    }
  }

  lemma StillEnabled(s: State, c: nat)
    requires Inv(s) && InTime(s, c)
    ensures WellFormed(s) && c < |s.calls| && (s.calls[c].pc.Ended? || Enabled(s, Next(s, c)))
  {
    if !s.calls[c].pc.Ended? {
      BlockedIff(s, c);
    }
  }

  /** Such a prompt exists: started after the reader stopped, it is announced and never completed. */
  lemma PromptAfterShutdownStrands()
    ensures exists s, actions, last ::
              Initial(s) && Reaches(s, actions, last) && Announced(last, 0) && !CanComplete(last, 0)
  {
    var s, actions, last := LatePrompt();
    RunKeepsInv(s, actions, last);
    TooLateNeverCompletes(last, 0);
  }

  lemma LatePrompt() returns (s: State, actions: seq<Action>, last: State)
    ensures Initial(s) && Inv(s) && Reaches(s, actions, last) && Announced(last, 0) && TooLate(last, 0)
  {
    s := State([Call(true, Idle)], {}, map[], 1, [], false);
    var s1 := s.(readerDone := true);
    var s2 := s1.(calls := [Call(true, Numbered(1))], nextId := 2);
    var s3 := s2.(calls := [Call(true, Registered(1))], pending := {1}, slots := map[1 := Open]);
    assert Apply(s, FinishReader) == s1 && Apply(s1, Issue(0)) == s2 && Apply(s2, Register(0)) == s3;
    hide Reaches, Apply;
    actions, last := LateAnnouncement();
    actions := Then(s2, Register(0), actions, last);
    actions := Then(s1, Issue(0), actions, last);
    actions := Then(s, FinishReader, actions, last);
  }

  lemma LateAnnouncement() returns (actions: seq<Action>, last: State)
    ensures Reaches(State([Call(true, Registered(1))], {1}, map[1 := Open], 2, [], true), actions, last)
    ensures Announced(last, 0) && TooLate(last, 0)
  {
    var s3 := State([Call(true, Registered(1))], {1}, map[1 := Open], 2, [], true);
    var s4 := s3.(calls := [Call(true, Announcing(1))]);
    last := s4.(calls := [Call(true, Watching(1))], notices := [Started(0)]);
    assert Apply(s3, Send(0, true)) == s4 && Apply(s4, Announce(0)) == last;
    assert Reaches(last, [], last);
    hide Reaches, Apply;
    actions := Then(s4, Announce(0), [], last);
    actions := Then(s3, Send(0, true), actions, last);
  }

  lemma Then(s: State, a: Action, rest: seq<Action>, last: State) returns (actions: seq<Action>)
    requires WellFormed(s) && Enabled(s, a) && Reaches(Apply(s, a), rest, last)
    ensures actions == [a] + rest && Reaches(s, actions, last)
  {
    actions := [a] + rest;
    assert actions[1..] == rest;
  }
}
