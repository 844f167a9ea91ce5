/**
 The permission prompt bridge (crates/client/src/acp_permissions.rs) as a state machine: server requests handled
 by concurrent tasks, the table of pending prompts, and the user's answers. A prompt is delivered over a
 channel whose receiver belongs to the client that answers, so delivery fails only once that client is gone.
 */
module Permissions {
  import opened Wrappers

  datatype Choice = Choice(optionId: string, kind: string)

  datatype Decision = Approve | Deny | Cancel

  datatype Scope = Session | Once | Turn | PathPrefix | Host | Tool | CommandPrefix

  /** The body of the one response a permission request may get. */
  datatype Answer = Selected(optionId: string) | Cancelled | Failed

  predicate StartsWithAllow(kind: string) {
    "allow" <= kind
  }

  /** The check a permission request must pass before it is shown. */
  predicate Offers(options: seq<Choice>) {
    exists i | 0 <= i < |options| :: StartsWithAllow(options[i].kind)
  }

  /** The first option of a kind. */
  function FirstOfKind(options: seq<Choice>, kind: string): (r: Option<string>)
    ensures r.Some? <==> exists i | 0 <= i < |options| :: options[i].kind == kind
    ensures r.Some? ==> Choice(r.value, kind) in options
  {
    if options == [] then None
    else if options[0].kind == kind then Some(options[0].optionId)
    else
      var rest := FirstOfKind(options[1..], kind);
      assert forall i | 1 <= i < |options| :: options[i] == options[1..][i - 1];
      assert forall i | 0 <= i < |options| - 1 :: options[1..][i] == options[i + 1];
      rest
  }

  function PreferredKinds(decision: Decision, scope: Scope): seq<string> {
    match decision
    case Approve => if scope == Session then ["allow_always", "allow_once"] else ["allow_once", "allow_always"]
    case Deny => if scope == Session then ["reject_always", "reject_once"] else ["reject_once", "reject_always"]
    case Cancel => []
  }

  function FirstPreferred(options: seq<Choice>, kinds: seq<string>): Option<string> {
    if kinds == [] then None
    else if FirstOfKind(options, kinds[0]).Some? then FirstOfKind(options, kinds[0])
    else FirstPreferred(options, kinds[1..])
  }

  /** `acp_permission_response_from_approval`. */
  function AnswerTo(options: seq<Choice>, decision: Decision, scope: Scope): Answer {
    var selected := FirstPreferred(options, PreferredKinds(decision, scope));
    if selected.Some? then Selected(selected.value) else Cancelled
  }

  predicate OfKind(options: seq<Choice>, kind: string) {
    exists i | 0 <= i < |options| :: options[i].kind == kind
  }

  /** The two kinds of the chosen side. */
  predicate OnSide(decision: Decision, kind: string) {
    match decision
    case Approve => kind == "allow_once" || kind == "allow_always"
    case Deny => kind == "reject_once" || kind == "reject_always"
    case Cancel => false
  }

  /** The kind a decision asks for first: for a session the lasting one, otherwise the one for once. */
  function Preferred(decision: Decision, session: bool): string {
    match (decision, session)
    case (Approve, true) => "allow_always"
    case (Approve, false) => "allow_once"
    case (Deny, true) => "reject_always"
    case (Deny, false) => "reject_once"
    case (Cancel, _) => ""
  }

  /** The first option of a kind. */
  predicate IsFirst(options: seq<Choice>, kind: string, i: nat) {
    i < |options| && options[i].kind == kind && forall j | 0 <= j < i :: options[j].kind != kind
  }

  lemma {:induction false} FirstOfKindIs(options: seq<Choice>, kind: string, i: nat)
    requires IsFirst(options, kind, i)
    ensures FirstOfKind(options, kind) == Some(options[i].optionId)
  {
    if i > 0 {
      assert forall j | 0 <= j < i - 1 :: options[1..][j] == options[j + 1];
      FirstOfKindIs(options[1..], kind, i - 1);
    }
  }

  lemma FirstPreferredIs(options: seq<Choice>, first: string, second: string)
    ensures FirstPreferred(options, [first, second])
         == if FirstOfKind(options, first).Some? then FirstOfKind(options, first) else FirstOfKind(options, second)
  {
    assert [first, second][1..] == [second] && [second][1..] == [];
    assert FirstPreferred(options, [second]) == FirstOfKind(options, second);
    hide FirstOfKind;
  }

  /**
   The answer, kind by kind: the first option of the preferred kind; where none has it, the first of the side's
   other kind; where none has that either, or the user cancels, no option.
   */
  lemma AnswerIs(options: seq<Choice>, decision: Decision, scope: Scope)
    ensures decision == Cancel ==> AnswerTo(options, decision, scope) == Cancelled
    ensures decision == Approve && scope == Session ==>
              Takes(options, "allow_always", "allow_once", AnswerTo(options, decision, scope))
    ensures decision == Approve && scope != Session ==>
              Takes(options, "allow_once", "allow_always", AnswerTo(options, decision, scope))
    ensures decision == Deny && scope == Session ==>
              Takes(options, "reject_always", "reject_once", AnswerTo(options, decision, scope))
    ensures decision == Deny && scope != Session ==>
              Takes(options, "reject_once", "reject_always", AnswerTo(options, decision, scope))
  {
    var kinds := PreferredKinds(decision, scope);
    if decision != Cancel {
      assert kinds == [kinds[0], kinds[1]];
      FirstPreferredIs(options, kinds[0], kinds[1]);
      TakesFirst(options, kinds[0], kinds[1]);
    }
    hide FirstOfKind, FirstPreferred, Takes;
  }

  /** The answer takes the first option of one kind, or else of another, or else none. */
  ghost predicate Takes(options: seq<Choice>, first: string, second: string, answer: Answer) {
    && (forall i: nat | IsFirst(options, first, i) :: answer == Selected(options[i].optionId))
    && (!OfKind(options, first) ==>
          forall i: nat | IsFirst(options, second, i) :: answer == Selected(options[i].optionId))
    && (!OfKind(options, first) && !OfKind(options, second) ==> answer == Cancelled)
  }

  lemma TakesFirst(options: seq<Choice>, first: string, second: string)
    ensures var o := if FirstOfKind(options, first).Some? then FirstOfKind(options, first)
                     else FirstOfKind(options, second);
            Takes(options, first, second, if o.Some? then Selected(o.value) else Cancelled)
  {
    forall i: nat | IsFirst(options, first, i)
      ensures FirstOfKind(options, first) == Some(options[i].optionId)
    {
      FirstOfKindIs(options, first, i);
    }
    forall i: nat | IsFirst(options, second, i)
      ensures FirstOfKind(options, second) == Some(options[i].optionId)
    {
      FirstOfKindIs(options, second, i);
    }
  }

  /**
   A selected option was offered, on the chosen side; a session answer takes the lasting kind where offered and
   any other answer the one-time kind; and nothing is selected exactly when that side offers no known kind.
   */
  lemma AnswerIsOffered(options: seq<Choice>, decision: Decision, scope: Scope)
    ensures var answer := AnswerTo(options, decision, scope);
            && !answer.Failed?
            && (answer.Cancelled? <==> forall i | 0 <= i < |options| :: !OnSide(decision, options[i].kind))
            && (answer.Selected? ==>
                  exists i :: 0 <= i < |options| && options[i].optionId == answer.optionId
                              && OnSide(decision, options[i].kind)
                              && (OfKind(options, Preferred(decision, scope == Session))
                                  ==> options[i].kind == Preferred(decision, scope == Session)))
  {
    var kinds := PreferredKinds(decision, scope);
    if decision != Cancel {
      var first, second := FirstOfKind(options, kinds[0]), FirstOfKind(options, kinds[1]);
      assert kinds[1..] == [kinds[1]] && kinds[1..][1..] == [];
      assert FirstPreferred(options, kinds[1..]) == second;
      assert forall kind :: OnSide(decision, kind) <==> kind == kinds[0] || kind == kinds[1];
      assert kinds[0] == Preferred(decision, scope == Session);
      if first.Some? {
        var i :| 0 <= i < |options| && options[i] == Choice(first.value, kinds[0]);
      } else if second.Some? {
        var i :| 0 <= i < |options| && options[i] == Choice(second.value, kinds[1]);
      }
    }
  }

  /**
   Approving a prompt that passed the check selects an option if and only if some option has one of the
   two known allowing kinds; a kind that merely starts with `allow` passes the check and is answered `cancelled`.
   */
  lemma ApprovalSelectsIff(options: seq<Choice>, scope: Scope)
    requires Offers(options)
    ensures AnswerTo(options, Approve, scope).Selected?
       <==> OfKind(options, "allow_once") || OfKind(options, "allow_always")
  {
    AnswerIsOffered(options, Approve, scope);
  }

  lemma UnknownAllowKindIsCancelled()
    ensures var options := [Choice("a", "allow_forever")];
            Offers(options) && AnswerTo(options, Approve, Once) == Cancelled
  {
    var options := [Choice("a", "allow_forever")];
    assert StartsWithAllow(options[0].kind);
    AnswerIsOffered(options, Approve, Once);
  }

  /** Where the task of one permission request stands. */
  datatype Task =
    | Arrived
    | Numbered(approval: nat)
    | Inserted(approval: nat)
    | Prompted(approval: nat)
    | Undelivered(approval: nat)
    | Rejecting
    | Ended

  /** A server request: its options if its parameters are well formed, and its task. */
  datatype Request = Request(options: Option<seq<Choice>>, task: Task)

  /** Why a response was written: the user took a decision, or the task gave up. */
  datatype Cause = Chosen(decision: Decision, scope: Scope) | GivenUp

  /** A response written for a request, under that request's own id. */
  datatype Reply = Reply(request: nat, cause: Cause, answer: Answer)

  datatype State = State(
    requests: seq<Request>, pending: map<nat, nat>, nextId: nat, replies: seq<Reply>, clientAlive: bool)

  /** `Respond` is the user's answer; `ok` says whether the writer still accepts it. */
  datatype Action =
    | Check(r: nat) | Insert(r: nat) | Notify(r: nat) | Withdraw(r: nat) | Reject(r: nat, ok: bool)
    | Respond(approval: nat, decision: Decision, scope: Scope, ok: bool)
    | DropClient

  predicate IsTaskStep(a: Action) {
    !a.Respond? && !a.DropClient?
  }

  predicate WellFormed(s: State) {
    forall k | k in s.pending :: s.pending[k] < |s.requests| && s.requests[s.pending[k]].options.Some?
  }

  predicate Enabled(s: State, a: Action) {
    match a
    case Check(r) => r < |s.requests| && s.requests[r].task.Arrived?
    case Insert(r) => r < |s.requests| && s.requests[r].task.Numbered? && s.requests[r].options.Some?
    case Notify(r) => r < |s.requests| && s.requests[r].task.Inserted?
    case Withdraw(r) => r < |s.requests| && s.requests[r].task.Undelivered?
    case Reject(r, _) => r < |s.requests| && s.requests[r].task.Rejecting?
    case Respond(_, _, _, _) => s.clientAlive
    case DropClient => s.clientAlive
  }

  function At(s: State, r: nat, task: Task): State
    requires r < |s.requests|
  {
    s.(requests := s.requests[r := s.requests[r].(task := task)])
  }

  /** The response to request `r` for a decision of the user. */
  function AnswerOf(request: Request, r: nat, decision: Decision, scope: Scope): Reply
    requires request.options.Some?
  {
    Reply(r, Chosen(decision, scope), AnswerTo(request.options.value, decision, scope))
  }

  function Apply(s: State, a: Action): State
    requires WellFormed(s) && Enabled(s, a)
  {
    match a
    case Check(r) =>
      if s.requests[r].options.Some? && Offers(s.requests[r].options.value)
      then At(s, r, Numbered(s.nextId)).(nextId := s.nextId + 1)
      else At(s, r, Rejecting)
    case Insert(r) =>
      var approval := s.requests[r].task.approval;
      At(s, r, Inserted(approval)).(pending := s.pending[approval := r])
    case Notify(r) =>
      var approval := s.requests[r].task.approval;
      At(s, r, if s.clientAlive then Prompted(approval) else Undelivered(approval))
    case Withdraw(r) => At(s, r, Rejecting).(pending := s.pending - {s.requests[r].task.approval})
    case Reject(r, ok) => At(s, r, Ended).(replies := if ok then s.replies + [Reply(r, GivenUp, Failed)] else s.replies)
    case Respond(approval, decision, scope, ok) =>
      if approval !in s.pending then s
      else
        var r := s.pending[approval];
        s.(pending := s.pending - {approval},
           replies := if ok then s.replies + [AnswerOf(s.requests[r], r, decision, scope)] else s.replies)
    case DropClient => s.(clientAlive := false)
  }

  /** A request is numbered, and so may become a prompt, exactly when some option's kind begins with `allow`. */
  lemma NumberedIff(s: State, r: nat)
    requires WellFormed(s) && Enabled(s, Check(r))
    ensures var request, task := s.requests[r], Apply(s, Check(r)).requests[r].task;
            && (task.Numbered? || task.Rejecting?)
            && (task.Numbered? <==>
                  request.options.Some?
                  && exists c | c in request.options.value :: |c.kind| >= 5 && c.kind[..5] == "allow")
  {
    var options := s.requests[r].options;
    if options.Some? {
      assert forall i | 0 <= i < |options.value| :: options.value[i] in options.value;
      forall kind: string
        ensures StartsWithAllow(kind) <==> |kind| >= 5 && kind[..5] == "allow"
      {
      }
    }
  }

  predicate Initial(s: State) {
    && s.pending == map[] && s.replies == [] && s.clientAlive
    && forall r | 0 <= r < |s.requests| :: s.requests[r].task.Arrived?
  }

  function RepliesTo(replies: seq<Reply>, r: nat): seq<Reply> {
    if replies == [] then []
    else
      RepliesTo(replies[..|replies| - 1], r)
      + if replies[|replies| - 1].request == r then [replies[|replies| - 1]] else []
  }

  lemma RepliesAppend(replies: seq<Reply>, x: Reply, r: nat)
    ensures RepliesTo(replies + [x], r) == RepliesTo(replies, r) + if x.request == r then [x] else []
  {
    assert (replies + [x])[..|replies|] == replies;
  }

  /** The decision recorded with the reply, answered from the options of its own request. */
  predicate ProperAnswer(request: Request, x: Reply) {
    && x.cause.Chosen? && request.options.Some?
    && x.answer == AnswerTo(request.options.value, x.cause.decision, x.cause.scope)
  }

  predicate Rejection(x: Reply) {
    x.cause.GivenUp? && x.answer.Failed?
  }

  predicate HasApproval(task: Task) {
    task.Numbered? || task.Inserted? || task.Prompted? || task.Undelivered?
  }

  /** What can happen to a request that matters for how often it is answered. */
  datatype Event = AnsweredUnshown | ClientFoundGone | RejectionWritten

  predicate Is(event: Event, s: State, a: Action, r: nat) {
    match event
    case AnsweredUnshown =>
      && a.Respond? && a.ok && a.approval in s.pending && s.pending[a.approval] == r
      && r < |s.requests| && !s.requests[r].task.Prompted?
    case ClientFoundGone => a == Notify(r) && !s.clientAlive
    case RejectionWritten => a == Reject(r, true)
  }

  /** Which of these have happened to a request. */
  datatype History = History(unshown: bool, gone: bool, rejected: bool)

  const NOTHING := History(false, false, false)

  function Advance(s: State, a: Action, r: nat, h: History): History {
    History(h.unshown || Is(AnsweredUnshown, s, a, r), h.gone || Is(ClientFoundGone, s, a, r),
            h.rejected || Is(RejectionWritten, s, a, r))
  }

  function Times(b: bool): nat {
    if b then 1 else 0
  }

  /**
   A request with its history, the replies to it, the pending prompts and the next prompt number. A prompt is
   answered at most once; a request that has lost its prompt is rejected at most once besides.
   */
  predicate Fits(request: Request, h: History, mine: seq<Reply>, pending: set<nat>, nextId: nat) {
    && (HasApproval(request.task) ==>
          request.options.Some? && Offers(request.options.value) && request.task.approval < nextId)
    && (!request.task.Ended? ==> |mine| <= 1 && !h.rejected && forall x | x in mine :: ProperAnswer(request, x))
    && match request.task
       case Arrived => mine == [] && h == NOTHING
       case Numbered(approval) => mine == [] && h == NOTHING && approval !in pending
       case Inserted(approval) => |mine| == Times(h.unshown) && !h.gone && (approval in pending ==> !h.unshown)
       case Prompted(approval) => !h.gone && (approval in pending ==> mine == [])
       case Undelivered(approval) => |mine| == Times(h.unshown) && h.gone && (approval in pending ==> !h.unshown)
       case Rejecting => |mine| == Times(h.unshown) && (h.unshown ==> h.gone)
       case Ended =>
         && |mine| == Times(h.unshown) + Times(h.rejected) && (h.unshown ==> h.gone)
         && forall x | x in mine :: Rejection(x) || (h.unshown && ProperAnswer(request, x))
  }

  predicate RequestOk(s: State, r: nat, h: History)
    requires r < |s.requests|
  {
    Fits(s.requests[r], h, RepliesTo(s.replies, r), s.pending.Keys, s.nextId)
  }

  /** A pending prompt belongs to the request that inserted it. */
  predicate EntryOk(s: State, k: nat)
    requires k in s.pending
  {
    && s.pending[k] < |s.requests|
    && var task := s.requests[s.pending[k]].task;
       (task.Inserted? || task.Prompted? || task.Undelivered?) && task.approval == k
  }

  predicate Apart(s: State, q: nat, r: nat)
    requires q < |s.requests| && r < |s.requests|
  {
    var (a, b) := (s.requests[q].task, s.requests[r].task);
    HasApproval(a) && HasApproval(b) && a.approval == b.approval ==> q == r
  }

  ghost predicate Inv(s: State, hs: seq<History>) {
    && WellFormed(s) && |hs| == |s.requests|
    && (forall r | 0 <= r < |s.requests| :: RequestOk(s, r, hs[r]))
    && (forall k | k in s.pending :: EntryOk(s, k))
    && (forall q, r | 0 <= q < |s.requests| && 0 <= r < |s.requests| :: Apart(s, q, r))
  }

  /** The request an action replies to or moves. */
  predicate Concerns(s: State, a: Action, r: nat) {
    match a
    case Respond(approval, _, _, _) => approval in s.pending && s.pending[approval] == r
    case DropClient => false
    case _ => a.r == r
  }

  /** What an action replies. */
  function Written(s: State, a: Action): seq<Reply>
    requires WellFormed(s) && Enabled(s, a)
  {
    match a
    case Reject(r, ok) => if ok then [Reply(r, GivenUp, Failed)] else []
    case Respond(approval, decision, scope, ok) =>
      if approval in s.pending && ok
      then [AnswerOf(s.requests[s.pending[approval]], s.pending[approval], decision, scope)]
      else []
    case _ => []
  }

  lemma RepliesStep(s: State, a: Action, r: nat)
    requires WellFormed(s) && Enabled(s, a)
    ensures Apply(s, a).replies == s.replies + Written(s, a)
    ensures RepliesTo(Apply(s, a).replies, r)
         == RepliesTo(s.replies, r) + if Concerns(s, a, r) then Written(s, a) else []
  {
    var w := Written(s, a);
    if w != [] {
      assert w == [w[0]];
      RepliesAppend(s.replies, w[0], r);
    } else {
      assert s.replies + [] == s.replies;
      assert RepliesTo(s.replies, r) + [] == RepliesTo(s.replies, r);
    }
  }

  /** The table treats the request's prompt alike. */
  predicate SamePrompt(request: Request, before: set<nat>, after: set<nat>) {
    HasApproval(request.task) ==> (request.task.approval in before <==> request.task.approval in after)
  }

  lemma UntouchedFits(
    request: Request, h: History, mine: seq<Reply>, before: set<nat>, after: set<nat>, nextId: nat, later: nat)
    requires Fits(request, h, mine, before, nextId) && nextId <= later && SamePrompt(request, before, after)
    ensures Fits(request, h, mine, after, later)
  {
    hide ProperAnswer, Offers, Rejection;
  }

  lemma OtherPromptSame(s: State, hs: seq<History>, a: Action, r: nat)
    requires Inv(s, hs) && Enabled(s, a) && r < |s.requests| == |Apply(s, a).requests| && !Concerns(s, a, r)
    ensures Apply(s, a).requests[r] == s.requests[r] && s.nextId <= Apply(s, a).nextId
    ensures SamePrompt(s.requests[r], s.pending.Keys, Apply(s, a).pending.Keys)
    ensures Advance(s, a, r, hs[r]) == hs[r]
  {
    hide RepliesTo, AnswerTo, Offers, RequestOk;
    if IsTaskStep(a) {
      assert Apart(s, a.r, r);
    } else if a.Respond? && a.approval in s.pending {
      assert EntryOk(s, a.approval);
      assert Apart(s, s.pending[a.approval], r);
    }
  }

  lemma OtherRequestKept(s: State, hs: seq<History>, a: Action, r: nat)
    requires Inv(s, hs) && Enabled(s, a) && r < |s.requests| == |Apply(s, a).requests| && !Concerns(s, a, r)
    ensures RequestOk(Apply(s, a), r, Advance(s, a, r, hs[r]))
  {
    var s' := Apply(s, a);
    RepliesStep(s, a, r);
    OtherPromptSame(s, hs, a, r);
    assert RequestOk(s, r, hs[r]);
    hide Fits, RepliesTo, Apply, Inv, SamePrompt, Advance;
    assert RepliesTo(s'.replies, r) == RepliesTo(s.replies, r);
    UntouchedFits(s.requests[r], hs[r], RepliesTo(s.replies, r), s.pending.Keys, s'.pending.Keys, s.nextId, s'.nextId);
  }

  /** What an answer makes of a request whose prompt is pending. */
  lemma AnsweredFits(
    request: Request, h: History, mine: seq<Reply>, answers: seq<Reply>, pending: set<nat>, approval: nat, nextId: nat)
    requires Fits(request, h, mine, pending, nextId) && approval in pending && HasApproval(request.task)
    requires request.task.approval == approval && !request.task.Numbered?
    requires |answers| <= 1 && forall x | x in answers :: ProperAnswer(request, x)
    ensures var unshown := answers != [] && !request.task.Prompted?;
            Fits(request, h.(unshown := h.unshown || unshown), mine + answers, pending - {approval}, nextId)
  {
    hide ProperAnswer, Offers, Rejection;
    assert mine == [] && mine + answers == answers;
  }

  lemma AnsweredRequestKept(s: State, hs: seq<History>, a: Action, r: nat)
    requires Inv(s, hs) && Enabled(s, a) && r < |s.requests| == |Apply(s, a).requests|
    requires a.Respond? && Concerns(s, a, r)
    ensures RequestOk(Apply(s, a), r, Advance(s, a, r, hs[r]))
  {
    RepliesStep(s, a, r);
    assert RequestOk(s, r, hs[r]) && EntryOk(s, a.approval);
    var answers := Written(s, a);
    assert answers != [] ==> answers == [answers[0]] && ProperAnswer(s.requests[r], answers[0]);
    assert (answers != []) == a.ok;
    assert Apply(s, a).pending.Keys == s.pending.Keys - {a.approval};
    assert Apply(s, a).requests[r] == s.requests[r] && Apply(s, a).nextId == s.nextId;
    assert Advance(s, a, r, hs[r])
        == hs[r].(unshown := hs[r].unshown || (answers != [] && !s.requests[r].task.Prompted?));
    hide RepliesTo, Inv, Apply, Written, Fits, Advance, ProperAnswer;
    AnsweredFits(s.requests[r], hs[r], RepliesTo(s.replies, r), answers, s.pending.Keys, a.approval, s.nextId);
  }

  /** What one task step makes of its request, its replies and its prompt. */
  lemma MovedFits(s: State, a: Action, h: History, mine: seq<Reply>, mine': seq<Reply>)
    requires WellFormed(s) && Enabled(s, a) && IsTaskStep(a) && a.r < |s.requests| == |Apply(s, a).requests|
    requires Fits(s.requests[a.r], h, mine, s.pending.Keys, s.nextId)
    requires forall k | k in s.pending :: k < s.nextId
    requires mine' == if a.Reject? && a.ok then mine + [Reply(a.r, GivenUp, Failed)] else mine
    ensures Fits(Apply(s, a).requests[a.r], Advance(s, a, a.r, h), mine', Apply(s, a).pending.Keys, Apply(s, a).nextId)
  {
    if a.Reject? {
      RejectedFits(s, a, h, mine, mine');
    } else {
      var s' := Apply(s, a);
      assert s'.requests[a.r] == s.requests[a.r].(task := s'.requests[a.r].task);
      assert forall x :: ProperAnswer(s'.requests[a.r], x) <==> ProperAnswer(s.requests[a.r], x);
      hide Offers, ProperAnswer, Rejection, AnswerTo, WellFormed;
    }
  }

  lemma RejectedFits(s: State, a: Action, h: History, mine: seq<Reply>, mine': seq<Reply>)
    requires WellFormed(s) && Enabled(s, a) && a.Reject? && a.r < |s.requests| == |Apply(s, a).requests|
    requires Fits(s.requests[a.r], h, mine, s.pending.Keys, s.nextId)
    requires mine' == if a.ok then mine + [Reply(a.r, GivenUp, Failed)] else mine
    ensures Fits(Apply(s, a).requests[a.r], Advance(s, a, a.r, h), mine', Apply(s, a).pending.Keys, Apply(s, a).nextId)
  {
    hide Offers, AnswerTo, WellFormed;
  }

  lemma MovedRequestKept(s: State, hs: seq<History>, a: Action, r: nat)
    requires Inv(s, hs) && Enabled(s, a) && r < |s.requests| == |Apply(s, a).requests|
    requires IsTaskStep(a) && a.r == r
    ensures RequestOk(Apply(s, a), r, Advance(s, a, r, hs[r]))
  {
    RepliesStep(s, a, r);
    FreshApproval(s, hs);
    assert RequestOk(s, r, hs[r]);
    assert RepliesTo(Apply(s, a).replies, r)
        == RepliesTo(s.replies, r) + if a.Reject? && a.ok then [Reply(a.r, GivenUp, Failed)] else [];
    hide RepliesTo, Inv, Fits, Apply, Concerns, Written, Advance;
    MovedFits(s, a, hs[r], RepliesTo(s.replies, r), RepliesTo(Apply(s, a).replies, r));
  }

  lemma FreshApproval(s: State, hs: seq<History>)
    requires Inv(s, hs)
    ensures forall k | k in s.pending :: k < s.nextId
  {
    forall k | k in s.pending
      ensures k < s.nextId
    {
      assert EntryOk(s, k) && RequestOk(s, s.pending[k], hs[s.pending[k]]);
    }
  }

  lemma EntryKept(s: State, hs: seq<History>, a: Action, k: nat)
    requires Inv(s, hs) && Enabled(s, a) && k in Apply(s, a).pending
    ensures EntryOk(Apply(s, a), k)
  {
    if k in s.pending {
      assert EntryOk(s, k);
    }
    if IsTaskStep(a) {
      assert RequestOk(s, a.r, hs[a.r]);
      if k in s.pending {
        assert Apart(s, a.r, s.pending[k]);
      }
    }
    hide RepliesTo, Inv, AnswerTo, Offers, ProperAnswer;
  }

  lemma ApartKept(s: State, hs: seq<History>, a: Action, q: nat, r: nat)
    requires Inv(s, hs) && Enabled(s, a) && q < |s.requests| == |Apply(s, a).requests| && r < |s.requests|
    ensures Apart(Apply(s, a), q, r)
  {
    assert Apart(s, q, r) && RequestOk(s, q, hs[q]) && RequestOk(s, r, hs[r]);
    hide RepliesTo, Inv, AnswerTo, Offers, ProperAnswer, Rejection;
  }

  function Advanced(s: State, a: Action, hs: seq<History>): (hs': seq<History>)
    ensures |hs'| == |hs|
  {
    seq(|hs|, r requires 0 <= r < |hs| => Advance(s, a, r, hs[r]))
  }

  lemma StepKeepsInv(s: State, hs: seq<History>, a: Action)
    requires Inv(s, hs) && Enabled(s, a)
    ensures Inv(Apply(s, a), Advanced(s, a, hs)) && |Apply(s, a).requests| == |s.requests|
  {
    var s', hs' := Apply(s, a), Advanced(s, a, hs);
    assert WellFormed(s') && |s'.requests| == |s.requests|;
    hide RequestOk, EntryOk, Apart, Apply, Enabled, Concerns, Advance;
    forall r | 0 <= r < |s'.requests|
      ensures RequestOk(s', r, hs'[r])
    {
      if !Concerns(s, a, r) {
        OtherRequestKept(s, hs, a, r);
      } else if a.Respond? {
        AnsweredRequestKept(s, hs, a, r);
      } else {
        ConcernedTask(s, a, r);
        MovedRequestKept(s, hs, a, r);
      }
    }
    forall k | k in s'.pending
      ensures EntryOk(s', k)
    {
      EntryKept(s, hs, a, k);
    }
    forall q, r | 0 <= q < |s'.requests| && 0 <= r < |s'.requests|
      ensures Apart(s', q, r)
    {
      ApartKept(s, hs, a, q, r);
    }
  }

  lemma ConcernedTask(s: State, a: Action, r: nat)
    requires Concerns(s, a, r) && !a.Respond?
    ensures IsTaskStep(a) && a.r == r
  {
  }

  /** `actions` lead from `s` to `last`, each enabled when taken. */
  ghost predicate Reaches(s: State, actions: seq<Action>, last: State)
    decreases |actions|
  {
    if actions == [] then s == last
    else WellFormed(s) && Enabled(s, actions[0]) && Reaches(Apply(s, actions[0]), actions[1..], last)
  }

  /** The event happens to request `r` at some step of the run. */
  predicate Happens(event: Event, s: State, actions: seq<Action>, r: nat)
    decreases |actions|
  {
    && actions != [] && WellFormed(s) && Enabled(s, actions[0])
    && (Is(event, s, actions[0], r) || Happens(event, Apply(s, actions[0]), actions[1..], r))
  }

  /** The history of a request after a run. */
  function After(s: State, actions: seq<Action>, r: nat, h: History): History {
    History(h.unshown || Happens(AnsweredUnshown, s, actions, r), h.gone || Happens(ClientFoundGone, s, actions, r),
            h.rejected || Happens(RejectionWritten, s, actions, r))
  }

  lemma AfterStep(s: State, actions: seq<Action>, r: nat, h: History)
    requires actions != [] && WellFormed(s) && Enabled(s, actions[0])
    ensures After(s, actions, r, h) == After(Apply(s, actions[0]), actions[1..], r, Advance(s, actions[0], r, h))
  {
    hide Is, Apply, Enabled;
  }

  lemma {:induction false} RunKeepsInv(s: State, hs: seq<History>, actions: seq<Action>, last: State)
    requires Inv(s, hs) && Reaches(s, actions, last)
    ensures |last.requests| == |s.requests| == |hs|
    ensures Inv(last, seq(|hs|, r requires 0 <= r < |hs| => After(s, actions, r, hs[r])))
    decreases |actions|
  {
    var now := seq(|hs|, r requires 0 <= r < |hs| => After(s, actions, r, hs[r]));
    if actions == [] {
      assert now == hs;
    } else {
      var next, hs' := Apply(s, actions[0]), Advanced(s, actions[0], hs);
      StepKeepsInv(s, hs, actions[0]);
      assert |hs| == |s.requests|;
      forall r | 0 <= r < |hs|
        ensures After(s, actions, r, hs[r]) == After(next, actions[1..], r, hs'[r])
      {
        AfterStep(s, actions, r, hs[r]);
      }
      hide Inv, Apply, After, Advance;
      assert now == seq(|hs'|, r requires 0 <= r < |hs'| => After(next, actions[1..], r, hs'[r]));
      RunKeepsInv(next, hs', actions[1..], last);
    }
  }

  /** A selected option was offered in this request, on the side of the decision recorded with the reply. */
  predicate SelectedFromOffer(request: Request, x: Reply) {
    && x.cause.Chosen? && x.answer.Selected? && request.options.Some?
    && exists choice | choice in request.options.value ::
         choice.optionId == x.answer.optionId && OnSide(x.cause.decision, choice.kind)
  }

  /** Answered before it was shown, then found undeliverable, then rejected, both responses being written. */
  predicate AnsweredAndRejected(s: State, actions: seq<Action>, r: nat) {
    && Happens(AnsweredUnshown, s, actions, r) && Happens(ClientFoundGone, s, actions, r)
    && Happens(RejectionWritten, s, actions, r)
  }

  /**
   In every interleaving: a prompt that has been shown is answered at most once, by the user's own decision; a
   selected option is one the request offered on the side of that decision; a pending prompt has not been
   answered; and a request is answered twice, never more often, if and only if it was answered before it was
   shown, the client was then gone, and the rejection was written as well.
   */
  lemma Safety(s: State, actions: seq<Action>, last: State)
    requires Initial(s) && Reaches(s, actions, last)
    ensures |last.requests| == |s.requests|
    ensures forall r | 0 <= r < |last.requests| && last.requests[r].task.Prompted? ::
              && |RepliesTo(last.replies, r)| <= 1
              && forall x | x in RepliesTo(last.replies, r) :: ProperAnswer(last.requests[r], x)
    ensures forall r, x | 0 <= r < |last.requests| && x in RepliesTo(last.replies, r) ::
              && (Rejection(x) || ProperAnswer(last.requests[r], x))
              && (x.answer.Selected? ==> SelectedFromOffer(last.requests[r], x))
    ensures forall k | k in last.pending ::
              last.pending[k] < |last.requests| && RepliesTo(last.replies, last.pending[k]) == []
    ensures forall r | 0 <= r < |last.requests| ::
              && |RepliesTo(last.replies, r)| <= 2
              && (|RepliesTo(last.replies, r)| == 2 <==> AnsweredAndRejected(s, actions, r))
  {
    var none := seq(|s.requests|, _ => NOTHING);
    assert Inv(s, none);
    RunKeepsInv(s, none, actions, last);
    var hs := seq(|none|, r requires 0 <= r < |none| => After(s, actions, r, none[r]));
    hide RepliesTo, Inv, Reaches, Happens, ProperAnswer, Rejection, SelectedFromOffer;
    forall r | 0 <= r < |last.requests|
      ensures last.requests[r].task.Prompted? ==>
                && |RepliesTo(last.replies, r)| <= 1
                && forall x | x in RepliesTo(last.replies, r) :: ProperAnswer(last.requests[r], x)
      ensures |RepliesTo(last.replies, r)| <= 2
      ensures |RepliesTo(last.replies, r)| == 2 <==> AnsweredAndRejected(s, actions, r)
      ensures forall x | x in RepliesTo(last.replies, r) ::
                && (Rejection(x) || ProperAnswer(last.requests[r], x))
                && (x.answer.Selected? ==> SelectedFromOffer(last.requests[r], x))
    {
      RequestAt(last, hs, r);
      RepliesAreRight(last, r, hs[r]);
    }
    forall k | k in last.pending
      ensures last.pending[k] < |last.requests| && RepliesTo(last.replies, last.pending[k]) == []
    {
      PendingUnanswered(last, hs, k);
    }
  }

  lemma RequestAt(s: State, hs: seq<History>, r: nat)
    requires Inv(s, hs) && r < |s.requests|
    ensures r < |hs| && RequestOk(s, r, hs[r])
  {
  }

  lemma PendingUnanswered(s: State, hs: seq<History>, k: nat)
    requires Inv(s, hs) && k in s.pending
    ensures s.pending[k] < |s.requests| && RepliesTo(s.replies, s.pending[k]) == []
  {
    assert EntryOk(s, k) && RequestOk(s, s.pending[k], hs[s.pending[k]]);
    hide RepliesTo, ProperAnswer, Offers;
  }

  lemma RepliesAreRight(s: State, r: nat, h: History)
    requires r < |s.requests| && RequestOk(s, r, h)
    ensures forall x | x in RepliesTo(s.replies, r) ::
              && (Rejection(x) || ProperAnswer(s.requests[r], x))
              && (x.answer.Selected? ==> SelectedFromOffer(s.requests[r], x))
  {
    forall x | x in RepliesTo(s.replies, r)
      ensures Rejection(x) || ProperAnswer(s.requests[r], x)
      ensures x.answer.Selected? ==> SelectedFromOffer(s.requests[r], x)
    {
      if ProperAnswer(s.requests[r], x) {
        AnswerIsOffered(s.requests[r].options.value, x.cause.decision, x.cause.scope);
      }
    }
  }

  /** This prompt number has been used up: it is not pending and no task will insert it. */
  ghost predicate Spent(s: State, k: nat) {
    && k < s.nextId && k !in s.pending
    && forall q | 0 <= q < |s.requests| && s.requests[q].task.Numbered? :: s.requests[q].task.approval != k
  }

  lemma SpentStep(s: State, a: Action, k: nat)
    requires WellFormed(s) && Enabled(s, a) && Spent(s, k)
    ensures Spent(Apply(s, a), k)
  {
    hide AnswerTo, Offers, WellFormed;
  }

  lemma {:induction false} StaysSpent(s: State, actions: seq<Action>, last: State, k: nat)
    requires Spent(s, k) && Reaches(s, actions, last)
    ensures Spent(last, k)
    decreases |actions|
  {
    if actions != [] {
      SpentStep(s, actions[0], k);
      hide Apply, Spent;
      StaysSpent(Apply(s, actions[0]), actions[1..], last, k);
    }
  }

  /** Once a prompt has been answered, a further answer changes nothing at any later point of any run. */
  lemma SecondAnswerChangesNothing(
    s: State, hs: seq<History>, first: Action, actions: seq<Action>, last: State, second: Action)
    requires Inv(s, hs) && Enabled(s, first) && first.Respond? && first.approval in s.pending
    requires Reaches(Apply(s, first), actions, last) && WellFormed(last) && Enabled(last, second)
    requires second.Respond? && second.approval == first.approval
    ensures Apply(last, second) == last
  {
    FreshApproval(s, hs);
    var k := first.approval;
    assert EntryOk(s, k);
    forall q | 0 <= q < |s.requests| && s.requests[q].task.Numbered?
      ensures s.requests[q].task.approval != k
    {
      assert Apart(s, q, s.pending[k]);
    }
    hide Inv, AnswerTo;
    assert Spent(Apply(s, first), k);
    StaysSpent(Apply(s, first), actions, last, k);
  }

  /** Such a run: answered while the prompt is only inserted, the client then gone, the rejection written. */
  lemma EarlyAnswerCanDouble()
    ensures exists s, actions, last ::
              Initial(s) && Reaches(s, actions, last) && |s.requests| == 1 && |RepliesTo(last.replies, 0)| == 2
  {
    var options := [Choice("a", "allow_once")];
    assert StartsWithAllow(options[0].kind);
    var request := Request(Some(options), Arrived);
    var s0 := State([request], map[], 1, [], true);
    var s1 := State([request.(task := Numbered(1))], map[], 2, [], true);
    var s2 := State([request.(task := Inserted(1))], map[1 := 0], 2, [], true);
    assert Apply(s0, Check(0)) == s1;
    assert Apply(s1, Insert(0)) == s2;
    assert Initial(s0);
    hide *;
    var rest, last := AnsweredTooEarly(options);
    Then(s1, Insert(0), rest, last);
    Then(s0, Check(0), [Insert(0)] + rest, last);
  }

  lemma AnsweredTooEarly(options: seq<Choice>) returns (actions: seq<Action>, last: State)
    ensures Reaches(State([Request(Some(options), Inserted(1))], map[1 := 0], 2, [], true), actions, last)
    ensures |RepliesTo(last.replies, 0)| == 2
  {
    var request := Request(Some(options), Inserted(1));
    var answer := AnswerOf(request, 0, Cancel, Once);
    var s2 := State([request], map[1 := 0], 2, [], true);
    var s3 := State([request], map[], 2, [answer], true);
    assert Apply(s2, Respond(1, Cancel, Once, true)) == s3 && answer.request == 0;
    hide *;
    actions, last := ClientGone(options, answer);
    Then(s2, Respond(1, Cancel, Once, true), actions, last);
    actions := [Respond(1, Cancel, Once, true)] + actions;
    TwoReplies(answer, Reply(0, GivenUp, Failed));
  }

  lemma TwoReplies(x: Reply, y: Reply)
    requires x.request == 0 && y.request == 0
    ensures |RepliesTo([x, y], 0)| == 2
  {
    RepliesAppend([], x, 0);
    RepliesAppend([x], y, 0);
    assert [x] + [y] == [x, y] && [] + [x] == [x];
  }

  lemma ClientGone(options: seq<Choice>, answer: Reply) returns (actions: seq<Action>, last: State)
    ensures Reaches(State([Request(Some(options), Inserted(1))], map[], 2, [answer], true), actions, last)
    ensures last.replies == [answer, Reply(0, GivenUp, Failed)]
  {
    var request := Request(Some(options), Inserted(1));
    var s3 := State([request], map[], 2, [answer], true);
    var s4 := s3.(clientAlive := false);
    var s5 := s4.(requests := [request.(task := Undelivered(1))]);
    var s6 := s4.(requests := [request.(task := Rejecting)]);
    last := State([request.(task := Ended)], map[], 2, [answer, Reply(0, GivenUp, Failed)], false);
    assert Apply(s3, DropClient) == s4 && Apply(s4, Notify(0)) == s5;
    assert Apply(s5, Withdraw(0)) == s6 && Apply(s6, Reject(0, true)) == last;
    assert Reaches(last, [], last);
    hide Apply, Reaches;
    Then(s6, Reject(0, true), [], last);
    Then(s5, Withdraw(0), [Reject(0, true)] + [], last);
    actions := [Withdraw(0)] + ([Reject(0, true)] + []);
    Then(s4, Notify(0), actions, last);
    actions := [Notify(0)] + actions;
    Then(s3, DropClient, actions, last);
    actions := [DropClient] + actions;
  }

  lemma Then(s: State, a: Action, rest: seq<Action>, last: State)
    requires WellFormed(s) && Enabled(s, a) && Reaches(Apply(s, a), rest, last)
    ensures Reaches(s, [a] + rest, last)
  {
    assert ([a] + rest)[1..] == rest;
  }
}
