/**
 The context pipeline (crates/core/src/context_pipeline.rs): assembling entries, turning them into provider
 messages, and dropping the oldest messages until the estimate fits. Text is ASCII, one byte a character.
 */
module ContextBudget {
  import opened Wrappers
  import opened Location

  datatype Source =
    | BaseInstruction | AgentMode | Persona | CollaborationMode | ProjectInstruction | GlobalInstruction
    | SkillActivation | HiddenGoalContext | MemoryContext | ChangeSignal

  datatype Entry =
    | Instruction(source: Source, content: string)
    | TranscriptItem(turn: nat, item: nat)
    | TranscriptRange | ContextSummary | Artifact

  datatype Part = Text(text: string) | OtherPart

  datatype Message =
    | System(text: string)
    | Developer(text: string)
    | User(parts: seq<Part>)
    | Assistant(parts: seq<Part>)
    | ToolResult(content: string)

  datatype Item = Item(turn: nat, item: nat, content: string)

  datatype Config = Config(maxItemChars: nat, effectiveContextWindow: nat, reservedRecentTurns: nat)

  datatype Normalized = Normalized(messages: seq<Message>, tokenCount: nat, itemsDropped: nat, truncations: nat)

  datatype Exceeded = ContextLimitExceeded(tokens: nat, budget: nat)

  function TextTokens(text: string): nat {
    |text| / 4
  }

  function PartsTokens(parts: seq<Part>): nat {
    if parts == [] then 0
    else (if parts[0].Text? then TextTokens(parts[0].text) else 0) + PartsTokens(parts[1..])
  }

  function Tokens(m: Message): nat {
    match m
    case System(text) => TextTokens(text)
    case Developer(text) => TextTokens(text)
    case User(parts) => PartsTokens(parts)
    case Assistant(parts) => PartsTokens(parts)
    case ToolResult(content) => TextTokens(content)
  }

  /** `estimate_message_tokens`. */
  function Estimate(messages: seq<Message>): nat {
    if messages == [] then 0 else Tokens(messages[0]) + Estimate(messages[1..])
  }

  lemma {:induction false} EstimateAppend(a: seq<Message>, b: seq<Message>)
    ensures Estimate(a + b) == Estimate(a) + Estimate(b)
  {
    if a == [] {
      assert a + b == b;
    } else {
      EstimateAppend(a[1..], b);
      assert (a + b)[1..] == a[1..] + b;
    }
  }

  /** A token is four bytes of text, counted part by part; other parts count nothing. */
  lemma TokenCounts(text: string, parts: seq<Part>)
    ensures Tokens(System(text)) == Tokens(Developer(text)) == Tokens(ToolResult(text)) == |text| / 4
    ensures Tokens(User([Text(text)] + parts)) == |text| / 4 + Tokens(User(parts))
    ensures Tokens(User([OtherPart] + parts)) == Tokens(User(parts)) == Tokens(Assistant(parts))
    ensures Tokens(User([])) == 0
  {
    assert ([Text(text)] + parts)[1..] == parts && ([OtherPart] + parts)[1..] == parts;
  }

  function Notice(maxChars: nat): string {
    "[... content truncated at " + Decimal(maxChars) + " characters ...]"
  }

  /** `truncate_item`. */
  function TruncateItem(content: string, maxChars: nat): (string, bool) {
    if |content| <= maxChars then (content, false)
    else (content[..maxChars] + Notice(maxChars), true)
  }

  /** What truncation gives: short content as it is, long content cut, with a notice naming the bound. */
  lemma TruncatedIs(content: string, maxChars: nat)
    ensures TruncateItem(content, maxChars).1 <==> |content| > maxChars
    ensures |content| <= maxChars ==> TruncateItem(content, maxChars).0 == content
    ensures |content| > maxChars ==>
              TruncateItem(content, maxChars).0
              == content[..maxChars] + ("[... content truncated at " + Decimal(maxChars) + " characters ...]")
  {
  }

  /**
   The result of truncation meets the size bound if and only if the item does, so truncation never establishes
   it; and it is shorter than the item exactly when the item exceeds the bound by more than the notice.
   */
  lemma TruncationBoundIff(content: string, maxChars: nat)
    ensures var text := TruncateItem(content, maxChars).0;
            && (|text| <= maxChars <==> |content| <= maxChars)
            && (|text| < |content| <==> |content| > maxChars + |Notice(maxChars)|)
            && (if |content| <= maxChars then text == content else content[..maxChars] <= text)
  {
    assert |Notice(maxChars)| > 0;
  }

  /** An item of five characters grows beyond both the bound of four and its own length. */
  lemma TruncatedItemExceedsBound()
    ensures var text := TruncateItem("abcde", 4).0; |text| > |"abcde"| > 4
  {
    assert |Notice(4)| >= |"[... content truncated at "|;
    TruncationBoundIff("abcde", 4);
  }

  function InstructionMessage(source: Source, content: string): Message {
    match source
    case BaseInstruction => System(content)
    case MemoryContext => Developer(content)
    case HiddenGoalContext => Developer(content)
    case ChangeSignal => Developer(content)
    case SkillActivation => Developer(content)
    case _ => User([Text(content)])
  }

  /** The message role of every kind of instruction, its text unchanged. */
  lemma RolesAre(content: string)
    ensures InstructionMessage(BaseInstruction, content) == System(content)
    ensures InstructionMessage(MemoryContext, content) == Developer(content)
    ensures InstructionMessage(HiddenGoalContext, content) == Developer(content)
    ensures InstructionMessage(ChangeSignal, content) == Developer(content)
    ensures InstructionMessage(SkillActivation, content) == Developer(content)
    ensures InstructionMessage(Persona, content) == User([Text(content)])
    ensures InstructionMessage(CollaborationMode, content) == User([Text(content)])
    ensures InstructionMessage(ProjectInstruction, content) == User([Text(content)])
    ensures InstructionMessage(GlobalInstruction, content) == User([Text(content)])
    ensures InstructionMessage(AgentMode, content) == User([Text(content)])
  {
  }

  /** The content found for a transcript entry is that of the first item with its turn and item. */
  lemma {:induction false} FoundIs(items: seq<Item>, turn: nat, item: nat, k: nat)
    requires k < |items| && items[k].turn == turn && items[k].item == item
    requires forall j | 0 <= j < k :: items[j].turn != turn || items[j].item != item
    ensures Find(items, turn, item) == Some(items[k].content)
  {
    if k > 0 {
      assert forall j | 0 <= j < k - 1 :: items[1..][j] == items[j + 1];
      FoundIs(items[1..], turn, item, k - 1);
    }
  }

  lemma {:induction false} FoundIff(items: seq<Item>, turn: nat, item: nat)
    ensures Find(items, turn, item).Some?
       <==> exists k | 0 <= k < |items| :: items[k].turn == turn && items[k].item == item
  {
    if items != [] {
      FoundIff(items[1..], turn, item);
      assert forall k | 0 < k < |items| :: items[k] == items[1..][k - 1];
      assert forall k | 0 <= k < |items| - 1 :: items[1..][k] == items[k + 1];
    }
  }

  function Find(items: seq<Item>, turn: nat, item: nat): Option<string> {
    if items == [] then None
    else if items[0].turn == turn && items[0].item == item then Some(items[0].content)
    else Find(items[1..], turn, item)
  }

  /** The message of one entry, if it has one. */
  function EntryMessage(config: Config, items: seq<Item>, entry: Entry): Option<Message> {
    match entry
    case Instruction(source, content) => Some(InstructionMessage(source, content))
    case TranscriptItem(turn, item) =>
      var content := Find(items, turn, item);
      if content.Some? then Some(User([Text(TruncateItem(content.value, config.maxItemChars).0)])) else None
    case _ => None
  }

  function Messages(config: Config, items: seq<Item>, entries: seq<Entry>): seq<Message> {
    if entries == [] then []
    else
      var front := Messages(config, items, entries[..|entries| - 1]);
      var last := EntryMessage(config, items, entries[|entries| - 1]);
      if last.Some? then front + [last.value] else front
  }

  function Truncated(config: Config, items: seq<Item>, entries: seq<Entry>): nat {
    if entries == [] then 0
    else
      var last := entries[|entries| - 1];
      var content := if last.TranscriptItem? then Find(items, last.turn, last.item) else None;
      Truncated(config, items, entries[..|entries| - 1])
      + if content.Some? && |content.value| > config.maxItemChars then 1 else 0
  }

  /** The messages without the first `n` that are not system messages. */
  function KeepAfter(messages: seq<Message>, n: nat): seq<Message> {
    if n == 0 || messages == [] then messages
    else if messages[0].System? then [messages[0]] + KeepAfter(messages[1..], n)
    else KeepAfter(messages[1..], n - 1)
  }

  function Systems(messages: seq<Message>): seq<Message> {
    if messages == [] then []
    else (if messages[0].System? then [messages[0]] else []) + Systems(messages[1..])
  }

  function Others(messages: seq<Message>): seq<Message> {
    if messages == [] then []
    else (if messages[0].System? then [] else [messages[0]]) + Others(messages[1..])
  }

  lemma SystemFirst(m: Message, rest: seq<Message>)
    requires m.System?
    ensures Systems([m] + rest) == [m] + Systems(rest) && Others([m] + rest) == Others(rest)
  {
    assert ([m] + rest)[1..] == rest;
  }

  lemma OtherFirst(m: Message, rest: seq<Message>, n: nat)
    requires !m.System? && n > 0
    ensures Systems([m] + rest) == Systems(rest) && Others([m] + rest) == [m] + Others(rest)
    ensures KeepAfter([m] + rest, n) == KeepAfter(rest, n - 1)
  {
    assert ([m] + rest)[1..] == rest;
  }

  lemma SystemKept(m: Message, rest: seq<Message>, n: nat)
    requires m.System? && n > 0
    ensures KeepAfter([m] + rest, n) == [m] + KeepAfter(rest, n)
  {
    assert ([m] + rest)[1..] == rest;
  }

  /** Every system message survives in order; of the others a suffix survives, without the `n` oldest. */
  lemma {:induction false} KeepAfterMeaning(messages: seq<Message>, n: nat)
    requires n <= |Others(messages)|
    ensures Systems(KeepAfter(messages, n)) == Systems(messages)
    ensures Others(KeepAfter(messages, n)) == Others(messages)[n..]
    ensures |KeepAfter(messages, n)| == |messages| - n
  {
    if n > 0 && messages != [] {
      var m, rest := messages[0], messages[1..];
      assert messages == [m] + rest;
      hide *;
      if m.System? {
        SystemFirst(m, rest);
        KeepAfterMeaning(rest, n);
        SystemKept(m, rest, n);
        SystemFirst(m, KeepAfter(rest, n));
      } else {
        OtherFirst(m, rest, n);
        KeepAfterMeaning(rest, n - 1);
      }
    }
  }

  /** The index of the oldest message that is not a system message. */
  function OldestOther(messages: seq<Message>): (index: nat)
    ensures index <= |messages|
    ensures forall i | 0 <= i < index :: messages[i].System?
    ensures index < |messages| ==> !messages[index].System?
  {
    if messages == [] || !messages[0].System? then 0 else 1 + OldestOther(messages[1..])
  }

  lemma OldestBehindSystem(m: Message, below: seq<Message>)
    requires m.System?
    ensures var i := OldestOther(below);
            && OldestOther([m] + below) == i + 1
            && (i < |below| ==> ([m] + below)[..i + 1] + ([m] + below)[i + 2..] == [m] + (below[..i] + below[i + 1..]))
  {
    assert ([m] + below)[1..] == below;
  }

  /** Removing the oldest other message once more. */
  lemma {:induction false} RemoveOldest(messages: seq<Message>, n: nat)
    requires n <= |Others(messages)|
    ensures var kept := KeepAfter(messages, n);
            var i := OldestOther(kept);
            && (i < |kept| <==> n < |Others(messages)|)
            && (i < |kept| ==> KeepAfter(messages, n + 1) == kept[..i] + kept[i + 1..])
  {
    if messages != [] {
      var m, rest := messages[0], messages[1..];
      if m.System? {
        RemoveOldest(rest, n);
        assert messages == [m] + rest;
        assert KeepAfter(messages, n) == [m] + KeepAfter(rest, n);
        assert KeepAfter(messages, n + 1) == [m] + KeepAfter(rest, n + 1);
        hide KeepAfter;
        OldestBehindSystem(m, KeepAfter(rest, n));
      } else if n == 0 {
        assert KeepAfter(messages, 1) == KeepAfter(rest, 0) == rest;
      } else {
        RemoveOldest(rest, n - 1);
      }
    }
  }

  lemma EstimateOfRemoval(messages: seq<Message>, i: nat)
    requires i < |messages|
    ensures Estimate(messages) == Estimate(messages[..i] + messages[i + 1..]) + Tokens(messages[i])
  {
    var before, m, after := messages[..i], messages[i], messages[i + 1..];
    assert messages == before + ([m] + after);
    assert ([m] + after)[1..] == after;
    assert Estimate([m] + after) == Tokens(m) + Estimate(after);
    hide *;
    EstimateAppend(before, [m] + after);
    EstimateAppend(before, after);
  }

  /** How many messages may be dropped: none of the system messages, and more than the reserve must be left. */
  function Permitted(config: Config, messages: seq<Message>): nat {
    var others, spare := |Others(messages)|, |messages| - config.reservedRecentTurns - 1;
    if spare <= 0 then 0 else if spare < others then spare else others
  }

  /** Dropping `n` messages is permitted, and no smaller number of drops fits. */
  ghost predicate NothingLessFits(config: Config, messages: seq<Message>, n: nat) {
    n <= Permitted(config, messages)
    && forall k: nat | k < n :: Estimate(KeepAfter(messages, k)) > config.effectiveContextWindow
  }

  /** The message-building loop of `normalize`. */
  method BuildMessages(config: Config, entries: seq<Entry>, items: seq<Item>)
    returns (messages: seq<Message>, truncations: nat)
    ensures messages == Messages(config, items, entries) && truncations == Truncated(config, items, entries)
  {
    messages, truncations := [], 0;
    for i := 0 to |entries|
      invariant messages == Messages(config, items, entries[..i])
      invariant truncations == Truncated(config, items, entries[..i])
    {
      assert entries[..i + 1][..i] == entries[..i] && entries[..i + 1][i] == entries[i];
      match entries[i]
      case Instruction(source, content) =>
        messages := messages + [InstructionMessage(source, content)];
      case TranscriptItem(turn, item) =>
        var content := Find(items, turn, item);
        if content.Some? {
          var (text, cut) := TruncateItem(content.value, config.maxItemChars);
          if cut {
            truncations := truncations + 1;
          }
          messages := messages + [User([Text(text)])];
        }
      case _ =>
    }
    assert entries[..|entries|] == entries;
  }

  /**
   The budget loop of `normalize`: it drops the least number of oldest messages that fits; when no permitted
   number does, it fails with the estimate left after all permitted drops.
   */
  method FitBudget(config: Config, all: seq<Message>, truncations: nat) returns (r: Result<Normalized, Exceeded>)
    ensures r.Ok? ==>
              && NothingLessFits(config, all, r.value.itemsDropped)
              && r.value.messages == KeepAfter(all, r.value.itemsDropped)
              && r.value.tokenCount == Estimate(r.value.messages) <= config.effectiveContextWindow
              && r.value.truncations == truncations
    ensures r.Err? ==>
              var n := Permitted(config, all);
              && NothingLessFits(config, all, n)
              && r.error.tokens == Estimate(KeepAfter(all, n)) > config.effectiveContextWindow == r.error.budget
  {
    var messages, itemsDropped: nat := all, 0;
    var tokenCount := Estimate(messages);
    var budget, reserved := config.effectiveContextWindow, config.reservedRecentTurns;
    while tokenCount > budget && |messages| > reserved + 1
      invariant NothingLessFits(config, all, itemsDropped)
      invariant messages == KeepAfter(all, itemsDropped) && |messages| == |all| - itemsDropped
      invariant tokenCount == Estimate(messages)
      decreases |messages|
    {
      RemoveOldest(all, itemsDropped);
      var idx := OldestOther(messages);
      if idx < |messages| {
        messages := messages[..idx] + messages[idx + 1..];
        itemsDropped := itemsDropped + 1;
      } else {
        break;
      }
      tokenCount := Estimate(messages);
    }
    if tokenCount > budget {
      RemoveOldest(all, itemsDropped);
      return Err(ContextLimitExceeded(tokenCount, budget));
    }
    r := Ok(Normalized(messages, tokenCount, itemsDropped, truncations));
  }

  /** `ContextNormalizer::normalize`. */
  method Normalize(config: Config, entries: seq<Entry>, items: seq<Item>) returns (r: Result<Normalized, Exceeded>)
    ensures var all := Messages(config, items, entries);
            && (r.Ok? ==>
                  && NothingLessFits(config, all, r.value.itemsDropped)
                  && r.value.messages == KeepAfter(all, r.value.itemsDropped)
                  && r.value.tokenCount == Estimate(r.value.messages) <= config.effectiveContextWindow
                  && r.value.truncations == Truncated(config, items, entries))
            && (r.Err? ==>
                  && r.error.tokens == Estimate(KeepAfter(all, Permitted(config, all))) > config.effectiveContextWindow
                  && r.error.budget == config.effectiveContextWindow)
  {
    hide *;
    var all, truncations := BuildMessages(config, entries, items);
    r := FitBudget(config, all, truncations);
  }

  lemma {:induction false} DroppingShrinks(messages: seq<Message>, n: nat, k: nat)
    requires n <= k <= |Others(messages)|
    ensures Estimate(KeepAfter(messages, k)) <= Estimate(KeepAfter(messages, n))
    decreases k - n
  {
    if n < k {
      RemoveOldest(messages, n);
      var kept := KeepAfter(messages, n);
      EstimateOfRemoval(kept, OldestOther(kept));
      DroppingShrinks(messages, n + 1, k);
    }
  }

  /** Some permitted number of drops fits exactly when dropping all that may be dropped fits. */
  lemma FitsIff(config: Config, messages: seq<Message>)
    ensures (exists k: nat :: k <= Permitted(config, messages)
                           && Estimate(KeepAfter(messages, k)) <= config.effectiveContextWindow)
       <==> Estimate(KeepAfter(messages, Permitted(config, messages))) <= config.effectiveContextWindow
  {
    var n := Permitted(config, messages);
    forall k: nat | k <= n
      ensures Estimate(KeepAfter(messages, n)) <= Estimate(KeepAfter(messages, k))
    {
      DroppingShrinks(messages, k, n);
    }
  }

  /**
   Some message besides the system messages survives every permitted number of drops if and only if the
   reserve is at least the number of system messages.
   */
  lemma SomeOtherSurvivesIff(config: Config, messages: seq<Message>)
    requires Others(messages) != []
    ensures (forall n: nat | n <= Permitted(config, messages) :: Others(KeepAfter(messages, n)) != [])
       <==> config.reservedRecentTurns >= |Systems(messages)|
  {
    OthersCount(messages);
    var most := Permitted(config, messages);
    forall n: nat | n <= most
      ensures Others(KeepAfter(messages, n)) != [] <==> n < |Others(messages)|
    {
      KeepAfterMeaning(messages, n);
    }
    assert most < |Others(messages)| <==> config.reservedRecentTurns >= |Systems(messages)|;
    assert Others(KeepAfter(messages, most)) != [] <==> most < |Others(messages)|;
  }

  lemma {:induction false} OthersCount(messages: seq<Message>)
    ensures |Systems(messages)| + |Others(messages)| == |messages|
  {
    if messages != [] {
      OthersCount(messages[1..]);
    }
  }

  /** While some other message is left, the newest message is. */
  lemma {:induction false} LastKept(messages: seq<Message>, n: nat)
    requires n < |Others(messages)|
    ensures var kept := KeepAfter(messages, n); kept != [] && kept[|kept| - 1] == messages[|messages| - 1]
  {
    if n > 0 {
      if messages[0].System? {
        LastKept(messages[1..], n);
      } else {
        LastKept(messages[1..], n - 1);
      }
    }
  }

  /** Without a reserve the current input itself can be dropped, and the request then succeeds without it. */
  lemma NoReserveDropsInput()
    ensures var config := Config(100, 1, 0);
            var all := [System("base"), User([Text("a question")])];
            NothingLessFits(config, all, 1) && KeepAfter(all, 1) == [System("base")]
            && Estimate(KeepAfter(all, 1)) <= config.effectiveContextWindow
  {
    var all := [System("base"), User([Text("a question")])];
    assert all[1..] == [User([Text("a question")])] && all[1..][1..] == [];
    assert [Text("a question")][1..] == [];
    assert PartsTokens([Text("a question")]) == 2;
    assert Estimate(all) == 3;
    assert KeepAfter(all, 1) == [System("base")] + KeepAfter(all[1..], 1);
    assert KeepAfter(all[1..], 1) == [];
    assert [System("base")][1..] == [] && Estimate([System("base")]) == 1;
    assert Others(all[1..]) == [all[1]] + Others([]) == [all[1]];
    assert Others(all) == [all[1]];
  }

  /** What a turn's context is assembled from. */
  datatype Turn = Turn(
    base: string, transcript: seq<(nat, nat)>, persona: Option<string>, mode: Option<string>,
    project: seq<string>, skills: seq<string>, memory: Option<string>, goal: Option<string>,
    signal: Option<string>, input: Option<(nat, nat)>)

  function Optional(source: Source, text: Option<string>): seq<Entry> {
    if text.Some? then [Instruction(source, text.value)] else []
  }

  function TranscriptEntries(transcript: seq<(nat, nat)>): seq<Entry> {
    seq(|transcript|, i requires 0 <= i < |transcript| => TranscriptItem(transcript[i].0, transcript[i].1))
  }

  function ProjectEntries(project: seq<string>, maxBytes: nat): seq<Entry> {
    if project == [] then []
    else
      ProjectEntries(project[..|project| - 1], maxBytes)
      + if |project[|project| - 1]| <= maxBytes then [Instruction(ProjectInstruction, project[|project| - 1])] else []
  }

  function SkillEntries(skills: seq<string>): seq<Entry> {
    seq(|skills|, i requires 0 <= i < |skills| => Instruction(SkillActivation, "Active skill: " + skills[i]))
  }

  /** What stands between the base instruction and the current input. */
  function Middle(turn: Turn, maxBytes: nat): seq<Entry> {
    TranscriptEntries(turn.transcript)
    + Optional(Persona, turn.persona) + Optional(CollaborationMode, turn.mode)
    + ProjectEntries(turn.project, maxBytes) + SkillEntries(turn.skills)
    + Optional(MemoryContext, turn.memory) + Optional(HiddenGoalContext, turn.goal)
    + Optional(ChangeSignal, turn.signal)
  }

  /** The assembled entries, in order. */
  function Assembled(turn: Turn, maxBytes: nat): seq<Entry> {
    [Instruction(BaseInstruction, turn.base)] + Middle(turn, maxBytes)
    + if turn.input.Some? then [TranscriptItem(turn.input.value.0, turn.input.value.1)] else []
  }

  /** What belongs into the context of a turn, kind by kind. */
  ghost predicate Belongs(turn: Turn, maxBytes: nat, e: Entry) {
    match e
    case Instruction(BaseInstruction, text) => text == turn.base
    case Instruction(Persona, text) => turn.persona == Some(text)
    case Instruction(CollaborationMode, text) => turn.mode == Some(text)
    case Instruction(ProjectInstruction, text) => text in turn.project && |text| <= maxBytes
    case Instruction(SkillActivation, text) => exists skill | skill in turn.skills :: text == "Active skill: " + skill
    case Instruction(MemoryContext, text) => turn.memory == Some(text)
    case Instruction(HiddenGoalContext, text) => turn.goal == Some(text)
    case Instruction(ChangeSignal, text) => turn.signal == Some(text)
    case TranscriptItem(t, i) => (t, i) in turn.transcript || turn.input == Some((t, i))
    case _ => false
  }

  /** The place of each kind of entry between the base instruction and the current input. */
  function Place(e: Entry): int {
    match e
    case TranscriptItem(_, _) => 1
    case Instruction(Persona, _) => 2
    case Instruction(CollaborationMode, _) => 3
    case Instruction(ProjectInstruction, _) => 4
    case Instruction(SkillActivation, _) => 5
    case Instruction(MemoryContext, _) => 6
    case Instruction(HiddenGoalContext, _) => 7
    case Instruction(ChangeSignal, _) => 8
    case _ => 0
  }

  /** Entries in order of their places, all between two of them. */
  predicate Placed(entries: seq<Entry>, lo: int, hi: int) {
    && (forall i | 0 <= i < |entries| :: lo <= Place(entries[i]) <= hi)
    && forall i, j | 0 <= i < j < |entries| :: Place(entries[i]) <= Place(entries[j])
  }

  lemma PlacedAppend(a: seq<Entry>, b: seq<Entry>, lo: int, mid: int, hi: int)
    requires Placed(a, lo, mid) && Placed(b, mid, hi) && lo <= mid <= hi
    ensures Placed(a + b, lo, hi)
  {
    hide Place;
  }

  lemma {:induction false} ProjectHolds(project: seq<string>, maxBytes: nat)
    ensures Placed(ProjectEntries(project, maxBytes), 4, 4)
    ensures forall e :: e in ProjectEntries(project, maxBytes)
                   <==> e.Instruction? && e.source == ProjectInstruction
                        && e.content in project && |e.content| <= maxBytes
  {
    if project != [] {
      ProjectHolds(project[..|project| - 1], maxBytes);
      assert project == project[..|project| - 1] + [project[|project| - 1]];
    }
  }

  lemma OptionalHolds(source: Source, text: Option<string>)
    ensures forall e :: e in Optional(source, text)
                   <==> e.Instruction? && e.source == source && text == Some(e.content)
    ensures |Optional(source, text)| <= 1
  {
  }

  lemma OptionalPlaced(source: Source, text: Option<string>)
    ensures var place := Place(Instruction(source, "")); Placed(Optional(source, text), place, place)
  {
  }

  lemma SkillsHold(skills: seq<string>)
    ensures Placed(SkillEntries(skills), 5, 5)
    ensures forall e :: e in SkillEntries(skills)
                   <==> e.Instruction? && e.source == SkillActivation
                        && exists skill | skill in skills :: e.content == "Active skill: " + skill
  {
    forall e: Entry | e.Instruction? && e.source == SkillActivation
               && exists skill | skill in skills :: e.content == "Active skill: " + skill
      ensures e in SkillEntries(skills)
    {
      var k :| 0 <= k < |skills| && e.content == "Active skill: " + skills[k];
      assert SkillEntries(skills)[k] == e;
    }
  }

  lemma TranscriptHolds(transcript: seq<(nat, nat)>)
    ensures Placed(TranscriptEntries(transcript), 1, 1)
    ensures forall e :: e in TranscriptEntries(transcript) <==> e.TranscriptItem? && (e.turn, e.item) in transcript
  {
    forall e: Entry | e.TranscriptItem? && (e.turn, e.item) in transcript
      ensures e in TranscriptEntries(transcript)
    {
      var k :| 0 <= k < |transcript| && transcript[k] == (e.turn, e.item);
      assert TranscriptEntries(transcript)[k] == e;
    }
  }

  lemma InEither(a: seq<Entry>, b: seq<Entry>)
    ensures forall e :: e in a + b <==> e in a || e in b
  {
  }

  lemma PlacedWiden(entries: seq<Entry>, lo: int, hi: int, lower: int, higher: int)
    requires Placed(entries, lo, hi) && lower <= lo && hi <= higher
    ensures Placed(entries, lower, higher)
  {
    hide Place;
  }

  /** Four kinds in a row. */
  lemma FourInARow(a: seq<Entry>, b: seq<Entry>, c: seq<Entry>, d: seq<Entry>, p: int)
    requires Placed(a, p, p) && Placed(b, p + 1, p + 1) && Placed(c, p + 2, p + 2) && Placed(d, p + 3, p + 3)
    ensures Placed(a + b + c + d, p, p + 3)
    ensures forall e :: e in a + b + c + d <==> e in a || e in b || e in c || e in d
  {
    hide Placed;
    InEither(a, b);
    InEither(a + b, c);
    InEither(a + b + c, d);
    PlacedWiden(a, p, p, p, p + 1);
    PlacedAppend(a, b, p, p + 1, p + 1);
    PlacedWiden(a + b, p, p + 1, p, p + 2);
    PlacedAppend(a + b, c, p, p + 2, p + 2);
    PlacedWiden(a + b + c, p, p + 2, p, p + 3);
    PlacedAppend(a + b + c, d, p, p + 3, p + 3);
  }

  /** Part of the middle, up to project instructions. */
  lemma FrontHolds(turn: Turn, maxBytes: nat)
    ensures var front := TranscriptEntries(turn.transcript) + Optional(Persona, turn.persona)
                         + Optional(CollaborationMode, turn.mode) + ProjectEntries(turn.project, maxBytes);
            && Placed(front, 1, 4)
            && forall e :: e in front <==> Belongs(turn, maxBytes, e) && 1 <= Place(e) <= 4 && !OnlyInput(turn, e)
  {
    var t, p := TranscriptEntries(turn.transcript), Optional(Persona, turn.persona);
    var m, j := Optional(CollaborationMode, turn.mode), ProjectEntries(turn.project, maxBytes);
    TranscriptHolds(turn.transcript);
    OptionalHolds(Persona, turn.persona);
    OptionalHolds(CollaborationMode, turn.mode);
    ProjectHolds(turn.project, maxBytes);
    OptionalPlaced(Persona, turn.persona);
    OptionalPlaced(CollaborationMode, turn.mode);
    hide TranscriptEntries, Optional, ProjectEntries, Placed;
    FourInARow(t, p, m, j, 1);
  }

  /** The entry stands for the current input and not for an earlier item. */
  predicate OnlyInput(turn: Turn, e: Entry) {
    e.TranscriptItem? && (e.turn, e.item) !in turn.transcript
  }

  /** The rest of the middle. */
  lemma BackHolds(turn: Turn, maxBytes: nat)
    ensures var back := SkillEntries(turn.skills) + Optional(MemoryContext, turn.memory)
                        + Optional(HiddenGoalContext, turn.goal) + Optional(ChangeSignal, turn.signal);
            && Placed(back, 5, 8)
            && forall e :: e in back <==> Belongs(turn, maxBytes, e) && 5 <= Place(e) <= 8
  {
    var s, m := SkillEntries(turn.skills), Optional(MemoryContext, turn.memory);
    var g, c := Optional(HiddenGoalContext, turn.goal), Optional(ChangeSignal, turn.signal);
    SkillsHold(turn.skills);
    OptionalHolds(MemoryContext, turn.memory);
    OptionalHolds(HiddenGoalContext, turn.goal);
    OptionalHolds(ChangeSignal, turn.signal);
    OptionalPlaced(MemoryContext, turn.memory);
    OptionalPlaced(HiddenGoalContext, turn.goal);
    OptionalPlaced(ChangeSignal, turn.signal);
    hide SkillEntries, Optional, Placed;
    FourInARow(s, m, g, c, 5);
  }

  lemma MiddleIs(turn: Turn, maxBytes: nat, front: seq<Entry>, back: seq<Entry>)
    requires front == TranscriptEntries(turn.transcript) + Optional(Persona, turn.persona)
                      + Optional(CollaborationMode, turn.mode) + ProjectEntries(turn.project, maxBytes)
    requires back == SkillEntries(turn.skills) + Optional(MemoryContext, turn.memory)
                     + Optional(HiddenGoalContext, turn.goal) + Optional(ChangeSignal, turn.signal)
    ensures Middle(turn, maxBytes) == front + back
  {
    hide TranscriptEntries, Optional, ProjectEntries, SkillEntries;
  }

  lemma MiddleHolds(turn: Turn, maxBytes: nat)
    ensures Placed(Middle(turn, maxBytes), 1, 8)
    ensures forall e :: e in Middle(turn, maxBytes)
                   <==> Belongs(turn, maxBytes, e) && 1 <= Place(e) <= 8 && !OnlyInput(turn, e)
  {
    var front := TranscriptEntries(turn.transcript) + Optional(Persona, turn.persona)
                 + Optional(CollaborationMode, turn.mode) + ProjectEntries(turn.project, maxBytes);
    var back := SkillEntries(turn.skills) + Optional(MemoryContext, turn.memory)
                + Optional(HiddenGoalContext, turn.goal) + Optional(ChangeSignal, turn.signal);
    FrontHolds(turn, maxBytes);
    BackHolds(turn, maxBytes);
    MiddleIs(turn, maxBytes, front, back);
    forall e
      ensures OnlyInput(turn, e) ==> Place(e) == 1
    {
    }
    hide *;
    PlacedWiden(front, 1, 4, 1, 5);
    PlacedAppend(front, back, 1, 5, 8);
    InEither(front, back);
  }

  /** What belongs in is the base instruction, has its place between, or is the current input. */
  lemma BelongsIff(turn: Turn, maxBytes: nat, e: Entry)
    ensures Belongs(turn, maxBytes, e)
       <==> || e == Instruction(BaseInstruction, turn.base)
            || (Belongs(turn, maxBytes, e) && 1 <= Place(e) <= 8 && !OnlyInput(turn, e))
            || (turn.input.Some? && e == TranscriptItem(turn.input.value.0, turn.input.value.1))
  {
  }

  /**
   The assembled context, kind by kind: the base instruction, then everything that belongs in and nothing else, in
   the documented order, then the current input.
   */
  lemma AssembledIs(turn: Turn, maxBytes: nat)
    ensures var entries := Assembled(turn, maxBytes);
            var end := |entries| - if turn.input.Some? then 1 else 0;
            && (forall e :: e in entries <==> Belongs(turn, maxBytes, e))
            && end > 0 && entries[0] == Instruction(BaseInstruction, turn.base)
            && (turn.input.Some? ==> entries[end] == TranscriptItem(turn.input.value.0, turn.input.value.1))
            && Placed(entries[1..end], 1, 8)
  {
    var middle, entries := Middle(turn, maxBytes), Assembled(turn, maxBytes);
    var input := if turn.input.Some? then [TranscriptItem(turn.input.value.0, turn.input.value.1)] else [];
    var first := Instruction(BaseInstruction, turn.base);
    assert entries == [first] + middle + input;
    hide *;
    MiddleHolds(turn, maxBytes);
    assert entries[1..|entries| - |input|] == middle;
    InEither([first], middle);
    InEither([first] + middle, input);
    forall e
      ensures e in entries <==> Belongs(turn, maxBytes, e)
    {
      BelongsIff(turn, maxBytes, e);
    }
  }

  predicate NoBase(entries: seq<Entry>) {
    forall i | 0 <= i < |entries| && entries[i].Instruction? :: entries[i].source != BaseInstruction
  }

  lemma {:induction false} ProjectHasNoBase(project: seq<string>, maxBytes: nat)
    ensures NoBase(ProjectEntries(project, maxBytes))
  {
    if project != [] {
      ProjectHasNoBase(project[..|project| - 1], maxBytes);
    }
  }

  lemma MiddleHasNoBase(turn: Turn, maxBytes: nat)
    ensures NoBase(Middle(turn, maxBytes))
  {
    ProjectHasNoBase(turn.project, maxBytes);
    hide ProjectEntries;
  }

  lemma {:induction false} SystemsAppend(a: seq<Message>, b: seq<Message>)
    ensures Systems(a + b) == Systems(a) + Systems(b)
  {
    if a == [] {
      assert a + b == b;
    } else {
      SystemsAppend(a[1..], b);
      assert (a + b)[1..] == a[1..] + b && (a + b)[0] == a[0];
      var first := if a[0].System? then [a[0]] else [];
      assert Systems(a + b) == first + Systems(a[1..] + b) && Systems(a) == first + Systems(a[1..]);
      hide *;
      Reassociate(first, Systems(a[1..]), Systems(b));
    }
  }

  lemma OnlySystem(m: Message)
    ensures Systems([m]) == if m.System? then [m] else []
  {
    assert [m][1..] == [] && Systems([]) == [];
  }

  /** Only base instructions become system messages. */
  lemma {:induction false} NoBaseNoSystem(config: Config, items: seq<Item>, entries: seq<Entry>)
    requires NoBase(entries)
    ensures Systems(Messages(config, items, entries)) == []
  {
    if entries != [] {
      var front := entries[..|entries| - 1];
      NoBaseNoSystem(config, items, front);
      var last := EntryMessage(config, items, entries[|entries| - 1]);
      if last.Some? {
        SystemsAppend(Messages(config, items, front), [last.value]);
        OnlySystem(last.value);
      }
    }
  }

  lemma {:induction false} MessagesAppend(config: Config, items: seq<Item>, a: seq<Entry>, b: seq<Entry>)
    ensures Messages(config, items, a + b) == Messages(config, items, a) + Messages(config, items, b)
  {
    if b == [] {
      assert a + b == a;
    } else {
      var front := b[..|b| - 1];
      MessagesAppend(config, items, a, front);
      assert (a + b)[..|a + b| - 1] == a + front && (a + b)[|a + b| - 1] == b[|b| - 1];
    }
  }

  lemma OneMessage(config: Config, items: seq<Item>, entry: Entry)
    ensures var m := EntryMessage(config, items, entry);
            Messages(config, items, [entry]) == if m.Some? then [m.value] else []
  {
    assert [entry][..0] == [] && Messages(config, items, []) == [];
  }

  lemma {:induction false} FirstSystemKept(messages: seq<Message>, n: nat)
    requires messages != [] && messages[0].System?
    ensures var kept := KeepAfter(messages, n); kept != [] && kept[0] == messages[0]
  {
  }

  /**
   End to end: with a reserve, whatever is dropped from an assembled context, the first message is the
   base instruction and the last is the current input, cut to size.
   */
  lemma BaseAndInputSurvive(config: Config, items: seq<Item>, turn: Turn, maxBytes: nat, n: nat)
    requires config.reservedRecentTurns >= 1 && turn.input.Some?
    requires Find(items, turn.input.value.0, turn.input.value.1).Some?
    requires n <= Permitted(config, Messages(config, items, Assembled(turn, maxBytes)))
    ensures var kept := KeepAfter(Messages(config, items, Assembled(turn, maxBytes)), n);
            var input := Find(items, turn.input.value.0, turn.input.value.1).value;
            && kept != [] && kept[0] == System(turn.base)
            && kept[|kept| - 1] == User([Text(TruncateItem(input, config.maxItemChars).0)])
  {
    var input := Find(items, turn.input.value.0, turn.input.value.1).value;
    var question := User([Text(TruncateItem(input, config.maxItemChars).0)]);
    var all := Messages(config, items, Assembled(turn, maxBytes));
    var inner := Messages(config, items, Middle(turn, maxBytes));
    AssembledMessages(config, items, turn, maxBytes);
    MiddleHasNoBase(turn, maxBytes);
    NoBaseNoSystem(config, items, Middle(turn, maxBytes));
    SystemsAppend([System(turn.base)] + inner, [question]);
    SystemsAppend([System(turn.base)], inner);
    OnlySystem(System(turn.base));
    OnlySystem(question);
    OthersCount(all);
    hide KeepAfter, Systems, Others, Messages, Assembled, Middle, TruncateItem, Find;
    FirstSystemKept(all, n);
    LastKept(all, n);
  }

  lemma AssembledMessages(config: Config, items: seq<Item>, turn: Turn, maxBytes: nat)
    requires turn.input.Some? && Find(items, turn.input.value.0, turn.input.value.1).Some?
    ensures var input := Find(items, turn.input.value.0, turn.input.value.1).value;
            Messages(config, items, Assembled(turn, maxBytes))
            == [System(turn.base)] + Messages(config, items, Middle(turn, maxBytes))
               + [User([Text(TruncateItem(input, config.maxItemChars).0)])]
  {
    var first, last := Instruction(BaseInstruction, turn.base), TranscriptItem(turn.input.value.0, turn.input.value.1);
    OneMessage(config, items, first);
    OneMessage(config, items, last);
    hide Messages, Middle, Find, TruncateItem;
    MessagesAppend(config, items, [first] + Middle(turn, maxBytes), [last]);
    MessagesAppend(config, items, [first], Middle(turn, maxBytes));
  }

  /** The token estimate of assembly: instructions only. */
  function EntriesTokens(entries: seq<Entry>): nat {
    if entries == [] then 0
    else
      EntriesTokens(entries[..|entries| - 1])
      + if entries[|entries| - 1].Instruction? then TextTokens(entries[|entries| - 1].content) else 0
  }

  function TranscriptOnly(entries: seq<Entry>): seq<Entry> {
    if entries == [] then []
    else
      TranscriptOnly(entries[..|entries| - 1])
      + if entries[|entries| - 1].Instruction? then [] else [entries[|entries| - 1]]
  }

  lemma InstructionTokens(source: Source, content: string)
    ensures Estimate([InstructionMessage(source, content)]) == TextTokens(content)
  {
    var m := InstructionMessage(source, content);
    assert [m][1..] == [] && Estimate([]) == 0;
    assert [Text(content)][1..] == [] && PartsTokens([]) == 0;
    assert PartsTokens([Text(content)]) == TextTokens(content);
  }

  /** The normalizer starts from the assembler's estimate plus what the transcript adds. */
  lemma {:induction false} EstimatesAgree(config: Config, items: seq<Item>, entries: seq<Entry>)
    ensures Estimate(Messages(config, items, entries))
         == EntriesTokens(entries) + Estimate(Messages(config, items, TranscriptOnly(entries)))
  {
    if entries != [] {
      var front, last := entries[..|entries| - 1], entries[|entries| - 1];
      EstimatesAgree(config, items, front);
      assert entries == front + [last];
      MessagesAppend(config, items, front, [last]);
      OneMessage(config, items, last);
      EstimateAppend(Messages(config, items, front), Messages(config, items, [last]));
      if last.Instruction? {
        InstructionTokens(last.source, last.content);
        assert TranscriptOnly(entries) == TranscriptOnly(front);
      } else {
        MessagesAppend(config, items, TranscriptOnly(front), [last]);
        EstimateAppend(Messages(config, items, TranscriptOnly(front)), Messages(config, items, [last]));
      }
    }
  }

  predicate PartWithin(p: Part, maxChars: nat) {
    p.Text? ==> |p.text| <= maxChars
  }

  /** Every text of the message meets the item size bound. */
  predicate Within(m: Message, maxChars: nat) {
    match m
    case System(text) => |text| <= maxChars
    case Developer(text) => |text| <= maxChars
    case User(parts) => forall p | p in parts :: PartWithin(p, maxChars)
    case Assistant(parts) => forall p | p in parts :: PartWithin(p, maxChars)
    case ToolResult(content) => |content| <= maxChars
  }

  /** The transcript content of an entry, if found, meets the bound before truncation. */
  predicate ContentWithin(items: seq<Item>, entry: Entry, maxChars: nat) {
    var content := if entry.TranscriptItem? then Find(items, entry.turn, entry.item) else None;
    content.None? || |content.value| <= maxChars
  }

  /** The transcript's messages all meet the item size bound if and only if the transcript's items did. */
  lemma {:induction false} ItemsBoundedIff(config: Config, items: seq<Item>, entries: seq<Entry>)
    requires forall e | e in entries :: !e.Instruction?
    ensures (forall m | m in Messages(config, items, entries) :: Within(m, config.maxItemChars))
       <==> forall e | e in entries :: ContentWithin(items, e, config.maxItemChars)
  {
    if entries != [] {
      var front, last := entries[..|entries| - 1], entries[|entries| - 1];
      ItemsBoundedIff(config, items, front);
      EntryBoundedIff(config, items, last);
      assert entries == front + [last];
      hide Within, ContentWithin, EntryMessage;
    }
  }

  lemma EntryBoundedIff(config: Config, items: seq<Item>, entry: Entry)
    requires !entry.Instruction?
    ensures var m := EntryMessage(config, items, entry);
            (m.Some? ==> Within(m.value, config.maxItemChars)) <==> ContentWithin(items, entry, config.maxItemChars)
  {
    if entry.TranscriptItem? && Find(items, entry.turn, entry.item).Some? {
      var content := Find(items, entry.turn, entry.item).value;
      var text := TruncateItem(content, config.maxItemChars).0;
      TruncationBoundIff(content, config.maxItemChars);
      var m := User([Text(text)]);
      assert EntryMessage(config, items, entry) == Some(m);
      assert Text(text) in m.parts;
      assert Within(m, config.maxItemChars) <==> PartWithin(Text(text), config.maxItemChars);
    }
  }

  method AssembleProject(project: seq<string>, maxBytes: nat, before: seq<Entry>) returns (entries: seq<Entry>)
    ensures entries == before + ProjectEntries(project, maxBytes)
  {
    entries := before;
    for i := 0 to |project|
      invariant entries == before + ProjectEntries(project[..i], maxBytes)
    {
      assert project[..i + 1][..i] == project[..i];
      if |project[i]| <= maxBytes {
        entries := entries + [Instruction(ProjectInstruction, project[i])];
      }
    }
    assert project[..|project|] == project;
  }

  method AssembleTranscript(transcript: seq<(nat, nat)>, before: seq<Entry>) returns (entries: seq<Entry>)
    ensures entries == before + TranscriptEntries(transcript)
  {
    entries := before;
    for i := 0 to |transcript|
      invariant entries == before + TranscriptEntries(transcript)[..i]
    {
      entries := entries + [TranscriptItem(transcript[i].0, transcript[i].1)];
    }
  }

  method AssembleSkills(skills: seq<string>, before: seq<Entry>) returns (entries: seq<Entry>)
    ensures entries == before + SkillEntries(skills)
  {
    entries := before;
    for i := 0 to |skills|
      invariant entries == before + SkillEntries(skills)[..i]
    {
      entries := entries + [Instruction(SkillActivation, "Active skill: " + skills[i])];
    }
  }

  method AssembleMiddle(turn: Turn, maxBytes: nat) returns (entries: seq<Entry>)
    ensures entries == Middle(turn, maxBytes)
  {
    hide Optional, TranscriptEntries, ProjectEntries, SkillEntries;
    entries := AssembleTranscript(turn.transcript, []);
    entries := entries + Optional(Persona, turn.persona) + Optional(CollaborationMode, turn.mode);
    entries := AssembleProject(turn.project, maxBytes, entries);
    entries := AssembleSkills(turn.skills, entries);
    entries := entries + Optional(MemoryContext, turn.memory) + Optional(HiddenGoalContext, turn.goal);
    entries := entries + Optional(ChangeSignal, turn.signal);
  }

  /** The sum over the entries that ends `assemble`. */
  method SumTokens(entries: seq<Entry>) returns (tokenEstimate: nat)
    ensures tokenEstimate == EntriesTokens(entries)
  {
    tokenEstimate := 0;
    for i := 0 to |entries|
      invariant tokenEstimate == EntriesTokens(entries[..i])
    {
      assert entries[..i + 1][..i] == entries[..i];
      match entries[i] {
        case Instruction(_, content) => tokenEstimate := tokenEstimate + |content| / 4;
        case _ =>
      }
    }
    assert entries[..|entries|] == entries;
  }

  /** `ContextAssembler::assemble`. */
  method Assemble(turn: Turn, maxBytes: nat) returns (entries: seq<Entry>, tokenEstimate: nat)
    ensures entries == Assembled(turn, maxBytes) && tokenEstimate == EntriesTokens(entries)
  {
    hide Middle, EntriesTokens;
    var middle := AssembleMiddle(turn, maxBytes);
    entries := [Instruction(BaseInstruction, turn.base)] + middle;
    if turn.input.Some? {
      entries := entries + [TranscriptItem(turn.input.value.0, turn.input.value.1)];
    }
    tokenEstimate := SumTokens(entries);
  }
}
