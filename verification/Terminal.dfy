/**
 The terminal output reader of crates/client/src/acp_terminal.rs: bytes arrive in arbitrary reads,
 complete characters are emitted at once, a truncated character waits for the next read, and the
 shared output buffer keeps a bounded tail.
 */
module Terminal {
  import opened Wrappers
  import opened Utf8

  /** What one pass over the pending bytes emits and what it keeps for the next read. */
  datatype Decoded = Decoded(text: Bytes, held: Bytes)

  function Decode(s: Bytes): (r: Decoded) {
    if s == [] || Scan(s).Incomplete? then Decoded([], s)
    else
      var rest := Decode(s[Scan(s).n..]);
      Decoded(Piece(s) + rest.text, rest.held)
  }

  /** At most three bytes wait, they are a truncated character, and flushing them finishes the one-shot decode. */
  lemma {:induction false} DecodeThenFlush(s: Bytes)
    ensures var d := Decode(s);
            && |d.held| <= 3
            && (d.held != [] ==> ProperPrefix(d.held))
            && Lossy(s) == d.text + Lossy(d.held)
  {
    if s != [] {
      ProperPrefixIsIncomplete(s);
      hide Scan;
      if !Scan(s).Incomplete? {
        DecodeThenFlush(s[Scan(s).n..]);
      }
    }
  }

  /** Text already emitted, followed by the decode of what is left. */
  function Resume(emitted: Bytes, s: Bytes): Decoded {
    Decoded(emitted + Decode(s).text, Decode(s).held)
  }

  lemma DecodeStep(s: Bytes)
    requires s != [] && !Scan(s).Incomplete?
    ensures Decode(s) == Resume(Piece(s), s[Scan(s).n..])
  {
  }

  lemma ResumeTwice(first: Bytes, second: Bytes, s: Bytes)
    ensures Resume(first, s).text == first + Decode(s).text
    ensures Resume(first + second, s) == Decoded(first + Resume(second, s).text, Resume(second, s).held)
  {
    hide Decode;
    assert first + second + Decode(s).text == first + (second + Decode(s).text);
  }

  /** Decoding can be paused anywhere: held bytes followed by the next read continue the same decode. */
  lemma {:induction false} DecodeResumes(s: Bytes, t: Bytes)
    ensures Decode(s + t) == Resume(Decode(s).text, Decode(s).held + t)
  {
    hide Scan;
    if s == [] || Scan(s).Incomplete? {
      assert Decode(s) == Decoded([], s);
      ResumeTwice([], [], s + t);
    } else {
      var n := Scan(s).n;
      ScanStable(s, t);
      assert (s + t)[n..] == s[n..] + t && (s + t)[..n] == s[..n];
      DecodeStep(s);
      DecodeStep(s + t);
      hide Decode;
      DecodeResumes(s[n..], t);
      ResumeTwice(Piece(s), Decode(s[n..]).text, Decode(s[n..]).held + t);
    }
  }

  /** Skipping the valid prefix reported by `from_utf8` emits exactly that prefix. */
  lemma {:induction false} DecodeValidPrefix(s: Bytes, v: nat)
    requires v <= |s|
    requires if ValidText(s) then v == |s| else v == FromUtf8(s).validUpTo
    ensures ValidText(s[..v])
    ensures Decode(s) == Resume(s[..v], s[v..])
    ensures v < |s| ==> FromUtf8(s[v..]) == Error(0, FromUtf8(s).errorLen)
  {
    hide Scan;
    if s != [] && Scan(s).Complete? {
      var n := Scan(s).n;
      var w := v - n;
      DecodeStep(s);
      assert s[n..][w..] == s[v..] && s[..v] == s[..n] + s[n..][..w];
      FrontIsValid(s);
      hide Decode;
      DecodeValidPrefix(s[n..], w);
      ValidConcat(s[..n], s[n..][..w]);
      ResumeTwice(s[..n], s[n..][..w], s[v..]);
    } else {
      assert s[0..] == s;
      assert s[..0] == [];
      ResumeTwice([], [], s);
    }
  }

  lemma DecodeAtRest(s: Bytes)
    requires s == [] || FromUtf8(s) == Error(0, None)
    ensures Decode(s) == Decoded([], s)
  {
    hide Scan;
  }

  /** Where `from_utf8` stops at once, decoding either replaces the bad bytes or holds everything. */
  lemma DecodeErrorFront(s: Bytes, errorLen: Option<nat>)
    requires FromUtf8(s) == Error(0, errorLen)
    ensures match errorLen
            case Some(n) => Decode(s) == Resume(REPLACEMENT, s[n..])
            case None => Decode(s) == Decoded([], s)
  {
    hide Scan;
  }

  ghost predicate ValidPieces(pieces: seq<Bytes>) {
    forall i | 0 <= i < |pieces| :: pieces[i] != [] && ValidText(pieces[i])
  }

  /** `take_terminal_utf8_chunks`: the emitted pieces and the bytes left in the buffer. */
  method TakeTerminalUtf8Chunks(buffer: Bytes) returns (pieces: seq<Bytes>, rest: Bytes)
    ensures Concat(pieces) == Decode(buffer).text
    ensures rest == Decode(buffer).held
    ensures ValidPieces(pieces)
  {
    hide Scan, Decode, FromUtf8;
    pieces := [];
    var consumed := 0;
    ghost var settled: Bytes := [];
    assert buffer[0..] == buffer;
    while consumed < |buffer|
      invariant consumed <= |buffer|
      invariant Concat(pieces) == settled
      invariant Decode(buffer) == Resume(settled, buffer[consumed..])
      invariant ValidPieces(pieces)
    {
      var tail := buffer[consumed..];
      var verdict := FromUtf8(tail);
      var validUpTo := if verdict.Valid? then |tail| else verdict.validUpTo;
      DecodeValidPrefix(tail, validUpTo);
      ResumeTwice(settled, tail[..validUpTo], tail[validUpTo..]);
      if validUpTo > 0 {
        ConcatOne(pieces, tail[..validUpTo]);
        pieces := pieces + [tail[..validUpTo]];
        consumed := consumed + validUpTo;
      }
      settled := settled + tail[..validUpTo];
      assert buffer[consumed..] == tail[validUpTo..];
      if verdict.Valid? {
        break;
      }
      DecodeErrorFront(buffer[consumed..], verdict.errorLen);
      if verdict.errorLen.None? {
        break;
      }
      ReplacementIsValid();
      ConcatOne(pieces, REPLACEMENT);
      ResumeTwice(settled, REPLACEMENT, buffer[consumed..][verdict.errorLen.value..]);
      assert buffer[consumed..][verdict.errorLen.value..] == buffer[consumed + verdict.errorLen.value..];
      pieces := pieces + [REPLACEMENT];
      settled := settled + REPLACEMENT;
      consumed := consumed + verdict.errorLen.value;
    }
    rest := buffer[consumed..];
    DecodeAtRest(rest);
  }

  /** The first character boundary at or after an offset. */
  function FirstBoundary(s: Bytes, i: nat): (r: nat)
    requires i <= |s|
    ensures i <= r <= |s| && IsBoundary(s, r)
    ensures forall j | i <= j < r :: !IsBoundary(s, j)
    decreases |s| - i
  {
    if IsBoundary(s, i) then i else FirstBoundary(s, i + 1)
  }

  /** The offset from which `limit` bytes remain, or the start when everything fits. */
  function Overflow(s: Bytes, limit: nat): (r: nat)
    ensures r <= |s|
  {
    if |s| <= limit then 0 else |s| - limit
  }

  /** The tail kept under a byte limit. */
  function Tail(s: Bytes, limit: nat): Bytes {
    if |s| <= limit then s else s[FirstBoundary(s, Overflow(s, limit))..]
  }

  /** `Tail` is the longest suffix that starts on a character boundary and fits the limit. */
  lemma TailIsLongest(s: Bytes, limit: nat)
    requires ValidText(s)
    ensures |Tail(s, limit)| <= limit
    ensures exists k: nat :: k <= |s| && IsBoundary(s, k) && Tail(s, limit) == s[k..]
    ensures forall k: nat | k <= |s| && IsBoundary(s, k) && |s| - k <= limit :: |s| - k <= |Tail(s, limit)|
  {
    if |s| <= limit {
      BoundarySplits(s, 0);
      assert s[0..] == s;
      if s != [] {
        FrontBytes(s);
      }
      assert IsBoundary(s, 0);
    }
  }

  lemma TailIsValid(s: Bytes, limit: nat)
    requires ValidText(s)
    ensures ValidText(Tail(s, limit))
  {
    if |s| > limit {
      BoundarySplits(s, FirstBoundary(s, Overflow(s, limit)));
    }
  }

  lemma NoBoundaryBetween(s: Bytes, i: nat, k: nat)
    requires i <= k <= |s|
    requires forall j: nat | i <= j < k :: !IsBoundary(s, j)
    ensures FirstBoundary(s, i) == FirstBoundary(s, k)
    decreases k - i
  {
    if i < k {
      NoBoundaryBetween(s, i + 1, k);
    }
  }

  lemma BoundaryShift(s: Bytes, cut: nat, i: nat)
    requires cut + i <= |s|
    ensures FirstBoundary(s, cut + i) == cut + FirstBoundary(s[cut..], i)
    decreases |s| - i
  {
    if !IsBoundary(s, cut + i) {
      BoundaryShift(s, cut, i + 1);
    }
  }

  /** Text appended on a character boundary moves no earlier boundary. */
  lemma AppendKeepsBoundaries(s: Bytes, t: Bytes, j: nat)
    requires ValidText(t) && j <= |s|
    ensures j < |s| ==> (IsBoundary(s + t, j) <==> IsBoundary(s, j))
    ensures IsBoundary(s + t, |s|)
  {
    if t != [] {
      FrontBytes(t);
    }
  }

  lemma CutBefore(s: Bytes, t: Bytes, from: nat)
    requires ValidText(t) && from <= |s|
    ensures var cut := FirstBoundary(s, from); cut <= |s + t| && IsBoundary(s + t, cut)
    ensures forall i: nat | from <= i <= FirstBoundary(s, from) :: FirstBoundary(s + t, i) == FirstBoundary(s, from)
  {
    var cut := FirstBoundary(s, from);
    AppendKeepsBoundaries(s, t, cut);
    forall i: nat | from <= i <= cut
      ensures FirstBoundary(s + t, i) == cut
    {
      forall j: nat | i <= j < cut
        ensures !IsBoundary(s + t, j)
      {
        AppendKeepsBoundaries(s, t, j);
      }
      NoBoundaryBetween(s + t, i, cut);
    }
  }

  /** Cutting no further than the overflow keeps the tail. */
  lemma TailOfSuffix(s: Bytes, cut: nat, limit: nat)
    requires cut <= Overflow(s, limit) && IsBoundary(s, cut)
    ensures Tail(s[cut..], limit) == Tail(s, limit)
  {
    if |s| <= limit {
      assert s[0..] == s;
    } else {
      var from := Overflow(s, limit);
      BoundaryShift(s, cut, from - cut);
      var at := FirstBoundary(s, from);
      assert cut == from ==> at == cut;
      hide FirstBoundary, IsBoundary;
      assert |s[cut..]| == |s| - cut;
      assert s[cut..][at - cut..] == s[at..];
    }
  }

  /** Trimming early loses nothing: the tail of a trimmed buffer plus new text is the tail of everything. */
  lemma TailAbsorbs(s: Bytes, t: Bytes, limit: nat)
    requires ValidText(t)
    ensures Tail(Tail(s, limit) + t, limit) == Tail(s + t, limit)
  {
    if |s| > limit {
      CutBefore(s, t, Overflow(s, limit));
      hide FirstBoundary, IsBoundary;
      var cut := FirstBoundary(s, Overflow(s, limit));
      assert (s + t)[cut..] == s[cut..] + t;
      if cut <= Overflow(s + t, limit) {
        TailOfSuffix(s + t, cut, limit);
      }
    }
  }

  /** `truncate_from_start_on_char_boundary`, walking the characters like `char_indices`. */
  method TruncateFromStart(text: Bytes, limit: nat) returns (kept: Bytes, cut: bool)
    requires ValidText(text)
    ensures kept == Tail(text, limit)
    ensures cut == (|text| > limit)
  {
    if |text| <= limit {
      return text, false;
    }
    if limit == 0 {
      return [], true;
    }
    var target := |text| - limit;
    var index := 0;
    assert text[0..] == text;
    while index < |text| && index < target
      invariant index <= |text| && ValidText(text[index..])
      invariant forall j | target <= j < index :: !IsBoundary(text, j)
    {
      var n := Scan(text[index..]).n;
      FrontBytes(text[index..]);
      assert forall j | index < j < index + n :: text[j] == text[index..][j - index];
      assert text[index..][n..] == text[index + n..];
      index := index + n;
    }
    if index < |text| {
      FrontBytes(text[index..]);
    }
    assert IsBoundary(text, index);
    return text[index..], true;
  }

  /** The output buffer shared by the two stream readers of one terminal. */
  class AcpTerminal {
    const outputByteLimit: nat
    var output: Bytes
    var truncated: bool
    /** Everything ever appended. */
    ghost var appended: Bytes

    ghost predicate Valid()
      reads this
    {
      && ValidText(appended)
      && output == Tail(appended, outputByteLimit)
      && truncated == (|appended| > outputByteLimit)
    }

    constructor (limit: nat)
      ensures Valid() && appended == [] && outputByteLimit == limit
    {
      outputByteLimit := limit;
      output, truncated, appended := [], false, [];
    }

    /** `append_acp_terminal_output`. */
    method Append(delta: Bytes)
      requires Valid() && ValidText(delta)
      modifies this
      ensures Valid() && appended == old(appended) + delta
      ensures output == Tail(old(appended) + delta, outputByteLimit)
      ensures truncated == (|old(appended) + delta| > outputByteLimit)
    {
      if delta == [] {
        assert appended + delta == appended;
        return;
      }
      TailIsValid(appended, outputByteLimit);
      ValidConcat(output, delta);
      ValidConcat(appended, delta);
      TailAbsorbs(appended, delta, outputByteLimit);
      appended := appended + delta;
      output := output + delta;
      var cut: bool;
      output, cut := TruncateFromStart(output, outputByteLimit);
      if cut {
        truncated := true;
      }
    }
  }

  /** One result of `reader.read`: an empty read is end of stream. */
  datatype Read = Data(bytes: Bytes) | Failed

  /** The bytes a reader loop consumes: everything before the first end of stream or failure. */
  function Stream(input: seq<Read>): Bytes {
    if input == [] || input[0].Failed? || input[0].bytes == [] then []
    else input[0].bytes + Stream(input[1..])
  }

  /** The appends of one read, in order. */
  method AppendPieces(pieces: seq<Bytes>, terminal: AcpTerminal)
    requires terminal.Valid() && ValidPieces(pieces)
    modifies terminal
    ensures terminal.Valid()
    ensures terminal.appended == old(terminal.appended) + Concat(pieces)
  {
    hide Tail, ValidText;
    for j := 0 to |pieces|
      invariant terminal.Valid()
      invariant terminal.appended == old(terminal.appended) + Concat(pieces[..j])
    {
      ConcatOne(pieces[..j], pieces[j]);
      assert pieces[..j + 1] == pieces[..j] + [pieces[j]];
      terminal.Append(pieces[j]);
    }
    assert pieces[..|pieces|] == pieces;
  }

  /** Where a reader stands: bytes consumed so far, deltas emitted and appended, bytes held back. */
  ghost predicate Streaming(
    input: seq<Read>, i: nat, consumed: Bytes, deltas: seq<Bytes>, pending: Bytes, before: Bytes, appended: Bytes)
  {
    && i <= |input| && consumed + Stream(input[i..]) == Stream(input)
    && Decode(consumed) == Decoded(Concat(deltas), pending) && |pending| <= 3 && ValidPieces(deltas)
    && appended == before + Concat(deltas)
  }

  lemma StreamingStart(input: seq<Read>, before: Bytes)
    ensures Streaming(input, 0, [], [], [], before, before)
  {
    assert input[0..] == input && before + [] == before;
    DecodeAtRest([]);
  }

  lemma StreamingStep(
    input: seq<Read>, i: nat, consumed: Bytes, deltas: seq<Bytes>, pending: Bytes, before: Bytes, appended: Bytes,
    pieces: seq<Bytes>, rest: Bytes)
    requires Streaming(input, i, consumed, deltas, pending, before, appended) && ValidPieces(pieces)
    requires i < |input| && input[i].Data? && input[i].bytes != []
    requires Concat(pieces) == Decode(pending + input[i].bytes).text && rest == Decode(pending + input[i].bytes).held
    ensures Streaming(input, i + 1, consumed + input[i].bytes, deltas + pieces, rest, before, appended + Concat(pieces))
  {
    var bytes := input[i].bytes;
    assert input[i..][1..] == input[i + 1..];
    assert Stream(input[i..]) == bytes + Stream(input[i + 1..]);
    hide Decode, Lossy, Stream, ValidText;
    DecodeResumes(consumed, bytes);
    DecodeThenFlush(consumed + bytes);
    ConcatAppend(deltas, pieces);
    Reassociate(consumed, bytes, Stream(input[i + 1..]));
    Reassociate(before, Concat(deltas), Concat(pieces));
  }

  /** The flush at the end of the stream. */
  lemma StreamingEnd(
    input: seq<Read>, i: nat, consumed: Bytes, deltas: seq<Bytes>, pending: Bytes, before: Bytes, appended: Bytes)
    requires Streaming(input, i, consumed, deltas, pending, before, appended)
    requires i == |input| || input[i].Failed? || input[i].bytes == []
    ensures var last := if pending == [] then [] else [Lossy(pending)];
            && ValidPieces(last) && ValidPieces(deltas + last)
            && Concat(deltas + last) == Lossy(Stream(input))
            && appended + Concat(last) == before + Lossy(Stream(input))
  {
    assert Stream(input[i..]) == [] && consumed + [] == consumed;
    var last := if pending == [] then [] else [Lossy(pending)];
    DecodeThenFlush(consumed);
    LossyIsValid(pending);
    if pending != [] {
      LossyIsNotEmpty(pending);
      ConcatOne([], Lossy(pending));
      assert [] + [Lossy(pending)] == last && [] + Lossy(pending) == Lossy(pending);
    } else {
      LossyOfValid([]);
    }
    assert Concat(last) == Lossy(pending);
    hide Decode, Lossy, Stream, ValidText;
    ConcatAppend(deltas, last);
    Reassociate(before, Concat(deltas), Concat(last));
  }

  /** `read_acp_terminal_output`: reads until end of stream, appending and notifying every delta. */
  method ReadTerminalOutput(input: seq<Read>, terminal: AcpTerminal) returns (deltas: seq<Bytes>)
    requires terminal.Valid()
    modifies terminal
    ensures terminal.Valid()
    ensures Concat(deltas) == Lossy(Stream(input))
    ensures terminal.appended == old(terminal.appended) + Lossy(Stream(input))
    ensures ValidPieces(deltas)
  {
    hide *;
    ghost var before, consumed := terminal.appended, [];
    deltas := [];
    var pending: Bytes := [];
    var i := 0;
    StreamingStart(input, before);
    while i < |input| && input[i].Data? && input[i].bytes != []
      invariant i <= |input| && terminal.Valid()
      invariant Streaming(input, i, consumed, deltas, pending, before, terminal.appended)
      decreases |input| - i
    {
      var pieces, rest := TakeTerminalUtf8Chunks(pending + input[i].bytes);
      StreamingStep(input, i, consumed, deltas, pending, before, terminal.appended, pieces, rest);
      AppendPieces(pieces, terminal);
      consumed, deltas, pending := consumed + input[i].bytes, deltas + pieces, rest;
      i := i + 1;
    }
    StreamingEnd(input, i, consumed, deltas, pending, before, terminal.appended);
    if pending != [] {
      var last := [Lossy(pending)];
      AppendPieces(last, terminal);
      deltas := deltas + last;
    } else {
      assert deltas + [] == deltas && terminal.appended + Concat([]) == terminal.appended;
    }
  }

  /** One decoding pass per read, threading the held bytes, with the final flush. */
  function EmitAll(input: seq<Bytes>, held: Bytes): Bytes
    decreases |input|
  {
    if input == [] then Lossy(held)
    else var d := Decode(held + input[0]); d.text + EmitAll(input[1..], d.held)
  }

  /** Every split of a stream into reads yields the one-shot lossy decode of the whole stream. */
  lemma {:induction false} EverySplitDecodesAlike(input: seq<Bytes>, seen: Bytes)
    ensures Decode(seen).text + EmitAll(input, Decode(seen).held) == Lossy(seen + Concat(input))
  {
    hide Scan, Decode, Lossy;
    if input == [] {
      DecodeThenFlush(seen);
      assert seen + Concat(input) == seen;
    } else {
      DecodeResumes(seen, input[0]);
      EverySplitDecodesAlike(input[1..], seen + input[0]);
      assert seen + input[0] + Concat(input[1..]) == seen + Concat(input);
    }
  }

  /** Starting with nothing held, any reads whatever decode like one read of their concatenation. */
  lemma StreamingEqualsOneShot(input: seq<Bytes>)
    ensures EmitAll(input, []) == Lossy(Concat(input))
  {
    DecodeAtRest([]);
    EverySplitDecodesAlike(input, []);
    assert [] + Concat(input) == Concat(input);
    hide Lossy, EmitAll;
  }

  /** Two readers interleave appends; whatever the order, only the concatenation matters. */
  function AppendAll(buffer: Bytes, deltas: seq<Bytes>, limit: nat): Bytes
    decreases |deltas|
  {
    if deltas == [] then buffer else AppendAll(Tail(buffer + deltas[0], limit), deltas[1..], limit)
  }

  lemma {:induction false} AppendsKeepLongestTail(deltas: seq<Bytes>, before: Bytes, limit: nat)
    requires forall i | 0 <= i < |deltas| :: ValidText(deltas[i])
    ensures AppendAll(Tail(before, limit), deltas, limit) == Tail(before + Concat(deltas), limit)
  {
    hide Tail;
    if deltas == [] {
      assert before + Concat(deltas) == before;
    } else {
      TailAbsorbs(before, deltas[0], limit);
      AppendsKeepLongestTail(deltas[1..], before + deltas[0], limit);
      assert before + deltas[0] + Concat(deltas[1..]) == before + Concat(deltas);
    }
  }
}
