/**
 Byte-level UTF-8 as the Rust standard library reads it. A `String` is represented by its bytes.
 `Scan` follows the validator's branch order; `WellFormed` is the independent byte grammar of
 section 4 of RFC 3629, and `ScanMeaning` connects the two.
 */
module Utf8 {
  import opened Wrappers

  newtype Byte = b: int | 0 <= b < 256
  type Bytes = seq<Byte>

  const REPLACEMENT: Bytes := [0xEF, 0xBF, 0xBD]

  predicate Continuation(b: Byte) {
    0x80 <= b <= 0xBF
  }

  /** The byte grammar of one character, section 4 of RFC 3629. */
  predicate WellFormed(c: Bytes) {
    || (|c| == 1 && c[0] <= 0x7F)
    || (|c| == 2 && 0xC2 <= c[0] <= 0xDF && Continuation(c[1]))
    || (|c| == 3 && Continuation(c[2]) && (
          || (c[0] == 0xE0 && 0xA0 <= c[1] <= 0xBF)
          || (0xE1 <= c[0] <= 0xEC && Continuation(c[1]))
          || (c[0] == 0xED && 0x80 <= c[1] <= 0x9F)
          || (0xEE <= c[0] <= 0xEF && Continuation(c[1]))))
    || (|c| == 4 && Continuation(c[2]) && Continuation(c[3]) && (
          || (c[0] == 0xF0 && 0x90 <= c[1] <= 0xBF)
          || (0xF1 <= c[0] <= 0xF3 && Continuation(c[1]))
          || (c[0] == 0xF4 && 0x80 <= c[1] <= 0x8F)))
  }

  /** Some nonempty continuation of `s` is one well-formed character. */
  ghost predicate ProperPrefix(s: Bytes) {
    exists t: Bytes :: t != [] && WellFormed(s + t)
  }

  /** What the validator finds at the front of a nonempty input. */
  datatype Front = Complete(n: nat) | Invalid(n: nat) | Incomplete

  function Width(first: Byte): nat {
    if first <= 0x7F then 1
    else if 0xC2 <= first <= 0xDF then 2
    else if 0xE0 <= first <= 0xEF then 3
    else if 0xF0 <= first <= 0xF4 then 4
    else 0
  }

  predicate SecondAllowed(first: Byte, second: Byte) {
    if first == 0xE0 then 0xA0 <= second <= 0xBF
    else if first == 0xED then 0x80 <= second <= 0x9F
    else if first == 0xF0 then 0x90 <= second <= 0xBF
    else if first == 0xF4 then 0x80 <= second <= 0x8F
    else Continuation(second)
  }

  function Scan(s: Bytes): (r: Front)
    requires s != []
    ensures r.Complete? || r.Invalid? ==> 1 <= r.n <= |s|
    ensures r.Incomplete? ==> |s| <= 3
  {
    var width := Width(s[0]);
    if width == 1 then Complete(1)
    else if width == 0 then Invalid(1)
    else if |s| == 1 then Incomplete
    else if !SecondAllowed(s[0], s[1]) then Invalid(1)
    else if width == 2 then Complete(2)
    else if |s| == 2 then Incomplete
    else if !Continuation(s[2]) then Invalid(2)
    else if width == 3 then Complete(3)
    else if |s| == 3 then Incomplete
    else if !Continuation(s[3]) then Invalid(3)
    else Complete(4)
  }

  /** A completion of every truncated character the validator waits for. */
  function Completion(s: Bytes): (t: Bytes)
    requires s != [] && Scan(s).Incomplete?
    ensures t != [] && WellFormed(s + t)
  {
    var second: Byte := if s[0] == 0xE0 then 0xA0 else if s[0] == 0xF0 then 0x90 else 0x80;
    if |s| == 1 then
      (if Width(s[0]) == 2 then [second] else if Width(s[0]) == 3 then [second, 0x80] else [second, 0x80, 0x80])
    else if |s| == 2 then (if Width(s[0]) == 3 then [0x80] else [0x80, 0x80])
    else [0x80]
  }

  /** A proper prefix of a character is exactly what the validator waits on. */
  lemma ProperPrefixIsIncomplete(s: Bytes)
    requires s != []
    ensures ProperPrefix(s) <==> Scan(s).Incomplete?
  {
    if Scan(s).Incomplete? {
      assert WellFormed(s + Completion(s));
    }
    if ProperPrefix(s) {
      var t: Bytes :| t != [] && WellFormed(s + t);
      var c := s + t;
      assert forall i | 0 <= i < |s| :: s[i] == c[i];
    }
  }

  /**
   The validator against the grammar: a complete front is the one well-formed prefix, an incomplete
   front is a proper prefix of a character, and an invalid front is the maximal subpart that
   section 3.9 of the Unicode Standard replaces by one U+FFFD.
   */
  lemma ScanMeaning(s: Bytes)
    requires s != []
    ensures forall n | 1 <= n <= |s| :: WellFormed(s[..n]) <==> Scan(s) == Complete(n)
    ensures ProperPrefix(s) <==> Scan(s).Incomplete?
    ensures Scan(s).Invalid? ==>
              var n := Scan(s).n;
              && (n == 1 || ProperPrefix(s[..n]))
              && forall m | n < m <= |s| :: !ProperPrefix(s[..m])
  {
    ProperPrefixIsIncomplete(s);
    forall n | 1 <= n <= |s|
      ensures ProperPrefix(s[..n]) <==> Scan(s[..n]).Incomplete?
    {
      ProperPrefixIsIncomplete(s[..n]);
    }
  }

  /** More input never changes a verdict already reached. */
  lemma ScanStable(s: Bytes, t: Bytes)
    requires s != [] && !Scan(s).Incomplete?
    ensures Scan(s + t) == Scan(s)
  {
    assert forall i | 0 <= i < |s| :: (s + t)[i] == s[i];
  }

  datatype Utf8Verdict = Valid | Error(validUpTo: nat, errorLen: Option<nat>)

  /** `std::str::from_utf8`. */
  function FromUtf8(s: Bytes): (r: Utf8Verdict)
    ensures r.Error? ==> r.validUpTo < |s|
    ensures r.Error? && r.errorLen.Some? ==> 1 <= r.errorLen.value <= |s| - r.validUpTo
  {
    if s == [] then Valid
    else match Scan(s)
         case Complete(n) =>
           (match FromUtf8(s[n..])
            case Valid => Valid
            case Error(v, e) => Error(n + v, e))
         case Invalid(n) => Error(0, Some(n))
         case Incomplete => Error(0, None)
  }

  predicate ValidText(s: Bytes) {
    FromUtf8(s).Valid?
  }

  /** What one settled front contributes to decoded text. */
  function Piece(s: Bytes): Bytes
    requires s != [] && !Scan(s).Incomplete?
  {
    if Scan(s).Complete? then s[..Scan(s).n] else REPLACEMENT
  }

  /** `String::from_utf8_lossy` of a complete input. */
  function Lossy(s: Bytes): Bytes {
    if s == [] then []
    else if Scan(s).Incomplete? then REPLACEMENT
    else Piece(s) + Lossy(s[Scan(s).n..])
  }

  /** The longest part at the front that begins some character, or a single byte where none does. */
  ghost predicate MaximalSubpart(s: Bytes, n: nat) {
    && 1 <= n <= |s| && (n == 1 || ProperPrefix(s[..n]))
    && forall m | n < m <= |s| :: !ProperPrefix(s[..m])
  }

  lemma FrontIsMaximal(s: Bytes, n: nat)
    requires s != [] && !Scan(s).Complete?
    ensures MaximalSubpart(s, n) <==> n == if Scan(s).Invalid? then Scan(s).n else |s|
  {
    ScanMeaning(s);
    assert s[..|s|] == s;
    hide Scan, ProperPrefix;
  }

  /**
   Lossy decoding, law by law: a well-formed character is kept; where there is none, the maximal subpart becomes
   the three bytes of U+FFFD; and so on to the end.
   */
  lemma LossyIs(s: Bytes)
    ensures Lossy([]) == []
    ensures forall n | 1 <= n <= |s| && WellFormed(s[..n]) :: Lossy(s) == s[..n] + Lossy(s[n..])
    ensures s != [] && (forall n | 1 <= n <= |s| :: !WellFormed(s[..n])) ==>
              exists n: nat | MaximalSubpart(s, n) :: Lossy(s) == [0xEF, 0xBF, 0xBD] + Lossy(s[n..])
  {
    if s != [] {
      ScanMeaning(s);
      if !Scan(s).Complete? {
        var n := if Scan(s).Invalid? then Scan(s).n else |s|;
        FrontIsMaximal(s, n);
        assert Scan(s).Incomplete? ==> s[n..] == [];
        hide Scan, ProperPrefix, WellFormed;
        assert MaximalSubpart(s, n) && Lossy(s) == [0xEF, 0xBF, 0xBD] + Lossy(s[n..]);
      }
    }
  }

  lemma LossyIsNotEmpty(s: Bytes)
    requires s != []
    ensures Lossy(s) != []
  {
    hide Scan;
  }

  lemma {:induction false} LossyOfValid(s: Bytes)
    requires ValidText(s)
    ensures Lossy(s) == s
  {
    if s != [] {
      LossyOfValid(s[Scan(s).n..]);
      assert s[..Scan(s).n] + s[Scan(s).n..] == s;
    }
  }

  lemma {:induction false} ValidConcat(s: Bytes, t: Bytes)
    requires ValidText(s) && ValidText(t)
    ensures ValidText(s + t)
  {
    if s == [] {
      assert s + t == t;
    } else {
      var n := Scan(s).n;
      ScanStable(s, t);
      ValidConcat(s[n..], t);
      assert (s + t)[n..] == s[n..] + t;
    }
  }

  lemma ReplacementIsValid()
    ensures ValidText(REPLACEMENT)
  {
    assert Scan(REPLACEMENT) == Complete(3) && REPLACEMENT[3..] == [];
  }

  /** One scanned character on its own is valid text. */
  lemma FrontIsValid(s: Bytes)
    requires s != [] && Scan(s).Complete?
    ensures ValidText(s[..Scan(s).n])
  {
    var c := s[..Scan(s).n];
    assert Scan(c) == Scan(s) && c[|c|..] == [];
  }

  lemma {:induction false} LossyIsValid(s: Bytes)
    ensures ValidText(Lossy(s))
  {
    ReplacementIsValid();
    if s != [] && !Scan(s).Incomplete? {
      LossyIsValid(s[Scan(s).n..]);
      if Scan(s).Complete? {
        FrontIsValid(s);
        ValidConcat(s[..Scan(s).n], Lossy(s[Scan(s).n..]));
      } else {
        ValidConcat(REPLACEMENT, Lossy(s[Scan(s).n..]));
      }
    }
  }

  /** `str::is_char_boundary` inside the text. */
  predicate IsBoundary(s: Bytes, i: nat)
    requires i <= |s|
  {
    i == |s| || !Continuation(s[i])
  }

  /** The bytes of a scanned character after its first are continuation bytes, and the first is not. */
  lemma FrontBytes(s: Bytes)
    requires s != [] && Scan(s).Complete?
    ensures !Continuation(s[0])
    ensures forall i | 0 < i < Scan(s).n :: Continuation(s[i])
  {
  }

  /** The boundaries of a valid text are exactly the places where it splits into two valid texts. */
  lemma {:induction false} BoundarySplits(s: Bytes, i: nat)
    requires ValidText(s) && i <= |s|
    ensures IsBoundary(s, i) ==> ValidText(s[..i]) && ValidText(s[i..])
    ensures ValidText(s[..i]) ==> IsBoundary(s, i)
  {
    if 0 < i < |s| {
      var n := Scan(s).n;
      FrontBytes(s);
      if i < n {
        assert Scan(s[..i]).Incomplete?;
      } else {
        BoundarySplits(s[n..], i - n);
        assert s[n..][i - n..] == s[i..];
        assert s[n..][..i - n] == s[n..i] == s[..i][n..];
        assert s[..n] == s[..i][..n];
        assert Scan(s[..i]) == Scan(s);
      }
    } else if i == 0 && s != [] {
      FrontBytes(s);
    } else {
      assert s[..|s|] == s;
    }
  }
}
