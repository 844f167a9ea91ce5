/**
 Chunk locations (crates/code-search/src/types.rs, lines 71 to 151): the displayed text, and the comparator
 that avoids building it. Characters are Unicode scalar values, in code point order.
 */
module Location {
  import opened Wrappers
  import opened Orders
  import opened Types

  function DigitChar(d: nat): char
    requires d < 10
  {
    '0' + d as char
  }

  /** The decimal digits of a positive number; none for zero. */
  function PositiveDigits(n: nat): string {
    if n == 0 then [] else PositiveDigits(n / 10) + [DigitChar(n % 10)]
  }

  /** A number as `write!` prints it. */
  function Decimal(n: nat): string {
    if n == 0 then "0" else PositiveDigits(n)
  }

  function Normalized(path: Path): string {
    seq(|path|, i requires 0 <= i < |path| => if path[i] == '\\' then '/' else path[i])
  }

  /** `Chunk::location`. */
  function LocationText(c: Chunk): string {
    PathText(c) + LinesText(c)
  }

  /** The normalized path with the colon that ends it. */
  function PathText(c: Chunk): string {
    Normalized(c.filePath) + ":"
  }

  function LinesText(c: Chunk): string {
    StartText(c) + Decimal(c.endLine)
  }

  function StartText(c: Chunk): string {
    Decimal(c.startLine) + "-"
  }

  /** `Chunk::cmp_location` as a function: path, then first line, then last line, each as terminated text. */
  function CompareLocation(a: Chunk, b: Chunk): Ordering {
    CompareText(PathText(a), PathText(b))
      .Then(CompareText(StartText(a), StartText(b)))
      .Then(CompareText(Decimal(a.endLine), Decimal(b.endLine)))
  }

  /** The number a text of digits stands for. */
  function ValueOf(digits: string): int {
    if digits == "" then 0
    else 10 * ValueOf(digits[..|digits| - 1]) + (digits[|digits| - 1] as int - 48)
  }

  lemma {:induction false} PositiveDigitsValue(n: nat)
    ensures ValueOf(PositiveDigits(n)) == n
  {
    if n > 0 {
      PositiveDigitsValue(n / 10);
      var s := PositiveDigits(n);
      assert s[..|s| - 1] == PositiveDigits(n / 10) && s[|s| - 1] as int == 48 + n % 10;
    }
  }

  /** Read back, a printed number is that number; it has no leading zero but for zero itself. */
  lemma DecimalIsNumber(n: nat)
    ensures ValueOf(Decimal(n)) == n && AllDigits(Decimal(n)) && Decimal(n) != ""
    ensures Decimal(n)[0] == '0' <==> n == 0
  {
    PositiveDigitsValue(n);
    DecimalIsDigits(n);
    assert ValueOf("") == 0 && "0"[..0] == "";
  }

  /** The text of a location: the path with forward slashes, a colon, the first line, a dash, the last line. */
  lemma LocationTextIs(c: Chunk)
    ensures LocationText(c)
         == Normalized(c.filePath) + ":" + (Decimal(c.startLine) + "-" + Decimal(c.endLine))
    ensures |Normalized(c.filePath)| == |c.filePath|
    ensures forall i | 0 <= i < |c.filePath| ::
              Normalized(c.filePath)[i] == if c.filePath[i] == '\\' then '/' else c.filePath[i]
  {
  }

  function Power10(k: nat): nat {
    if k == 0 then 1 else 10 * Power10(k - 1)
  }

  lemma {:induction false} DigitsWithin(n: nat, k: nat)
    requires n < Power10(k)
    ensures |PositiveDigits(n)| <= k
  {
    if n > 0 {
      DigitsWithin(n / 10, k - 1);
    }
  }

  /** A 64-bit number has at most 20 digits, so digits and suffix fit the 32-byte buffer. */
  lemma UsizeDigits(n: nat)
    requires n <= USIZE_MAX
    ensures 1 <= |Decimal(n)| <= 20
  {
    assert Power10(5) == 100000;
    assert Power10(10) == 10000000000;
    assert Power10(15) == 1000000000000000;
    assert Power10(20) == 100000000000000000000;
    DigitsWithin(n, 20);
  }

  method CountDigits(value: nat) returns (len: nat)
    ensures len == |PositiveDigits(value)|
  {
    len := 0;
    var remaining := value;
    while remaining > 0
      invariant len + |PositiveDigits(remaining)| == |PositiveDigits(value)|
    {
      len := len + 1;
      remaining := remaining / 10;
    }
  }

  /** `write_decimal`: counts the digits, then writes them from the last to the first. */
  method WriteDecimal(value: nat, buffer: array<char>) returns (len: nat)
    requires buffer.Length == 32 && value <= USIZE_MAX
    modifies buffer
    ensures len == |Decimal(value)| <= 20 && buffer[..len] == Decimal(value)
  {
    UsizeDigits(value);
    if value == 0 {
      buffer[0] := '0';
      return 1;
    }
    len := CountDigits(value);
    ghost var digits := Decimal(value);
    assert PositiveDigits(value) == digits;
    hide *;
    var index, rest := len, value;
    assert digits[..len] == digits;
    while rest > 0
      invariant 0 <= index <= len == |digits|
      invariant PositiveDigits(rest) == digits[..index]
      invariant forall i | index <= i < len :: buffer[i] == digits[i]
    {
      WriteStep(rest, digits, index);
      index := index - 1;
      buffer[index] := DigitChar(rest % 10);
      rest := rest / 10;
    }
    WriteStep(rest, digits, index);
  }

  lemma LastDigit(n: nat)
    ensures var s := PositiveDigits(n);
            if n == 0 then s == []
            else s != [] && s[|s| - 1] == DigitChar(n % 10) && s[..|s| - 1] == PositiveDigits(n / 10)
  {
  }

  lemma WriteStep(rest: nat, digits: string, index: nat)
    requires index <= |digits| && PositiveDigits(rest) == digits[..index]
    ensures rest == 0 ==> index == 0
    ensures rest > 0 ==> index > 0 && digits[index - 1] == DigitChar(rest % 10)
    ensures rest > 0 ==> PositiveDigits(rest / 10) == digits[..index - 1]
  {
    LastDigit(rest);
    if rest > 0 {
      assert digits[..index][..index - 1] == digits[..index - 1];
    }
  }

  /** `cmp_decimal_text_with_suffix`: the bytes of both buffers, compared as text. */
  method CmpDecimalTextWithSuffix(left: nat, right: nat, suffix: string) returns (o: Ordering)
    requires left <= USIZE_MAX && right <= USIZE_MAX && |suffix| <= 12
    ensures o == CompareText(Decimal(left) + suffix, Decimal(right) + suffix)
  {
    var leftText := TextWithSuffix(left, suffix);
    var rightText := TextWithSuffix(right, suffix);
    o := CompareText(leftText, rightText);
  }

  method TextWithSuffix(value: nat, suffix: string) returns (text: string)
    requires value <= USIZE_MAX && |suffix| <= 12
    ensures text == Decimal(value) + suffix
  {
    var buffer := new char[32](_ => '\0');
    var digits := WriteDecimal(value, buffer);
    for i := 0 to |suffix|
      invariant buffer[..digits] == Decimal(value) && buffer[digits..digits + i] == suffix[..i]
    {
      buffer[digits + i] := suffix[i];
    }
    text := buffer[..digits + |suffix|];
    assert text == buffer[..digits] + buffer[digits..digits + |suffix|];
  }

  /** `cmp_normalized_path_with_suffix`: both character streams in step. */
  method CmpNormalizedPathWithSuffix(left: Path, right: Path, suffix: char) returns (o: Ordering)
    ensures o == CompareText(Normalized(left) + [suffix], Normalized(right) + [suffix])
  {
    var leftChars, rightChars := Normalized(left) + [suffix], Normalized(right) + [suffix];
    var i := 0;
    assert leftChars[0..] == leftChars && rightChars[0..] == rightChars;
    while i < |leftChars| && i < |rightChars|
      invariant i <= |leftChars| && i <= |rightChars|
      invariant CompareText(leftChars, rightChars) == CompareText(leftChars[i..], rightChars[i..])
    {
      assert leftChars[i..][1..] == leftChars[i + 1..] && rightChars[i..][1..] == rightChars[i + 1..];
      var order := CompareChar(leftChars[i], rightChars[i]);
      if order != Equal {
        return order;
      }
      i := i + 1;
    }
    o := if i == |leftChars| && i == |rightChars| then Equal else if i == |leftChars| then Less else Greater;
  }

  /** `Chunk::cmp_location`. */
  method CmpLocation(a: Chunk, b: Chunk) returns (o: Ordering)
    requires a.startLine <= USIZE_MAX && a.endLine <= USIZE_MAX
    requires b.startLine <= USIZE_MAX && b.endLine <= USIZE_MAX
    ensures o == CompareLocation(a, b)
  {
    o := CmpNormalizedPathWithSuffix(a.filePath, b.filePath, ':');
    if o == Equal {
      o := CmpDecimalTextWithSuffix(a.startLine, b.startLine, "-");
      if o == Equal {
        o := CmpDecimalTextWithSuffix(a.endLine, b.endLine, "");
        assert Decimal(a.endLine) + "" == Decimal(a.endLine) && Decimal(b.endLine) + "" == Decimal(b.endLine);
      }
    }
  }

  predicate AllDigits(s: string) {
    forall i | 0 <= i < |s| :: '0' <= s[i] <= '9'
  }

  lemma {:induction false} DecimalIsDigits(n: nat)
    ensures AllDigits(PositiveDigits(n)) && AllDigits(Decimal(n))
    ensures n > 0 ==> PositiveDigits(n) != "" && PositiveDigits(n)[0] != '0'
  {
    if n > 0 {
      DecimalIsDigits(n / 10);
    }
  }

  lemma {:induction false} PositiveDigitsInjective(m: nat, n: nat)
    requires PositiveDigits(m) == PositiveDigits(n)
    ensures m == n
  {
    if m > 0 && n > 0 {
      var x, y := PositiveDigits(m), PositiveDigits(n);
      assert x[..|x| - 1] == PositiveDigits(m / 10) && y[..|y| - 1] == PositiveDigits(n / 10);
      assert x[|x| - 1] == DigitChar(m % 10) && y[|y| - 1] == DigitChar(n % 10);
      PositiveDigitsInjective(m / 10, n / 10);
    }
  }

  lemma DecimalInjective(m: nat, n: nat)
    requires Decimal(m) == Decimal(n)
    ensures m == n
  {
    DecimalIsDigits(m);
    DecimalIsDigits(n);
    PositiveDigitsInjective(m, n);
  }

  /** The same location: the same normalized path and the same lines. */
  predicate SameLocation(a: Chunk, b: Chunk) {
    Normalized(a.filePath) == Normalized(b.filePath) && a.startLine == b.startLine && a.endLine == b.endLine
  }

  lemma SameTexts(a: Chunk, b: Chunk)
    ensures SameLocation(a, b)
       <==> PathText(a) == PathText(b) && StartText(a) == StartText(b) && Decimal(a.endLine) == Decimal(b.endLine)
  {
    if PathText(a) == PathText(b) && StartText(a) == StartText(b) && Decimal(a.endLine) == Decimal(b.endLine) {
      assert PathText(a)[..|PathText(a)| - 1] == Normalized(a.filePath);
      assert PathText(b)[..|PathText(b)| - 1] == Normalized(b.filePath);
      assert StartText(a)[..|StartText(a)| - 1] == Decimal(a.startLine);
      assert StartText(b)[..|StartText(b)| - 1] == Decimal(b.startLine);
      DecimalInjective(a.startLine, b.startLine);
      DecimalInjective(a.endLine, b.endLine);
    }
  }

  /** The comparator is a total preorder whose ties are exactly the chunks of one location. */
  lemma CompareLocationIsOrder(a: Chunk, b: Chunk, c: Chunk)
    ensures CompareLocation(a, b) == Equal <==> SameLocation(a, b)
    ensures CompareLocation(a, b) == CompareLocation(b, a).Reverse()
    ensures CompareLocation(a, b) != Greater && CompareLocation(b, c) != Greater ==> CompareLocation(a, c) != Greater
  {
    TextTotalOrder();
    SameTexts(a, b);
    hide CompareText, PathText, StartText, Decimal, SameLocation;
    var order := CompareText;
    OrderAt(PathText(a), PathText(b), PathText(c));
    OrderAt(StartText(a), StartText(b), StartText(c));
    OrderAt(Decimal(a.endLine), Decimal(b.endLine), Decimal(c.endLine));
  }

  lemma OrderAt(a: string, b: string, c: string)
    ensures CompareText(a, b) == Equal <==> a == b
    ensures CompareText(a, b) == CompareText(b, a).Reverse()
    ensures CompareText(a, b) == Less && CompareText(b, c) == Less ==> CompareText(a, c) == Less
  {
    TextTotalOrder();
    hide CompareText;
  }

  /** A terminator that no digit equals: neither terminated number is a proper prefix of the other. */
  lemma StartTextsPrefixFree(a: Chunk, b: Chunk)
    requires StartText(a) <= StartText(b)
    ensures StartText(a) == StartText(b)
  {
    DecimalIsDigits(b.startLine);
    var at := |Decimal(a.startLine)|;
    assert StartText(b)[at] == StartText(a)[at] == '-';
  }

  lemma LinesAgree(a: Chunk, b: Chunk)
    ensures CompareText(LinesText(a), LinesText(b))
         == CompareText(StartText(a), StartText(b)).Then(CompareText(Decimal(a.endLine), Decimal(b.endLine)))
  {
    TextTotalOrder();
    if StartText(a) == StartText(b) {
      LexSkip(CompareChar, StartText(a), Decimal(a.endLine), Decimal(b.endLine));
      LexEqual(CompareChar, StartText(a), StartText(b));
    } else {
      if StartText(a) <= StartText(b) {
        StartTextsPrefixFree(a, b);
      }
      if StartText(b) <= StartText(a) {
        StartTextsPrefixFree(b, a);
      }
      LexIgnoresTails(CompareChar, StartText(a), StartText(b), Decimal(a.endLine), Decimal(b.endLine));
    }
  }

  /** One terminated path text properly begins another. */
  predicate Begins(p: string, q: string) {
    p <= q && p != q
  }

  /** Unless one path and its colon properly begin the other, the comparator orders as the texts do. */
  lemma LocationsAgree(a: Chunk, b: Chunk)
    requires !Begins(PathText(a), PathText(b)) && !Begins(PathText(b), PathText(a))
    ensures CompareLocation(a, b) == CompareText(LocationText(a), LocationText(b))
  {
    TextTotalOrder();
    if PathText(a) == PathText(b) {
      LexSkip(CompareChar, PathText(a), LinesText(a), LinesText(b));
      LexEqual(CompareChar, PathText(a), PathText(b));
      LinesAgree(a, b);
    } else {
      LexIgnoresTails(CompareChar, PathText(a), PathText(b), LinesText(a), LinesText(b));
    }
  }

  /** Paths without a colon always order as their location texts do. */
  lemma ColonFreePathsAgree(a: Chunk, b: Chunk)
    requires ':' !in a.filePath && ':' !in b.filePath
    ensures CompareLocation(a, b) == CompareText(LocationText(a), LocationText(b))
  {
    ColonFreeNeverBegins(a, b);
    ColonFreeNeverBegins(b, a);
    LocationsAgree(a, b);
  }

  lemma ColonFreeNeverBegins(a: Chunk, b: Chunk)
    requires ':' !in b.filePath
    ensures !Begins(PathText(a), PathText(b))
  {
    var at := |a.filePath|;
    assert PathText(a)[at] == ':';
    if at < |b.filePath| {
      assert PathText(b)[at] == Normalized(b.filePath)[at] != ':';
    } else {
      assert |PathText(b)| <= |PathText(a)|;
    }
  }

  /** No 64-bit number prints more nines at its front than this. */
  const MOST_NINES: nat := 19

  /** Against an ending line of at most `room` nines: after the nines comes a character above the digits. */
  predicate AboveEnds(t: string, room: nat) {
    t == "" || room == 0 || (if t[0] == '9' then AboveEnds(t[1..], room - 1) else t[0] > '9')
  }

  /**
   Against a line range whose first line has at most `room` nines: after the nines comes a character above
   the digits; and when nines fill the whole first line, what follows is above the dash and the last line.
   */
  predicate AboveLines(t: string, room: nat) {
    t == ""
    || (if room == 0 then t[0] > '-' || (t[0] == '-' && AboveEnds(t[1..], MOST_NINES))
        else if t[0] == '9' then AboveLines(t[1..], room - 1)
        else t[0] > '9')
  }

  /** At most `room` leading nines, and nothing after that many. */
  predicate FewNines(digits: string, room: nat) {
    if room == 0 then digits == "" else digits != "" && digits[0] == '9' ==> FewNines(digits[1..], room - 1)
  }

  lemma {:induction false} ShortHasFewNines(digits: string, room: nat)
    requires |digits| <= room
    ensures FewNines(digits, room)
  {
    if room > 0 && digits != "" {
      ShortHasFewNines(digits[1..], room - 1);
    }
  }

  lemma {:induction false} LeadingNine(n: nat)
    requires n > 0 && PositiveDigits(n)[0] == '9'
    ensures n >= 9 * Power10(|PositiveDigits(n)| - 1)
  {
    LastDigit(n);
    if n / 10 > 0 {
      DecimalIsDigits(n / 10);
      LeadingNine(n / 10);
    } else {
      assert PositiveDigits(0) == "";
    }
  }

  lemma UsizeHasFewNines(n: nat)
    requires n <= USIZE_MAX
    ensures FewNines(Decimal(n), MOST_NINES)
  {
    UsizeDigits(n);
    if |Decimal(n)| <= 19 {
      ShortHasFewNines(Decimal(n), 19);
    } else if Decimal(n)[0] == '9' {
      LeadingNine(n);
      PowersOfTen();
    }
  }

  lemma PowersOfTen()
    ensures Power10(19) == 10000000000000000000
  {
    assert Power10(5) == 100000;
    assert Power10(10) == 10000000000;
    assert Power10(15) == 1000000000000000;
  }

  lemma {:induction false} EndBelow(digits: string, room: nat, t: string, y: string)
    requires AllDigits(digits) && FewNines(digits, room)
    requires AboveEnds(t, room) && t != "" && t[|t| - 1] == ':'
    ensures CompareText(digits, t + y) == Less
  {
    if digits != "" && digits[0] == t[0] == '9' {
      EndBelow(digits[1..], room - 1, t[1..], y);
      assert (t + y)[1..] == t[1..] + y;
    } else {
      assert (t + y)[0] == t[0];
    }
  }

  /** A text above the lines is above every line range of 64-bit numbers. */
  lemma {:induction false} LinesBelow(digits: string, room: nat, x: string, t: string, y: string)
    requires AllDigits(digits) && FewNines(digits, room) && AllDigits(x) && FewNines(x, MOST_NINES)
    requires AboveLines(t, room) && t != "" && t[|t| - 1] == ':'
    ensures CompareText(digits + "-" + x, t + y) == Less
  {
    var s := digits + "-" + x;
    assert (t + y)[0] == t[0] && (t + y)[1..] == t[1..] + y;
    assert s[0] == if digits == "" then '-' else digits[0];
    if digits != "" && digits[0] == t[0] == '9' {
      LinesBelow(digits[1..], room - 1, x, t[1..], y);
      assert s[1..] == digits[1..] + "-" + x;
    } else if room == 0 && t[0] == '-' {
      EndBelow(x, MOST_NINES, t[1..], y);
      assert s[1..] == x;
    }
  }

  function Nines(k: nat): string {
    if k == 0 then "" else "9" + Nines(k - 1)
  }

  lemma {:induction false} NinesAppend(k: nat)
    ensures Nines(k) + "9" == "9" + Nines(k)
  {
    if k > 0 {
      NinesAppend(k - 1);
      assert "9" + Nines(k - 1) + "9" == "9" + (Nines(k - 1) + "9");
    }
  }

  /** The number that prints as `k` nines. */
  lemma {:induction false} NinesPrinted(k: nat) returns (n: nat)
    requires k > 0
    ensures n == Power10(k) - 1 > 0 && PositiveDigits(n) == Nines(k)
  {
    if k == 1 {
      n := 9;
      assert PositiveDigits(0) == "" && DigitChar(9) == '9';
      assert Nines(1) == "9" + Nines(0) == "9" && Power10(1) == 10 * Power10(0);
    } else {
      var m := NinesPrinted(k - 1);
      n := 10 * m + 9;
      NinesAppend(k - 1);
      assert n / 10 == m && n % 10 == 9 && DigitChar(9) == '9';
    }
  }

  lemma {:induction false} PowersGrow(k: nat, m: nat)
    requires k <= m
    ensures Power10(k) <= Power10(m)
  {
    if k < m {
      PowersGrow(k, m - 1);
    }
  }

  lemma UsizeNines(k: nat) returns (n: nat)
    requires 0 < k <= MOST_NINES
    ensures 0 < n <= USIZE_MAX && Decimal(n) == Nines(k)
  {
    n := NinesPrinted(k);
    PowersGrow(k, MOST_NINES);
    PowersOfTen();
  }

  /** A text not above the ends is below some ending line. */
  lemma {:induction false} SomeEndAbove(t: string, room: nat) returns (k: nat)
    requires !AboveEnds(t, room)
    ensures 0 < k <= room && forall y :: CompareText(Nines(k), t + y) == Greater
  {
    if t[0] == '9' {
      k := SomeEndAbove(t[1..], room - 1);
      k := k + 1;
      forall y
        ensures CompareText(Nines(k), t + y) == Greater
      {
        assert (t + y)[1..] == t[1..] + y;
        assert CompareText(Nines(k - 1), t[1..] + y) == Greater;
      }
    } else {
      k := 1;
      assert Nines(1) == "9" + Nines(0) == "9";
    }
  }

  /** A text not above the lines is below some line range. */
  lemma {:induction false} SomeLinesAbove(t: string, room: nat) returns (k: nat, m: nat)
    requires !AboveLines(t, room)
    ensures k <= room && (room > 0 ==> k > 0) && 0 < m <= MOST_NINES
    ensures forall y :: CompareText(Nines(k) + "-" + Nines(m), t + y) == Greater
  {
    if room > 0 && t[0] == '9' {
      k, m := SomeLinesAbove(t[1..], room - 1);
      k := k + 1;
      forall y
        ensures CompareText(Nines(k) + "-" + Nines(m), t + y) == Greater
      {
        assert Nines(k) + "-" + Nines(m) == "9" + (Nines(k - 1) + "-" + Nines(m));
        assert (t + y)[1..] == t[1..] + y;
        assert CompareText(Nines(k - 1) + "-" + Nines(m), t[1..] + y) == Greater;
      }
    } else if room > 0 {
      k, m := 1, 1;
      assert Nines(1) == "9" + Nines(0) == "9";
    } else if t[0] == '-' {
      k := 0;
      m := SomeEndAbove(t[1..], MOST_NINES);
      forall y
        ensures CompareText(Nines(k) + "-" + Nines(m), t + y) == Greater
      {
        assert (Nines(0) + "-" + Nines(m))[1..] == Nines(m) && (t + y)[1..] == t[1..] + y;
        assert CompareText(Nines(m), t[1..] + y) == Greater;
      }
    } else {
      k, m := 0, 1;
    }
  }

  /** Where one path and its colon begin the other, what follows is above every line range. */
  predicate SafePair(p: string, q: string) {
    Begins(p, q) ==> AboveLines(q[|p|..], MOST_NINES)
  }

  lemma BegunAgreesIff(a: Chunk, b: Chunk)
    requires Begins(PathText(a), PathText(b))
    ensures var rest := PathText(b)[|PathText(a)|..];
            && CompareLocation(a, b) == Less && CompareLocation(b, a) == Greater
            && CompareText(LocationText(a), LocationText(b)) == CompareText(LinesText(a), rest + LinesText(b))
  {
    TextTotalOrder();
    var p, q := PathText(a), PathText(b);
    var rest := q[|p|..];
    assert p + [] == p && q == p + rest && rest != [];
    LexSkip(CompareChar, p, [], rest);
    OrderAt(p, q, q);
    LexSkip(CompareChar, p, LinesText(a), rest + LinesText(b));
    assert q + LinesText(b) == p + (rest + LinesText(b));
  }

  /** Line numbers are 64-bit numbers. */
  predicate UsizeLines(c: Chunk) {
    c.startLine <= USIZE_MAX && c.endLine <= USIZE_MAX
  }

  lemma SafeBegunAgree(a: Chunk, b: Chunk)
    requires UsizeLines(a) && Begins(PathText(a), PathText(b)) && SafePair(PathText(a), PathText(b))
    ensures AgreeAt(a, b) && AgreeAt(b, a)
  {
    var p, q := PathText(a), PathText(b);
    var rest := q[|p|..];
    BegunAgreesIff(a, b);
    DecimalIsDigits(a.startLine);
    DecimalIsDigits(a.endLine);
    UsizeHasFewNines(a.startLine);
    UsizeHasFewNines(a.endLine);
    assert rest[|rest| - 1] == q[|q| - 1] == ':';
    LinesBelow(Decimal(a.startLine), MOST_NINES, Decimal(a.endLine), rest, LinesText(b));
    OrderAt(LocationText(a), LocationText(b), LocationText(b));
  }

  function At(path: Path, startLine: nat, endLine: nat): Chunk {
    Chunk([], path, startLine, endLine, "")
  }

  /** The comparator and the texts order these two paths alike, whatever the 64-bit line numbers. */
  ghost predicate AgreeOnAllLines(left: Path, right: Path) {
    forall i, j, k, l | UsizeLines(At(left, i, j)) && UsizeLines(At(right, k, l)) ::
      AgreeAt(At(left, i, j), At(right, k, l))
  }

  predicate AgreeAt(a: Chunk, b: Chunk) {
    CompareLocation(a, b) == CompareText(LocationText(a), LocationText(b))
  }

  lemma UnsafeBegunDisagree(left: Path, right: Path) returns (i: nat, j: nat)
    requires !SafePair(PathText(At(left, 0, 0)), PathText(At(right, 0, 0)))
    ensures UsizeLines(At(left, i, j))
    ensures !AgreeAt(At(left, i, j), At(right, 0, 0)) && !AgreeAt(At(right, 0, 0), At(left, i, j))
  {
    var b := At(right, 0, 0);
    var rest := PathText(b)[|PathText(At(left, 0, 0))|..];
    var k, m := SomeLinesAbove(rest, MOST_NINES);
    i := UsizeNines(k);
    j := UsizeNines(m);
    var a := At(left, i, j);
    BegunAgreesIff(a, b);
    assert LinesText(a) == Nines(k) + "-" + Nines(m);
    OrderAt(LocationText(a), LocationText(b), LocationText(b));
  }

  /**
   The documented claim, exactly: for two paths the comparator orders like the location texts for all 64-bit
   line numbers if and only if, wherever one path and its colon begin the other, what follows is above every
   line range: after fewer than nineteen nines a character above the digits, after nineteen a character
   above the dash, or the dash and then nineteen nines or, after fewer, a character above the digits.
   */
  lemma LocationOrderIff(left: Path, right: Path)
    ensures var p, q := Normalized(left) + ":", Normalized(right) + ":";
            AgreeOnAllLines(left, right) <==> SafePair(p, q) && SafePair(q, p)
  {
    var p, q := PathText(At(left, 0, 0)), PathText(At(right, 0, 0));
    if SafePair(p, q) && SafePair(q, p) {
      forall i, j, k, l | UsizeLines(At(left, i, j)) && UsizeLines(At(right, k, l))
        ensures AgreeAt(At(left, i, j), At(right, k, l))
      {
        var a, b := At(left, i, j), At(right, k, l);
        if Begins(p, q) {
          SafeBegunAgree(a, b);
        } else if Begins(q, p) {
          SafeBegunAgree(b, a);
        } else {
          LocationsAgree(a, b);
        }
      }
    } else if !SafePair(p, q) {
      var i, j := UnsafeBegunDisagree(left, right);
    } else {
      var i, j := UnsafeBegunDisagree(right, left);
    }
  }

  /** The comparator disagrees with the texts for paths `a` and `a:/b` at any line. */
  lemma ColonPathDisagrees()
    ensures var a, b := At("a", 1, 1), At("a:/b", 1, 1);
            CompareLocation(a, b) == Less && CompareText(LocationText(a), LocationText(b)) == Greater
  {
    var a, b := At("a", 1, 1), At("a:/b", 1, 1);
    assert PathText(a) == "a:" && PathText(b) == "a:/b:";
    BegunAgreesIff(a, b);
    DecimalIsDigits(1);
    assert LinesText(a)[0] == Decimal(1)[0] >= '0';
    assert ("/b:" + LinesText(b))[0] == '/';
    assert PathText(b)[2..] == "/b:";
  }
}
