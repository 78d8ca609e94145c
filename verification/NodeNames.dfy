/** Node names of the diagram: a stem and, behind it, the number of the instance. */
module NodeNames {
  import opened Rings

  const USIZE_MAX: nat := 0xFFFF_FFFF_FFFF_FFFF

  predicate IsDigit(c: char) {
    '0' <= c <= '9'
  }

  predicate AllDigits(s: string) {
    forall i :: 0 <= i < |s| ==> IsDigit(s[i])
  }

  function DigitOf(d: nat): (c: char)
    requires d < 10
    ensures IsDigit(c) && c as int - '0' as int == d
  {
    ('0' as int + d) as char
  }

  function Decimal(n: nat): (s: string)
    ensures s != "" && AllDigits(s)
  {
    if n < 10 then [DigitOf(n)] else Decimal(n / 10) + [DigitOf(n % 10)]
  }

  function ValueOf(s: string): nat
    requires AllDigits(s)
  {
    if s == "" then 0 else 10 * ValueOf(s[..|s| - 1]) + (s[|s| - 1] as int - '0' as int)
  }

  /** `str::parse::<usize>` on a text that starts with a digit. */
  function Parse(s: string): Option<nat> {
    if s != "" && AllDigits(s) && ValueOf(s) <= USIZE_MAX then Some(ValueOf(s)) else None
  }

  /** Length of the run of digits a text ends in. */
  function Run(text: string): (d: nat)
    ensures d <= |text| && AllDigits(text[|text| - d..])
    ensures d == |text| || !IsDigit(text[|text| - d - 1])
  {
    if text == "" || !IsDigit(text[|text| - 1]) then 0
    else
      assert forall i :: 0 <= i < |text| - 1 ==> text[..|text| - 1][i] == text[i];
      Run(text[..|text| - 1]) + 1
  }

  lemma {:induction false} RunAtLeast(text: string, d: nat)
    requires d <= |text| && AllDigits(text[|text| - d..])
    ensures d <= Run(text)
  {
    if d == 0 {
    } else {
      var n := |text|;
      var front, digits := text[..n - 1], text[n - d..];
      assert digits[d - 1] == text[n - 1];
      assert front[n - d..] == digits[..d - 1];
      RunAtLeast(front, d - 1);
    }
  }

  lemma {:induction false} RunStops(text: string, d: nat)
    requires d < |text| && !IsDigit(text[|text| - d - 1])
    ensures Run(text) <= d
  {
    if d == 0 {
    } else {
      RunStops(text[..|text| - 1], d - 1);
    }
  }

  lemma RunUnique(text: string, d: nat)
    requires d <= |text| && AllDigits(text[|text| - d..]) && (d == |text| || !IsDigit(text[|text| - d - 1]))
    ensures d == Run(text)
  {
    hide Run, AllDigits;
    RunAtLeast(text, d);
    if d < |text| {
      RunStops(text, d);
    }
  }

  /** Stem and number: the digits a text ends in, unless there are none or they exceed a `usize`. */
  function Extracted(text: string): (string, Option<nat>) {
    var at := |text| - Run(text);
    match Parse(text[at..])
    case Some(n) => (text[..at], Some(n))
    case None => (text, None)
  }

  predicate EndsInDigit(text: string) {
    text != "" && IsDigit(text[|text| - 1])
  }

  /** The digits a text ends in are too many for a `usize`. */
  predicate NumberTooLarge(text: string) {
    exists at :: 0 <= at < |text| && AllDigits(text[at..]) && (at == 0 || !IsDigit(text[at - 1]))
                 && ValueOf(text[at..]) > USIZE_MAX
  }

  /** The stem of a text: it, if it carries no number, or what stands before its number. */
  predicate IsStem(text: string, stem: string) {
    if stem == text then !EndsInDigit(text) || NumberTooLarge(text)
    else stem <= text && AllDigits(text[|stem|..]) && !EndsInDigit(stem) && ValueOf(text[|stem|..]) <= USIZE_MAX
  }

  lemma RunStart(text: string, at: nat)
    requires at <= |text| && AllDigits(text[at..]) && (at == 0 || !IsDigit(text[at - 1]))
    ensures at == |text| - Run(text)
  {
    hide Run, AllDigits;
    assert text[|text| - (|text| - at)..] == text[at..];
    RunUnique(text, |text| - at);
  }

  lemma RunEdge(text: string)
    ensures var at := |text| - Run(text);
            AllDigits(text[at..]) && (at == 0 || !IsDigit(text[at - 1])) && (at < |text| <==> EndsInDigit(text))
  {
    hide AllDigits;
  }

  lemma TooLargeIff(text: string)
    ensures var at := |text| - Run(text);
            AllDigits(text[at..]) && (NumberTooLarge(text) <==> ValueOf(text[at..]) > USIZE_MAX)
  {
    hide Run, ValueOf, AllDigits;
    NoValue(text);
    RunEdge(text);
    if NumberTooLarge(text) {
      var at :| 0 <= at < |text| && AllDigits(text[at..]) && (at == 0 || !IsDigit(text[at - 1]))
                && ValueOf(text[at..]) > USIZE_MAX;
      RunStart(text, at);
    }
  }

  lemma NoValue(text: string)
    ensures AllDigits(text[|text|..]) && ValueOf(text[|text|..]) == 0
  {
  }

  /** The first part `extract_trailing_number` returns is the stem, and nothing else is. */
  lemma StemIff(text: string, stem: string)
    ensures Extracted(text).0 == stem <==> IsStem(text, stem)
  {
    hide Run, ValueOf, AllDigits, NumberTooLarge;
    var at := |text| - Run(text);
    TooLargeIff(text);
    NoValue(text);
    RunEdge(text);
    if stem == text {
    } else if stem <= text && AllDigits(text[|stem|..]) && !EndsInDigit(stem) {
      assert stem != "" ==> stem[|stem| - 1] == text[|stem| - 1];
      RunStart(text, |stem|);
      assert stem == text[..at];
    }
  }

  lemma OneMoreDigit(text: string, i: nat, end: nat)
    requires 0 < i <= end <= |text| && IsDigit(text[i - 1]) && AllDigits(text[i..end])
    ensures AllDigits(text[i - 1..end])
  {
    assert text[i - 1..end] == [text[i - 1]] + text[i..end];
  }

  lemma LastNoDigit(text: string, at: nat)
    requires at < |text| && !IsDigit(text[|text| - 1])
    ensures !AllDigits(text[at..])
  {
    assert text[at..][|text| - 1 - at] == text[|text| - 1];
  }

  /** What the scan from the back has found when it stops: digits from `i` to `end`, none behind. */
  lemma Scanned(text: string, i: nat, end: nat)
    requires i <= end <= |text| && AllDigits(text[i..end]) && (i == 0 || !IsDigit(text[i - 1]))
    requires end < |text| ==> !IsDigit(text[|text| - 1])
    requires i == end ==> i == 0
    ensures Extracted(text)
            == match (if i < end then Parse(text[i..]) else None)
               case Some(n) => (text[..i], Some(n))
               case None => (text, None)
  {
    hide Run, ValueOf, AllDigits;
    if end == |text| {
      assert text[i..end] == text[i..];
      RunUnique(text, |text| - i);
    } else {
      NothingIsDigits(text);
      RunUnique(text, 0);
      LastNoDigit(text, i);
    }
  }

  lemma NothingIsDigits(text: string)
    ensures AllDigits(text[|text|..]) && text[|text|..] == ""
  {
  }

  /** `extract_trailing_number`: the scan from the back stops in front of the last run of digits,
      wherever that is; a run with something behind it does not parse. */
  method ExtractTrailingNumber(text: string) returns (stem: string, number: Option<nat>)
    ensures (stem, number) == Extracted(text)
  {
    hide Run, ValueOf, Parse, Extracted;
    var numericStart: Option<nat> := None;
    var i := |text|;
    ghost var end := |text|;
    while i > 0
      invariant 0 <= i <= end <= |text| && (end < |text| ==> !IsDigit(text[|text| - 1]))
      invariant numericStart == if i < end then Some(i) else None
      invariant AllDigits(text[i..end])
    {
      if IsDigit(text[i - 1]) {
        OneMoreDigit(text, i, end);
        numericStart := Some(i - 1);
      } else if numericStart.Some? {
        break;
      } else {
        end := i - 1;
      }
      i := i - 1;
    }
    Scanned(text, i, end);
    if numericStart.Some? {
      var parsed := Parse(text[numericStart.value..]);
      if parsed.Some? {
        return text[..numericStart.value], parsed;
      }
    }
    return text, None;
  }

  function UnifiedName(name: string, instance: Option<nat>): string {
    match instance
    case Some(n) => name + Decimal(n)
    case None => name
  }

  lemma {:induction false} ValueOfDecimal(n: nat)
    ensures ValueOf(Decimal(n)) == n
    ensures Decimal(n)[0] == '0' <==> n == 0
  {
    if n < 10 {
    } else {
      ValueOfDecimal(n / 10);
      assert Decimal(n)[..|Decimal(n)| - 1] == Decimal(n / 10);
    }
  }

  /** The decimal form of a text's value is the text, exactly without leading zeros. */
  lemma {:induction false} DecimalOfValue(s: string)
    requires s != "" && AllDigits(s)
    ensures Decimal(ValueOf(s)) == s <==> s == "0" || s[0] != '0'
    ensures s[0] != '0' ==> ValueOf(s) > 0
  {
    var front, last := s[..|s| - 1], s[|s| - 1];
    ValueOfDecimal(ValueOf(s));
    if front == "" {
    } else {
      DecimalOfValue(front);
      var v, d := ValueOf(front), last as int - '0' as int;
      assert (10 * v + d) / 10 == v && (10 * v + d) % 10 == d;
      assert s == front + [last];
    }
  }

  lemma SamePrefix(a: string, b: string, c: string)
    ensures a + b == a + c <==> b == c
  {
    assert (a + b)[|a|..] == b && (a + c)[|a|..] == c;
  }

  /** Taking a text apart and joining it again gives it back exactly when its number, if it has one,
      that fits, is written without leading zeros. */
  lemma JoinedAgainIff(text: string)
    ensures var (stem, number) := Extracted(text);
            var digits := text[|text| - Run(text)..];
            UnifiedName(stem, number) == text
            <==> digits == "" || digits == "0" || digits[0] != '0' || ValueOf(digits) > USIZE_MAX
  {
    hide Run, ValueOf, Decimal, AllDigits, Parse;
    var at := |text| - Run(text);
    RejoinedIff(text[..at], text[at..]);
    CutAndJoined(text, at);
  }

  lemma CutAndJoined(text: string, at: nat)
    requires at <= |text|
    ensures text == text[..at] + text[at..]
  {
  }

  lemma RejoinedIff(stem: string, digits: string)
    requires AllDigits(digits)
    ensures (match Parse(digits) case Some(n) => stem + Decimal(n) case None => stem + digits) == stem + digits
            <==> digits == "" || digits == "0" || digits[0] != '0' || ValueOf(digits) > USIZE_MAX
  {
    hide Decimal, ValueOf, AllDigits;
    if Parse(digits).Some? {
      DecimalOfValue(digits);
      SamePrefix(stem, Decimal(ValueOf(digits)), digits);
    }
  }

  /** A name without an instance number comes back as it was. */
  lemma PlainAgainIff(name: string)
    ensures Extracted(UnifiedName(name, None)) == (name, None) <==> !EndsInDigit(name) || NumberTooLarge(name)
  {
    StemIff(name, name);
  }

  /** A leading zero is lost. */
  lemma LeadingZeroLost()
    ensures Extracted("node01") == ("node", Some(1)) && UnifiedName("node", Some(1)) == "node1"
  {
    var digits := "01";
    assert "node01"[4..] == digits && "node01"[..4] == "node";
    RunUnique("node01", 2);
    assert digits[..1] == "0" && "0"[..0] == "";
    assert ValueOf("0") == 0 && ValueOf(digits) == 1;
    assert Decimal(1) == "1";
  }

  /** Joining and taking apart gives the parts back exactly when the stem does not end in a digit. */
  lemma ApartAgainIff(name: string, n: nat)
    requires n <= USIZE_MAX
    ensures Extracted(UnifiedName(name, Some(n))) == (name, Some(n))
            <==> name == "" || !IsDigit(name[|name| - 1])
  {
    hide Run, Decimal, ValueOf, AllDigits;
    var text, d := name + Decimal(n), |Decimal(n)|;
    ValueOfDecimal(n);
    assert text[|text| - d..] == Decimal(n) && text[..|text| - d] == name;
    if name == "" || !IsDigit(name[|name| - 1]) {
      RunUnique(text, d);
    } else {
      assert text[..|text|] == text;
      assert text[|name|..|text|] == text[|text| - d..];
      assert text[|name| - 1..|text|] == text[|text| - (d + 1)..];
      OneMoreDigit(text, |name|, |text|);
      RunAtLeast(text, d + 1);
    }
  }
}
