/** Serial numbers for signed tag URLs: a validated range and the numbers counted out from it. */
module SerialNumbers {
  import opened Prelude

  predicate IsDigit(c: char) { '0' <= c <= '9' }

  predicate AllDigits(s: string) { forall i :: 0 <= i < |s| ==> IsDigit(s[i]) }

  function DigitValue(c: char): (d: nat)
    requires IsDigit(c)
    ensures d < 10
  {
    c as int - '0' as int
  }

  /** Decimal value of a string of digits, as parseInt reads it. */
  function Value(s: string): nat
    requires AllDigits(s)
  {
    if s == "" then 0 else 10 * Value(s[..|s| - 1]) + DigitValue(s[|s| - 1])
  }

  function DigitChar(d: nat): (c: char)
    requires d < 10
    ensures IsDigit(c) && DigitValue(c) == d
  {
    '0' + d as char
  }

  /** Decimal numeral of a number, without leading zeros. */
  function Numeral(n: nat): (s: string)
    ensures s != "" && AllDigits(s)
  {
    if n < 10 then [DigitChar(n)] else Numeral(n / 10) + [DigitChar(n % 10)]
  }

  function Zeros(n: nat): (s: string)
    ensures |s| == n && AllDigits(s) && forall i :: 0 <= i < n ==> s[i] == '0'
  {
    seq(n, _ => '0')
  }

  function PadStart(s: string, width: nat): (r: string)
    ensures AllDigits(s) ==> AllDigits(r)
  {
    if |s| < width then Zeros(width - |s|) + s else s
  }

  // ---- Numerals and values ----

  lemma {:induction false} ValueOfNumeral(n: nat)
    ensures Value(Numeral(n)) == n
  {
    if n >= 10 {
      ValueOfNumeral(n / 10);
      var s := Numeral(n);
      assert s[..|s| - 1] == Numeral(n / 10);
    } else {
      assert Numeral(n)[..0] == "";
    }
  }

  lemma {:induction false} LeadingZerosKeepValue(k: nat, s: string)
    requires AllDigits(s)
    ensures Value(Zeros(k) + s) == Value(s)
  {
    var t := Zeros(k) + s;
    if s != "" {
      assert t[..|t| - 1] == Zeros(k) + s[..|s| - 1];
      LeadingZerosKeepValue(k, s[..|s| - 1]);
    } else if k > 0 {
      assert t[..|t| - 1] == Zeros(k - 1) + "";
      LeadingZerosKeepValue(k - 1, "");
    }
  }

  lemma ValueOfPadded(n: nat, width: nat)
    ensures Value(PadStart(Numeral(n), width)) == n
  {
    ValueOfNumeral(n);
    var s := Numeral(n);
    if |s| < width {
      LeadingZerosKeepValue(width - |s|, s);
    }
  }

  lemma {:induction false} ValueIsBelowPower(s: string)
    requires AllDigits(s)
    ensures Value(s) < Power(|s|)
  {
    if s != "" {
      ValueIsBelowPower(s[..|s| - 1]);
    }
  }

  function Power(n: nat): nat { if n == 0 then 1 else 10 * Power(n - 1) }

  /** Strings of digits of one length are determined by their values. */
  lemma {:induction false} SameLengthSameValue(s: string, t: string)
    requires AllDigits(s) && AllDigits(t) && |s| == |t| && Value(s) == Value(t)
    ensures s == t
  {
    if s != "" {
      var n := |s| - 1;
      SameLengthSameValue(s[..n], t[..n]);
      assert s == s[..n] + [s[n]] && t == t[..n] + [t[n]];
    }
  }

  lemma {:induction false} PowerMonotone(m: nat, n: nat)
    requires m <= n
    ensures Power(m) <= Power(n)
  {
    if m < n {
      PowerMonotone(m, n - 1);
    }
  }

  lemma {:induction false} NumeralIsShort(n: nat, k: nat)
    requires n < Power(k) && 0 < k
    ensures |Numeral(n)| <= k
  {
    if n >= 10 {
      NumeralIsShort(n / 10, k - 1);
    }
  }

  /** A string of digits is the padded numeral of its value. */
  lemma PaddedValueIsSelf(s: string)
    requires AllDigits(s) && s != ""
    ensures PadStart(Numeral(Value(s)), |s|) == s
  {
    var n := Value(s);
    ValueIsBelowPower(s);
    NumeralIsShort(n, |s|);
    ValueOfPadded(n, |s|);
    SameLengthSameValue(PadStart(Numeral(n), |s|), s);
  }

  // ---- Parsing ----

  /** Where the digits at the end of a string begin. */
  function SuffixStart(s: string): (k: nat)
    ensures k <= |s| && AllDigits(s[k..]) && (k > 0 ==> !IsDigit(s[k - 1]))
  {
    if s == "" || !IsDigit(s[|s| - 1]) then |s|
    else
      var k := SuffixStart(s[..|s| - 1]);
      assert s[k..] == s[..|s| - 1][k..] + [s[|s| - 1]];
      k
  }

  predicate IsLineBreak(c: char) { c == '\n' || c == '\r' || c == '\U{2028}' || c == '\U{2029}' }

  datatype Serial = Serial(prefix: string, numeric: string)

  /** The shortest prefix before the digits; without a match all is numeric. A dot does not match a line break. */
  function Parse(s: string): (r: Serial)
    ensures r.prefix + r.numeric == s
  {
    var k := SuffixStart(s);
    if k < |s| && forall i :: 0 <= i < k ==> !IsLineBreak(s[i]) then
      assert s[..k] + s[k..] == s;
      Serial(s[..k], s[k..])
    else Serial("", s)
  }

  predicate IsSerialChar(c: char) {
    'A' <= c <= 'Z' || 'a' <= c <= 'z' || IsDigit(c) || c == '_' || c == '-'
  }

  /** The pattern of an accepted serial number. */
  predicate Matches(s: string) {
    s != "" && IsDigit(s[|s| - 1]) && forall i :: 0 <= i < |s| ==> IsSerialChar(s[i])
  }

  /** A prefix of serial characters that does not end in a digit, and at least one digit. */
  predicate WellFormed(p: Serial) {
    && p.numeric != "" && AllDigits(p.numeric)
    && (p.prefix != "" ==> !IsDigit(p.prefix[|p.prefix| - 1]))
    && forall i :: 0 <= i < |p.prefix| ==> IsSerialChar(p.prefix[i])
  }

  lemma ParseOfMatch(s: string)
    requires Matches(s)
    ensures WellFormed(Parse(s))
  {
    var k := SuffixStart(s);
    assert k < |s|;
    assert forall i :: 0 <= i < k ==> IsSerialChar(s[i]) && !IsLineBreak(s[i]);
    assert Parse(s) == Serial(s[..k], s[k..]);
  }

  lemma {:induction false} SuffixStartOfConcat(prefix: string, digits: string)
    requires AllDigits(digits) && (prefix != "" ==> !IsDigit(prefix[|prefix| - 1]))
    ensures SuffixStart(prefix + digits) == |prefix|
  {
    var s := prefix + digits;
    if digits == "" {
      assert s == prefix;
    } else {
      assert s[..|s| - 1] == prefix + digits[..|digits| - 1];
      SuffixStartOfConcat(prefix, digits[..|digits| - 1]);
    }
  }

  lemma JoinedMatches(p: Serial)
    requires WellFormed(p)
    ensures Matches(p.prefix + p.numeric)
  {
  }

  lemma ParseAt(s: string, k: nat)
    requires SuffixStart(s) == k < |s| && forall i :: 0 <= i < k ==> !IsLineBreak(s[i])
    ensures Parse(s) == Serial(s[..k], s[k..])
  {
  }

  /** Parsing undoes joining, and the whole matches the pattern. */
  lemma ParseOfJoined(p: Serial)
    requires WellFormed(p)
    ensures Parse(p.prefix + p.numeric) == p && Matches(p.prefix + p.numeric)
  {
    var s, k := p.prefix + p.numeric, |p.prefix|;
    SuffixStartOfConcat(p.prefix, p.numeric);
    JoinedMatches(p);
    ParseAt(s, k);
    assert s[..k] == p.prefix && s[k..] == p.numeric;
  }

  // ---- The request ----

  datatype Method = Sequential | Manual

  datatype Request = Request(
    kind: Method, serialNumbers: Option<seq<string>>, rangeStart: Option<string>, rangeEnd: Option<string>)

  /** What validation lets through. */
  predicate Accepted(r: Request) {
    && (r.serialNumbers.Some? ==> forall i :: 0 <= i < |r.serialNumbers.value| ==> Matches(r.serialNumbers.value[i]))
    && (r.rangeStart.Some? ==> Matches(r.rangeStart.value))
    && (r.rangeEnd.Some? ==> Matches(r.rangeEnd.value))
    && match r.kind
       case Manual => r.serialNumbers.Some?
       case Sequential => r.rangeStart.Some? && r.rangeEnd.Some? && AcceptedRange(r.rangeStart.value, r.rangeEnd.value)
  }

  predicate AcceptedRange(start: string, end: string)
    requires Matches(start) && Matches(end)
  {
    ParseOfMatch(start);
    ParseOfMatch(end);
    InRange(Parse(start), Parse(end))
  }

  predicate InRange(s: Serial, e: Serial)
    requires WellFormed(s) && WellFormed(e)
  {
    s.prefix == e.prefix && Value(s.numeric) <= Value(e.numeric) && Value(e.numeric) - Value(s.numeric) + 1 <= 100_000
  }

  // ---- Counting out ----

  /** The `i`-th serial number from a start, in its two parts. */
  function Counted(s: Serial, i: nat): (r: Serial)
    requires WellFormed(s)
    ensures WellFormed(r)
  {
    var digits := PadStart(Numeral(Value(s.numeric) + i), |s.numeric|);
    Serial(s.prefix, digits)
  }

  function SerialAt(s: Serial, i: nat): string
    requires WellFormed(s)
  {
    Counted(s, i).prefix + Counted(s, i).numeric
  }

  lemma CountedMeans(s: Serial, i: nat)
    requires WellFormed(s)
    ensures Value(Counted(s, i).numeric) == Value(s.numeric) + i
    ensures Counted(s, 0) == s
  {
    ValueOfPadded(Value(s.numeric) + i, |s.numeric|);
    PaddedValueIsSelf(s.numeric);
  }

  /** Parsing gives back the prefix and the number counted to, whatever the padding; the first is the start itself. */
  lemma SerialAtMeans(start: string, i: nat)
    requires Matches(start)
    ensures var s := Parse(start);
      && WellFormed(s)
      && SerialAt(s, 0) == start
      && Matches(SerialAt(s, i))
      && var p := Parse(SerialAt(s, i));
         p.prefix == s.prefix && AllDigits(p.numeric) && Value(p.numeric) == Value(s.numeric) + i
  {
    ParseOfMatch(start);
    var s := Parse(start);
    CountedMeans(s, i);
    ParseOfJoined(Counted(s, i));
  }

  /** Different counts give different serial numbers. */
  lemma SerialsDiffer(s: Serial, i: nat, j: nat)
    requires WellFormed(s) && i != j
    ensures SerialAt(s, i) != SerialAt(s, j)
  {
    CountedMeans(s, i);
    CountedMeans(s, j);
    ParseOfJoined(Counted(s, i));
    ParseOfJoined(Counted(s, j));
  }

  lemma {:induction false} NoLeadingZeroIsLarge(s: string)
    requires s != "" && AllDigits(s) && s[0] != '0'
    ensures Power(|s| - 1) <= Value(s)
  {
    if |s| > 1 {
      NoLeadingZeroIsLarge(s[..|s| - 1]);
    }
  }

  /** The numeral of a string's value has its length exactly when there is no leading zero to drop. */
  lemma NumeralKeepsLengthIff(s: string)
    requires |s| > 1 && AllDigits(s)
    ensures |Numeral(Value(s))| <= |s|
    ensures |Numeral(Value(s))| == |s| <==> s[0] != '0'
  {
    ValueIsBelowPower(s);
    NumeralIsShort(Value(s), |s|);
    if s[0] == '0' {
      assert s == Zeros(1) + s[1..];
      LeadingZerosKeepValue(1, s[1..]);
      ValueIsBelowPower(s[1..]);
      NumeralIsShort(Value(s), |s| - 1);
    } else {
      NoLeadingZeroIsLarge(s);
      if |Numeral(Value(s))| < |s| {
        ValueOfNumeral(Value(s));
        ValueIsBelowPower(Numeral(Value(s)));
        PowerMonotone(|Numeral(Value(s))|, |s| - 1);
      }
    }
  }

  /** Digits survive padding to `width` exactly when there are that many, or more without a leading zero. */
  lemma PaddedIsSelfIff(s: string, width: nat)
    requires s != "" && AllDigits(s) && 0 < width
    ensures PadStart(Numeral(Value(s)), width) == s <==> |s| == width || (|s| > width && s[0] != '0')
  {
    ValueIsBelowPower(s);
    NumeralIsShort(Value(s), |s|);
    PaddedValueIsSelf(s);
    if |s| > 1 {
      NumeralKeepsLengthIff(s);
    }
  }

  /** A range ends with its end exactly when the end has the start's number of digits, or more and no leading zero. */
  lemma EndsWithEndIff(s: Serial, e: Serial)
    requires WellFormed(s) && WellFormed(e) && InRange(s, e)
    ensures Counted(s, Value(e.numeric) - Value(s.numeric)) == e
      <==> |e.numeric| == |s.numeric| || (|e.numeric| > |s.numeric| && e.numeric[0] != '0')
  {
    PaddedIsSelfIff(e.numeric, |s.numeric|);
  }

  lemma SevenWithZeros()
    ensures Value("1") == 1 && Value("007") == 7 && Numeral(7) == "7"
  {
    assert "1"[..0] == "" && "007"[..2] == "00" && "00"[..1] == "0" && "0"[..0] == "";
    assert Value("0") == 0 && Value("00") == 0;
  }

  /** The failing input: the accepted range from A1 to A007 ends with A7. */
  lemma RangeMayEndElsewhere()
    ensures var s, e := Serial("A", "1"), Serial("A", "007");
      && WellFormed(s) && WellFormed(e) && Parse("A1") == s && Parse("A007") == e
      && Matches("A1") && Matches("A007") && AcceptedRange("A1", "A007")
      && SerialAt(s, Value(e.numeric) - Value(s.numeric)) == "A7" != "A007"
  {
    var s, e := Serial("A", "1"), Serial("A", "007");
    assert "A" + "1" == "A1" && "A" + "007" == "A007";
    ParseOfJoined(s);
    ParseOfJoined(e);
    SevenWithZeros();
    assert "A" + "7" == "A7";
  }

  /** From a start to any of its own serial numbers a range is accepted exactly up to a hundred thousand of them. */
  lemma AcceptsOwnRangeIff(start: string, i: nat)
    requires Matches(start)
    ensures WellFormed(Parse(start)) && Matches(SerialAt(Parse(start), i))
    ensures AcceptedRange(start, SerialAt(Parse(start), i)) <==> i < 100_000
  {
    ParseOfMatch(start);
    CountedMeans(Parse(start), i);
    ParseOfJoined(Counted(Parse(start), i));
  }

  /** A range is refused across prefixes and backwards. */
  lemma RefusedRanges(start: string, end: string)
    requires Matches(start) && Matches(end)
    ensures WellFormed(Parse(start)) && WellFormed(Parse(end))
    ensures Parse(start).prefix != Parse(end).prefix || Value(Parse(end).numeric) < Value(Parse(start).numeric) ==>
      !AcceptedRange(start, end)
  {
    ParseOfMatch(start);
    ParseOfMatch(end);
  }

  /** The serial numbers of a range are as many as it spans, start with its start and are all different. */
  lemma SequentialMeans(start: string, end: string, serials: seq<string>)
    requires Matches(start) && Matches(end) && AcceptedRange(start, end)
    requires WellFormed(Parse(start)) && WellFormed(Parse(end))
    requires |serials| == Value(Parse(end).numeric) - Value(Parse(start).numeric) + 1
    requires forall i :: 0 <= i < |serials| ==> serials[i] == SerialAt(Parse(start), i)
    ensures 1 <= |serials| <= 100_000 && serials[0] == start && Distinct(serials)
    ensures forall i :: 0 <= i < |serials| ==> Matches(serials[i])
  {
    SerialAtMeans(start, 0);
    forall i | 0 <= i < |serials| ensures Matches(serials[i]) {
      SerialAtMeans(start, i);
    }
    forall i, j | 0 <= i < j < |serials| ensures serials[i] != serials[j] {
      SerialsDiffer(Parse(start), i, j);
    }
  }

  /** The loop for a range: none of its serial numbers is empty. */
  method CountOut(s: Serial, count: nat) returns (serials: seq<string>)
    requires WellFormed(s)
    ensures |serials| == count && forall i :: 0 <= i < count ==> serials[i] == SerialAt(s, i)
  {
    serials := [];
    var padSize := |s.numeric|;
    for i := 0 to count
      invariant |serials| == i && forall j :: 0 <= j < i ==> serials[j] == SerialAt(s, j)
    {
      var serialNumber := s.prefix + PadStart(Numeral(Value(s.numeric) + i), padSize);
      assert serialNumber == SerialAt(s, i);
      serials := serials + [serialNumber];
    }
  }

  /** The serial numbers signed, in order. */
  method SerialsToSign(r: Request) returns (serials: seq<string>)
    requires Accepted(r)
    ensures r.kind == Manual ==> serials == r.serialNumbers.value
    ensures r.kind == Sequential ==>
      var s, e := Parse(r.rangeStart.value), Parse(r.rangeEnd.value);
      && WellFormed(s) && WellFormed(e)
      && 1 <= |serials| == Value(e.numeric) - Value(s.numeric) + 1 <= 100_000
      && serials[0] == r.rangeStart.value
      && Distinct(serials)
      && forall i :: 0 <= i < |serials| ==> serials[i] == SerialAt(s, i) && Matches(serials[i])
  {
    match r.kind
    case Sequential =>
      ParseOfMatch(r.rangeStart.value);
      ParseOfMatch(r.rangeEnd.value);
      var start, end := Parse(r.rangeStart.value), Parse(r.rangeEnd.value);
      serials := CountOut(start, Value(end.numeric) - Value(start.numeric) + 1);
      SequentialMeans(r.rangeStart.value, r.rangeEnd.value, serials);
    case Manual =>
      serials := [];
      for i := 0 to |r.serialNumbers.value|
        invariant serials == r.serialNumbers.value[..i]
      {
        if r.serialNumbers.value[i] == "" {
          continue;
        }
        serials := serials + [r.serialNumbers.value[i]];
      }
  }
}
