/** The functions of Go's strings and strconv packages that condition texts go through, on ASCII. */
module GoStrings {
  import opened Wrappers

  // ------------------------------------------------------------------ searching

  predicate MatchAt(s: string, pat: string, i: nat) {
    i + |pat| <= |s| && s[i..i + |pat|] == pat
  }

  function IndexFrom(s: string, pat: string, i: nat): (r: int)
    ensures r >= 0 ==> i <= r && MatchAt(s, pat, r)
    ensures r >= 0 ==> forall j :: i <= j < r ==> !MatchAt(s, pat, j)
    ensures r < 0 ==> forall j :: i <= j ==> !MatchAt(s, pat, j)
    decreases |s| - i
  {
    if i + |pat| > |s| then -1
    else if MatchAt(s, pat, i) then i
    else IndexFrom(s, pat, i + 1)
  }

  /** strings.Index: the first occurrence, or -1. */
  function Index(s: string, pat: string): (r: int)
    ensures r >= 0 ==> MatchAt(s, pat, r) && forall j :: 0 <= j < r ==> !MatchAt(s, pat, j)
    ensures r < 0 ==> forall j: nat :: !MatchAt(s, pat, j)
  {
    IndexFrom(s, pat, 0)
  }

  lemma IndexIs(s: string, pat: string, i: nat)
    requires MatchAt(s, pat, i) && forall j :: 0 <= j < i ==> !MatchAt(s, pat, j)
    ensures Index(s, pat) == i
  {
  }

  // ------------------------------------------------------------------ case and blanks

  function Upper(c: char): char {
    if 'a' <= c <= 'z' then (c as int - 32) as char else c
  }

  /** strings.ToUpper. */
  function ToUpper(s: string): (r: string)
    ensures |r| == |s| && forall k :: 0 <= k < |s| ==> r[k] == Upper(s[k])
  {
    seq(|s|, k requires 0 <= k < |s| => Upper(s[k]))
  }

  lemma UpperConcat(a: string, b: string)
    ensures ToUpper(a + b) == ToUpper(a) + ToUpper(b)
  {
  }

  predicate Blank(c: char) {
    c == ' ' || c == '\t' || c == '\n' || c == '\r' || c == (11 as char) || c == (12 as char)
  }

  function TrimLeft(s: string): string {
    if s != [] && Blank(s[0]) then TrimLeft(s[1..]) else s
  }

  function TrimRight(s: string): string {
    if s != [] && Blank(s[|s| - 1]) then TrimRight(s[..|s| - 1]) else s
  }

  /** strings.TrimSpace. */
  function TrimSpace(s: string): string {
    TrimRight(TrimLeft(s))
  }

  predicate AllBlank(s: string) {
    forall k :: 0 <= k < |s| ==> Blank(s[k])
  }

  /** Nothing to trim at either end. */
  predicate Trimmed(s: string) {
    s == [] || (!Blank(s[0]) && !Blank(s[|s| - 1]))
  }

  lemma {:induction false} TrimLeftPad(pad: string, s: string)
    requires AllBlank(pad)
    ensures TrimLeft(pad + s) == TrimLeft(s)
  {
    if pad == [] {
      assert pad + s == s;
    } else {
      assert (pad + s)[1..] == pad[1..] + s;
      TrimLeftPad(pad[1..], s);
    }
  }

  lemma {:induction false} TrimRightPad(s: string, pad: string)
    requires AllBlank(pad)
    ensures TrimRight(s + pad) == TrimRight(s)
  {
    if pad == [] {
      assert s + pad == s;
    } else {
      assert (s + pad)[..|s + pad| - 1] == s + pad[..|pad| - 1];
      TrimRightPad(s, pad[..|pad| - 1]);
    }
  }

  /** TrimSpace removes exactly the blanks around a trimmed text. */
  lemma TrimPadded(left: string, s: string, right: string)
    requires AllBlank(left) && AllBlank(right) && Trimmed(s)
    ensures TrimSpace(left + s + right) == s
  {
    assert left + s + right == left + (s + right);
    TrimLeftPad(left, s + right);
    if s == [] {
      assert s + right == right + [];
      TrimLeftPad(right, []);
    } else {
      assert TrimLeft(s + right) == s + right;
      TrimRightPad(s, right);
    }
  }

  // ------------------------------------------------------------------ splitting

  /** strings.Split(s, ","). */
  function Split(s: string): (r: seq<string>)
    ensures |r| > 0
  {
    if s == [] then [[]]
    else
      var rest := Split(s[1..]);
      if s[0] == ',' then [[]] + rest else [[s[0]] + rest[0]] + rest[1..]
  }

  /** strings.Join(parts, ","). */
  function Join(parts: seq<string>): string {
    if parts == [] then []
    else if |parts| == 1 then parts[0]
    else parts[0] + "," + Join(parts[1..])
  }

  lemma {:induction false} SplitPart(p: string, rest: string)
    requires ',' !in p
    ensures Split(p + "," + rest) == [p] + Split(rest)
    ensures Split(p) == [p]
  {
    if p == [] {
      assert p + "," + rest == "," + rest;
      assert ("," + rest)[1..] == rest;
    } else {
      assert (p + "," + rest)[1..] == p[1..] + "," + rest;
      SplitPart(p[1..], rest);
      assert [p[0]] + p[1..] == p;
      assert [p[0]] + Split(p[1..])[0] == p;
    }
  }

  /** Splitting at commas undoes joining with commas. */
  lemma {:induction false} SplitJoin(parts: seq<string>)
    requires parts != [] && forall k :: 0 <= k < |parts| ==> ',' !in parts[k]
    ensures Split(Join(parts)) == parts
  {
    SplitPart(parts[0], if |parts| == 1 then [] else Join(parts[1..]));
    if |parts| > 1 {
      SplitJoin(parts[1..]);
      assert [parts[0]] + parts[1..] == parts;
    } else {
      assert [parts[0]] == parts;
    }
  }

  // ------------------------------------------------------------------ decimal integers

  const INT64_LIMIT: int := 0x8000_0000_0000_0000

  function Digit(d: nat): (c: char)
    requires d < 10
    ensures IsDigit(c) && DigitValue(c) == d
  {
    (d + 48) as char
  }

  predicate IsDigit(c: char) {
    '0' <= c <= '9'
  }

  function DigitValue(c: char): nat
    requires IsDigit(c)
  {
    c as int - 48
  }

  function Decimal(n: nat): (r: string)
    ensures r != [] && forall k :: 0 <= k < |r| ==> IsDigit(r[k])
  {
    if n < 10 then [Digit(n)] else Decimal(n / 10) + [Digit(n % 10)]
  }

  /** strconv.Itoa, and "%d". */
  function Itoa(n: int): (r: string)
    ensures r != []
  {
    if n < 0 then "-" + Decimal(-n) else Decimal(n)
  }

  function DecimalValue(s: string): Option<nat> {
    if s == [] then Some(0)
    else
      match DecimalValue(s[..|s| - 1])
      case None => None
      case Some(v) => if IsDigit(s[|s| - 1]) then Some(10 * v + DigitValue(s[|s| - 1])) else None
  }

  /** strconv.Atoi: an optional sign and at least one digit, within int64. */
  function Atoi(s: string): Option<int> {
    var signed := s != [] && (s[0] == '-' || s[0] == '+');
    var digits := if signed then s[1..] else s;
    if digits == [] then None
    else
      match DecimalValue(digits)
      case None => None
      case Some(v) =>
        var m: int := v;
        var n := if signed && s[0] == '-' then -m else m;
        if -INT64_LIMIT <= n < INT64_LIMIT then Some(n) else None
  }

  lemma {:induction false} DecimalRoundTrip(n: nat)
    ensures DecimalValue(Decimal(n)) == Some(n)
  {
    if n < 10 {
      assert Decimal(n)[..0] == [];
    } else {
      DecimalRoundTrip(n / 10);
      assert Decimal(n)[..|Decimal(n)| - 1] == Decimal(n / 10);
    }
  }

  /** Every int64 is read back from its decimal text. */
  lemma AtoiItoa(n: int)
    requires -INT64_LIMIT <= n < INT64_LIMIT
    ensures Atoi(Itoa(n)) == Some(n)
  {
    DecimalRoundTrip(if n < 0 then -n else n);
    if n < 0 {
      assert Itoa(n)[1..] == Decimal(-n);
    }
  }

  lemma ItoaTrimmed(n: int)
    ensures Trimmed(Itoa(n))
    ensures forall k :: 0 <= k < |Itoa(n)| ==> IsDigit(Itoa(n)[k]) || Itoa(n)[k] == '-'
  {
  }

  // ------------------------------------------------------------------ what they do to some texts

  /** Letters are upper-cased, nothing else. */
  lemma UpperExamples()
    ensures ToUpper("amz") == "AMZ" && ToUpper("AMZ") == "AMZ" && ToUpper("@[`{09_%") == "@[`{09_%"
  {
  }

  /** The six ASCII blanks are trimmed at both ends, and only there. */
  lemma TrimExamples()
    ensures TrimSpace([' ', '\t', '\n', '\r', 11 as char, 12 as char] + "a b" + [12 as char, 11 as char] + "\r\n\t ")
         == "a b"
    ensures TrimSpace("_a.") == "_a."
  {
    TrimPadded([' ', '\t', '\n', '\r', 11 as char, 12 as char], "a b", [12 as char, 11 as char] + "\r\n\t ");
    assert [' ', '\t', '\n', '\r', 11 as char, 12 as char] + "a b" + ([12 as char, 11 as char] + "\r\n\t ")
        == [' ', '\t', '\n', '\r', 11 as char, 12 as char] + "a b" + [12 as char, 11 as char] + "\r\n\t ";
    TrimPadded("", "_a.", "");
    assert "" + "_a." + "" == "_a.";
  }

  /** Trimming takes blanks only, and all of them. */
  lemma TrimSplits(s: string) returns (left: string, right: string)
    ensures AllBlank(left) && AllBlank(right) && s == left + TrimSpace(s) + right && Trimmed(TrimSpace(s))
  {
    left := TrimLeftSplits(s);
    right := TrimRightSplits(TrimLeft(s));
    assert left + (TrimSpace(s) + right) == left + TrimSpace(s) + right;
    if TrimSpace(s) != [] {
      assert TrimLeft(s)[0] == TrimSpace(s)[0];
    }
  }

  lemma {:induction false} TrimLeftSplits(s: string) returns (left: string)
    ensures AllBlank(left) && s == left + TrimLeft(s) && (TrimLeft(s) != [] ==> !Blank(TrimLeft(s)[0]))
  {
    if s == [] || !Blank(s[0]) {
      left := [];
    } else {
      var rest := TrimLeftSplits(s[1..]);
      left := [s[0]] + rest;
      assert s == [s[0]] + s[1..];
    }
  }

  lemma {:induction false} TrimRightSplits(s: string) returns (right: string)
    ensures AllBlank(right) && s == TrimRight(s) + right
    ensures TrimRight(s) != [] ==> !Blank(TrimRight(s)[|TrimRight(s)| - 1])
  {
    if s == [] || !Blank(s[|s| - 1]) {
      right := [];
    } else {
      var rest := TrimRightSplits(s[..|s| - 1]);
      right := rest + [s[|s| - 1]];
      assert s == s[..|s| - 1] + [s[|s| - 1]];
    }
  }

  /** Splitting keeps empty parts. */
  lemma SplitExamples()
    ensures Split("a,b") == ["a", "b"] && Split("a,,b") == ["a", "", "b"] && Split("") == [""]
  {
    SplitPart("a", "b");
    SplitPart("b", "");
    SplitPart("a", ",b");
    SplitPart("", "b");
    assert "a" + "," + "b" == "a,b" && "a" + "," + ",b" == "a,,b" && "" + "," + "b" == ",b";
  }

  lemma PrintExamples()
    ensures Itoa(-120) == "-120" && Itoa(0) == "0" && Itoa(305) == "305"
  {
    assert Decimal(1) == "1" && Decimal(12) == Decimal(1) + "2" == "12" && Decimal(120) == Decimal(12) + "0" == "120";
    assert Decimal(3) == "3" && Decimal(30) == Decimal(3) + "0" == "30" && Decimal(305) == Decimal(30) + "5" == "305";
    assert Itoa(-120) == "-" + "120" == "-120";
  }

  /** Reading one more digit. */
  lemma DigitRead(s: string, c: char)
    ensures DecimalValue(s + [c])
         == if IsDigit(c) && DecimalValue(s).Some? then Some(10 * DecimalValue(s).value + DigitValue(c)) else None
  {
    assert (s + [c])[..|s|] == s;
  }

  /** Digits are read from the left, leading zeros included. */
  lemma DigitExamples()
    ensures DecimalValue("12") == Some(12) && DecimalValue("007") == Some(7)
  {
    DigitRead("", '1');
    DigitRead("1", '2');
    DigitRead("", '0');
    DigitRead("0", '0');
    DigitRead("00", '7');
    assert "" + "1" == "1" && "1" + "2" == "12" && "" + "0" == "0" && "0" + "0" == "00" && "00" + "7" == "007";
    hide DecimalValue;
  }

  /** Anything but digits is not read: no blanks, points, or letters. */
  lemma {:induction false} DigitsOnly(s: string)
    ensures DecimalValue(s).Some? <==> forall k :: 0 <= k < |s| ==> IsDigit(s[k])
  {
    if s == [] {
    } else {
      DigitsOnly(s[..|s| - 1]);
    }
  }

  /** One sign may stand in front of at least one digit. */
  lemma AtoiReads(d: string)
    requires d != [] ==> d[0] != '-' && d[0] != '+'
    ensures Atoi("-" + d) == (if d != [] && DecimalValue(d).Some? && DecimalValue(d).value <= 0x8000_0000_0000_0000
                              then var v: int := DecimalValue(d).value; Some(-v) else None)
    ensures Atoi("+" + d) == Atoi(d)
         == (if d != [] && DecimalValue(d).Some? && DecimalValue(d).value < 0x8000_0000_0000_0000
             then Some(DecimalValue(d).value) else None)
  {
    hide DecimalValue;
    assert ("-" + d)[1..] == d && ("+" + d)[1..] == d;
  }

  /** What exceeds int64 is not read. */
  lemma OutOfRange(n: int)
    requires n >= INT64_LIMIT || n < -INT64_LIMIT
    ensures Atoi(Itoa(n)) == None
  {
    DecimalRoundTrip(if n < 0 then -n else n);
    if n < 0 {
      assert Itoa(n)[1..] == Decimal(-n);
    }
  }
}
