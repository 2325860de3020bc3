/** The Python string operations that keys are built from and taken apart with. */
module Text {
  import opened Options

  // ---------------------------------------------------------------- splitting

  /** `s.split(c)` */
  function Split(s: string, c: char): (parts: seq<string>)
    ensures |parts| > 0
  {
    if s == "" then [""]
    else
      var rest := Split(s[1..], c);
      if s[0] == c then [""] + rest else [[s[0]] + rest[0]] + rest[1..]
  }

  /** `c.join(parts)` */
  function Join(parts: seq<string>, c: char): string
    requires |parts| > 0
  {
    if |parts| == 1 then parts[0] else parts[0] + [c] + Join(parts[1..], c)
  }

  predicate Free(parts: seq<string>, c: char) {
    forall i | 0 <= i < |parts| :: c !in parts[i]
  }

  /** Splitting is the one way to cut a text into pieces without the separator that join back to it. */
  lemma SplitIff(s: string, c: char, parts: seq<string>)
    requires |parts| > 0
    ensures Split(s, c) == parts <==> Join(parts, c) == s && Free(parts, c)
  {
    SplitJoins(s, c);
    if Free(parts, c) {
      JoinSplits(parts, c);
    }
  }

  lemma {:induction false} SplitJoins(s: string, c: char)
    ensures Join(Split(s, c), c) == s && Free(Split(s, c), c)
  {
    if s != "" {
      SplitJoins(s[1..], c);
      var rest := Split(s[1..], c);
      assert s == [s[0]] + s[1..];
      if s[0] == c {
        assert Split(s, c)[1..] == rest;
      } else {
        var parts := Split(s, c);
        assert parts[0] == [s[0]] + rest[0] && parts[1..] == rest[1..];
        assert |rest| > 1 ==> [s[0]] + (rest[0] + [c] + Join(rest[1..], c)) == parts[0] + [c] + Join(parts[1..], c);
      }
    }
  }

  lemma {:induction false} JoinSplits(parts: seq<string>, c: char)
    requires |parts| > 0 && Free(parts, c)
    ensures Split(Join(parts, c), c) == parts
    decreases |parts|, |parts[0]|
  {
    var p, s := parts[0], Join(parts, c);
    if p != "" {
      var shorter := [p[1..]] + parts[1..];
      JoinSplits(shorter, c);
      assert p == [p[0]] + p[1..];
      assert s == [p[0]] + Join(shorter, c);
      assert s[1..] == Join(shorter, c);
    } else if |parts| > 1 {
      JoinSplits(parts[1..], c);
      assert s == [c] + Join(parts[1..], c);
      assert s[1..] == Join(parts[1..], c);
    }
  }

  /** `s.rsplit(c, 1)` when it gives two pieces. */
  function SplitLast(s: string, c: char): Option<(string, string)> {
    if s == "" then None
    else
      var most, last := s[..|s| - 1], s[|s| - 1];
      if last == c then Some((most, ""))
      else match SplitLast(most, c)
        case None => None
        case Some((front, back)) => Some((front, back + [last]))
  }

  /** The cut is at the last separator. */
  lemma {:induction false} SplitLastIff(s: string, c: char, front: string, back: string)
    ensures SplitLast(s, c) == Some((front, back)) <==> s == front + [c] + back && c !in back
  {
    if s != "" {
      var most, last := s[..|s| - 1], s[|s| - 1];
      assert s == most + [last];
      if last != c && back != "" {
        var shorter := back[..|back| - 1];
        assert back == shorter + [back[|back| - 1]];
        SplitLastIff(most, c, front, shorter);
        assert s == front + [c] + back ==> most == front + [c] + shorter by {
          assert s == front + [c] + back ==> s[..|s| - 1] == (front + [c] + back)[..|s| - 1];
        }
        assert most == front + [c] + shorter && last == back[|back| - 1] ==> s == front + [c] + back;
        assert s == front + [c] + back ==> last == back[|back| - 1];
      } else if back == "" {
        assert s == front + [c] + back ==> most == front && last == c;
      }
    }
  }

  // ---------------------------------------------------------------- integers

  function DigitChar(d: nat): char
    requires d < 10
  {
    ['0', '1', '2', '3', '4', '5', '6', '7', '8', '9'][d]
  }

  predicate IsDigit(ch: char) {
    '0' <= ch <= '9'
  }

  function DigitValue(ch: char): nat
    requires IsDigit(ch)
  {
    ch as int - '0' as int
  }

  function PrintNat(n: nat): string {
    if n < 10 then [DigitChar(n)] else PrintNat(n / 10) + [DigitChar(n % 10)]
  }

  /** `str(n)` */
  function PrintInt(n: int): string {
    if n < 0 then "-" + PrintNat(-n) else PrintNat(n)
  }

  /** Digits, with single underscores allowed between them. */
  function ParseNat(s: string): Option<nat> {
    if s == "" then None
    else
      var most, last := s[..|s| - 1], s[|s| - 1];
      if !IsDigit(last) then None
      else if most == "" then Some(DigitValue(last))
      else
        var head := ParseNat(if most[|most| - 1] == '_' then most[..|most| - 1] else most);
        if head.None? then None else Some(10 * head.value + DigitValue(last))
  }

  predicate IsSpace(ch: char) {
    ch == ' ' || '\t' <= ch <= '\r' || '\U{1C}' <= ch <= '\U{1F}'
  }

  function Strip(s: string): string {
    if s != "" && IsSpace(s[0]) then Strip(s[1..])
    else if s != "" && IsSpace(s[|s| - 1]) then Strip(s[..|s| - 1])
    else s
  }

  function Signed(size: Option<nat>, negative: bool): Option<int> {
    if size.None? then None
    else
      var n: int := size.value;
      Some(if negative then -n else n)
  }

  /** `int(s)`; `None` is a ValueError. */
  function ParseInt(s: string): Option<int> {
    var t := Strip(s);
    if t != "" && t[0] == '-' then Signed(ParseNat(t[1..]), true)
    else if t != "" && t[0] == '+' then Signed(ParseNat(t[1..]), false)
    else Signed(ParseNat(t), false)
  }

  /** Digits with single underscores between them. */
  predicate IsNumeral(s: string) {
    && s != "" && IsDigit(s[0]) && IsDigit(s[|s| - 1])
    && (forall i | 0 <= i < |s| :: IsDigit(s[i]) || s[i] == '_')
    && (forall i | 0 <= i < |s| - 1 :: !(s[i] == '_' && s[i + 1] == '_'))
  }

  /** The number read from left to right, digit after digit. */
  function Read(soFar: nat, s: string): nat
    decreases |s|
  {
    if s == "" then soFar
    else Read(if IsDigit(s[0]) then 10 * soFar + DigitValue(s[0]) else soFar, s[1..])
  }

  lemma {:induction false} ReadSnoc(soFar: nat, s: string, last: char)
    ensures Read(soFar, s + [last]) ==
            if IsDigit(last) then 10 * Read(soFar, s) + DigitValue(last) else Read(soFar, s)
    decreases |s|
  {
    hide IsDigit, DigitValue;
    if s == "" {
      assert [last][1..] == "";
    } else {
      assert (s + [last])[1..] == s[1..] + [last];
      ReadSnoc(if IsDigit(s[0]) then 10 * soFar + DigitValue(s[0]) else soFar, s[1..], last);
    }
  }

  lemma NumeralCutOne(s: string, most: string, last: char)
    requires s == most + [last] && most != "" && most[|most| - 1] != '_'
    ensures IsNumeral(s) <==> IsNumeral(most) && IsDigit(last)
  {
    assert forall i | 0 <= i < |most| :: s[i] == most[i];
    assert s[|s| - 2] == most[|most| - 1] && s[|s| - 1] == last;
  }

  lemma NoDoubleUnderscore(s: string, i: nat)
    requires IsNumeral(s) && i + 1 < |s| && s[i + 1] == '_'
    ensures s[i] != '_'
  {
  }

  lemma NumeralEnd(s: string)
    requires s != ""
    ensures IsNumeral(s) ==> IsDigit(s[|s| - 1])
    ensures |s| == 1 ==> (IsNumeral(s) <==> IsDigit(s[0]))
  {
  }

  lemma NumeralCutTwo(s: string, less: string, last: char)
    requires s == less + ['_'] + [last]
    ensures IsNumeral(s) <==> IsNumeral(less) && IsDigit(last)
  {
    assert forall i | 0 <= i < |less| :: s[i] == less[i];
    assert s[|less|] == '_' && s[|less| + 1] == last;
    if IsNumeral(s) {
      assert less != "";
      NoDoubleUnderscore(s, |less| - 1);
    }
  }

  /** Exactly the numerals are read, each as the number it shows. */
  lemma {:induction false} ParseNatIff(s: string)
    ensures ParseNat(s) == if IsNumeral(s) then Some(Read(0, s)) else None
  {
    hide IsDigit, DigitValue, Read, IsNumeral;
    if s == "" {
      assert !IsNumeral(s) by { NotEmptyNumeral(); }
    } else {
      NumeralEnd(s);
      var most, last := s[..|s| - 1], s[|s| - 1];
      assert s == most + [last];
      ReadSnoc(0, most, last);
      if most == "" {
        assert Read(0, "") == 0 by { ReadNothing(); }
      } else if most[|most| - 1] == '_' {
        UnderscoreIsNoDigit();
        var less := most[..|most| - 1];
        assert most == less + ['_'];
        ReadSnoc(0, less, '_');
        ParseNatIff(less);
        NumeralCutTwo(s, less, last);
      } else {
        ParseNatIff(most);
        NumeralCutOne(s, most, last);
      }
    }
  }

  lemma NotEmptyNumeral()
    ensures !IsNumeral("")
  {
  }

  lemma ReadNothing()
    ensures Read(0, "") == 0
  {
  }

  lemma UnderscoreIsNoDigit()
    ensures !IsDigit('_')
  {
  }

  lemma BlanksAre(ch: char)
    ensures IsSpace(ch) <==> 9 <= ch as int <= 13 || 28 <= ch as int <= 32
  {
  }

  predicate Blank(s: string) {
    forall i | 0 <= i < |s| :: IsSpace(s[i])
  }

  /** Stripping takes blanks off both ends until there are none. */
  lemma {:induction false} StripIs(s: string) returns (left: string, right: string)
    ensures s == left + Strip(s) + right && Blank(left) && Blank(right)
    ensures Strip(s) != "" ==> !IsSpace(Strip(s)[0]) && !IsSpace(Strip(s)[|Strip(s)| - 1])
  {
    hide IsSpace;
    left, right := "", "";
    if s != "" && IsSpace(s[0]) {
      left, right := StripIs(s[1..]);
      assert s == [s[0]] + s[1..];
      left := [s[0]] + left;
    } else if s != "" && IsSpace(s[|s| - 1]) {
      left, right := StripIs(s[..|s| - 1]);
      assert s == s[..|s| - 1] + [s[|s| - 1]];
      right := right + [s[|s| - 1]];
    }
  }

  /** Exactly a numeral, with one sign or none and blanks around it, is read, as its signed value. */
  lemma ParseIntIff(s: string, n: int)
    ensures
      ParseInt(s) == Some(n) <==>
      var t := Strip(s);
      || (IsNumeral(t) && n == Read(0, t))
      || (t != "" && t[0] == '+' && IsNumeral(t[1..]) && n == Read(0, t[1..]))
      || (t != "" && t[0] == '-' && IsNumeral(t[1..]) && -n == Read(0, t[1..]))
  {
    hide Strip, ParseNat, Read;
    var t := Strip(s);
    ParseNatIff(t);
    if t != "" {
      ParseNatIff(t[1..]);
    }
  }

  predicate AllDigits(s: string) {
    s != "" && forall i | 0 <= i < |s| :: IsDigit(s[i])
  }

  lemma DigitRoundTrip(d: nat)
    requires d < 10
    ensures IsDigit(DigitChar(d)) && DigitValue(DigitChar(d)) == d && DigitChar(d) != '_'
  {
  }

  lemma ParseOneMore(most: string, last: char)
    requires AllDigits(most) && IsDigit(last) && ParseNat(most).Some?
    ensures ParseNat(most + [last]) == Some(10 * ParseNat(most).value + DigitValue(last))
  {
    assert (most + [last])[..|most|] == most && IsDigit(most[|most| - 1]);
  }

  lemma {:induction false} ParsePrintNat(n: nat)
    ensures AllDigits(PrintNat(n)) && ParseNat(PrintNat(n)) == Some(n)
  {
    hide DigitChar, IsDigit, DigitValue;
    DigitRoundTrip(n % 10);
    if n >= 10 {
      hide ParseNat;
      ParsePrintNat(n / 10);
      ParseOneMore(PrintNat(n / 10), DigitChar(n % 10));
    }
  }

  lemma NothingToStrip(s: string)
    requires s != "" && !IsSpace(s[0]) && !IsSpace(s[|s| - 1])
    ensures Strip(s) == s
  {
  }

  /** Every integer is read back from its decimal form, which has no ':' in it. */
  lemma ParsePrint(n: int)
    ensures ParseInt(PrintInt(n)) == Some(n) && ':' !in PrintInt(n)
  {
    hide Strip, ParseNat, PrintNat;
    var size: nat := if n < 0 then -n else n;
    ParsePrintNat(size);
    NothingToStrip(PrintInt(n));
    assert n < 0 ==> PrintInt(n)[1..] == PrintNat(size);
    assert forall i | 0 <= i < |PrintNat(size)| :: IsDigit(PrintNat(size)[i]);
  }
}
