/** .NET strings as sequences of UTF-16 code units, and the handful of string
    operations the renderer relies on: splitting on spaces, decimal
    formatting and parsing, and ASCII case folding. */
module Text {

  /** One UTF-16 code unit (a .NET `char`). */
  newtype CodeUnit = x: int | 0 <= x < 0x1_0000

  type Str = seq<CodeUnit>

  const Space: CodeUnit := 0x20
  const Slash: CodeUnit := 0x2F
  const Colon: CodeUnit := 0x3A
  const Dash: CodeUnit := 0x2D
  const Question: CodeUnit := 0x3F
  const Zero: CodeUnit := 0x30

  /** The literal "chat", the source tag of messages sent during the live broadcast. */
  const ChatSource: Str := [0x63, 0x68, 0x61, 0x74]

  /** One half of a surrogate pair (general category Cs). */
  predicate IsSurrogate(c: CodeUnit) { 0xD800 <= c <= 0xDFFF }

  predicate IsAsciiLetter(c: CodeUnit) { (0x41 <= c <= 0x5A) || (0x61 <= c <= 0x7A) }

  predicate IsAsciiDigit(c: CodeUnit) { 0x30 <= c <= 0x39 }

  predicate NoSpace(s: Str) { forall i :: 0 <= i < |s| ==> s[i] != Space }

  function DigitValue(c: CodeUnit): nat
    requires IsAsciiDigit(c)
  {
    (c - Zero) as nat
  }

  function DigitChar(d: nat): (c: CodeUnit)
    requires d < 10
    ensures IsAsciiDigit(c) && DigitValue(c) == d
  {
    (d + 0x30) as CodeUnit
  }

  /** ASCII lower-casing of one code unit; every other code unit is kept. */
  function LowerChar(c: CodeUnit): CodeUnit
  {
    if 0x41 <= c <= 0x5A then c + 0x20 else c
  }

  function ToLower(s: Str): (r: Str)
    ensures |r| == |s|
    ensures forall i :: 0 <= i < |s| ==> r[i] == LowerChar(s[i])
  {
    if s == [] then [] else [LowerChar(s[0])] + ToLower(s[1..])
  }

  /** Decimal representation of a natural number, as `int.ToString()` writes it. */
  function NatToStr(n: nat): (r: Str)
    ensures |r| > 0
    ensures forall i :: 0 <= i < |r| ==> IsAsciiDigit(r[i])
    ensures n > 0 ==> r[0] != Zero
    decreases n
  {
    if n < 10 then [DigitChar(n)] else NatToStr(n / 10) + [DigitChar(n % 10)]
  }

  /** Decimal representation of any integer, with a leading '-' when negative. */
  function IntToStr(n: int): (r: Str)
    ensures |r| > 0
    ensures n < 0 <==> r[0] == Dash
  {
    if n < 0 then [Dash] + NatToStr(-n) else NatToStr(n)
  }

  predicate AllDigits(s: Str) { forall i :: 0 <= i < |s| ==> IsAsciiDigit(s[i]) }

  /** The value of a run of decimal digits, most significant first. */
  function DecimalValue(s: Str): nat
    requires AllDigits(s)
  {
    if s == [] then 0 else DecimalValue(s[..|s| - 1]) * 10 + DigitValue(s[|s| - 1])
  }

  /** Formatting then parsing a natural number gives it back. */
  lemma {:induction false} DecimalValueOfNatToStr(n: nat)
    ensures DecimalValue(NatToStr(n)) == n
    decreases n
  {
    var s := NatToStr(n);
    if n >= 10 {
      DecimalValueOfNatToStr(n / 10);
      assert s[..|s| - 1] == NatToStr(n / 10);
    }
  }

  /** The digit run with its leading zeros removed ("" for "000"). */
  function StripZeros(s: Str): (r: Str)
    requires AllDigits(s)
    ensures AllDigits(r) && |r| <= |s|
    ensures r == s[|s| - |r|..]
    ensures r == [] || r[0] != Zero
  {
    if s != [] && s[0] == Zero then StripZeros(s[1..]) else s
  }

  lemma {:induction false} DecimalValueNoLeadingZero(s: Str)
    requires AllDigits(s) && s != [] && s[0] != Zero
    ensures DecimalValue(s) >= 1
    ensures |s| > 1 ==> DecimalValue(s[..|s| - 1]) >= 1
    decreases |s|
  {
    if |s| > 1 {
      DecimalValueNoLeadingZero(s[..|s| - 1]);
    }
  }

  lemma {:induction false} DecimalValueStripZeros(s: Str)
    requires AllDigits(s)
    ensures DecimalValue(StripZeros(s)) == DecimalValue(s)
    decreases |s|
  {
    if s != [] && s[0] == Zero {
      DecimalValueStripZeros(s[1..]);
      DecimalValueDropLeadingZero(s);
    }
  }

  lemma {:induction false} DecimalValueDropLeadingZero(s: Str)
    requires AllDigits(s) && s != [] && s[0] == Zero
    ensures DecimalValue(s) == DecimalValue(s[1..])
    decreases |s|
  {
    if |s| > 1 {
      var t := s[..|s| - 1];
      DecimalValueDropLeadingZero(t);
      assert t[1..] == s[1..][..|s[1..]| - 1];
    }
  }

  /** `NatToStr` is the only digit string without a leading zero for its value. */
  lemma {:induction false} NatToStrUnique(s: Str)
    requires AllDigits(s) && s != [] && s[0] != Zero
    ensures NatToStr(DecimalValue(s)) == s
    decreases |s|
  {
    DecimalValueNoLeadingZero(s);
    var n := DecimalValue(s);
    if |s| > 1 {
      var t := s[..|s| - 1];
      NatToStrUnique(t);
      assert n / 10 == DecimalValue(t);
      assert n % 10 == DigitValue(s[|s| - 1]);
      assert s == t + [s[|s| - 1]];
    }
  }

  /** Leading zeros vanish: printing the parsed value of a digit run gives the
      run without its leading zeros (or "0" when it is all zeros). */
  lemma PrintParsedDigits(s: Str)
    requires AllDigits(s) && s != []
    ensures NatToStr(DecimalValue(s)) == (if StripZeros(s) == [] then [Zero] else StripZeros(s))
  {
    DecimalValueStripZeros(s);
    var z := StripZeros(s);
    if z == [] {
      assert DecimalValue(s) == 0;
    } else {
      NatToStrUnique(z);
    }
  }

  /** Length of the leading run of non-space code units. */
  function RunLength(s: Str): (n: nat)
    ensures n <= |s|
    ensures NoSpace(s[..n])
    ensures n < |s| ==> s[n] == Space
  {
    if s == [] || s[0] == Space then 0 else 1 + RunLength(s[1..])
  }

  /** `s.Split(' ').Where(w => w != "")`: the maximal runs of non-space code units. */
  function Words(s: Str): (ws: seq<Str>)
    ensures forall i :: 0 <= i < |ws| ==> |ws[i]| > 0 && NoSpace(ws[i])
    decreases |s|
  {
    if s == [] then []
    else if s[0] == Space then Words(s[1..])
    else
      var n := RunLength(s);
      [s[..n]] + Words(s[n..])
  }

  /** Every word followed by one space, concatenated: what the layout's text
      runs add up to. */
  function JoinWords(ws: seq<Str>): Str
  {
    if ws == [] then [] else ws[0] + [Space] + JoinWords(ws[1..])
  }

  /** Splitting the joined words gives the words back. */
  lemma {:induction false} WordsOfJoinWords(ws: seq<Str>)
    requires forall i :: 0 <= i < |ws| ==> |ws[i]| > 0 && NoSpace(ws[i])
    ensures Words(JoinWords(ws)) == ws
  {
    if ws != [] {
      var s := JoinWords(ws);
      var w := ws[0];
      RunLengthOfWord(w, [Space] + JoinWords(ws[1..]));
      assert s == w + ([Space] + JoinWords(ws[1..]));
      assert s[..|w|] == w;
      assert s[|w|..] == [Space] + JoinWords(ws[1..]);
      assert s[|w|..][1..] == JoinWords(ws[1..]);
      WordsOfJoinWords(ws[1..]);
    }
  }

  lemma {:induction false} RunLengthOfWord(w: Str, rest: Str)
    requires NoSpace(w) && rest != [] && rest[0] == Space
    ensures RunLength(w + rest) == |w|
    decreases |w|
  {
    if w != [] {
      assert (w + rest)[1..] == w[1..] + rest;
      RunLengthOfWord(w[1..], rest);
    } else {
      assert w + rest == rest;
    }
  }

  /** A run that stops before the end of `s` stops at the same place in any
      extension of `s`. */
  lemma {:induction false} RunLengthAppend(s: Str, t: Str)
    requires RunLength(s) < |s|
    ensures RunLength(s + t) == RunLength(s)
    decreases |s|
  {
    if s[0] != Space {
      assert (s + t)[1..] == s[1..] + t;
      RunLengthAppend(s[1..], t);
    }
  }

  /** Text that ends in a space has its first run stop before the end. */
  lemma {:induction false} RunLengthBeforeSpace(s: Str)
    requires |s| > 0 && s[|s| - 1] == Space
    ensures RunLength(s) < |s|
    decreases |s|
  {
    if s[0] != Space {
      assert |s| > 1;
      assert s[1..][|s[1..]| - 1] == Space;
      RunLengthBeforeSpace(s[1..]);
    }
  }

  /** Cutting the text at one space cuts its word list at the same place:
      the split ignores where the text is divided at a space. */
  lemma {:induction false} WordsSplit(a: Str, b: Str)
    ensures Words(a + [Space] + b) == Words(a) + Words(b)
    decreases |a|
  {
    var s := a + [Space] + b;
    if a == [] {
      assert s[1..] == b;
    } else if a[0] == Space {
      assert s[1..] == a[1..] + [Space] + b;
      WordsSplit(a[1..], b);
    } else {
      var m := RunLength(a);
      assert s == a + ([Space] + b);
      if m < |a| {
        RunLengthAppend(a, [Space] + b);
        assert s[..m] == a[..m];
        assert s[m..] == a[m..] + [Space] + b;
        WordsSplit(a[m..], b);
      } else {
        assert a[..m] == a;
        RunLengthOfWord(a, [Space] + b);
        assert s[..m] == a;
        assert s[m..] == [Space] + b;
        assert s[m..][1..] == b;
        assert a[m..] == [];
      }
    }
  }

  /** Text without spaces is one word, unless it is empty. */
  lemma WordsOfWord(w: Str)
    requires |w| > 0 && NoSpace(w)
    ensures Words(w) == [w]
  {
    RunLengthNoSpace(w);
    assert w[..|w|] == w;
  }

  /** Text without spaces is a single run. */
  lemma {:induction false} RunLengthNoSpace(s: Str)
    requires NoSpace(s)
    ensures RunLength(s) == |s|
    decreases |s|
  {
    if s != [] {
      assert s[0] != Space;
      RunLengthNoSpace(s[1..]);
    }
  }

  /** The first word of a run of words together with the space after it;
      the whole text when it has no space. */
  function FirstTag(s: Str): (t: Str)
    ensures t <= s
  {
    var n := RunLength(s);
    if n < |s| then s[..n + 1] else s
  }

  /** A word and its space lead the text they start. */
  lemma FirstTagOfTag(w: Str, rest: Str)
    requires NoSpace(w)
    ensures FirstTag(w + [Space] + rest) == w + [Space]
  {
    RunLengthOfWord(w, [Space] + rest);
    assert w + [Space] + rest == w + ([Space] + rest);
    assert (w + [Space] + rest)[..|w| + 1] == w + [Space];
  }

  /** Words appended after a space leave the first tag alone. */
  lemma FirstTagAppend(s: Str, t: Str)
    requires |s| > 0 && s[|s| - 1] == Space
    ensures FirstTag(s + t) == FirstTag(s)
  {
    RunLengthBeforeSpace(s);
    RunLengthAppend(s, t);
    var n := RunLength(s);
    assert (s + t)[..n + 1] == s[..n + 1];
  }

  /** The text after the last '/', the whole text when it has none. */
  function AfterLastSlash(s: Str): (r: Str)
    ensures |r| <= |s| && r == s[|s| - |r|..]
    ensures forall i :: 0 <= i < |r| ==> r[i] != Slash
    ensures |r| < |s| ==> s[|s| - |r| - 1] == Slash
  {
    if s == [] then []
    else if s[|s| - 1] == Slash then []
    else AfterLastSlash(s[..|s| - 1]) + [s[|s| - 1]]
  }
}
