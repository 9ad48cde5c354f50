/** Text primitives of the Python runtime that the racadm wrapper relies on:
    `str.strip`, `str.startswith`, `str.splitlines`, `'\n'.join`, `str.split(sep)`,
    `str.split()`, `re.split('  +', ...)`, `str.lower` (ASCII only) and the
    decimal / `{:08X}` renderings of integers. */
module Strings {

  datatype Option<T> = None | Some(value: T)

  /** The characters for which Python's `str.isspace` holds. */
  const WhiteSpace: set<char> :=
    {' ', '\t', '\n', '\r', '\U{B}', '\U{C}', '\U{1C}', '\U{1D}', '\U{1E}', '\U{1F}',
     '\U{85}', '\U{A0}', '\U{1680}',
     '\U{2000}', '\U{2001}', '\U{2002}', '\U{2003}', '\U{2004}', '\U{2005}',
     '\U{2006}', '\U{2007}', '\U{2008}', '\U{2009}', '\U{200A}',
     '\U{2028}', '\U{2029}', '\U{202F}', '\U{205F}', '\U{3000}'}

  /** Python's `str.isspace` for one character. */
  predicate IsSpace(c: char) {
    c in WhiteSpace
  }

  /** The characters at which `str.splitlines` ends a line (`\r\n` counts as one break). */
  predicate IsLineBreak(c: char) {
    c == '\n' || c == '\r' || c == '\U{B}' || c == '\U{C}'
    || c == '\U{1C}' || c == '\U{1D}' || c == '\U{1E}'
    || c == '\U{85}' || c == '\U{2028}' || c == '\U{2029}'
  }

  predicate HasNonSpace(s: string) {
    exists i :: 0 <= i < |s| && !IsSpace(s[i])
  }

  predicate NoLineBreak(s: string) {
    forall i :: 0 <= i < |s| ==> !IsLineBreak(s[i])
  }

  predicate StartsWith(s: string, prefix: string) {
    |prefix| <= |s| && s[..|prefix|] == prefix
  }

  // ---------------------------------------------------------------- strip

  function LStrip(s: string): (r: string)
    ensures |r| <= |s|
    ensures r != [] ==> !IsSpace(r[0])
    ensures forall i :: 0 <= i < |s| - |r| ==> IsSpace(s[i])
  {
    if s != [] && IsSpace(s[0]) then LStrip(s[1..]) else s
  }

  function RStrip(s: string): (r: string)
    ensures |r| <= |s|
    ensures r != [] ==> !IsSpace(r[|r| - 1])
    ensures forall i :: |r| <= i < |s| ==> IsSpace(s[i])
  {
    if s != [] && IsSpace(s[|s| - 1]) then RStrip(s[..|s| - 1]) else s
  }

  /** What `LStrip` keeps is a suffix of its argument. */
  lemma {:induction false} LStripSuffix(s: string)
    ensures LStrip(s) == s[|s| - |LStrip(s)|..]
  {
    if s != [] && IsSpace(s[0]) {
      LStripSuffix(s[1..]);
      assert s[1..][|s| - 1 - |LStrip(s)|..] == s[|s| - |LStrip(s)|..];
    }
  }

  /** What `RStrip` keeps is a prefix of its argument. */
  lemma {:induction false} RStripPrefix(s: string)
    ensures RStrip(s) == s[..|RStrip(s)|]
  {
    if s != [] && IsSpace(s[|s| - 1]) {
      RStripPrefix(s[..|s| - 1]);
      assert s[..|s| - 1][..|RStrip(s)|] == s[..|RStrip(s)|];
    }
  }

  /** `str.strip()`. */
  function Strip(s: string): string {
    RStrip(LStrip(s))
  }

  lemma RStripEmptyIff(s: string)
    ensures |RStrip(s)| == 0 <==> !HasNonSpace(s)
  {
    if |RStrip(s)| != 0 {
      var r := RStrip(s);
      RStripPrefix(s);
      assert s[|r| - 1] == r[|r| - 1];
    }
  }

  lemma StripEmptyIff(s: string)
    ensures |Strip(s)| == 0 <==> !HasNonSpace(s)
  {
    var l := LStrip(s);
    LStripSuffix(s);
    RStripEmptyIff(l);
    if HasNonSpace(l) {
      var i :| 0 <= i < |l| && !IsSpace(l[i]);
      assert s[|s| - |l| + i] == l[i];
    }
    if HasNonSpace(s) {
      var i :| 0 <= i < |s| && !IsSpace(s[i]);
      assert i >= |s| - |l|;
      assert l[i - (|s| - |l|)] == s[i];
    }
  }

  /** A string without surrounding white space is its own strip. */
  lemma StripNoOp(s: string)
    requires s != [] && !IsSpace(s[0]) && !IsSpace(s[|s| - 1])
    ensures Strip(s) == s
  {
  }

  /** Python's `s[:-1]`. */
  function DropLast(s: string): (r: string)
    ensures |r| <= |s|
    ensures |s| > 0 ==> |r| == |s| - 1
    ensures r == s[..|r|]
  {
    if |s| == 0 then s else s[..|s| - 1]
  }

  // ------------------------------------------------------------ splitlines

  /** Index of the first line break in `s`, or `|s|`. */
  function FirstBreak(s: string): (i: nat)
    ensures i <= |s|
    ensures NoLineBreak(s[..i])
    ensures i < |s| ==> IsLineBreak(s[i])
  {
    if s == [] || IsLineBreak(s[0]) then 0
    else
      var k := FirstBreak(s[1..]);
      assert s[..k + 1] == [s[0]] + s[1..][..k];
      k + 1
  }

  /** `str.splitlines()`: the lines of `s` without their terminators; a final
      terminator does not start another (empty) line. */
  function SplitLines(s: string): (r: seq<string>)
    ensures forall i :: 0 <= i < |r| ==> NoLineBreak(r[i])
    decreases |s|
  {
    if s == [] then []
    else
      var i := FirstBreak(s);
      if i == |s| then [s]
      else
        var next := if s[i] == '\r' && i + 1 < |s| && s[i + 1] == '\n' then i + 2 else i + 1;
        [s[..i]] + SplitLines(s[next..])
  }

  /** `sep.join(parts)`. */
  function Join<T>(parts: seq<seq<T>>, sep: seq<T>): seq<T> {
    if |parts| == 0 then []
    else if |parts| == 1 then parts[0]
    else parts[0] + sep + Join(parts[1..], sep)
  }

  lemma FirstBreakAppend(a: string, b: string)
    requires NoLineBreak(a)
    ensures FirstBreak(a + b) == |a| + FirstBreak(b)
  {
    if a != [] {
      assert (a + b)[1..] == a[1..] + b;
      FirstBreakAppend(a[1..], b);
    } else {
      assert a + b == b;
    }
  }

  /** `'\n'.join` followed by `splitlines` gives the lines back, as long as no
      line holds a break and the last one is not empty. */
  lemma {:induction false} SplitLinesJoin(ls: seq<string>)
    requires forall i :: 0 <= i < |ls| ==> NoLineBreak(ls[i])
    requires |ls| > 0 ==> ls[|ls| - 1] != ""
    ensures SplitLines(Join(ls, "\n")) == ls
  {
    if |ls| == 1 {
      FirstBreakAppend(ls[0], "");
      assert ls[0] + "" == ls[0];
    } else if |ls| > 1 {
      var rest := Join(ls[1..], "\n");
      var s := ls[0] + "\n" + rest;
      assert s == ls[0] + ("\n" + rest);
      FirstBreakAppend(ls[0], "\n" + rest);
      assert ("\n" + rest)[0] == '\n';
      assert FirstBreak(s) == |ls[0]|;
      assert s[..|ls[0]|] == ls[0];
      assert s[|ls[0]|] == '\n';
      assert s[|ls[0]| + 1..] == rest;
      SplitLinesJoin(ls[1..]);
      assert [ls[0]] + ls[1..] == ls;
    }
  }

  // ------------------------------------------------------------ split(sep)

  /** `s.index(c)` when `c` occurs in `s`; `|s|` otherwise. */
  function FirstIndex(s: string, c: char): (i: nat)
    ensures i <= |s|
    ensures forall j :: 0 <= j < i ==> s[j] != c
    ensures i < |s| ==> s[i] == c
  {
    if s == [] || s[0] == c then 0 else 1 + FirstIndex(s[1..], c)
  }

  /** `s.split(c)`: the pieces between occurrences of `c`; never empty. */
  function SplitOn<T(==)>(s: seq<T>, c: T): (r: seq<seq<T>>)
    ensures |r| >= 1
  {
    if s == [] then [[]]
    else
      var rest := SplitOn(s[1..], c);
      if s[0] == c then [[]] + rest else [[s[0]] + rest[0]] + rest[1..]
  }

  /** Splitting then joining with the same separator gives back the text. */
  lemma {:induction false} JoinSplitOn<T>(s: seq<T>, c: T)
    ensures Join(SplitOn(s, c), [c]) == s
  {
    if s != [] {
      var rest := SplitOn(s[1..], c);
      JoinSplitOn(s[1..], c);
      if s[0] == c {
        assert SplitOn(s, c)[1..] == rest;
      } else if |rest| == 1 {
        assert s == [s[0]] + rest[0];
      } else {
        assert SplitOn(s, c)[1..] == rest[1..];
        assert Join(rest, [c]) == rest[0] + [c] + Join(rest[1..], [c]);
      }
    }
  }

  /** Splitting a text that starts with `ch`: a separator opens a new empty
      piece, any other character joins the first piece. */
  lemma SplitOnCons<T>(ch: T, t: seq<T>, c: T)
    ensures var x := SplitOn(t, c);
            SplitOn([ch] + t, c) == if ch == c then [[]] + x else [[ch] + x[0]] + x[1..]
  {
    assert ([ch] + t)[1..] == t;
  }

  lemma ConsFirstAppend<T>(h: seq<T>, x: seq<seq<T>>, y: seq<seq<T>>)
    requires |x| >= 1
    ensures [h + (x + y)[0]] + (x + y)[1..] == ([h + x[0]] + x[1..]) + y
  {
    assert (x + y)[1..] == x[1..] + y;
  }

  /** A separator splits the pieces on either side of it apart. */
  lemma {:induction false} SplitOnConcat<T>(a: seq<T>, b: seq<T>, c: T)
    ensures SplitOn(a + [c] + b, c) == SplitOn(a, c) + SplitOn(b, c)
  {
    if a == [] {
      assert a + [c] + b == [c] + b;
      SplitOnCons(c, b, c);
    } else {
      var t := a[1..] + [c] + b;
      SplitOnConcat(a[1..], b, c);
      SplitOnConcatStep(a[0], a[1..], t, SplitOn(b, c), c);
      assert a + [c] + b == [a[0]] + t;
      assert [a[0]] + a[1..] == a;
    }
  }

  /** The inductive step of `SplitOnConcat`: one more element in front of
      both `t` and its first piece `a`. */
  lemma SplitOnConcatStep<T>(h: T, a: seq<T>, t: seq<T>, y: seq<seq<T>>, c: T)
    requires SplitOn(t, c) == SplitOn(a, c) + y
    ensures SplitOn([h] + t, c) == SplitOn([h] + a, c) + y
  {
    var x := SplitOn(a, c);
    if h == c {
      calc {
        SplitOn([h] + t, c);
      == { SplitOnCons(h, t, c); }
        [[]] + (x + y);
      == 
        ([[]] + x) + y;
      == { SplitOnCons(h, a, c); }
        SplitOn([h] + a, c) + y;
      }
    } else {
      calc {
        SplitOn([h] + t, c);
      == { SplitOnCons(h, t, c); }
        [[h] + (x + y)[0]] + (x + y)[1..];
      == { ConsFirstAppend([h], x, y); }
        ([[h] + x[0]] + x[1..]) + y;
      == { SplitOnCons(h, a, c); }
        SplitOn([h] + a, c) + y;
      }
    }
  }

  lemma {:induction false} SplitOnNoSep<T>(s: seq<T>, c: T)
    requires c !in s
    ensures SplitOn(s, c) == [s]
  {
    if s != [] {
      assert s[0] in s;
      assert forall x :: x in s[1..] ==> x in s;
      SplitOnNoSep(s[1..], c);
      assert [s[0]] + s[1..] == s;
    }
  }

  // ---------------------------------------------------------------- split()

  /** Index of the first white-space character in `s`, or `|s|`. */
  function FirstSpace(s: string): (i: nat)
    ensures i <= |s|
    ensures forall j :: 0 <= j < i ==> !IsSpace(s[j])
    ensures i < |s| ==> IsSpace(s[i])
  {
    if s == [] || IsSpace(s[0]) then 0 else 1 + FirstSpace(s[1..])
  }

  /** `s.split()`: the maximal runs of non-white-space characters. */
  function SplitWs(s: string): (r: seq<string>)
    ensures forall i :: 0 <= i < |r| ==> r[i] != []
    ensures forall i, j :: 0 <= i < |r| && 0 <= j < |r[i]| ==> !IsSpace(r[i][j])
    decreases |s|
  {
    if s == [] then []
    else if IsSpace(s[0]) then SplitWs(s[1..])
    else
      var i := FirstSpace(s);
      assert !IsSpace(s[..i][0]);
      [s[..i]] + SplitWs(s[i..])
  }

  /** A line that is not blank has at least one field. */
  lemma {:induction false} SplitWsNonEmpty(s: string)
    requires HasNonSpace(s)
    ensures |SplitWs(s)| >= 1
    decreases |s|
  {
    if IsSpace(s[0]) {
      var i :| 0 <= i < |s| && !IsSpace(s[i]);
      assert s[1..][i - 1] == s[i];
      SplitWsNonEmpty(s[1..]);
    }
  }

  // ---------------------------------------------------------- re.split('  +')

  /** Index of the first pair of adjacent spaces in `s`, or `|s|`. */
  function RunStart(s: string): (i: nat)
    ensures i <= |s|
    ensures i < |s| ==> i + 1 < |s| && s[i] == ' ' && s[i + 1] == ' '
    ensures forall j :: 0 <= j < i && j + 1 < |s| ==> !(s[j] == ' ' && s[j + 1] == ' ')
  {
    if |s| < 2 then |s|
    else if s[0] == ' ' && s[1] == ' ' then 0
    else
      var k := RunStart(s[1..]);
      if k == |s| - 1 then |s| else k + 1
  }

  /** First index at or after `i` that does not hold a space, or `|s|`. */
  function SpacesEnd(s: string, i: nat): (j: nat)
    requires i <= |s|
    ensures i <= j <= |s|
    ensures forall k :: i <= k < j ==> s[k] == ' '
    decreases |s| - i
  {
    if i < |s| && s[i] == ' ' then SpacesEnd(s, i + 1) else i
  }

  /** `re.split('  +', s)`: the pieces between runs of two or more spaces. */
  function SplitRuns(s: string): (r: seq<string>)
    ensures |r| >= 1
    decreases |s|
  {
    var i := RunStart(s);
    if i == |s| then [s]
    else
      var j := SpacesEnd(s, i);
      [s[..i]] + SplitRuns(s[j..])
  }

  /** Pieces of `re.split('  +', s)` never hold two adjacent spaces. */
  lemma {:induction false} SplitRunsNoDoubleSpace(s: string)
    ensures forall p, k :: p in SplitRuns(s) && 0 <= k && k + 1 < |p| ==> !(p[k] == ' ' && p[k + 1] == ' ')
    decreases |s|
  {
    var i := RunStart(s);
    if i < |s| {
      var j := SpacesEnd(s, i);
      SplitRunsNoDoubleSpace(s[j..]);
      forall k | 0 <= k && k + 1 < i
        ensures !(s[..i][k] == ' ' && s[..i][k + 1] == ' ')
      {
      }
    }
  }

  // ----------------------------------------------------------------- lower

  function LowerChar(c: char): char {
    if 'A' <= c <= 'Z' then (c as int + 32) as char else c
  }

  /** ASCII `str.lower()`. */
  function Lower(s: string): (r: string)
    ensures |r| == |s|
    ensures forall i :: 0 <= i < |r| ==> !('A' <= r[i] <= 'Z')
    ensures forall i :: 0 <= i < |r| ==> r[i] == LowerChar(s[i])
  {
    if s == [] then [] else [LowerChar(s[0])] + Lower(s[1..])
  }

  /** Lower-casing twice is lower-casing once. */
  lemma {:induction false} LowerIdempotent(s: string)
    ensures Lower(Lower(s)) == Lower(s)
  {
    var r := Lower(s);
    assert forall i :: 0 <= i < |r| ==> Lower(r)[i] == r[i];
  }

  // ------------------------------------------------------------ integers

  const HexDigits: string := "0123456789ABCDEF"

  /** The digits of `n` in base `b` (upper-case letters), without leading zeros. */
  function Digits(n: nat, b: nat): (r: string)
    requires 2 <= b <= 16
    ensures |r| >= 1
    ensures forall i :: 0 <= i < |r| ==> r[i] in HexDigits[..b]
  {
    if n < b then [HexDigits[n]]
    else
      DivModFacts(n, b);
      var d := Digits(n / b, b);
      assert HexDigits[n % b] in HexDigits[..b];
      d + [HexDigits[n % b]]
  }

  function DigitValue(c: char): nat {
    if '0' <= c <= '9' then c as nat - '0' as nat
    else if 'A' <= c <= 'F' then c as nat - 'A' as nat + 10
    else 0
  }

  /** The number that a digit string denotes in base `b`. */
  function ValueOf(s: string, b: nat): nat {
    if s == [] then 0 else ValueOf(s[..|s| - 1], b) * b + DigitValue(s[|s| - 1])
  }

  /** Python `str(n)` for a natural number. */
  function Decimal(n: nat): string {
    Digits(n, 10)
  }

  /** Python `'{0:08X}'.format(n)`: upper-case hexadecimal, zero-padded to eight digits. */
  function Hex08(n: nat): string {
    var d := Digits(n, 16);
    Zeros(8 - |d|) + d
  }

  /** `str(n)` holds no space. */
  lemma DecimalNoSpace(n: nat)
    ensures ' ' !in Decimal(n)
  {
    var d := Decimal(n);
    assert HexDigits[..10] == "0123456789";
    forall j | 0 <= j < |d| ensures d[j] != ' ' {
      assert d[j] in HexDigits[..10];
    }
  }

  function Zeros(k: int): (r: string)
    ensures |r| == if k < 0 then 0 else k
    ensures forall i :: 0 <= i < |r| ==> r[i] == '0'
    decreases k
  {
    if k <= 0 then "" else "0" + Zeros(k - 1)
  }

  lemma DigitValueAt(k: nat)
    requires k < 16
    ensures DigitValue(HexDigits[k]) == k
  {
    if k < 10 {
      assert HexDigits[k] as nat == '0' as nat + k;
    } else {
      assert HexDigits[k] as nat == 'A' as nat + k - 10;
    }
  }

  lemma DivModFacts(n: nat, b: nat)
    requires 2 <= b <= n
    ensures n / b < n && n % b < b && n / b * b + n % b == n
  {
  }

  lemma {:induction false} DigitsValue(n: nat, b: nat)
    requires 2 <= b <= 16
    ensures ValueOf(Digits(n, b), b) == n
    decreases n
  {
    if n < b {
      DigitValueAt(n);
      assert [HexDigits[n]][..0] == [];
    } else {
      var q, m := n / b, n % b;
      DivModFacts(n, b);
      var d := Digits(q, b) + [HexDigits[m]];
      assert Digits(n, b) == d;
      assert d[..|d| - 1] == Digits(q, b);
      DigitsValue(q, b);
      DigitValueAt(m);
      assert ValueOf(d, b) == ValueOf(Digits(q, b), b) * b + DigitValue(HexDigits[m]);
      assert ValueOf(d, b) == q * b + m;
    }
  }

  lemma {:induction false} LeadingZeroValue(s: string, b: nat)
    ensures ValueOf("0" + s, b) == ValueOf(s, b)
    decreases |s|
  {
    if s != [] {
      assert ("0" + s)[..|"0" + s| - 1] == "0" + s[..|s| - 1];
      LeadingZeroValue(s[..|s| - 1], b);
    }
  }

  lemma {:induction false} ZerosValue(k: int, s: string, b: nat)
    ensures ValueOf(Zeros(k) + s, b) == ValueOf(s, b)
    decreases k
  {
    if k > 0 {
      assert Zeros(k) == "0" + Zeros(k - 1);
      assert Zeros(k) + s == "0" + (Zeros(k - 1) + s);
      LeadingZeroValue(Zeros(k - 1) + s, b);
      ZerosValue(k - 1, s, b);
    } else {
      assert Zeros(k) + s == s;
    }
  }

  /**
   * `{:08X}` renders upper-case hex digits that read back as `n`: exactly
   * eight below 2^32, padded with zeros; above that, no leading zero.
   */
  lemma Hex08Spec(n: nat)
    ensures |Hex08(n)| >= 8
    ensures n < 0x1_0000_0000 ==> |Hex08(n)| == 8
    ensures n >= 0x1_0000_0000 ==> Hex08(n)[0] != '0'
    ensures forall i :: 0 <= i < |Hex08(n)| ==> Hex08(n)[i] in HexDigits
    ensures ValueOf(Hex08(n), 16) == n
  {
    var d := Digits(n, 16);
    assert HexDigits[..16] == HexDigits;
    DigitsValue(n, 16);
    ZerosValue(8 - |d|, d, 16);
    Pow16Eight();
    if n < 0x1_0000_0000 {
      DigitsFit(n, 16, 8);
    } else {
      DigitsExceed(n, 16, 8);
      DigitsLeading(n, 16);
      assert Hex08(n) == d;
    }
  }

  /** `b` to the power `k`. */
  function Pow(b: nat, k: nat): (r: nat)
    ensures b >= 1 ==> r >= 1
  {
    if k == 0 then 1 else b * Pow(b, k - 1)
  }

  lemma Pow16Eight()
    ensures Pow(16, 8) == 0x1_0000_0000
  {
    assert Pow(16, 2) == 0x100;
    assert Pow(16, 4) == 0x1_0000;
    assert Pow(16, 6) == 0x100_0000;
  }

  /** Below `b` to the `k`, at most `k` digits are written. */
  lemma {:induction false} DigitsFit(n: nat, b: nat, k: nat)
    requires 2 <= b <= 16 && k >= 1 && n < Pow(b, k)
    ensures |Digits(n, b)| <= k
    decreases k
  {
    if n >= b {
      DivModFacts(n, b);
      assert k > 1;
      QuotientBelow(n, b, Pow(b, k - 1));
      DigitsFit(n / b, b, k - 1);
    }
  }

  /** From `b` to the `k` on, more than `k` digits are written. */
  lemma {:induction false} DigitsExceed(n: nat, b: nat, k: nat)
    requires 2 <= b <= 16 && n >= Pow(b, k)
    ensures |Digits(n, b)| > k
    decreases k
  {
    if k > 0 {
      QuotientAbove(n, b, Pow(b, k - 1));
      DivModFacts(n, b);
      DigitsExceed(n / b, b, k - 1);
    }
  }

  /** A positive number's first digit is not a zero. */
  lemma {:induction false} DigitsLeading(n: nat, b: nat)
    requires 2 <= b <= 16 && n >= 1
    ensures Digits(n, b)[0] != '0'
    decreases n
  {
    if n >= b {
      DivModFacts(n, b);
      DigitsLeading(n / b, b);
    }
  }

  lemma QuotientBelow(n: nat, b: nat, p: nat)
    requires b >= 1 && n < b * p
    ensures n / b < p
  {
    var q := n / b;
    if q >= p {
      MulMono(b, p, q);
    }
  }

  lemma QuotientAbove(n: nat, b: nat, p: nat)
    requires b >= 2 && p >= 1 && n >= b * p
    ensures n >= b && n / b >= p
  {
    MulMono(b, 1, p);
    var q := n / b;
    if q < p {
      MulMono(b, q + 1, p);
    }
  }

  lemma MulMono(b: nat, x: nat, y: nat)
    requires x <= y
    ensures b * x <= b * y
  {
    assert b * y == b * x + b * (y - x);
  }
}
