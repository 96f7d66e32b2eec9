/** The pieces of Python's str behaviour the readers and the writer rely on:
    clamped slicing, character replacement, strip(), `in`, int() and decimal formatting. */
module Text {
  import opened Wrappers

  predicate IsDigit(c: char) { '0' <= c <= '9' }

  predicate AllDigits(s: string) { forall i :: 0 <= i < |s| ==> IsDigit(s[i]) }

  /** The characters str.strip() removes (the ASCII and C1 ones; see README). */
  predicate IsSpace(c: char) {
    var n := c as int;
    (9 <= n <= 13) || (28 <= n <= 32) || n == 0x85 || n == 0xA0
  }

  /** `s[a:b]` for non-negative bounds: both ends are clamped to the length. */
  function Slice(s: string, a: nat, b: nat): (r: string)
    ensures |r| == (if b <= a || a >= |s| then 0 else (if b <= |s| then b else |s|) - a)
  {
    var lo := if a <= |s| then a else |s|;
    var hi := if b <= |s| then b else |s|;
    if hi <= lo then [] else s[lo..hi]
  }

  /** Inside the string, the slice is the plain subsequence. */
  lemma SliceInside(s: string, a: nat, b: nat)
    requires a <= b <= |s|
    ensures Slice(s, a, b) == s[a..b]
  {
  }

  /** A slice bound as Python resolves it: a negative bound counts from the end, and the
      result is clamped to `0..len`. */
  function Bound(n: int, len: nat): (k: nat)
    ensures k <= len
  {
    if n < 0 then (if len + n < 0 then 0 else len + n) else if n > len then len else n
  }

  /** `s[a:b]` on a list, for any bounds. */
  function ListSlice<T>(s: seq<T>, a: int, b: int): (r: seq<T>)
    ensures Bound(a, |s|) <= Bound(b, |s|) ==> r == s[Bound(a, |s|)..Bound(b, |s|)]
    ensures Bound(b, |s|) < Bound(a, |s|) ==> r == []
  {
    var lo := Bound(a, |s|);
    var hi := Bound(b, |s|);
    if hi <= lo then [] else s[lo..hi]
  }

  /** `s.replace(x, y)` for single characters. */
  function ReplaceChar(s: string, x: char, y: char): (r: string)
    ensures |r| == |s|
    ensures forall k :: 0 <= k < |s| ==> r[k] == (if s[k] == x then y else s[k])
  {
    if s == [] then [] else ReplaceChar(s[..|s| - 1], x, y) + [if s[|s| - 1] == x then y else s[|s| - 1]]
  }

  /** `s.replace(c, '')`. */
  function DeleteChar(s: string, c: char): (r: string)
    ensures |r| <= |s|
    ensures forall k :: 0 <= k < |r| ==> r[k] != c && r[k] in s
  {
    if s == [] then []
    else if s[|s| - 1] == c then DeleteChar(s[..|s| - 1], c)
    else DeleteChar(s[..|s| - 1], c) + [s[|s| - 1]]
  }

  /** `replace` works character by character: on a concatenation it is the concatenation of
      the two replacements. */
  lemma ReplaceCharAppend(a: string, b: string, x: char, y: char)
    ensures ReplaceChar(a + b, x, y) == ReplaceChar(a, x, y) + ReplaceChar(b, x, y)
  {
  }

  /** Deleting a character keeps the others in their order: deletion distributes over a
      concatenation, and a single character is dropped exactly when it is `c`. */
  lemma {:induction false} DeleteCharAppend(a: string, b: string, c: char)
    ensures DeleteChar(a + b, c) == DeleteChar(a, c) + DeleteChar(b, c)
    decreases |b|
  {
    if b == [] {
      assert a + b == a;
    } else {
      var b' := b[..|b| - 1];
      assert (a + b)[..|a + b| - 1] == a + b';
      assert (a + b)[|a + b| - 1] == b[|b| - 1];
      DeleteCharAppend(a, b', c);
    }
  }

  /** A single character is dropped exactly when it is `c`. */
  lemma DeleteCharOne(x: char, c: char)
    ensures DeleteChar([x], c) == if x == c then [] else [x]
  {
    assert [x][..0] == [];
  }

  function StripLeft(s: string): (r: string)
    ensures |r| <= |s|
  {
    if s != [] && IsSpace(s[0]) then StripLeft(s[1..]) else s
  }

  function StripRight(s: string): (r: string)
    ensures |r| <= |s|
  {
    if s != [] && IsSpace(s[|s| - 1]) then StripRight(s[..|s| - 1]) else s
  }

  /** `s.lstrip()` is the longest suffix of `s` that does not start with white space. */
  lemma {:induction false} StripLeftCuts(s: string)
    ensures var r := StripLeft(s);
      && r == s[|s| - |r|..]
      && (forall k :: 0 <= k < |s| - |r| ==> IsSpace(s[k]))
      && (r != [] ==> !IsSpace(r[0]))
    decreases |s|
  {
    if s != [] && IsSpace(s[0]) {
      StripLeftCuts(s[1..]);
    }
  }

  /** `s.rstrip()` is the longest prefix of `s` that does not end with white space. */
  lemma {:induction false} StripRightCuts(s: string)
    ensures var r := StripRight(s);
      && r == s[..|r|]
      && (forall k :: |r| <= k < |s| ==> IsSpace(s[k]))
      && (r != [] ==> !IsSpace(r[|r| - 1]))
    decreases |s|
  {
    if s != [] && IsSpace(s[|s| - 1]) {
      StripRightCuts(s[..|s| - 1]);
    }
  }

  /** `r` is `s` with `a` characters of white space cut from its front and the rest of its
      length from its back. */
  predicate Trimmed(s: string, a: nat, r: string) {
    && a + |r| <= |s| && r == s[a..a + |r|]
    && (forall k :: 0 <= k < a ==> IsSpace(s[k]))
    && (forall k :: a + |r| <= k < |s| ==> IsSpace(s[k]))
  }

  /** `s.strip()`. */
  function Strip(s: string): (r: string)
    ensures |r| <= |s|
  {
    StripRight(StripLeft(s))
  }

  /** `s.strip()` is the part of `s` between its leading and its trailing white space. */
  lemma StripTrimmed(s: string)
    ensures exists a: nat :: Trimmed(s, a, Strip(s))
    ensures var r := Strip(s); r != [] ==> !IsSpace(r[0]) && !IsSpace(r[|r| - 1])
  {
    var l := StripLeft(s);
    var r := StripRight(l);
    var a: nat := |s| - |l|;
    StripLeftCuts(s);
    StripRightCuts(l);
    assert r == s[a..a + |r|];
    assert forall k :: a + |r| <= k < |s| ==> s[k] == l[k - a];
    assert r == Strip(s) && Trimmed(s, a, r);
  }

  /** `sub in s`. */
  predicate Contains(s: string, sub: string)
    decreases |s|
  {
    |sub| <= |s| && (s[..|sub|] == sub || (s != [] && Contains(s[1..], sub)))
  }

  function DigitValue(c: char): nat
    requires IsDigit(c)
  {
    (c as int - '0' as int) as nat
  }

  function DigitChar(d: nat): (c: char)
    requires d < 10
    ensures IsDigit(c) && DigitValue(c) == d
  {
    ('0' as int + d) as char
  }

  /** The value of a string of decimal digits. */
  function DigitsValue(s: string): nat
    requires AllDigits(s)
  {
    if s == [] then 0 else DigitsValue(s[..|s| - 1]) * 10 + DigitValue(s[|s| - 1])
  }

  /** `int(s)`: surrounding white space, an optional sign and at least one digit (see README).
      White space is taken off one character at a time, so `ParseInt(s)` reads `s.strip()`. */
  function ParseInt(s: string): (r: Option<int>)
    ensures r.Some? ==> |s| > 0
    decreases |s|
  {
    if |s| > 0 && IsSpace(s[0]) then ParseInt(s[1..])
    else if |s| > 0 && IsSpace(s[|s| - 1]) then ParseInt(s[..|s| - 1])
    else if |s| > 0 && (s[0] == '+' || s[0] == '-') then
      var v :- Digits(s[1..]);
      Some(if s[0] == '-' then -(v as int) else v)
    else Digits(s)
  }

  /** The value of a non-empty string of decimal digits, read left to right. */
  function Digits(b: string): (r: Option<nat>)
    ensures r.Some? ==> |b| > 0
  {
    if |b| == 0 || !IsDigit(b[|b| - 1]) then None
    else if |b| == 1 then Some(DigitValue(b[0]))
    else match Digits(b[..|b| - 1])
      case None => None
      case Some(v) => Some(v * 10 + DigitValue(b[|b| - 1]))
  }

  /** `Digits` accepts exactly the non-empty digit strings, with their decimal value. */
  lemma {:induction false} DigitsSpec(b: string)
    ensures Digits(b).Some? <==> |b| > 0 && AllDigits(b)
    ensures Digits(b).Some? ==> Digits(b).value == DigitsValue(b)
  {
    if |b| > 1 {
      var c := b[..|b| - 1];
      DigitsSpec(c);
      if IsDigit(b[|b| - 1]) && AllDigits(c) {
        assert AllDigits(b) by {
          forall k | 0 <= k < |b| ensures IsDigit(b[k]) { if k < |b| - 1 { assert b[k] == c[k]; } }
        }
      }
      if AllDigits(b) {
        assert AllDigits(c) by {
          forall k | 0 <= k < |c| ensures IsDigit(c[k]) { assert c[k] == b[k]; }
        }
      }
    } else if |b| == 1 {
      assert b[..0] == [];
    }
  }

  /** The length of the run of digits that starts at `p`. */
  function DigitRun(s: string, p: nat): (n: nat)
    requires p <= |s|
    ensures p + n <= |s|
    ensures p + n == |s| || !IsDigit(s[p + n])
    decreases |s| - p
  {
    if p < |s| && IsDigit(s[p]) then 1 + DigitRun(s, p + 1) else 0
  }

  /** The run `DigitRun` measures is made of digits only. */
  lemma {:induction false} DigitRunDigits(s: string, p: nat)
    requires p <= |s|
    ensures forall k :: p <= k < p + DigitRun(s, p) ==> IsDigit(s[k])
    decreases |s| - p
  {
    if p < |s| && IsDigit(s[p]) { DigitRunDigits(s, p + 1); }
  }

  /** `int(float(s))` for the plain decimal forms `[sign]digits[.digits]` and `[sign].digits`,
      truncated toward zero (other float spellings are not modelled, see README). */
  function TruncFloat(s: string): (r: Option<int>)
    ensures r.Some? ==> |s| > 0
    decreases |s|
  {
    if |s| > 0 && IsSpace(s[0]) then TruncFloat(s[1..])
    else if |s| > 0 && IsSpace(s[|s| - 1]) then TruncFloat(s[..|s| - 1])
    else
      var b := if |s| > 0 && (s[0] == '+' || s[0] == '-') then s[1..] else s;
      var whole :- Decimal(b, 0, 0, false, false);
      Some(if |s| > 0 && s[0] == '-' then -(whole as int) else whole)
  }

  /** The whole part of the decimal numeral `b` read from `p` on, with `whole` the digits before
      the point read so far, `point` whether the point has been passed and `digits` whether any
      digit has been seen; `None` unless `b` is digits with at most one point and a digit. */
  function Decimal(b: string, p: nat, whole: nat, point: bool, digits: bool): (r: Option<nat>)
    requires p <= |b|
    ensures r.Some? ==> digits || p < |b|
    decreases |b| - p
  {
    if p == |b| then (if digits then Some(whole) else None)
    else if IsDigit(b[p]) then Decimal(b, p + 1, if point then whole else whole * 10 + DigitValue(b[p]), point, true)
    else if b[p] == '.' && !point then Decimal(b, p + 1, whole, true, digits)
    else None
  }

  function Pow10(n: nat): (p: nat)
    ensures p >= 1
  {
    if n == 0 then 1 else 10 * Pow10(n - 1)
  }

  /** A string of `n` digits is worth less than `10^n`. */
  lemma {:induction false} DigitsValueBound(s: string)
    requires AllDigits(s)
    ensures DigitsValue(s) < Pow10(|s|)
  {
    if s != [] { DigitsValueBound(s[..|s| - 1]); }
  }

  /** Leading white space does not change what `int()` reads. */
  lemma {:induction false} ParseIntLeftPad(pad: string, s: string)
    requires forall k :: 0 <= k < |pad| ==> IsSpace(pad[k])
    ensures ParseInt(pad + s) == ParseInt(s)
  {
    if pad != [] {
      assert (pad + s)[1..] == pad[1..] + s;
      ParseIntLeftPad(pad[1..], s);
    } else {
      assert pad + s == s;
    }
  }

  /** `int()` reads an optional sign followed by digits as the signed decimal value. */
  lemma ParseIntPlain(sign: string, w: string)
    requires sign == "" || sign == "+" || sign == "-"
    requires |w| > 0 && AllDigits(w)
    ensures ParseInt(sign + w) == Some(if sign == "-" then -(DigitsValue(w) as int) else DigitsValue(w))
  {
    var s := sign + w;
    assert s[|s| - 1] == w[|w| - 1];
    DigitsSpec(w);
    if sign != "" {
      assert s[1..] == w;
    } else {
      assert s == w;
    }
  }

  /** Reading the digits before the point accumulates their decimal value. */
  lemma {:induction false} DecimalWhole(b: string, n: nat)
    requires n <= |b| && AllDigits(b[..n])
    ensures Decimal(b, 0, 0, false, false) == Decimal(b, n, DigitsValue(b[..n]), false, n > 0)
  {
    if n > 0 {
      assert b[..n][..n - 1] == b[..n - 1];
      assert b[..n][n - 1] == b[n - 1];
      var c := b[..n - 1];
      assert AllDigits(c) by {
        forall k | 0 <= k < |c| ensures IsDigit(c[k]) { assert c[k] == b[..n][k]; }
      }
      DecimalWhole(b, n - 1);
    } else {
      assert b[..0] == [];
    }
  }

  /** Past the point only digits may follow, and they leave the whole part alone. */
  lemma {:induction false} DecimalFraction(b: string, p: nat, whole: nat, digits: bool)
    requires p <= |b|
    requires forall k :: p <= k < |b| ==> IsDigit(b[k])
    ensures Decimal(b, p, whole, true, digits) == if digits || p < |b| then Some(whole) else None
    decreases |b| - p
  {
    if p < |b| { DecimalFraction(b, p + 1, whole, true); }
  }

  /** A numeral with its point at `n`, digits on both sides and at least one digit, reads as the
      value of the digits before the point. */
  lemma DecimalPointAt(b: string, n: nat)
    requires n < |b| && b[n] == '.' && AllDigits(b[..n]) && (n > 0 || n + 1 < |b|)
    requires forall k :: n + 1 <= k < |b| ==> IsDigit(b[k])
    ensures Decimal(b, 0, 0, false, false) == Some(DigitsValue(b[..n]))
  {
    DecimalWhole(b, n);
    assert Decimal(b, n, DigitsValue(b[..n]), false, n > 0) == Decimal(b, n + 1, DigitsValue(b[..n]), true, n > 0);
    DecimalFraction(b, n + 1, DigitsValue(b[..n]), n > 0);
  }

  /** `digits.digits` (not both runs empty) reads as the value of its whole part. */
  lemma DecimalPoint(w: string, f: string)
    requires AllDigits(w) && AllDigits(f) && |w| + |f| > 0
    ensures Decimal(w + "." + f, 0, 0, false, false) == Some(DigitsValue(w))
  {
    var b := w + "." + f;
    assert b[..|w|] == w;
    assert b[|w|] == '.';
    assert forall k :: |w| + 1 <= k < |b| ==> IsDigit(b[k]) by {
      forall k | |w| + 1 <= k < |b| ensures IsDigit(b[k]) { assert b[k] == f[k - |w| - 1]; }
    }
    DecimalPointAt(b, |w|);
  }

  /** Between a sign and a numeral that neither starts nor ends with white space, `int(float())`
      reads the numeral's whole part with that sign. */
  lemma TruncFloatSigned(sign: string, b: string)
    requires sign == "" || sign == "+" || sign == "-"
    requires b != [] && !IsSpace(b[0]) && !IsSpace(b[|b| - 1]) && b[0] != '+' && b[0] != '-'
    ensures var d := Decimal(b, 0, 0, false, false);
      TruncFloat(sign + b) == if d.None? then None else Some(if sign == "-" then -(d.value as int) else d.value)
  {
    var s := sign + b;
    assert s[|s| - 1] == b[|b| - 1];
    if sign != "" { assert s[1..] == b; } else { assert s == b; }
  }

  /** `int(float(s))` of `[sign]digits.digits` (either digit run may be empty, not both) is the
      sign times the whole part: the fraction is cut off, not rounded. */
  lemma TruncFloatPoint(sign: string, w: string, f: string)
    requires sign == "" || sign == "+" || sign == "-"
    requires AllDigits(w) && AllDigits(f) && |w| + |f| > 0
    ensures TruncFloat(sign + (w + "." + f)) == Some(if sign == "-" then -(DigitsValue(w) as int) else DigitsValue(w))
  {
    var b := w + "." + f;
    assert b[|b| - 1] == if f == [] then '.' else f[|f| - 1];
    assert b[0] == if w == [] then '.' else w[0];
    DecimalPoint(w, f);
    TruncFloatSigned(sign, b);
  }

  /** `int(float(s))` of `[sign]digits` is the signed decimal value, as `int(s)` reads it. */
  lemma TruncFloatWhole(sign: string, w: string)
    requires sign == "" || sign == "+" || sign == "-"
    requires |w| > 0 && AllDigits(w)
    ensures TruncFloat(sign + w) == Some(if sign == "-" then -(DigitsValue(w) as int) else DigitsValue(w))
    ensures TruncFloat(sign + w) == ParseInt(sign + w)
  {
    assert w[..|w|] == w;
    DecimalWhole(w, |w|);
    TruncFloatSigned(sign, w);
    ParseIntPlain(sign, w);
  }

  /** Leading white space does not change what `int(float())` reads. */
  lemma {:induction false} TruncFloatLeftPad(pad: string, s: string)
    requires forall k :: 0 <= k < |pad| ==> IsSpace(pad[k])
    ensures TruncFloat(pad + s) == TruncFloat(s)
  {
    if pad != [] {
      assert (pad + s)[1..] == pad[1..] + s;
      TruncFloatLeftPad(pad[1..], s);
    } else {
      assert pad + s == s;
    }
  }

  /** Two readings as the RINEX columns hold them: a padded positive number and a negative one. */
  lemma TruncFloatExamples()
    ensures TruncFloat(" 5.0") == Some(5)
    ensures TruncFloat("-1.5") == Some(-1)
  {
    TruncFloatLeftPad(" ", "5.0");
    assert " 5.0" == " " + "5.0";
    TruncFloatPoint("", "5", "0");
    assert "5.0" == "" + ("5" + "." + "0");
    TruncFloatPoint("-", "1", "5");
    assert "-1.5" == "-" + ("1" + "." + "5");
  }

  /** What int() reads from at most two columns lies between -9 and 99. */
  lemma {:induction false} ParseIntTwoColumns(s: string)
    requires |s| <= 2 && ParseInt(s).Some?
    ensures -9 <= ParseInt(s).value <= 99
    decreases |s|
  {
    if IsSpace(s[0]) {
      ParseIntTwoColumns(s[1..]);
    } else if IsSpace(s[|s| - 1]) {
      ParseIntTwoColumns(s[..|s| - 1]);
    } else if s[0] == '+' || s[0] == '-' {
      DigitsSpec(s[1..]);
      DigitsValueBound(s[1..]);
    } else {
      DigitsSpec(s);
      DigitsValueBound(s);
    }
  }

  /** `str(n)` for a natural number. */
  function NatToString(n: nat): (s: string)
    ensures |s| > 0 && AllDigits(s)
  {
    if n < 10 then [DigitChar(n)] else NatToString(n / 10) + [DigitChar(n % 10)]
  }

  function Repeat(c: char, n: nat): (s: string)
    ensures |s| == n && forall k :: 0 <= k < n ==> s[k] == c
  {
    if n == 0 then [] else Repeat(c, n - 1) + [c]
  }

  /** `'%0wd' % n`: at least `w` digits, zero-filled on the left. */
  function ZeroPad(n: nat, w: nat): (s: string)
    ensures AllDigits(s)
    ensures |s| == if |NatToString(n)| < w then w else |NatToString(n)|
  {
    var d := NatToString(n);
    if |d| < w then Repeat('0', w - |d|) + d else d
  }

  lemma {:induction false} DigitsValueOfNatToString(n: nat)
    ensures DigitsValue(NatToString(n)) == n
  {
    if n >= 10 {
      DigitsValueOfNatToString(n / 10);
      var s := NatToString(n);
      assert s[..|s| - 1] == NatToString(n / 10);
    }
  }

  lemma {:induction false} DigitsValueLeadingZeros(z: nat, s: string)
    requires AllDigits(s)
    ensures AllDigits(Repeat('0', z) + s)
    ensures DigitsValue(Repeat('0', z) + s) == DigitsValue(s)
  {
    var t := Repeat('0', z) + s;
    if s == [] {
      assert t == Repeat('0', z);
      if z > 0 {
        assert t[..|t| - 1] == Repeat('0', z - 1) + [];
        DigitsValueLeadingZeros(z - 1, []);
      }
    } else {
      assert t[..|t| - 1] == Repeat('0', z) + s[..|s| - 1];
      DigitsValueLeadingZeros(z, s[..|s| - 1]);
    }
  }

  /** `str(n)` has `w` digits exactly when `10^(w-1) <= n < 10^w`. */
  lemma {:induction false} NatToStringWidth(n: nat, w: nat)
    requires 0 < w && Pow10(w - 1) <= n < Pow10(w)
    ensures |NatToString(n)| == w
  {
    if w > 1 {
      NatToStringWidth(n / 10, w - 1);
    } else {
      assert n < 10;
    }
  }

  /** `str(n)` of a number below `10^w` takes at most `w` digits. */
  lemma {:induction false} NatToStringAtMost(n: nat, w: nat)
    requires 0 < w && n < Pow10(w)
    ensures |NatToString(n)| <= w
  {
    if n >= 10 {
      assert w > 1;
      NatToStringAtMost(n / 10, w - 1);
    }
  }

  /** A number below `10^w` zero-filled to `w` digits takes exactly `w` columns. */
  lemma ZeroPadWidth(n: nat, w: nat)
    requires 0 < w && n < Pow10(w)
    ensures |ZeroPad(n, w)| == w
  {
    NatToStringAtMost(n, w);
  }

  /** The digits of a zero-filled number are worth the number. */
  lemma ZeroPadValue(n: nat, w: nat)
    ensures DigitsValue(ZeroPad(n, w)) == n
  {
    var d := NatToString(n);
    DigitsValueOfNatToString(n);
    if |d| < w { DigitsValueLeadingZeros(w - |d|, d); }
  }

  /** What the writer prints as a zero-filled number, int() reads back. */
  lemma ParseZeroPad(n: nat, w: nat)
    ensures ParseInt(ZeroPad(n, w)) == Some(n)
  {
    var s := ZeroPad(n, w);
    ZeroPadValue(n, w);
    DigitsSpec(s);
    assert IsDigit(s[0]) && IsDigit(s[|s| - 1]);
  }
}
