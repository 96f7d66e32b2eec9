/** The coefficient-token scan both navigation readers run on a record's data columns:
    `re.findall('[- ]\d+\.\d+E[+-]\d+', raw, re.IGNORECASE)`, and when that finds nothing
    the fallback `[- ]\.\d+E[+-]\d+` whose matches get a `0` before the point. */
module Tokens {
  import opened Wrappers
  import opened Text

  predicate IsLead(c: char) { c == '-' || c == ' ' }

  /** `E` under re.IGNORECASE. */
  predicate IsExpMark(c: char) { c == 'E' || c == 'e' }

  predicate IsExpSign(c: char) { c == '+' || c == '-' }

  /** `s[p..q]` splits as lead, digits, the point at `d`, digits, the exponent mark at `e`, the
      exponent sign and digits (positions in `s`); with `leading` at least one digit precedes the
      point, without it none does. */
  predicate ShapeIn(s: string, p: nat, q: nat, leading: bool, d: nat, e: nat) {
    && p < d && d + 1 < e && e + 2 < q <= |s|
    && IsLead(s[p])
    && (if leading then p + 2 <= d else d == p + 1)
    && (forall k :: p + 1 <= k < d ==> IsDigit(s[k]))
    && s[d] == '.'
    && (forall k :: d + 1 <= k < e ==> IsDigit(s[k]))
    && IsExpMark(s[e]) && IsExpSign(s[e + 1])
    && (forall k :: e + 2 <= k < q ==> IsDigit(s[k]))
  }

  /** `t` is a whole match of the primary pattern (`leading`) or of the fallback pattern. */
  ghost predicate Shape(t: string, leading: bool) {
    exists d: nat, e: nat :: ShapeIn(t, 0, |t|, leading, d, e)
  }

  /** A piece of `s` of the pattern's form, cut out, keeps that form. */
  lemma ShapeInToSlice(s: string, p: nat, q: nat, leading: bool, d: nat, e: nat)
    requires p <= q <= |s| && p <= d && p <= e
    requires ShapeIn(s, p, q, leading, d, e)
    ensures ShapeIn(s[p..q], 0, q - p, leading, d - p, e - p)
  {
    assert forall k :: 0 <= k < q - p ==> s[p..q][k] == s[p + k];
  }

  /** A piece of `s` that has the pattern's form once cut out has it in place. */
  lemma ShapeInFromSlice(s: string, p: nat, q: nat, leading: bool, d: nat, e: nat)
    requires p <= q <= |s| && p <= d && p <= e
    requires ShapeIn(s[p..q], 0, q - p, leading, d - p, e - p)
    ensures ShapeIn(s, p, q, leading, d, e)
  {
    forall k | p <= k < q ensures s[k] == s[p..q][k - p] { }
  }

  /** Where the match of the pattern that starts at `p` ends, if there is one. Every `\d+`
      is greedy and digits, the point and the exponent mark are disjoint, so the match is unique. */
  function MatchAt(s: string, p: nat, leading: bool): (r: Option<nat>)
    requires p <= |s|
    ensures r.Some? ==> p < r.value <= |s|
    ensures r.Some? ==> r.value == |s| || !IsDigit(s[r.value])
  {
    if p >= |s| || !IsLead(s[p]) then None
    else
      var n1 := if leading then DigitRun(s, p + 1) else 0;
      var d := p + 1 + n1;
      if (leading && n1 == 0) || d >= |s| || s[d] != '.' then None
      else
        var n2 := DigitRun(s, d + 1);
        var e := d + 1 + n2;
        if n2 == 0 || e + 1 >= |s| || !IsExpMark(s[e]) || !IsExpSign(s[e + 1]) then None
        else
          var n3 := DigitRun(s, e + 2);
          if n3 == 0 then None else Some(e + 2 + n3)
  }

  /** What `MatchAt` finds has the pattern's form. */
  lemma MatchAtSound(s: string, p: nat, leading: bool)
    requires p <= |s| && MatchAt(s, p, leading).Some?
    ensures Shape(s[p..MatchAt(s, p, leading).value], leading)
  {
    var n1 := if leading then DigitRun(s, p + 1) else 0;
    var d := p + 1 + n1;
    var n2 := DigitRun(s, d + 1);
    var e := d + 1 + n2;
    var q := MatchAt(s, p, leading).value;
    DigitRunDigits(s, p + 1);
    DigitRunDigits(s, d + 1);
    DigitRunDigits(s, e + 2);
    assert ShapeIn(s, p, q, leading, d, e);
    ShapeInToSlice(s, p, q, leading, d, e);
  }

  /** The match at `p` is the longest string of the pattern's form that starts at `p`. */
  lemma MatchAtComplete(s: string, p: nat, q: nat, leading: bool, d: nat, e: nat)
    requires p <= q <= |s| && ShapeIn(s[p..q], 0, q - p, leading, d, e)
    ensures MatchAt(s, p, leading).Some? && q <= MatchAt(s, p, leading).value
  {
    ShapeInFromSlice(s, p, q, leading, p + d, p + e);
    MatchAtLongest(s, p, q, leading, p + d, p + e);
  }

  /** The same, with the piece's point and exponent mark at `d` and `e` in `s`. */
  lemma MatchAtLongest(s: string, p: nat, q: nat, leading: bool, d: nat, e: nat)
    requires ShapeIn(s, p, q, leading, d, e)
    ensures MatchAt(s, p, leading).Some? && q <= MatchAt(s, p, leading).value
  {
    if leading {
      DigitRunExact(s, p + 1, d - p - 1);
    }
    DigitRunExact(s, d + 1, e - d - 1);
    DigitRunAtLeast(s, e + 2, q - e - 2);
    MatchAtUnfold(s, p, leading, d, e);
  }

  /** The steps of `MatchAt` once every run of digits is known. */
  lemma MatchAtUnfold(s: string, p: nat, leading: bool, d: nat, e: nat)
    requires p < d && d + 1 < e && e + 2 < |s|
    requires IsLead(s[p]) && s[d] == '.' && IsExpMark(s[e]) && IsExpSign(s[e + 1])
    requires if leading then p + 2 <= d && DigitRun(s, p + 1) == d - p - 1 else d == p + 1
    requires DigitRun(s, d + 1) == e - d - 1 && DigitRun(s, e + 2) > 0
    ensures MatchAt(s, p, leading) == Some(e + 2 + DigitRun(s, e + 2))
  {
  }

  lemma DigitRunExact(s: string, a: nat, n: nat)
    requires a + n < |s| && !IsDigit(s[a + n])
    requires forall k :: a <= k < a + n ==> IsDigit(s[k])
    ensures DigitRun(s, a) == n
    decreases n
  {
    if n > 0 { DigitRunExact(s, a + 1, n - 1); }
  }

  lemma DigitRunAtLeast(s: string, a: nat, n: nat)
    requires a + n <= |s|
    requires forall k :: a <= k < a + n ==> IsDigit(s[k])
    ensures DigitRun(s, a) >= n
    decreases n
  {
    if n > 0 { DigitRunAtLeast(s, a + 1, n - 1); }
  }

  /** Where a match starts at each of the first `n` positions of `s` and where it ends: the
      table the scan reads. */
  function Table(s: string, leading: bool, n: nat): (t: seq<Option<nat>>)
    requires n <= |s| + 1
    ensures |t| == n
    ensures forall i :: 0 <= i < n && t[i].Some? ==> i < t[i].value <= |s|
  {
    if n == 0 then [] else Table(s, leading, n - 1) + [MatchAt(s, n - 1, leading)]
  }

  /** The table records, at each position, the match that starts there. */
  lemma {:induction false} TableAt(s: string, leading: bool, n: nat)
    requires n <= |s| + 1
    ensures forall i :: 0 <= i < n ==> Table(s, leading, n)[i] == MatchAt(s, i, leading)
  {
    if n > 0 { TableAt(s, leading, n - 1); }
  }

  /** Every match in the table ends after it starts and no later than the end of the text. */
  predicate Forward(t: seq<Option<nat>>) {
    forall i :: 0 <= i < |t| && t[i].Some? ==> i < t[i].value < |t|
  }

  /** The scan of `re.findall` from `p` over a table of matches: take the match at `p` whole and
      go on where it ends, or move on by one. */
  function Scan(t: seq<Option<nat>>, p: nat): (sp: seq<(nat, nat)>)
    requires Forward(t) && p < |t|
    ensures forall k :: 0 <= k < |sp| ==> p <= sp[k].0 < sp[k].1 < |t|
    ensures forall i, j :: 0 <= i < j < |sp| ==> sp[i].1 <= sp[j].0
    decreases |t| - p
  {
    if p == |t| - 1 then []
    else match t[p]
      case Some(q) => [(p, q)] + Scan(t, q)
      case None => Scan(t, p + 1)
  }

  /** Every span of the scan is a match of the table. */
  lemma {:induction false} ScanMatches(t: seq<Option<nat>>, p: nat)
    requires Forward(t) && p < |t|
    ensures forall k :: 0 <= k < |Scan(t, p)| ==> t[Scan(t, p)[k].0] == Some(Scan(t, p)[k].1)
    decreases |t| - p
  {
    if p < |t| - 1 {
      if t[p].Some? {
        ScanMatches(t, t[p].value);
        var sp := Scan(t, p);
        var rest := Scan(t, t[p].value);
        assert sp == [(p, t[p].value)] + rest;
        forall k | 1 <= k < |sp| ensures t[sp[k].0] == Some(sp[k].1) {
          assert sp[k] == rest[k - 1];
          assert t[rest[k - 1].0] == Some(rest[k - 1].1);
        }
      } else {
        ScanMatches(t, p + 1);
        assert Scan(t, p) == Scan(t, p + 1);
      }
    }
  }

  /** Nothing is missed: every position from `p` on where a match starts lies inside the
      `k`-th span of the scan. */
  lemma {:induction false} ScanComplete(t: seq<Option<nat>>, p: nat, q: nat) returns (k: nat)
    requires Forward(t) && p <= q < |t| && t[q].Some?
    ensures k < |Scan(t, p)| && Scan(t, p)[k].0 <= q < Scan(t, p)[k].1
    decreases |t| - p
  {
    var sp := Scan(t, p);
    if t[p].Some? {
      var rest := Scan(t, t[p].value);
      assert sp == [(p, t[p].value)] + rest;
      if q < t[p].value {
        k := 0;
      } else {
        var j := ScanComplete(t, t[p].value, q);
        assert sp[j + 1] == rest[j];
        k := j + 1;
      }
    } else {
      k := ScanComplete(t, p + 1, q);
    }
  }

  /** `re.findall` over `s`: the spans of the leftmost matches, left to right, each search
      starting where the previous match ended. */
  function FindAll(s: string, leading: bool): (sp: seq<(nat, nat)>)
    ensures forall k :: 0 <= k < |sp| ==> sp[k].0 < sp[k].1 <= |s|
    ensures forall i, j :: 0 <= i < j < |sp| ==> sp[i].1 <= sp[j].0
  {
    Scan(Table(s, leading, |s| + 1), 0)
  }

  /** Every span `FindAll` returns is a whole match, and every place where a match starts
      lies inside one of them. */
  lemma FindAllSpans(s: string, leading: bool)
    ensures var sp := FindAll(s, leading);
      forall k :: 0 <= k < |sp| ==> MatchAt(s, sp[k].0, leading) == Some(sp[k].1)
    ensures var sp := FindAll(s, leading);
      forall q :: 0 <= q < |s| && MatchAt(s, q, leading).Some? ==>
        exists k :: 0 <= k < |sp| && sp[k].0 <= q < sp[k].1
  {
    var t := Table(s, leading, |s| + 1);
    var sp := FindAll(s, leading);
    TableAt(s, leading, |s| + 1);
    ScanMatches(t, 0);
    forall q | 0 <= q < |s| && MatchAt(s, q, leading).Some?
      ensures exists k :: 0 <= k < |sp| && sp[k].0 <= q < sp[k].1
    {
      var k := ScanComplete(t, 0, q);
      assert sp[k].0 <= q < sp[k].1;
    }
  }

  /** The matched texts, in order. */
  function Texts(s: string, spans: seq<(nat, nat)>): (ts: seq<string>)
    requires forall k :: 0 <= k < |spans| ==> spans[k].0 <= spans[k].1 <= |s|
    ensures |ts| == |spans|
    ensures forall k :: 0 <= k < |spans| ==> ts[k] == s[spans[k].0..spans[k].1]
  {
    if spans == [] then [] else [s[spans[0].0..spans[0].1]] + Texts(s, spans[1..])
  }

  /** `raw.replace('D', 'E').replace('\n', '').replace('e', 'E')`. */
  function Normalize(raw: string): (s: string)
    ensures forall k :: 0 <= k < |s| ==> s[k] != 'D' && s[k] != 'e' && s[k] != '\n'
  {
    ReplaceChar(DeleteChar(ReplaceChar(raw, 'D', 'E'), '\n'), 'e', 'E')
  }

  /** The replacements work character by character, keeping the order. */
  lemma NormalizeAppend(a: string, b: string)
    ensures Normalize(a + b) == Normalize(a) + Normalize(b)
  {
    var a1, b1 := ReplaceChar(a, 'D', 'E'), ReplaceChar(b, 'D', 'E');
    ReplaceCharAppend(a, b, 'D', 'E');
    DeleteCharAppend(a1, b1, '\n');
    ReplaceCharAppend(DeleteChar(a1, '\n'), DeleteChar(b1, '\n'), 'e', 'E');
  }

  /** One character: a newline is dropped, `D` and `e` become `E`, any other is kept. */
  lemma NormalizeOne(x: char)
    ensures Normalize([x]) == if x == '\n' then [] else if x == 'D' || x == 'e' then "E" else [x]
  {
    var y := if x == 'D' then 'E' else x;
    assert ReplaceChar([x], 'D', 'E') == [y] by {
      assert [x][..0] == [];
    }
    DeleteCharOne(y, '\n');
    if y != '\n' {
      assert [y][..0] == [];
    }
  }

  /** `t.replace('.', '0.')`. */
  function PatchZero(t: string): (r: string)
  {
    if t == [] then [] else (if t[0] == '.' then "0." else [t[0]]) + PatchZero(t[1..])
  }

  function MatchTexts(s: string, leading: bool): (ts: seq<string>)
    ensures forall k :: 0 <= k < |ts| ==> Shape(ts[k], leading)
  {
    var sp := FindAll(s, leading);
    var ts := Texts(s, sp);
    FindAllSpans(s, leading);
    assert forall k :: 0 <= k < |ts| ==> Shape(ts[k], leading) by {
      forall k | 0 <= k < |ts| ensures Shape(ts[k], leading) { MatchAtSound(s, sp[k].0, leading); }
    }
    ts
  }

  /** The raw coefficient tokens of one record's concatenated data columns. */
  function ExtractTokens(raw: string): (ts: seq<string>)
    ensures forall k :: 0 <= k < |ts| ==> Shape(ts[k], true)
  {
    var s := Normalize(raw);
    var primary := MatchTexts(s, true);
    if |primary| > 0 then primary else PatchAll(MatchTexts(s, false))
  }

  /** `list(map(lambda x: x.replace('.', '0.'), ts))` over fallback matches. */
  function PatchAll(ts: seq<string>): (r: seq<string>)
    requires forall k :: 0 <= k < |ts| ==> Shape(ts[k], false)
    ensures |r| == |ts|
    ensures forall k :: 0 <= k < |ts| ==> r[k] == PatchZero(ts[k]) && Shape(r[k], true)
  {
    if ts == [] then []
    else
      PatchZeroShape(ts[0]);
      [PatchZero(ts[0])] + PatchAll(ts[1..])
  }

  /** A fallback match with its point patched to `0.` has the primary form. */
  lemma PatchZeroShape(t: string)
    requires Shape(t, false)
    ensures Shape(PatchZero(t), true)
    ensures PatchZero(t) == t[..1] + "0" + t[1..]
  {
    var d: nat, e: nat :| ShapeIn(t, 0, |t|, false, d, e);
    assert forall k :: 2 <= k < |t| ==> t[k] != '.';
    PatchZeroFallback(t);
    var r := PatchZero(t);
    assert ShapeIn(r, 0, |r|, true, 2, e + 1) by {
      assert forall k :: 2 <= k < |r| ==> r[k] == t[k - 1];
    }
  }

  /** Patching a fallback match puts a `0` just before its point, the only point it has. */
  lemma PatchZeroFallback(t: string)
    requires |t| >= 2 && t[0] != '.' && t[1] == '.'
    requires forall k :: 2 <= k < |t| ==> t[k] != '.'
    ensures PatchZero(t) == t[..1] + "0" + t[1..]
  {
    PatchZeroNoPoint(t[2..]);
    assert t[1..][1..] == t[2..];
    assert PatchZero(t[1..]) == "0." + t[2..];
    assert t[..1] + "0" + t[1..] == [t[0]] + "0." + t[2..];
  }

  lemma {:induction false} PatchZeroNoPoint(t: string)
    requires forall k :: 0 <= k < |t| ==> t[k] != '.'
    ensures PatchZero(t) == t
  {
    if t != [] { PatchZeroNoPoint(t[1..]); }
  }
}
