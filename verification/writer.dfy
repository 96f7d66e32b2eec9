/** `rinex_writer.py`: the merged navigation data as a RINEX 3.03 file. The file is named after
    the date most file names announced; its header holds the version line, one line per
    ionospheric correction label and the end line; its records hold, per satellite and epoch,
    the right coefficient of every slot, padded with zeros to the longest record. The text
    the source writes to the file is returned here as a string. */
module Writer {
  import opened Wrappers
  import opened ODicts
  import opened Epochs
  import opened Text
  import opened Sorting
  import opened NavData
  import opened Merger
  import opened Searcher
  import opened Merging
  import Nav3

  const VersionLine := "     3.03           N: GNSS NAV DATA    G: GPS              RINEX VERSION / TYPE\n"
  const EndLine := "                                                            END OF HEADER       \n"

  /** What follows the fourth coefficient of an ionospheric line: the label in column 60. */
  const IonoTail := "       IONOSPHERIC CORR    \n"

  /** The filler `add_ods` puts in place of a missing coefficient: eleven spaces. */
  const Blank := "           "

  /** The value written for a slot a record does not have. */
  const Zero := " 0.000000000000E+00"

  /** A line break inside a record: the next line starts four columns in. */
  const Wrap := "\n    "

  // ---------------------------------------------------------------------------------------
  // The file name

  /** The votes of a date; a date nobody voted for has none. */
  function VotesFor(votes: ODict<FileDate, nat>): FileDate -> nat {
    d => if d in votes.m then votes.m[d] else 0
  }

  /** `sorted(datetimes, key=votes, reverse=True)[0]`; with no date at all, IndexError. */
  function ChooseDate(votes: ODict<FileDate, nat>): (r: Result<FileDate>)
    ensures r.Ok? ==> r.value in votes.keys
  {
    var order := SortDesc(votes.keys, VotesFor(votes));
    if order == [] then Err(IndexError)
    else
      assert order[0] in multiset(votes.keys);
      Ok(order[0])
  }

  /** The date chosen is one of most votes, and of those the first in voting order; only an
      empty vote table makes the choice raise. */
  lemma ChooseDateMost(votes: ODict<FileDate, nat>)
    ensures ChooseDate(votes).Err? <==> votes.keys == []
    ensures ChooseDate(votes).Err? ==> ChooseDate(votes).error == IndexError
    ensures ChooseDate(votes).Ok? ==>
      var d := ChooseDate(votes).value;
      var n := VotesFor(votes);
      && (forall k :: 0 <= k < |votes.keys| ==> n(votes.keys[k]) <= n(d))
      && exists j :: 0 <= j < |votes.keys| && votes.keys[j] == d && forall k :: 0 <= k < j ==> n(votes.keys[k]) < n(d)
  {
    if votes.keys != [] {
      SortDescFirst(votes.keys, VotesFor(votes));
    }
  }

  /** `'aaaa' + %j + '0' + '.' + %y + 'n'`: the short RINEX 2 name of a navigation file. */
  function FileName(d: FileDate): (name: string)
    requires Dated(d)
    ensures |name| == 12
  {
    ZeroPadWidth(d.doy, 3);
    ZeroPadWidth(d.year % 100, 2);
    "aaaa" + ZeroPad(d.doy, 3) + "0" + "." + ZeroPad(d.year % 100, 2) + "n"
  }

  /** Reading the written name back gives the day and the two-digit year, which the reader
      places in 1969 to 2068. */
  lemma FileNameReads(d: FileDate)
    requires Dated(d)
    ensures DateFromFileName(FileName(d)) == StrpDate(Pivot(d.year % 100), d.doy)
  {
    var name := FileName(d);
    var j, y := ZeroPad(d.doy, 3), ZeroPad(d.year % 100, 2);
    ZeroPadWidth(d.doy, 3);
    ZeroPadWidth(d.year % 100, 2);
    assert name == "aaaa" + j + "0" + "." + y + "n";
    assert forall k :: 4 <= k < 7 ==> name[k] == j[k - 4];
    assert forall k :: 9 <= k < 11 ==> name[k] == y[k - 9];
    assert name[4..7] == j;
    assert name[9..11] == y;
    assert ShortAt(name, 0);
    SearchNameAt(name, 0, 0);
    ShortNameDate(name, 0);
    ZeroPadValue(d.doy, 3);
    ZeroPadValue(d.year % 100, 2);
  }

  /** For a date from 1969 to 2068 the name round-trips: it announces the date itself. */
  lemma FileNameRoundTrip(d: FileDate)
    requires Dated(d) && 1969 <= d.year <= 2068
    ensures DateFromFileName(FileName(d)) == Ok(d)
  {
    FileNameReads(d);
    PivotYear(d.year);
  }

  /** The years `%y` reads back as themselves. */
  lemma PivotYear(y: nat)
    requires 1969 <= y <= 2068
    ensures Pivot(y % 100) == y
  {
    if y < 2000 {
      assert y % 100 == y - 1900;
    } else {
      assert y % 100 == y - 2000;
    }
  }

  // ---------------------------------------------------------------------------------------
  // The header

  /** `widthAlignKey`: the label filled with spaces to four columns (a longer one is kept). */
  function AlignKey(key: string): (r: string)
    ensures |r| == if |key| < 4 then 4 else |key|
    ensures r[..|key|] == key && forall k :: |key| <= k < |r| ==> r[k] == ' '
  {
    key + Repeat(' ', if |key| < 4 then 4 - |key| else 0)
  }

  /** `add_ods`: a list of fewer than four fields filled up to four with blanks. */
  function AddOds(fields: seq<string>): (r: seq<string>)
    ensures |r| == if |fields| < 4 then 4 else |fields|
    ensures forall k :: 0 <= k < |r| ==> r[k] == if k < |fields| then fields[k] else Blank
  {
    fields + seq(if |fields| < 4 then 4 - |fields| else 0, _ => Blank)
  }

  /** Each coefficient through `widthAlignCoef(float(x))`, here the parameter `align`. */
  function Aligned(coefs: seq<string>, align: string -> string): (r: seq<string>)
    ensures |r| == |coefs| && forall k :: 0 <= k < |coefs| ==> r[k] == align(coefs[k])
  {
    seq(|coefs|, k requires 0 <= k < |coefs| => align(coefs[k]))
  }

  /** The `k`-th field of an ionospheric line. */
  function IonoField(coefs: seq<string>, align: string -> string, k: nat): string {
    if k < |coefs| then align(coefs[k]) else Blank
  }

  /** A field of an ionospheric line with the space column before it. */
  function Column(field: string): string { " " + field }

  /** The first `n` fields, each after a space. */
  function Columns(f: seq<string>, n: nat): string
    requires n <= |f|
  {
    if n == 0 then "" else Columns(f, n - 1) + Column(f[n - 1])
  }

  /** One `IONOSPHERIC CORR` line: the label in four columns, a space, then the first four
      fields, each after a space. */
  function IonoLine(g: string, coefs: seq<string>, align: string -> string): string {
    AlignKey(g) + " " + Columns(AddOds(Aligned(coefs, align)), 4) + IonoTail
  }

  /** Fields of eleven columns each take twelve columns, the space included. */
  lemma {:induction false} ColumnsAt(f: seq<string>, n: nat, k: nat)
    requires n <= |f| && k < n && forall i :: 0 <= i < n ==> |f[i]| == 11
    ensures |Columns(f, n)| == 12 * n
    ensures Columns(f, n)[12 * k..12 * k + 12] == Column(f[k])
  {
    ColumnsLength(f, n - 1);
    if k < n - 1 {
      ColumnsAt(f, n - 1, k);
      PrefixSlice(Columns(f, n - 1), Column(f[n - 1]), 12 * k, 12 * k + 12);
    } else {
      SuffixSlice(Columns(f, n - 1), Column(f[n - 1]));
    }
  }

  lemma {:induction false} ColumnsLength(f: seq<string>, n: nat)
    requires n <= |f| && forall i :: 0 <= i < n ==> |f[i]| == 11
    ensures |Columns(f, n)| == 12 * n
  {
    if n > 0 { ColumnsLength(f, n - 1); }
  }

  lemma MidSlice(a: string, b: string, t: string, i: nat, j: nat)
    requires i <= j <= |b|
    ensures (a + b + t)[|a| + i..|a| + j] == b[i..j]
  {
  }

  lemma PrefixSlice(a: string, b: string, i: nat, j: nat)
    requires i <= j <= |a|
    ensures (a + b)[i..j] == a[i..j]
  {
  }

  lemma SliceOfTake(s: string, n: nat, i: nat, j: nat)
    requires i <= j <= n <= |s|
    ensures Slice(s[..n], i, j) == s[i..j]
  {
  }

  lemma SuffixSlice(a: string, b: string)
    ensures (a + b)[|a|..] == b && (a + b)[|a|..|a| + |b|] == b
  {
  }

  /** A string without surrounding white space, followed by spaces and a newline, strips to
      itself. */
  lemma {:induction false} StripPadded(s: string, n: nat, nl: bool)
    requires s != [] && !IsSpace(s[0]) && !IsSpace(s[|s| - 1])
    ensures Strip(s + Repeat(' ', n) + (if nl then "\n" else "")) == s
    decreases n, nl
  {
    var t := s + Repeat(' ', n) + (if nl then "\n" else "");
    assert t[0] == s[0];
    assert StripLeft(t) == t;
    if nl {
      assert t[..|t| - 1] == s + Repeat(' ', n) + "";
      StripPadded(s, n, false);
    } else if n > 0 {
      assert t[..|t| - 1] == s + Repeat(' ', n - 1) + "";
      StripPadded(s, n - 1, false);
    } else {
      assert t == s;
    }
  }

  /** Columns 60 on of an ionospheric line hold its kind. */
  lemma IonoLineKind(g: string, coefs: seq<string>, align: string -> string)
    requires |g| <= 4
    requires forall k :: 0 <= k < |coefs| ==> |align(coefs[k])| == 11
    ensures Kind(IonoLine(g, coefs, align)) == Nav3.IonoKind
  {
    var f := AddOds(Aligned(coefs, align));
    ColumnsLength(f, 4);
    var p := AlignKey(g) + " " + Columns(f, 4);
    assert |p| == 53;
    TailKind(p);
  }

  /** Fifty-three columns, then the tail: the label lands in column 60. */
  lemma TailKind(p: string)
    requires |p| == 53
    ensures Kind(p + IonoTail) == Nav3.IonoKind
  {
    var ln := p + IonoTail;
    SuffixSlice(p, IonoTail);
    assert ln[60..] == IonoTail[7..];
    assert IonoTail[7..] == "IONOSPHERIC CORR" + Repeat(' ', 4) + "\n";
    StripPadded("IONOSPHERIC CORR", 4, true);
  }

  /** The first four columns of an ionospheric line strip to its label. */
  lemma IonoLineLabel(g: string, coefs: seq<string>, align: string -> string)
    requires 0 < |g| <= 4 && !IsSpace(g[0]) && !IsSpace(g[|g| - 1])
    requires forall k :: 0 <= k < |coefs| ==> |align(coefs[k])| == 11
    ensures Strip(Slice(Content(IonoLine(g, coefs, align)), 0, 4)) == g
  {
    var f := AddOds(Aligned(coefs, align));
    ColumnsLength(f, 4);
    var key := AlignKey(g);
    var rest := " " + Columns(f, 4) + IonoTail;
    var ln := key + rest;
    assert ln == IonoLine(g, coefs, align);
    SliceOfTake(ln, 60, 0, 4);
    PrefixSlice(key, rest, 0, 4);
    assert key == g + Repeat(' ', 4 - |g|) + "";
    StripPadded(g, 4 - |g|, false);
  }

  /** Columns `5 + 12 k` to `5 + 12 (k + 1)` of an ionospheric line hold its field `k`. */
  lemma IonoLineFields(g: string, coefs: seq<string>, align: string -> string, k: nat)
    requires |g| <= 4 && k < 4
    requires forall k :: 0 <= k < |coefs| ==> |align(coefs[k])| == 11
    ensures Slice(Content(IonoLine(g, coefs, align)), 5 + k * 12, 5 + (k + 1) * 12) == Column(IonoField(coefs, align, k))
  {
    var f := AddOds(Aligned(coefs, align));
    var key := AlignKey(g) + " ";
    ColumnsAt(f, 4, k);
    ContentSlice(key, Columns(f, 4), IonoTail, 12 * k, 12 * k + 12);
  }

  /** Inside the content columns of a line, the columns after a five-column label. */
  lemma ContentSlice(key: string, cols: string, tail: string, i: nat, j: nat)
    requires |key| == 5 && |cols| == 48 && |tail| >= 7 && i <= j <= 48
    ensures Slice(Content(key + cols + tail), 5 + i, 5 + j) == cols[i..j]
  {
    var ln := key + cols + tail;
    SliceOfTake(ln, 60, 5 + i, 5 + j);
    MidSlice(key, cols, tail, i, j);
  }

  /** The reader of RINEX 3 headers takes the written line for a correction line of label `g`
      and files under `g` the written fields, each with the column before it, as long as the
      label is one to four characters without surrounding white space and every coefficient
      takes eleven columns. */
  lemma IonoLineReads(hdr: Header, g: string, coefs: seq<string>, align: string -> string)
    requires 0 < |g| <= 4 && !IsSpace(g[0]) && !IsSpace(g[|g| - 1])
    requires forall k :: 0 <= k < |coefs| ==> |align(coefs[k])| == 11
    requires !(Nav3.IonoKind in hdr && hdr[Nav3.IonoKind].Text?)
    ensures var r := Nav3.HeaderLine(hdr, IonoLine(g, coefs, align));
      && r.Ok? && Nav3.IonoKind in r.value && r.value[Nav3.IonoKind].Table?
      && g in r.value[Nav3.IonoKind].table.m
      && var fs := r.value[Nav3.IonoKind].table.m[g];
      && |fs| == Nav3.IonoCount(g)
      && forall k :: 0 <= k < |fs| ==> fs[k] == Column(IonoField(coefs, align, k))
  {
    var ln := IonoLine(g, coefs, align);
    IonoLineKind(g, coefs, align);
    IonoLineLabel(g, coefs, align);
    var fs := Nav3.IonoSlices(Content(ln), Nav3.IonoCount(g));
    forall k | 0 <= k < |fs| ensures fs[k] == Column(IonoField(coefs, align, k)) {
      IonoLineFields(g, coefs, align, k);
    }
  }

  /** The ionospheric lines of the first `k` labels, in the table's order. */
  function IonoLines(iono: ODict<string, seq<string>>, k: nat, align: string -> string): string
    requires iono.Valid() && k <= |iono.keys|
  {
    if k == 0 then ""
    else IonoLines(iono, k - 1, align) + IonoLine(iono.keys[k - 1], iono.m[iono.keys[k - 1]], align)
  }

  /** The header: the version line, one line per correction label, the end line. */
  function HeaderText(iono: ODict<string, seq<string>>, align: string -> string): string
    requires iono.Valid()
  {
    VersionLine + IonoLines(iono, |iono.keys|, align) + EndLine
  }

  /** Every coefficient of a label is text `float()` accepts, `isFloat` standing for that. */
  predicate LabelFloats(coefs: seq<string>, isFloat: string -> bool) {
    forall j :: 0 <= j < |coefs| ==> isFloat(coefs[j])
  }

  /** Every coefficient of every label is text `float()` accepts; otherwise writing the header
      raises ValueError. */
  predicate AllFloats(iono: ODict<string, seq<string>>, isFloat: string -> bool) {
    forall g :: g in iono.m ==> LabelFloats(iono.m[g], isFloat)
  }

  // ---------------------------------------------------------------------------------------
  // The records

  /** `strftime('%Y %m %d %H %M %S')`: the year as it is, every other field in two digits. */
  function EpochText(t: DateTime): string {
    NatToString(t.year) + " " + ZeroPad(t.month, 2) + " " + ZeroPad(t.day, 2) + " "
      + ZeroPad(t.hour, 2) + " " + ZeroPad(t.minute, 2) + " " + ZeroPad(t.second, 2)
  }

  /** A record written for a three-character satellite and an epoch of a four-digit year and
      whole seconds starts an epoch line the RINEX 3 reader dates with that very epoch. */
  lemma EpochReads(sv: string, t: DateTime, rest: string)
    requires |sv| == 3 && 1000 <= t.year && t.micro == 0
    ensures Nav3.Time(sv + " " + EpochText(t) + rest) == Some(t)
  {
    var ln := sv + " " + EpochText(t) + rest;
    EpochColumns(sv, t, rest);
    ParseZeroPad(t.year, 0);
    ParseZeroPad(t.month, 2);
    ParseZeroPad(t.day, 2);
    ParseZeroPad(t.hour, 2);
    ParseZeroPad(t.minute, 2);
    ParseZeroPad(t.second, 2);
    Nav3.TimeOfColumns(ln, t);
  }

  /** Where the fields of the epoch fall on a record's first line. */
  lemma EpochColumns(sv: string, t: DateTime, rest: string)
    requires |sv| == 3 && 1000 <= t.year
    ensures var ln := sv + " " + EpochText(t) + rest;
      && Slice(ln, 4, 8) == ZeroPad(t.year, 0)
      && Slice(ln, 9, 11) == ZeroPad(t.month, 2) && Slice(ln, 12, 14) == ZeroPad(t.day, 2)
      && Slice(ln, 15, 17) == ZeroPad(t.hour, 2) && Slice(ln, 18, 20) == ZeroPad(t.minute, 2)
      && Slice(ln, 21, 23) == ZeroPad(t.second, 2)
  {
    NatToStringWidth(t.year, 4);
    ZeroPadWidth(t.month, 2);
    ZeroPadWidth(t.day, 2);
    ZeroPadWidth(t.hour, 2);
    ZeroPadWidth(t.minute, 2);
    ZeroPadWidth(t.second, 2);
    EpochLayout(sv, ZeroPad(t.year, 0), ZeroPad(t.month, 2), ZeroPad(t.day, 2), ZeroPad(t.hour, 2),
      ZeroPad(t.minute, 2), ZeroPad(t.second, 2), rest);
  }

  /** The columns of six space-separated fields of four and two characters after a label of
      three. */
  lemma EpochLayout(sv: string, y: string, mo: string, d: string, h: string, mi: string, s: string, rest: string)
    requires |sv| == 3 && |y| == 4 && |mo| == 2 && |d| == 2 && |h| == 2 && |mi| == 2 && |s| == 2
    ensures var ln := sv + " " + (y + " " + mo + " " + d + " " + h + " " + mi + " " + s) + rest;
      && Slice(ln, 4, 8) == y && Slice(ln, 9, 11) == mo && Slice(ln, 12, 14) == d
      && Slice(ln, 15, 17) == h && Slice(ln, 18, 20) == mi && Slice(ln, 21, 23) == s
  {
  }

  /** `(k - 2) % 4 == 0`: the slot after which a record goes on on a new line. */
  predicate BreaksAfter(k: int) { (k - 2) % 4 == 0 }

  /** The first `k` fields of `c`, each followed by a line break when `BreaksAfter` its index
      and it is not the last field of `c`. */
  function Glue(c: seq<string>, k: nat): string
    requires k <= |c|
  {
    if k == 0 then ""
    else Glue(c, k - 1) + c[k - 1] + (if BreaksAfter(k - 1) && k - 1 != |c| - 1 then Wrap else "")
  }

  /** The value loop as the source writes it: after slot 2 it always breaks the line. */
  function WrittenValues(vs: seq<string>, k: nat): string
    requires k <= |vs|
  {
    if k == 0 then ""
    else
      var wrap := k - 1 == 2 || (BreaksAfter(k - 1) && k - 1 != |vs| - 1);
      WrittenValues(vs, k - 1) + vs[k - 1] + (if wrap then Wrap else "")
  }

  /** The padding loop `for i in range(lo, hi)`: a line break when `BreaksAfter(i)`, then a
      zero value. */
  function Padding(lo: int, hi: int): string
    decreases hi - lo
  {
    if hi <= lo then "" else Padding(lo, hi - 1) + (if BreaksAfter(hi - 1) then Wrap else "") + Zero
  }

  /** The values of a record with `vs` for its slots, as the source writes them. */
  function WrittenRecordValues(vs: seq<string>, maxIQ: nat): string {
    WrittenValues(vs, |vs|) + Padding(|vs| - 1, maxIQ)
  }

  /** The values of a record with `vs` for its slots, breaking after a slot only when more
      follow. */
  function RecordValues(vs: seq<string>, maxIQ: nat): string {
    Glue(vs, |vs|) + Padding(|vs| - 1, maxIQ)
  }

  /** The fields of a record: its values, then zeros up to slot `maxIQ`. */
  function Cells(vs: seq<string>, maxIQ: nat): (c: seq<string>)
    ensures |c| == if |vs| > maxIQ then |vs| else maxIQ + 1
    ensures forall k :: 0 <= k < |c| ==> c[k] == if k < |vs| then vs[k] else Zero
  {
    vs + seq(if |vs| > maxIQ then 0 else maxIQ + 1 - |vs|, _ => Zero)
  }

  /** Fields side by side. */
  function Concat(c: seq<string>): string {
    if c == [] then "" else Concat(c[..|c| - 1]) + c[|c| - 1]
  }

  /** Continuation lines: four fields on each, the last with what is left. */
  function Continuation(c: seq<string>): string
    decreases |c|
  {
    if |c| <= 4 then Concat(c) else Concat(c[..4]) + Wrap + Continuation(c[4..])
  }

  /** The layout of a navigation record's fields in RINEX 3: three fields on the epoch line,
      then four on each continuation line, and no line without a field. */
  function Layout(c: seq<string>): string {
    if |c| <= 3 then Concat(c) else Concat(c[..3]) + Wrap + Continuation(c[3..])
  }

  /** The fields from index `k` on, each followed by the break `Glue` gives it. */
  function Spread(c: seq<string>, k: nat): string
    requires k <= |c|
    decreases |c| - k
  {
    if k == |c| then ""
    else c[k] + (if BreaksAfter(k) && k != |c| - 1 then Wrap else "") + Spread(c, k + 1)
  }

  lemma {:induction false} GlueSpread(c: seq<string>, k: nat)
    requires k <= |c|
    ensures Glue(c, |c|) == Glue(c, k) + Spread(c, k)
    decreases |c| - k
  {
    if k < |c| {
      GlueSpread(c, k + 1);
    }
  }

  /** Fields none of which breaks the line come out side by side. */
  lemma {:induction false} SpreadRun(c: seq<string>, a: nat, b: nat)
    requires a <= b <= |c|
    requires forall j :: a <= j < b ==> !(BreaksAfter(j) && j != |c| - 1)
    ensures Spread(c, a) == Concat(c[a..b]) + Spread(c, b)
    decreases b - a
  {
    if a < b {
      SpreadRun(c, a, b - 1);
      assert c[a..b][..b - 1 - a] == c[a..b - 1];
    } else {
      assert c[a..b] == [];
    }
  }

  /** From the first field of a continuation line on, `Spread` lays out continuation lines. */
  lemma {:induction false} SpreadContinuation(c: seq<string>, a: nat)
    requires a <= |c| && a % 4 == 3
    ensures Spread(c, a) == Continuation(c[a..])
    decreases |c| - a
  {
    if |c| - a <= 4 {
      SpreadTail(c, a);
    } else {
      var d := c[a..];
      SpreadLine(c, a);
      SpreadContinuation(c, a + 4);
      ContinuationLine(d);
      assert d[..4] == c[a..a + 4] && d[4..] == c[a + 4..];
    }
  }

  /** The last continuation line: what is left, at most four fields. */
  lemma SpreadTail(c: seq<string>, a: nat)
    requires a <= |c| && |c| - a <= 4 && a % 4 == 3
    ensures Spread(c, a) == Continuation(c[a..])
  {
    LineBreaks(a);
    SpreadRun(c, a, |c|);
    assert c[a..|c|] == c[a..];
  }

  lemma ContinuationLine(d: seq<string>)
    requires |d| > 4
    ensures Continuation(d) == Concat(d[..4]) + Wrap + Continuation(d[4..])
  {
  }

  /** A continuation line breaks after its fourth field only. */
  lemma LineBreaks(a: nat)
    requires a % 4 == 3
    ensures forall j :: a <= j < a + 3 ==> !BreaksAfter(j)
    ensures BreaksAfter(a + 3)
  {
    forall j | a <= j < a + 3 ensures !BreaksAfter(j) {
      assert (j - 2) % 4 == (j - a) + 1;
    }
  }

  /** A full continuation line: four fields, then the break. */
  lemma SpreadLine(c: seq<string>, a: nat)
    requires a + 4 < |c| && a % 4 == 3
    ensures Spread(c, a) == Concat(c[a..a + 4]) + Wrap + Spread(c, a + 4)
  {
    LineBreaks(a);
    SpreadRun(c, a, a + 3);
    SpreadBreak(c, a + 3);
    var line := c[a..a + 4];
    assert line[..3] == c[a..a + 3] && line[3] == c[a + 3];
    LineBreak(line, Spread(c, a + 4));
  }

  /** A field after which the line breaks. */
  lemma SpreadBreak(c: seq<string>, k: nat)
    requires k < |c| - 1 && BreaksAfter(k)
    ensures Spread(c, k) == c[k] + Wrap + Spread(c, k + 1)
  {
  }

  /** The first line's fields. */
  lemma FirstLine(c: seq<string>)
    requires |c| > 3
    ensures c[..3][..2] == c[0..2] && c[..3][2] == c[2]
  {
  }

  /** The last field of a line, then the break, then what follows. */
  lemma LineBreak(line: seq<string>, rest: string)
    requires line != []
    ensures Concat(line[..|line| - 1]) + (line[|line| - 1] + Wrap + rest) == Concat(line) + Wrap + rest
  {
    Regroup(Concat(line[..|line| - 1]), line[|line| - 1], Wrap, rest);
  }

  lemma Regroup(a: string, b: string, w: string, rest: string)
    ensures a + (b + w + rest) == a + b + w + rest
  {
  }

  /** `Glue` breaks every record's fields into the RINEX 3 layout. */
  lemma GlueLayout(c: seq<string>)
    ensures Glue(c, |c|) == Layout(c)
  {
    GlueSpread(c, 0);
    if |c| <= 3 {
      SpreadShort(c);
    } else {
      SpreadLong(c);
    }
  }

  lemma SpreadShort(c: seq<string>)
    requires |c| <= 3
    ensures Spread(c, 0) == Layout(c)
  {
    SpreadRun(c, 0, |c|);
    assert c[0..|c|] == c;
  }

  lemma SpreadLong(c: seq<string>)
    requires |c| > 3
    ensures Spread(c, 0) == Layout(c)
  {
    SpreadRun(c, 0, 2);
    SpreadBreak(c, 2);
    SpreadContinuation(c, 3);
    FirstLine(c);
    LineBreak(c[..3], Spread(c, 3));
  }

  /** `Glue` only looks at the fields before `k`, as long as neither sequence ends there. */
  lemma {:induction false} GlueAgree(a: seq<string>, b: seq<string>, k: nat)
    requires k < |a| && k < |b| && a[..k] == b[..k]
    ensures Glue(a, k) == Glue(b, k)
  {
    if k > 0 {
      assert a[..k - 1] == b[..k - 1] && a[k - 1] == b[k - 1];
      GlueAgree(a, b, k - 1);
    }
  }

  /** The value loop and then the padding loop up to `i` leave the fields up to `i`. */
  lemma {:induction false} PaddingGlue(vs: seq<string>, maxIQ: nat, i: nat)
    requires |vs| <= maxIQ && (if |vs| == 0 then 0 else |vs| - 1) <= i <= maxIQ
    ensures var c := Cells(vs, maxIQ);
      Glue(vs, |vs|) + Padding(|vs| - 1, i) == Glue(c, i) + c[i]
  {
    var c := Cells(vs, maxIQ);
    var q := |vs|;
    if q > 0 && i == q - 1 {
      PaddingFromLast(vs, maxIQ);
    } else if q == 0 && i == 0 {
      assert Padding(-1, 0) == Padding(-1, -1) + "" + Zero;
    } else {
      PaddingGlue(vs, maxIQ, i - 1);
      PaddingStep(vs, maxIQ, i);
    }
  }

  /** Before the padding loop, the fields up to the last value are written. */
  lemma PaddingFromLast(vs: seq<string>, maxIQ: nat)
    requires 0 < |vs| <= maxIQ
    ensures var c := Cells(vs, maxIQ);
      Glue(vs, |vs|) + Padding(|vs| - 1, |vs| - 1) == Glue(c, |vs| - 1) + c[|vs| - 1]
  {
    var c := Cells(vs, maxIQ);
    var q := |vs|;
    assert Padding(q - 1, q - 1) == "";
    assert c[..q - 1] == vs[..q - 1];
    GlueAgree(vs, c, q - 1);
    GlueLast(vs);
  }

  /** One turn of the padding loop writes the break after field `i - 1` and the zero field `i`. */
  lemma PaddingStep(vs: seq<string>, maxIQ: nat, i: nat)
    requires |vs| <= i <= maxIQ && 0 < i
    requires var c := Cells(vs, maxIQ);
      Glue(vs, |vs|) + Padding(|vs| - 1, i - 1) == Glue(c, i - 1) + c[i - 1]
    ensures var c := Cells(vs, maxIQ);
      Glue(vs, |vs|) + Padding(|vs| - 1, i) == Glue(c, i) + c[i]
  {
    var c := Cells(vs, maxIQ);
    var g := Glue(vs, |vs|);
    var w := if BreaksAfter(i - 1) then Wrap else "";
    var p := Padding(|vs| - 1, i - 1);
    assert Padding(|vs| - 1, i) == p + w + Zero;
    Regroup(g, p, w, Zero);
    assert Glue(c, i) == Glue(c, i - 1) + c[i - 1] + w;
    assert c[i] == Zero;
  }

  /** The last field: never followed by a break in the corrected rule; as written, followed
      by none unless it is slot 2 (`WrittenThree`). */
  lemma GlueLast(c: seq<string>)
    requires c != []
    ensures Glue(c, |c|) == Glue(c, |c| - 1) + c[|c| - 1]
    ensures |c| != 3 ==> WrittenValues(c, |c|) == WrittenValues(c, |c| - 1) + c[|c| - 1]
  {
  }

  /** Corrected, the two loops write the record's fields, padded to `maxIQ + 1`, in the
      RINEX 3 layout. */
  lemma RecordValuesLayout(vs: seq<string>, maxIQ: nat)
    ensures RecordValues(vs, maxIQ) == Layout(Cells(vs, maxIQ))
  {
    var c := Cells(vs, maxIQ);
    if |vs| > maxIQ {
      assert c == vs;
      assert Padding(|vs| - 1, maxIQ) == "";
    } else {
      PaddingGlue(vs, maxIQ, maxIQ);
      GlueLast(c);
    }
    GlueLayout(c);
  }

  /** As written and corrected agree on every record whose length is not three. */
  lemma {:induction false} WrittenValuesAgree(vs: seq<string>, k: nat)
    requires k <= |vs| && (|vs| != 3 || k < 3)
    ensures WrittenValues(vs, k) == Glue(vs, k)
  {
    if k > 0 { WrittenValuesAgree(vs, k - 1); }
  }

  /** As written, a record of three values gets one line break too many after its third
      value: an empty continuation line, or a trailing one of spaces only, appears. */
  lemma WrittenRecordValuesDiffer(vs: seq<string>, maxIQ: nat)
    ensures |vs| != 3 ==> WrittenRecordValues(vs, maxIQ) == RecordValues(vs, maxIQ)
    ensures |vs| == 3 ==> WrittenRecordValues(vs, maxIQ) == Glue(vs, 3) + Wrap + Padding(2, maxIQ)
    ensures |vs| == 3 ==> WrittenRecordValues(vs, maxIQ) != Layout(Cells(vs, maxIQ))
  {
    if |vs| != 3 {
      WrittenValuesAgree(vs, |vs|);
    } else {
      WrittenThree(vs);
      RecordValuesLayout(vs, maxIQ);
      assert |WrittenRecordValues(vs, maxIQ)| == |RecordValues(vs, maxIQ)| + 5;
    }
  }

  /** The value loop as written on three values ends in a line break. */
  lemma WrittenThree(vs: seq<string>)
    requires |vs| == 3
    ensures WrittenValues(vs, 3) == Glue(vs, 3) + Wrap
  {
    WrittenValuesAgree(vs, 2);
    assert WrittenValues(vs, 3) == WrittenValues(vs, 2) + vs[2] + Wrap;
    assert Glue(vs, 3) == Glue(vs, 2) + vs[2];
  }

  /** The smallest instance: three values and no longer record. */
  lemma ThreeValuesExample()
    ensures WrittenRecordValues(["a", "b", "c"], 2) == "abc\n    "
    ensures Layout(Cells(["a", "b", "c"], 2)) == "abc"
  {
    var vs := ["a", "b", "c"];
    WrittenRecordValuesDiffer(vs, 2);
    RecordValuesLayout(vs, 2);
    assert Cells(vs, 2) == vs;
    assert Concat(vs) == Concat(vs[..2]) + "c";
    assert Concat(vs[..2]) == Concat(vs[..1]) + "b";
    assert Concat(vs[..1]) == Concat([]) + "a";
  }

  /** The right coefficient of every slot. */
  function Rights(verdicts: seq<Verdict>): (vs: seq<string>)
    ensures |vs| == |verdicts| && forall k :: 0 <= k < |vs| ==> vs[k] == verdicts[k].right.value
  {
    seq(|verdicts|, k requires 0 <= k < |verdicts| => verdicts[k].right.value)
  }

  /** One record as the source writes it: the satellite, the epoch, the values and a final
      newline. */
  function RecordText(sv: string, t: DateTime, vs: seq<string>, maxIQ: nat): string {
    sv + " " + EpochText(t) + WrittenRecordValues(vs, maxIQ) + "\n"
  }

  /** How one record is written, given its epoch and its verdicts. The loops below are
      stated for any such writer; the file is written by `RecordText`. */
  type RecordWriter = (DateTime, seq<Verdict>) -> string

  /** `write` writes every record of satellite `sv` as `RecordText` does. The equation is
      used only where a `RecordText` term is in view, so reasoning about the loops does not
      unfold the layout of every record. */
  ghost predicate WritesRecords(write: RecordWriter, sv: string, maxIQ: nat) {
    forall t, verdicts {:trigger RecordText(sv, t, Rights(verdicts), maxIQ)} ::
      write(t, verdicts) == RecordText(sv, t, Rights(verdicts), maxIQ)
  }

  /** The records of satellite `sv`. */
  ghost function RecordsOf(sv: string, maxIQ: nat): (write: RecordWriter)
    ensures WritesRecords(write, sv, maxIQ)
  {
    var byText := (t: DateTime, verdicts: seq<Verdict>) => RecordText(sv, t, Rights(verdicts), maxIQ);
    assert WritesRecords(byText, sv, maxIQ);
    var write :| WritesRecords(write, sv, maxIQ);
    write
  }

  /** The records of the first `j` epochs of a satellite, one after the other. */
  function SatelliteText(recs: ODict<DateTime, seq<Verdict>>, j: nat, write: RecordWriter): string
    requires recs.Valid() && j <= |recs.keys|
  {
    if j == 0 then ""
    else SatelliteText(recs, j - 1, write) + write(recs.keys[j - 1], recs.m[recs.keys[j - 1]])
  }

  /** The records of the first `k` satellites. */
  ghost function DataText(data: Searched, k: nat, maxIQ: nat): string
    requires SearchedValid(data) && k <= |data.keys|
  {
    if k == 0 then ""
    else
      var sv := data.keys[k - 1];
      DataText(data, k - 1, maxIQ) + SatelliteText(data.m[sv], |data.m[sv].keys|, RecordsOf(sv, maxIQ))
  }

  /** `write_rinex`: the name and the text of the merged file. */
  ghost function Rinex(votes: ODict<FileDate, nat>, iono: ODict<string, seq<string>>, maxIQ: nat, data: Searched,
                 isFloat: string -> bool, align: string -> string): Result<(string, string)>
    requires forall d :: d in votes.m ==> Dated(d)
    requires votes.Valid() && iono.Valid() && SearchedValid(data)
  {
    var date :- ChooseDate(votes);
    if !AllFloats(iono, isFloat) then Err(ValueError)
    else Ok((FileName(date), HeaderText(iono, align) + DataText(data, |data.keys|, maxIQ)))
  }

  // ---------------------------------------------------------------------------------------
  // The loops

  /** The header loop over the correction labels: `float(x)` of a coefficient that is not a
      number raises ValueError. */
  method WriteHeader(iono: ODict<string, seq<string>>, isFloat: string -> bool, align: string -> string)
    returns (out: Result<string>)
    requires iono.Valid()
    ensures out == if AllFloats(iono, isFloat) then Ok(HeaderText(iono, align)) else Err(ValueError)
  {
    var lines := "";
    var k := 0;
    while k < |iono.keys|
      invariant k <= |iono.keys|
      invariant lines == IonoLines(iono, k, align)
      invariant forall i :: 0 <= i < k ==> LabelFloats(iono.m[iono.keys[i]], isFloat)
    {
      var g := iono.keys[k];
      if !LabelFloats(iono.m[g], isFloat) {
        return Err(ValueError);
      }
      var fields := AddOds(Aligned(iono.m[g], align));
      var line := AlignKey(g) + " " + Columns(fields, 4) + IonoTail;
      lines := lines + line;
      k := k + 1;
    }
    out := Ok(VersionLine + lines + EndLine);
  }

  /** The value loop and the padding loop of one record, as written: the RINEX 3 layout of
      the record's fields, except that a record of three values gets a break too many. */
  method WriteValues(verdicts: seq<Verdict>, maxIQ: nat) returns (out: string)
    ensures out == WrittenRecordValues(Rights(verdicts), maxIQ)
    ensures |verdicts| != 3 ==> out == Layout(Cells(Rights(verdicts), maxIQ))
    ensures |verdicts| == 3 ==> out != Layout(Cells(Rights(verdicts), maxIQ))
  {
    var vs := Rights(verdicts);
    var q := |verdicts|;
    out := "";
    var k := 0;
    while k < q
      invariant k <= q
      invariant out == WrittenValues(vs, k)
    {
      out := out + verdicts[k].right.value;
      if k == 2 || (BreaksAfter(k) && k != q - 1) {
        out := out + Wrap;
      }
      k := k + 1;
    }
    var padding := "";
    var i := q - 1;
    while i < maxIQ
      invariant q - 1 <= i && (q - 1 <= maxIQ ==> i <= maxIQ) && (q - 1 > maxIQ ==> i == q - 1)
      invariant padding == Padding(q - 1, i)
      decreases maxIQ - i
    {
      if BreaksAfter(i) {
        padding := padding + Wrap;
      }
      padding := padding + Zero;
      i := i + 1;
    }
    out := out + padding;
    WrittenRecordValuesDiffer(vs, maxIQ);
    RecordValuesLayout(vs, maxIQ);
  }

  /** One record: the satellite and the epoch, the values, the newline. */
  method WriteRecord(sv: string, t: DateTime, verdicts: seq<Verdict>, maxIQ: nat) returns (record: string)
    ensures record == RecordsOf(sv, maxIQ)(t, verdicts)
  {
    var values := WriteValues(verdicts, maxIQ);
    record := sv + " " + EpochText(t) + values + "\n";
    assert record == RecordText(sv, t, Rights(verdicts), maxIQ);
  }

  /** The epoch loop of one satellite. */
  method WriteSatellite(sv: string, recs: ODict<DateTime, seq<Verdict>>, maxIQ: nat) returns (out: string)
    requires recs.Valid()
    ensures out == SatelliteText(recs, |recs.keys|, RecordsOf(sv, maxIQ))
  {
    out := "";
    var j := 0;
    while j < |recs.keys|
      invariant j <= |recs.keys|
      invariant out == SatelliteText(recs, j, RecordsOf(sv, maxIQ))
    {
      var t := recs.keys[j];
      var record := WriteRecord(sv, t, recs.m[t], maxIQ);
      out := out + record;
      j := j + 1;
    }
  }

  /** The satellite loop. */
  method WriteData(data: Searched, maxIQ: nat) returns (records: string)
    requires SearchedValid(data)
    ensures records == DataText(data, |data.keys|, maxIQ)
  {
    records := "";
    var k := 0;
    while k < |data.keys|
      invariant k <= |data.keys|
      invariant records == DataText(data, k, maxIQ)
    {
      var sv := data.keys[k];
      var text := WriteSatellite(sv, data.m[sv], maxIQ);
      records := records + text;
      k := k + 1;
    }
  }

  /** The date of the file: the dates sorted by votes, most first, and the first taken. */
  method WriteDate(votes: ODict<FileDate, nat>) returns (date: Result<FileDate>)
    ensures date == ChooseDate(votes)
  {
    var order := SortDesc(votes.keys, VotesFor(votes));
    if |order| == 0 {
      return Err(IndexError);
    }
    date := Ok(order[0]);
  }

  /** `write_rinex`: choose the date, name the file, write the header and every record. */
  method WriteRinex(votes: ODict<FileDate, nat>, iono: ODict<string, seq<string>>, maxIQ: nat, data: Searched,
                    isFloat: string -> bool, align: string -> string) returns (r: Result<(string, string)>)
    requires forall d :: d in votes.m ==> Dated(d)
    requires votes.Valid() && iono.Valid() && SearchedValid(data)
    ensures r == Rinex(votes, iono, maxIQ, data, isFloat, align)
  {
    var date := WriteDate(votes);
    if date.Err? {
      return Err(date.error);
    }
    var name := FileName(date.value);
    var header := WriteHeader(iono, isFloat, align);
    if header.Err? {
      return Err(header.error);
    }
    var records := WriteData(data, maxIQ);
    r := Ok((name, header.value + records));
  }

  // ---------------------------------------------------------------------------------------
  // The script: merge, search, write

  /** `script.py`: when the merge succeeds, the search of its records succeeds, every table
      handed to the writer is well formed, every date voted for can name a file, and every
      accepted correction value is a number, so `float(x)` in the writer never raises; a file
      is then written exactly when at least one input file was given. */
  lemma ScriptWrites(files: seq<(string, Result<Parsed>)>, isFloat: string -> bool, near: (string, string) -> bool,
                     isZero: string -> bool, align: string -> string)
    requires FilesWellFormed(files) && MergeOf(files, isFloat, near, isZero).Ok?
    ensures var m := MergeOf(files, isFloat, near, isZero).value;
      && m.votes.Valid() && m.iono.Valid() && MergedValid(m.data)
      && (forall d :: d in m.votes.m ==> Dated(d))
      && AllFloats(m.iono, isFloat)
      && var s := SearchFrom(m.data, 0, Empty(), SearchRule(near, isZero));
      && s.Ok? && SearchedValid(s.value)
      && (Rinex(m.votes, m.iono, m.maxIQ, s.value, isFloat, align).Ok? <==> files != [])
  {
    var m := MergeOf(files, isFloat, near, isZero).value;
    var st := MergeFrom(files, 0, Start()).value;
    MergeOfSound(files, isFloat, near, isZero);
    forall g | g in m.iono.m ensures LabelFloats(m.iono.m[g], isFloat) {
      forall idx | 0 <= idx < |m.iono.m[g]| ensures isFloat(m.iono.m[g][idx]) {
        WinnerFloat(st.iono.m[g][idx], isFloat, near, isZero);
      }
    }
    assert m.votes == st.votes;
    MergeFromDated(files, 0, Start());
    SearchShape(m.data, m.maxIQ, near, isZero);
    ChooseDateMost(m.votes);
    if files != [] {
      assert DateFromFileName(files[0].0).value in m.votes.m;
    } else {
      assert MergeFrom(files, 0, Start()) == Ok(Start());
    }
  }
}
