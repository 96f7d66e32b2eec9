/** What a navigation reader returns: the header fields and, per satellite and epoch, the
    coefficient tokens of the record. */
module NavData {
  import opened Wrappers
  import opened ODicts
  import opened Epochs
  import opened Text
  import opened Tokens

  /** A header field: the 60-column text of its line, or for `IONOSPHERIC CORR` in RINEX 3
      the coefficient texts per correction label. */
  datatype HeaderValue = Text(text: string) | Table(table: ODict<string, seq<string>>)

  type Header = map<string, HeaderValue>

  /** The records of one satellite: epoch to tokens, in file order. */
  type Records = ODict<DateTime, seq<string>>

  /** Satellite id to its records, in order of first appearance. */
  type Data = ODict<string, Records>

  datatype Parsed = Parsed(header: Header, data: Data)

  /** The fields the version-line reader supplies, as the header starts out. */
  function InfoHeader(info: map<string, string>): (h: Header)
    ensures h.Keys == info.Keys
    ensures forall k :: k in info ==> h[k] == Text(info[k])
  {
    map k | k in info :: Text(info[k])
  }

  ghost predicate DataValid(d: Data) {
    d.Valid() && forall sv :: sv in d.m ==> d.m[sv].Valid()
  }

  /** Every correction table of the header is a well-formed dictionary. */
  ghost predicate TablesValid(h: Header) {
    forall k :: k in h && h[k].Table? ==> h[k].table.Valid()
  }

  /** What a Python reader returns is made of well-formed dictionaries. */
  ghost predicate WellFormed(p: Parsed) {
    DataValid(p.data) && TablesValid(p.header)
  }

  predicate Has(d: Data, sv: string, t: DateTime) {
    sv in d.m && t in d.m[sv].m
  }

  /** Storing a record: a new satellite gets a fresh table, and a (satellite, epoch) pair that is
      already there keeps its first tokens. */
  function Insert(d: Data, sv: string, t: DateTime, tokens: seq<string>): (r: Data)
    ensures DataValid(d) ==> DataValid(r)
    ensures Has(d, sv, t) ==> r == d
    ensures !Has(d, sv, t) ==> Has(r, sv, t) && r.m[sv].m[t] == tokens
    ensures forall s, u :: Has(d, s, u) ==> Has(r, s, u) && r.m[s].m[u] == d.m[s].m[u]
    ensures forall s, u :: Has(r, s, u) ==> Has(d, s, u) || (s == sv && u == t)
  {
    if sv !in d.m then d.Put(sv, Empty<DateTime, seq<string>>().Put(t, tokens))
    else if t !in d.m[sv].m then d.Put(sv, d.m[sv].Put(t, tokens))
    else d
  }

  /** Within one file the first record of a satellite and epoch wins. */
  lemma InsertFirstWins(d: Data, sv: string, t: DateTime, first: seq<string>, later: seq<string>)
    ensures Insert(Insert(d, sv, t, first), sv, t, later) == Insert(d, sv, t, first)
    ensures Has(d, sv, t) || Insert(Insert(d, sv, t, first), sv, t, later).m[sv].m[t] == first
  {
  }

  /** Every stored token has the primary coefficient pattern's form. */
  ghost predicate TokensShaped(d: Data) {
    forall s, u :: Has(d, s, u) ==> forall k :: 0 <= k < |d.m[s].m[u]| ==> Shape(d.m[s].m[u][k], true)
  }

  /** Storing a list of well-formed tokens keeps every stored token well formed. */
  lemma InsertShaped(d: Data, sv: string, t: DateTime, tokens: seq<string>)
    requires TokensShaped(d) && forall k :: 0 <= k < |tokens| ==> Shape(tokens[k], true)
    ensures TokensShaped(Insert(d, sv, t, tokens))
  {
    var r := Insert(d, sv, t, tokens);
    forall s, u | Has(r, s, u) ensures forall k :: 0 <= k < |r.m[s].m[u]| ==> Shape(r.m[s].m[u][k], true) {
      if !Has(d, s, u) { assert s == sv && u == t; }
    }
  }
  /** The kind of a header line: what follows column 60, stripped. */
  function Kind(ln: string): string { Strip(Slice(ln, 60, |ln|)) }

  /** The content of a header line: its first 60 columns. */
  function Content(ln: string): string { Slice(ln, 0, 60) }

  /** `int(ln[a:b])` for each column `(a, b)` in turn; `None` as soon as one is refused. */
  function Fields(ln: string, cols: seq<(nat, nat)>): (r: Option<seq<int>>)
    ensures r.Some? ==> |r.value| == |cols|
    ensures r.Some? && |cols| > 0 ==> |ln| > cols[0].0
    decreases |cols|
  {
    if cols == [] then Some([])
    else
      var v :- ParseInt(Slice(ln, cols[0].0, cols[0].1));
      var rest :- Fields(ln, cols[1..]);
      Some([v] + rest)
  }

  /** The fields are read exactly when every column holds an integer, and each field is the
      integer of its column. */
  lemma {:induction false} FieldsColumns(ln: string, cols: seq<(nat, nat)>)
    ensures Fields(ln, cols).Some? <==> forall k :: 0 <= k < |cols| ==> ParseInt(Slice(ln, cols[k].0, cols[k].1)).Some?
    ensures Fields(ln, cols).Some? ==>
      forall k :: 0 <= k < |cols| ==> ParseInt(Slice(ln, cols[k].0, cols[k].1)) == Some(Fields(ln, cols).value[k])
    decreases |cols|
  {
    if cols != [] {
      FieldsColumns(ln, cols[1..]);
      assert forall k :: 1 <= k < |cols| ==> cols[k] == cols[1..][k - 1];
    }
  }

  function Min(a: nat, b: nat): nat { if a <= b then a else b }

  /** The data columns of the continuation lines `a` to `b - 1`, each cut to `[lo:hi]`. */
  function Cont(lines: seq<string>, a: nat, b: nat, lo: nat, hi: nat): string
    requires a <= b <= |lines|
    decreases b - a
  {
    if b == a then [] else Cont(lines, a, b - 1, lo, hi) + Slice(lines[b - 1], lo, hi)
  }

  /** What a record loop does with the line at `i`: end the loop, pass over lines, store a
      record of the satellite `sv` whose data columns are `raw`, or raise. */
  datatype Step =
    | Stop
    | Skip(next: nat)
    | Keep(next: nat, sv: string, time: DateTime, raw: string)
    | Fail(error: Error)

  /** `_skip`: pass over up to `n` lines, fewer at the end of the file. */
  method SkipLines(lines: seq<string>, i: nat, n: nat) returns (j: nat)
    requires i <= |lines|
    ensures j == i + Min(n, |lines| - i)
  {
    j := i;
    var k := 0;
    while k < n && j < |lines|
      invariant i <= j <= |lines| && j - i == k <= n
    {
      j := j + 1;
      k := k + 1;
    }
  }

  /** The columns `[a:b]` of the epoch line at `i` followed by the columns `[lo:hi]` of up to `n`
      continuation lines, and the index of the line after the last one read. */
  method Gather(lines: seq<string>, i: nat, n: nat, a: nat, b: nat, lo: nat, hi: nat) returns (raw: string, next: nat)
    requires i < |lines|
    ensures next == i + 1 + Min(n, |lines| - i - 1)
    ensures raw == Slice(lines[i], a, b) + Cont(lines, i + 1, next, lo, hi)
  {
    raw := Slice(lines[i], a, b);
    next := i + 1;
    var k := 0;
    while k < n && next < |lines|
      invariant i + 1 <= next <= |lines| && next - i - 1 == k <= n
      invariant raw == Slice(lines[i], a, b) + Cont(lines, i + 1, next, lo, hi)
    {
      raw := raw + Slice(lines[next], lo, hi);
      next := next + 1;
      k := k + 1;
    }
  }
}
