/** `rinex_merger.py`: the date a file's name announces, the ionospheric coefficients of a
    header, and the fold of many parsed navigation files into one vote table per satellite,
    epoch and coefficient slot. */
module Merger {
  import opened Wrappers
  import opened ODicts
  import opened Epochs
  import opened Text
  import opened Tokens
  import opened NavData
  import opened Folding
  import opened Sorting

  // ---------------------------------------------------------------------------------------
  // The date of a file name: `re.search('.{4}(\d{3}).\.(\d{2}).|.{12}(\d{4})(\d{3}).{11}')`

  /** `.` of a regular expression: any character but a newline. */
  predicate AnyIn(s: string, a: nat, b: nat)
    requires a <= b <= |s|
  {
    forall k :: a <= k < b ==> s[k] != '\n'
  }

  predicate DigitsIn(s: string, a: nat, b: nat)
    requires a <= b <= |s|
  {
    forall k :: a <= k < b ==> IsDigit(s[k])
  }

  /** The short alternative `.{4}(\d{3}).\.(\d{2}).` matches at `p`. */
  predicate ShortAt(s: string, p: nat) {
    && p + 12 <= |s|
    && AnyIn(s, p, p + 4) && DigitsIn(s, p + 4, p + 7) && s[p + 7] != '\n' && s[p + 8] == '.'
    && DigitsIn(s, p + 9, p + 11) && s[p + 11] != '\n'
  }

  /** The long alternative `.{12}(\d{4})(\d{3}).{11}` matches at `p`. */
  predicate LongAt(s: string, p: nat) {
    p + 30 <= |s| && AnyIn(s, p, p + 12) && DigitsIn(s, p + 12, p + 19) && AnyIn(s, p + 19, p + 30)
  }

  /** `re.search` from `p` on: the first position where either alternative matches. */
  function SearchName(s: string, p: nat): (r: Option<nat>)
    requires p <= |s|
    ensures r.Some? ==> p <= r.value <= |s| && (ShortAt(s, r.value) || LongAt(s, r.value))
    ensures forall q :: p <= q <= |s| && (r.None? || q < r.value) ==> !ShortAt(s, q) && !LongAt(s, q)
    decreases |s| - p
  {
    if ShortAt(s, p) || LongAt(s, p) then Some(p)
    else if p == |s| then None
    else SearchName(s, p + 1)
  }

  /** `%y`: 69 to 99 are years of the twentieth century, 0 to 68 of the twenty-first. */
  function Pivot(yy: nat): (y: nat)
    requires yy < 100
    ensures y % 100 == yy && 1969 <= y <= 2068
  {
    if yy <= 68 then 2000 + yy else 1900 + yy
  }

  /** A date `datetime` can hold: a year of four digits at most and a day of that year. */
  predicate Dated(d: FileDate) {
    1 <= d.year <= 9999 && 1 <= d.doy <= DaysInYear(d.year)
  }

  /** `get_datetime_from_file_name`: the short form gives `%y%j`, the long form `%Y%j`; a name
      in neither form raises. */
  function DateFromFileName(name: string): (r: Result<FileDate>)
    ensures r == Err(InvalidFileNaming(name)) <==> forall q: nat :: q <= |name| ==> !ShortAt(name, q) && !LongAt(name, q)
    ensures r.Err? ==> r.error == InvalidFileNaming(name) || r.error == ValueError
    ensures r.Ok? ==> Dated(r.value)
  {
    match SearchName(name, 0)
    case None => Err(InvalidFileNaming(name))
    case Some(p) =>
      if ShortAt(name, p) then
        DigitsValueBound(name[p + 9..p + 11]);
        StrpDate(Pivot(DigitsValue(name[p + 9..p + 11])), DigitsValue(name[p + 4..p + 7]))
      else StrpDate(DigitsValue(name[p + 12..p + 16]), DigitsValue(name[p + 16..p + 19]))
  }

  /** The search stops at `p` when either form matches there and neither matched before. */
  lemma {:induction false} SearchNameAt(s: string, p0: nat, p: nat)
    requires p0 <= p <= |s| && (ShortAt(s, p) || LongAt(s, p))
    requires forall q :: p0 <= q < p ==> !ShortAt(s, q) && !LongAt(s, q)
    ensures SearchName(s, p0) == Some(p)
    decreases p - p0
  {
    if p0 < p {
      SearchNameAt(s, p0 + 1, p);
    }
  }

  /** A name whose first match (at `p`, after any directory part) is the short form is dated
      by the day and the two-digit year read at `p`. */
  lemma ShortNameDate(name: string, p: nat)
    requires SearchName(name, 0) == Some(p) && ShortAt(name, p)
    ensures DigitsValue(name[p + 9..p + 11]) < 100
    ensures DateFromFileName(name) == StrpDate(Pivot(DigitsValue(name[p + 9..p + 11])), DigitsValue(name[p + 4..p + 7]))
  {
    DigitsValueBound(name[p + 9..p + 11]);
  }

  /** A name whose first match (at `p`) is not the short form is the RINEX 3 long form there
      (twelve characters, then `YYYYDDD`, then eleven more), dated by its four-digit year and
      day. */
  lemma LongNameDate(name: string, p: nat)
    requires SearchName(name, 0) == Some(p) && !ShortAt(name, p)
    ensures LongAt(name, p)
    ensures DateFromFileName(name) == StrpDate(DigitsValue(name[p + 12..p + 16]), DigitsValue(name[p + 16..p + 19]))
  {
  }

  /** A path as a directory glob yields it: the directory part does not match, and the name
      after it is dated by its own short form. */
  lemma PathNameDate()
    ensures DateFromFileName("rintest/abcd0010.19n") == Ok(FileDate(2019, 1))
  {
    var s := "rintest/abcd0010.19n";
    PathNameMatch(s);
    ShortNameDate(s, 8);
    PathNameDigits(s);
    assert StrpDate(2019, 1) == Ok(FileDate(2019, 1));
  }

  lemma PathNameMatch(s: string)
    requires s == "rintest/abcd0010.19n"
    ensures SearchName(s, 0) == Some(8) && ShortAt(s, 8)
  {
    assert ShortAt(s, 8);
    forall q | 0 <= q < 8
      ensures !ShortAt(s, q) && !LongAt(s, q)
    {
      assert s[q + 8] != '.';
    }
    SearchNameAt(s, 0, 8);
  }

  lemma PathNameDigits(s: string)
    requires s == "rintest/abcd0010.19n"
    ensures AllDigits(s[17..19]) && DigitsValue(s[17..19]) == 19
    ensures AllDigits(s[12..15]) && DigitsValue(s[12..15]) == 1
  {
    var yy, ddd := s[17..19], s[12..15];
    assert yy == "19";
    assert ddd == "001";
    assert yy[..1] == "1" && ddd[..2] == "00" && ddd[..2][..1] == "0";
    assert DigitsValue(yy) == DigitsValue("1") * 10 + 9;
    assert DigitsValue("00") == DigitsValue("0") * 10 + 0;
    assert DigitsValue(ddd) == DigitsValue("00") * 10 + 1;
  }

  // ---------------------------------------------------------------------------------------
  // Ionospheric coefficients

  /** `[A-Z]` under re.IGNORECASE, for ASCII letters. */
  predicate IsLetter(c: char) { 'A' <= c <= 'Z' || 'a' <= c <= 'z' }

  /** The length of the run of letters that starts at `p`. */
  function LetterRun(s: string, p: nat): (n: nat)
    requires p <= |s|
    ensures p + n <= |s|
    ensures forall k :: p <= k < p + n ==> IsLetter(s[k])
    decreases |s| - p
  {
    if p < |s| && IsLetter(s[p]) then 1 + LetterRun(s, p + 1) else 0
  }

  /** Two letters side by side at `q`: where `[A-Z]{2,}` can start. */
  predicate PairAt(s: string, q: nat) {
    q + 1 < |s| && IsLetter(s[q]) && IsLetter(s[q + 1])
  }

  /** `re.search('([A-Z]{2,})', s, re.IGNORECASE)` from `p` on: the first run of two or more
      letters, taken whole. */
  function Label(s: string, p: nat): (r: Option<string>)
    requires p <= |s|
    ensures r.Some? ==> |r.value| >= 2 && forall k :: 0 <= k < |r.value| ==> IsLetter(r.value[k])
    ensures r.None? <==> forall q :: p <= q ==> !PairAt(s, q)
    ensures r.Some? ==> exists q :: p <= q && PairAt(s, q) && (forall q' :: p <= q' < q ==> !PairAt(s, q'))
                                     && r.value == s[q..q + LetterRun(s, q)]
    decreases |s| - p
  {
    if PairAt(s, p) then
      assert LetterRun(s, p + 1) >= 1;
      Some(s[p..p + LetterRun(s, p)])
    else if p + 1 >= |s| then None
    else Label(s, p + 1)
  }

  /** Where a match of `\d\.\d+E.\d\d` that starts at `p` ends, if there is one. */
  function IonoMatchAt(s: string, p: nat): (r: Option<nat>)
    requires p <= |s|
    ensures r.Some? ==> p < r.value <= |s|
  {
    if p + 2 > |s| || !IsDigit(s[p]) || s[p + 1] != '.' then None
    else
      var n := DigitRun(s, p + 2);
      var e := p + 2 + n;
      if n > 0 && e + 4 <= |s| && s[e] == 'E' && s[e + 1] != '\n' && IsDigit(s[e + 2]) && IsDigit(s[e + 3])
      then Some(e + 4) else None
  }

  /** `t` is a whole match of `\d\.\d+E.\d\d`. */
  predicate IonoShape(t: string) {
    && |t| >= 7 && IsDigit(t[0]) && t[1] == '.'
    && (forall k :: 2 <= k < |t| - 4 ==> IsDigit(t[k]))
    && t[|t| - 4] == 'E' && t[|t| - 3] != '\n' && IsDigit(t[|t| - 2]) && IsDigit(t[|t| - 1])
  }

  /** A match, cut out, has the pattern's form. */
  lemma IonoMatchAtSound(s: string, p: nat)
    requires p <= |s| && IonoMatchAt(s, p).Some?
    ensures IonoShape(s[p..IonoMatchAt(s, p).value])
  {
    DigitRunDigits(s, p + 2);
  }

  function IonoTable(s: string, n: nat): (t: seq<Option<nat>>)
    requires n <= |s| + 1
    ensures |t| == n
    ensures forall i :: 0 <= i < n && t[i].Some? ==> i < t[i].value <= |s|
  {
    if n == 0 then [] else IonoTable(s, n - 1) + [IonoMatchAt(s, n - 1)]
  }

  lemma {:induction false} IonoTableAt(s: string, n: nat)
    requires n <= |s| + 1
    ensures forall i :: 0 <= i < n ==> IonoTable(s, n)[i] == IonoMatchAt(s, i)
  {
    if n > 0 { IonoTableAt(s, n - 1); }
  }

  /** `re.findall('(\d\.\d+[E].\d\d)', s)`: the matched texts, left to right. */
  function IonoFindAll(s: string): (ts: seq<string>)
    ensures forall k :: 0 <= k < |ts| ==> IonoShape(ts[k])
  {
    var t := IonoTable(s, |s| + 1);
    var sp := Scan(t, 0);
    IonoTableAt(s, |s| + 1);
    ScanMatches(t, 0);
    assert forall k :: 0 <= k < |sp| ==> IonoMatchAt(s, sp[k].0) == Some(sp[k].1);
    var ts := Texts(s, sp);
    assert forall k :: 0 <= k < |ts| ==> IonoShape(ts[k]) by {
      forall k | 0 <= k < |ts| ensures IonoShape(ts[k]) { IonoMatchAtSound(s, sp[k].0); }
    }
    ts
  }

  /** Nothing is missed: every place of `s` where the pattern matches lies inside one of the
      spans the scan keeps, and those spans are exactly the texts `IonoFindAll` returns. */
  lemma IonoFindAllComplete(s: string, q: nat)
    requires q < |s| && IonoMatchAt(s, q).Some?
    ensures var sp := Scan(IonoTable(s, |s| + 1), 0);
      && IonoFindAll(s) == Texts(s, sp)
      && exists k :: 0 <= k < |sp| && sp[k].0 <= q < sp[k].1
  {
    var t := IonoTable(s, |s| + 1);
    IonoTableAt(s, |s| + 1);
    var k := ScanComplete(t, 0, q);
  }

  /** `cor.replace('D', 'E').replace('e', 'E')`. */
  function Upcase(cor: string): (s: string)
    ensures |s| == |cor| && forall k :: 0 <= k < |s| ==> s[k] != 'D' && s[k] != 'e'
  {
    ReplaceChar(ReplaceChar(cor, 'D', 'E'), 'e', 'E')
  }

  /** `parse_ionospheric_cor`: at most one label, with the coefficient texts found after the
      exponent letters are made `E` (the label is made from the same rewritten text). */
  function ParseIonosphericCor(cor: string): (r: ODict<string, seq<string>>)
    ensures r.Valid() && |r.keys| <= 1
    ensures |r.keys| == 1 <==> Label(Upcase(cor), 0).Some?
    ensures forall k :: k in r.m ==> k == Label(Upcase(cor), 0).value && r.m[k] == IonoFindAll(Upcase(cor))
  {
    var s := Upcase(cor);
    match Label(s, 0)
    case None => Empty()
    case Some(l) => Empty().Put(l, IonoFindAll(s))
  }

  const IonAlpha := "ION ALPHA"
  const IonBeta := "ION BETA"

  /** The coefficient texts of a RINEX 2 `ION ALPHA` / `ION BETA` line. */
  function IonLine(text: string): (ts: seq<string>)
    ensures forall k :: 0 <= k < |ts| ==> Shape(ts[k], true)
  {
    MatchTexts(Normalize(text), true)
  }

  /** The RINEX 2 pair `ION ALPHA` / `ION BETA` as the table of `GPSA` and `GPSB`; only text
      can be rewritten, so a table under either raises. */
  function AlphaBeta(h: Header): (r: Result<ODict<string, seq<string>>>)
    ensures r.Err? <==> IonAlpha in h && IonBeta in h && (h[IonAlpha].Table? || h[IonBeta].Table?)
    ensures r.Err? ==> r.error == AttributeError
    ensures r.Ok? ==> r.value.Valid()
    ensures r.Ok? && IonAlpha in h && IonBeta in h ==>
      r.value.keys == ["GPSA", "GPSB"] &&
      r.value.m == map["GPSA" := IonLine(h[IonAlpha].text), "GPSB" := IonLine(h[IonBeta].text)]
    ensures r.Ok? && !(IonAlpha in h && IonBeta in h) ==> r.value.keys == []
  {
    if IonAlpha in h && IonBeta in h then
      if h[IonAlpha].Table? || h[IonBeta].Table? then Err(AttributeError)
      else Ok(Empty().Put("GPSA", IonLine(h[IonAlpha].text)).Put("GPSB", IonLine(h[IonBeta].text)))
    else Ok(Empty())
  }

  /** `get_ionospheric_cor`: `ION ALPHA` and `ION BETA` give `GPSA` and `GPSB`; an
      `IONOSPHERIC CORR` field replaces them: a text is parsed, a table is taken as it is. */
  function GetIonosphericCor(h: Header): (r: Result<ODict<string, seq<string>>>)
    ensures r.Err? <==> IonAlpha in h && IonBeta in h && (h[IonAlpha].Table? || h[IonBeta].Table?)
    ensures r.Err? ==> r.error == AttributeError
    ensures r.Ok? && "IONOSPHERIC CORR" in h ==>
      r.value == (match h["IONOSPHERIC CORR"] case Text(t) => ParseIonosphericCor(t) case Table(tb) => tb)
    ensures r.Ok? && "IONOSPHERIC CORR" !in h && IonAlpha in h && IonBeta in h ==>
      r.value.keys == ["GPSA", "GPSB"] &&
      r.value.m == map["GPSA" := IonLine(h[IonAlpha].text), "GPSB" := IonLine(h[IonBeta].text)]
    ensures r.Ok? && "IONOSPHERIC CORR" !in h && !(IonAlpha in h && IonBeta in h) ==> r.value.keys == []
    ensures r.Ok? && TablesValid(h) ==> r.value.Valid()
  {
    var base :- AlphaBeta(h);
    if "IONOSPHERIC CORR" in h then
      match h["IONOSPHERIC CORR"]
      case Text(t) => Ok(ParseIonosphericCor(t))
      case Table(tb) => Ok(tb)
    else Ok(base)
  }

  // ---------------------------------------------------------------------------------------
  // Vote tables

  /** A token's tally in one slot: how many files gave it, and which, in the order they came. */
  datatype Entry = Entry(count: nat, owners: seq<string>)

  /** One coefficient slot: token text to its tally, in order of first appearance. */
  type Slot = ODict<string, Entry>

  /** A record's slots in index order. `enumerate` fills slot `idx` only once `0..idx-1` are
      there, so the keys of the source's per-record dictionary are always `0..n-1` in order. */
  type Record = seq<Slot>

  /** Satellite, then epoch, then the record of slots. */
  type Merged = ODict<string, ODict<DateTime, Record>>

  /** The votes of one correction label: per coefficient index, value text to its count. */
  type Tally = seq<ODict<string, nat>>

  function Max(a: nat, b: nat): nat { if a >= b then a else b }

  function Inc(n: nat): nat { n + 1 }

  /** `d[key] += 1` in the source's two-branch form: `first` for a new key, `more` of the old
      value for a key already there. */
  function Tick<K(==,!new), V>(d: ODict<K, V>, key: K, first: V, more: V -> V): (r: ODict<K, V>)
    ensures d.Valid() ==> r.Valid()
    ensures key in r.m && r.m.Keys == d.m.Keys + {key}
    ensures r.m[key] == if key in d.m then more(d.m[key]) else first
    ensures forall k {:trigger r.m[k]} :: k in d.m && k != key ==> r.m[k] == d.m[k]
  {
    if key in d.m then d.Put(key, more(d.m[key])) else d.Put(key, first)
  }

  /** Slot `idx` counts `key`; slot `|slots|` is opened for it. */
  function TickAt<V>(slots: seq<ODict<string, V>>, idx: nat, key: string, first: V, more: V -> V): (r: seq<ODict<string, V>>)
    requires idx <= |slots|
    ensures |r| == if idx < |slots| then |slots| else idx + 1
    ensures forall j {:trigger r[j]} :: 0 <= j < |r| && j != idx ==> r[j] == slots[j]
    ensures r[idx] == Tick(if idx < |slots| then slots[idx] else Empty(), key, first, more)
  {
    if idx < |slots| then slots[idx := Tick(slots[idx], key, first, more)]
    else slots + [Tick(Empty(), key, first, more)]
  }

  /** `for idx, v in enumerate(vals)`: every value counted in the slot of its index. */
  function TickAll<V>(slots: seq<ODict<string, V>>, vals: seq<string>, first: V, more: V -> V): (r: seq<ODict<string, V>>)
    ensures |r| == Max(|slots|, |vals|)
    decreases |vals|
  {
    if vals == [] then slots
    else
      var n := |vals| - 1;
      TickAt(TickAll(slots, vals[..n], first, more), n, vals[n], first, more)
  }

  /** Slot `idx` before the fold: the existing slot, or an empty one. */
  function SlotOr<V>(slots: seq<ODict<string, V>>, idx: nat): ODict<string, V> {
    if idx < |slots| then slots[idx] else Empty()
  }

  function CountOf(d: ODict<string, nat>, k: string): nat {
    if k in d.m then d.m[k] else 0
  }

  /** Counting a list of values adds exactly one vote, in the slot of each value's index, for
      that value, and changes nothing else. */
  lemma {:induction false} TickAllCount(slots: Tally, vals: seq<string>, idx: nat, k: string)
    requires idx < Max(|slots|, |vals|)
    ensures CountOf(TickAll(slots, vals, 1, Inc)[idx], k) ==
      CountOf(SlotOr(slots, idx), k) + (if idx < |vals| && vals[idx] == k then 1 else 0)
    decreases |vals|
  {
    if vals != [] {
      var n := |vals| - 1;
      var init := TickAll(slots, vals[..n], 1, Inc);
      if idx < |init| && idx != n {
        TickAllCount(slots, vals[..n], idx, k);
      } else if idx == n && n < |init| {
        TickAllCount(slots, vals[..n], idx, k);
      }
    }
  }

  /** Every slot is a well-formed, non-empty dictionary whose values satisfy `P`. */
  ghost predicate SlotsOK<V>(slots: seq<ODict<string, V>>, P: V -> bool) {
    forall idx :: 0 <= idx < |slots| ==>
      slots[idx].Valid() && slots[idx].keys != [] && forall k :: k in slots[idx].m ==> P(slots[idx].m[k])
  }

  /** Counting keeps every slot well formed and non-empty, and keeps a property of the values
      that the first value has and `more` preserves. */
  lemma {:induction false} TickAllOK<V>(slots: seq<ODict<string, V>>, vals: seq<string>, first: V, more: V -> V, P: V -> bool)
    requires SlotsOK(slots, P) && P(first) && forall v :: P(v) ==> P(more(v))
    ensures SlotsOK(TickAll(slots, vals, first, more), P)
    decreases |vals|
  {
    if vals != [] {
      var n := |vals| - 1;
      TickAllOK(slots, vals[..n], first, more, P);
      var init := TickAll(slots, vals[..n], first, more);
      var r := TickAt(init, n, vals[n], first, more);
      forall idx | 0 <= idx < |r|
        ensures r[idx].Valid() && r[idx].keys != [] && forall k :: k in r[idx].m ==> P(r[idx].m[k])
      {
        if idx == n {
          var before := SlotOr(init, n);
          assert before.Valid();
          var after := Tick(before, vals[n], first, more);
          assert r[idx] == after;
          assert vals[n] in after.m;
        }
      }
    }
  }

  // ---------------------------------------------------------------------------------------
  // The merged records

  ghost predicate MergedValid(m: Merged) {
    m.Valid() && forall sv :: sv in m.m ==> m.m[sv].Valid()
  }

  predicate InMerged(m: Merged, sv: string, t: DateTime) {
    sv in m.m && t in m.m[sv].m
  }

  /** The record of `(sv, t)`, empty while there is none. */
  function RecordOf(m: Merged, sv: string, t: DateTime): Record {
    if InMerged(m, sv, t) then m.m[sv].m[t] else []
  }

  /** `rinex_merged_data[sv][t] = rec`, opening the satellite's table when it is new. */
  function Store(m: Merged, sv: string, t: DateTime, rec: Record): (r: Merged)
    ensures MergedValid(m) ==> MergedValid(r)
    ensures forall s, u {:trigger InMerged(r, s, u)} :: InMerged(r, s, u) <==> InMerged(m, s, u) || (s == sv && u == t)
    ensures forall s, u {:trigger RecordOf(r, s, u)} :: RecordOf(r, s, u) == if s == sv && u == t then rec else RecordOf(m, s, u)
  {
    var recs := if sv in m.m then m.m[sv] else Empty();
    m.Put(sv, recs.Put(t, rec))
  }

  function Fresh(name: string): Entry { Entry(1, [name]) }

  /** `count += 1` and `owners.append(name)`. */
  function More(name: string): Entry -> Entry {
    (e: Entry) => Entry(e.count + 1, e.owners + [name])
  }

  /** The tokens of one record of file `name` counted into the merged record of `(sv, t)`. */
  function AddRecord(m: Merged, sv: string, t: DateTime, tokens: seq<string>, name: string): (r: Merged)
    ensures MergedValid(m) ==> MergedValid(r)
  {
    Store(m, sv, t, TickAll(RecordOf(m, sv, t), tokens, Fresh(name), More(name)))
  }

  /** The epochs of one satellite of a file from the `j`-th on, folded until the first one whose
      year and day differ from the file's; an epoch without tokens raises. */
  function EpochsFrom(m: Merged, maxIQ: nat, sv: string, recs: Records, j: nat, day: (int, int), name: string): (r: Result<(Merged, nat)>)
    requires recs.Valid() && j <= |recs.keys|
    ensures r.Err? ==> r.error == MissedCoefs
    decreases |recs.keys| - j
  {
    if j == |recs.keys| then Ok((m, maxIQ))
    else
      var t := recs.keys[j];
      var tokens := recs.m[t];
      if EpochYearDay(t) != day then Ok((m, maxIQ))
      else if tokens == [] then Err(MissedCoefs)
      else EpochsFrom(AddRecord(m, sv, t, tokens, name), Max(maxIQ, |tokens| - 1), sv, recs, j + 1, day, name)
  }

  /** An epoch of the file's day with coefficients is counted and the fold goes on. */
  lemma EpochsFromNext(m: Merged, maxIQ: nat, sv: string, recs: Records, j: nat, day: (int, int), name: string)
    requires recs.Valid() && j < |recs.keys|
    requires EpochYearDay(recs.keys[j]) == day && recs.m[recs.keys[j]] != []
    ensures EpochsFrom(m, maxIQ, sv, recs, j, day, name) ==
      EpochsFrom(AddRecord(m, sv, recs.keys[j], recs.m[recs.keys[j]], name), Max(maxIQ, |recs.m[recs.keys[j]]| - 1), sv, recs, j + 1, day, name)
  {
  }

  /** The satellites of a file from the `k`-th on. */
  function SvsFrom(m: Merged, maxIQ: nat, data: Data, k: nat, day: (int, int), name: string): (r: Result<(Merged, nat)>)
    requires DataValid(data) && k <= |data.keys|
    ensures r.Err? ==> r.error == MissedCoefs
    decreases |data.keys| - k
  {
    if k == |data.keys| then Ok((m, maxIQ))
    else
      var sv := data.keys[k];
      var folded :- EpochsFrom(m, maxIQ, sv, data.m[sv], 0, day, name);
      SvsFrom(folded.0, folded.1, data, k + 1, day, name)
  }

  /** The correction labels of a file from the `k`-th on, each list counted into its tally. */
  function IonoFrom(iv: ODict<string, Tally>, ionos: ODict<string, seq<string>>, k: nat): (r: ODict<string, Tally>)
    requires ionos.Valid() && k <= |ionos.keys|
    decreases |ionos.keys| - k
  {
    if k == |ionos.keys| then iv
    else
      var g := ionos.keys[k];
      var tally := if g in iv.m then iv.m[g] else [];
      IonoFrom(iv.Put(g, TickAll(tally, ionos.m[g], 1, Inc)), ionos, k + 1)
  }

  /** What `merge_rinexes` keeps while it reads the files. */
  datatype State = State(votes: ODict<FileDate, nat>, maxIQ: nat, iono: ODict<string, Tally>, data: Merged)

  function Start(): State { State(Empty(), 0, Empty(), Empty()) }

  /** One file: its name's date gets a vote; a file that did not read is passed over; otherwise
      its corrections and its records are counted. */
  function FileStep(st: State, name: string, parsed: Result<Parsed>): (r: Result<State>)
    requires parsed.Ok? ==> WellFormed(parsed.value)
  {
    var date :- DateFromFileName(name);
    var votes := Tick(st.votes, date, 1, Inc);
    if parsed.Err? then Ok(st.(votes := votes))
    else
      var p := parsed.value;
      var ionos :- GetIonosphericCor(p.header);
      var iono := IonoFrom(st.iono, ionos, 0);
      var folded :- SvsFrom(st.data, st.maxIQ, p.data, 0, FileYearDay(date), name);
      Ok(State(votes, folded.1, iono, folded.0))
  }

  ghost predicate FilesWellFormed(files: seq<(string, Result<Parsed>)>) {
    forall k :: 0 <= k < |files| && files[k].1.Ok? ==> WellFormed(files[k].1.value)
  }

  /** The file loop from the `i`-th file on. */
  function MergeFrom(files: seq<(string, Result<Parsed>)>, i: nat, st: State): (r: Result<State>)
    requires i <= |files| && FilesWellFormed(files)
    decreases |files| - i
  {
    if i == |files| then Ok(st)
    else
      var next :- FileStep(st, files[i].0, files[i].1);
      MergeFrom(files, i + 1, next)
  }

  // ---------------------------------------------------------------------------------------
  // What the fold keeps

  /** A merged record: well-formed, non-empty slots in which every count is the number of
      owners. */
  ghost predicate RecordOK(rec: Record) {
    SlotsOK(rec, (e: Entry) => e.count == |e.owners|)
  }

  /** Every record is sound and no longer than `maxIQ + 1` slots. */
  ghost predicate DataOK(m: Merged, maxIQ: nat) {
    && MergedValid(m)
    && forall s, u :: InMerged(m, s, u) ==> RecordOK(RecordOf(m, s, u)) && |RecordOf(m, s, u)| <= maxIQ + 1
  }

  /** `max_i_q` is a length met: zero, or one more than the last index of some record. */
  ghost predicate Reached(m: Merged, maxIQ: nat) {
    maxIQ == 0 || exists s, u :: InMerged(m, s, u) && |RecordOf(m, s, u)| == maxIQ + 1
  }

  /** Every merged epoch falls on the year and day of a date some file's name announced. */
  ghost predicate DaysOK(m: Merged, votes: ODict<FileDate, nat>) {
    forall s, u :: InMerged(m, s, u) ==> exists d :: d in votes.m && FileYearDay(d) == EpochYearDay(u)
  }

  /** Counting one record keeps the records sound and widens the bound to its last index. */
  lemma AddRecordOK(m: Merged, maxIQ: nat, sv: string, t: DateTime, tokens: seq<string>, name: string,
                    votes: ODict<FileDate, nat>, date: FileDate)
    requires DataOK(m, maxIQ) && DaysOK(m, votes) && tokens != []
    requires date in votes.m && EpochYearDay(t) == FileYearDay(date)
    ensures DataOK(AddRecord(m, sv, t, tokens, name), Max(maxIQ, |tokens| - 1))
    ensures DaysOK(AddRecord(m, sv, t, tokens, name), votes)
  {
    var rec := RecordOf(m, sv, t);
    var P := (e: Entry) => e.count == |e.owners|;
    assert SlotsOK(rec, P);
    TickAllOK(rec, tokens, Fresh(name), More(name), P);
    var r := AddRecord(m, sv, t, tokens, name);
    var added := TickAll(rec, tokens, Fresh(name), More(name));
    assert RecordOf(r, sv, t) == added && RecordOK(added);
    forall s, u | InMerged(r, s, u)
      ensures RecordOK(RecordOf(r, s, u)) && |RecordOf(r, s, u)| <= Max(maxIQ, |tokens| - 1) + 1
    {
      if !(s == sv && u == t) {
        assert InMerged(m, s, u) && RecordOf(r, s, u) == RecordOf(m, s, u);
      }
    }
    AddRecordDays(m, sv, t, tokens, name, votes, date);
  }

  /** Counting a non-empty record keeps `max_i_q` a length met, now the longer of the two. */
  lemma AddRecordReached(m: Merged, maxIQ: nat, sv: string, t: DateTime, tokens: seq<string>, name: string)
    requires DataOK(m, maxIQ) && Reached(m, maxIQ) && tokens != []
    ensures Reached(AddRecord(m, sv, t, tokens, name), Max(maxIQ, |tokens| - 1))
  {
    var rec := RecordOf(m, sv, t);
    var r := AddRecord(m, sv, t, tokens, name);
    assert InMerged(r, sv, t) && RecordOf(r, sv, t) == TickAll(rec, tokens, Fresh(name), More(name));
    if maxIQ < |tokens| - 1 {
      assert |rec| <= maxIQ + 1;
    } else if maxIQ != 0 {
      var s, u :| InMerged(m, s, u) && |RecordOf(m, s, u)| == maxIQ + 1;
      assert InMerged(r, s, u);
    }
  }

  /** A record counted on a day some name announced keeps every epoch on such a day. */
  lemma AddRecordDays(m: Merged, sv: string, t: DateTime, tokens: seq<string>, name: string,
                      votes: ODict<FileDate, nat>, date: FileDate)
    requires DaysOK(m, votes) && date in votes.m && EpochYearDay(t) == FileYearDay(date)
    ensures DaysOK(AddRecord(m, sv, t, tokens, name), votes)
  {
    var r := AddRecord(m, sv, t, tokens, name);
    forall s, u | InMerged(r, s, u) ensures exists d :: d in votes.m && FileYearDay(d) == EpochYearDay(u) {
      if !InMerged(m, s, u) { assert u == t; }
    }
  }

  lemma {:induction false} EpochsFromOK(m: Merged, maxIQ: nat, sv: string, recs: Records, j: nat, name: string,
                                        votes: ODict<FileDate, nat>, date: FileDate)
    requires recs.Valid() && j <= |recs.keys|
    requires DataOK(m, maxIQ) && DaysOK(m, votes) && Reached(m, maxIQ) && date in votes.m
    requires EpochsFrom(m, maxIQ, sv, recs, j, FileYearDay(date), name).Ok?
    ensures var r := EpochsFrom(m, maxIQ, sv, recs, j, FileYearDay(date), name).value;
      DataOK(r.0, r.1) && DaysOK(r.0, votes) && Reached(r.0, r.1) && maxIQ <= r.1
    decreases |recs.keys| - j
  {
    if j < |recs.keys| {
      var t := recs.keys[j];
      var tokens := recs.m[t];
      if EpochYearDay(t) == FileYearDay(date) {
        AddRecordOK(m, maxIQ, sv, t, tokens, name, votes, date);
        AddRecordReached(m, maxIQ, sv, t, tokens, name);
        EpochsFromOK(AddRecord(m, sv, t, tokens, name), Max(maxIQ, |tokens| - 1), sv, recs, j + 1, name, votes, date);
      }
    }
  }

  lemma {:induction false} SvsFromOK(m: Merged, maxIQ: nat, data: Data, k: nat, name: string,
                                     votes: ODict<FileDate, nat>, date: FileDate)
    requires DataValid(data) && k <= |data.keys|
    requires DataOK(m, maxIQ) && DaysOK(m, votes) && Reached(m, maxIQ) && date in votes.m
    requires SvsFrom(m, maxIQ, data, k, FileYearDay(date), name).Ok?
    ensures var r := SvsFrom(m, maxIQ, data, k, FileYearDay(date), name).value;
      DataOK(r.0, r.1) && DaysOK(r.0, votes) && Reached(r.0, r.1) && maxIQ <= r.1
    decreases |data.keys| - k
  {
    if k < |data.keys| {
      var sv := data.keys[k];
      EpochsFromOK(m, maxIQ, sv, data.m[sv], 0, name, votes, date);
      var folded := EpochsFrom(m, maxIQ, sv, data.m[sv], 0, FileYearDay(date), name).value;
      SvsFromOK(folded.0, folded.1, data, k + 1, name, votes, date);
    }
  }

  /** Every correction tally is made of well-formed, non-empty slots of positive counts. */
  ghost predicate IonoOK(iv: ODict<string, Tally>) {
    iv.Valid() && forall g :: g in iv.m ==> SlotsOK(iv.m[g], (n: nat) => n >= 1)
  }

  lemma {:induction false} IonoFromOK(iv: ODict<string, Tally>, ionos: ODict<string, seq<string>>, k: nat)
    requires ionos.Valid() && k <= |ionos.keys| && IonoOK(iv)
    ensures IonoOK(IonoFrom(iv, ionos, k))
    decreases |ionos.keys| - k
  {
    if k < |ionos.keys| {
      var g := ionos.keys[k];
      var tally := if g in iv.m then iv.m[g] else [];
      TickAllOK(tally, ionos.m[g], 1, Inc, (n: nat) => n >= 1);
      IonoFromOK(iv.Put(g, TickAll(tally, ionos.m[g], 1, Inc)), ionos, k + 1);
    }
  }

  ghost predicate StateOK(st: State) {
    && st.votes.Valid() && IonoOK(st.iono)
    && DataOK(st.data, st.maxIQ) && DaysOK(st.data, st.votes) && Reached(st.data, st.maxIQ)
  }

  lemma FileStepOK(st: State, name: string, parsed: Result<Parsed>)
    requires parsed.Ok? ==> WellFormed(parsed.value)
    requires StateOK(st) && FileStep(st, name, parsed).Ok?
    ensures StateOK(FileStep(st, name, parsed).value)
    ensures st.maxIQ <= FileStep(st, name, parsed).value.maxIQ
    ensures DateFromFileName(name).Ok?
    ensures FileStep(st, name, parsed).value.votes == Tick(st.votes, DateFromFileName(name).value, 1, Inc)
  {
    var date := DateFromFileName(name).value;
    var votes := Tick(st.votes, date, 1, Inc);
    assert DaysOK(st.data, votes) by {
      forall s, u | InMerged(st.data, s, u) ensures exists d :: d in votes.m && FileYearDay(d) == EpochYearDay(u) {
        var d :| d in st.votes.m && FileYearDay(d) == EpochYearDay(u);
        assert d in votes.m;
      }
    }
    if parsed.Ok? {
      var p := parsed.value;
      var ionos := GetIonosphericCor(p.header).value;
      IonoFromOK(st.iono, ionos, 0);
      SvsFromOK(st.data, st.maxIQ, p.data, 0, name, votes, date);
    }
  }

  /** The fold from the `i`-th file on keeps the state sound. */
  lemma {:induction false} MergeFromOK(files: seq<(string, Result<Parsed>)>, i: nat, st: State)
    requires i <= |files| && FilesWellFormed(files) && StateOK(st) && MergeFrom(files, i, st).Ok?
    ensures StateOK(MergeFrom(files, i, st).value)
    ensures st.maxIQ <= MergeFrom(files, i, st).value.maxIQ
    decreases |files| - i
  {
    if i < |files| {
      FileStepOK(st, files[i].0, files[i].1);
      MergeFromOK(files, i + 1, FileStep(st, files[i].0, files[i].1).value);
    }
  }

  // ---------------------------------------------------------------------------------------
  // Who voted for what

  /** The owners of value `v` in slot `i`, none while the slot has no such entry. */
  function OwnersAt(rec: Record, i: nat, v: string): seq<string> {
    if i < |rec| && v in rec[i].m then rec[i].m[v].owners else []
  }

  /** The list of values gives `v` at index `i`. */
  predicate GivesAt(vals: seq<string>, i: nat, v: string) {
    i < |vals| && vals[i] == v
  }

  /** Counting the values of file `name` appends `name` to the owners of exactly the value each
      index holds, and leaves every other entry's owners as they were. */
  lemma {:induction false} TickAllOwners(rec: Record, vals: seq<string>, name: string, i: nat, v: string)
    ensures OwnersAt(TickAll(rec, vals, Fresh(name), More(name)), i, v) ==
      OwnersAt(rec, i, v) + if GivesAt(vals, i, v) then [name] else []
    decreases |vals|
  {
    if vals != [] {
      var n := |vals| - 1;
      TickAllOwners(rec, vals[..n], name, i, v);
      var init := TickAll(rec, vals[..n], Fresh(name), More(name));
      var r := TickAt(init, n, vals[n], Fresh(name), More(name));
      assert GivesAt(vals, i, v) <==> GivesAt(vals[..n], i, v) || (i == n && vals[n] == v);
      if i == n {
        assert OwnersAt(init, n, v) == OwnersAt(rec, n, v);
        var before := SlotOr(init, n);
        assert r[n] == Tick(before, vals[n], Fresh(name), More(name));
      } else if i < |init| {
        assert r[i] == init[i];
      }
    }
  }

  /** The epoch loop over `recs`, from the `j`-th epoch until the first one off `day`, counts
      epoch `u` with `v` at index `i`. */
  ghost predicate EpochGives(recs: Records, j: nat, day: (int, int), u: DateTime, i: nat, v: string)
    requires recs.Valid() && j <= |recs.keys|
    decreases |recs.keys| - j
  {
    && j < |recs.keys| && EpochYearDay(recs.keys[j]) == day
    && ((recs.keys[j] == u && GivesAt(recs.m[u], i, v)) || EpochGives(recs, j + 1, day, u, i, v))
  }

  /** The loop counts each epoch at most once: the `j`-th epoch is not counted again from
      any later epoch on. */
  lemma {:induction false} EpochGivesOnce(recs: Records, j: nat, n: nat, day: (int, int), i: nat, v: string)
    requires recs.Valid() && j < n <= |recs.keys|
    ensures !EpochGives(recs, n, day, recs.keys[j], i, v)
    decreases |recs.keys| - n
  {
    if n < |recs.keys| {
      assert recs.keys[n] != recs.keys[j];
      EpochGivesOnce(recs, j, n + 1, day, i, v);
    }
  }

  /** The satellite loop over `data`, from the `k`-th satellite on, counts record `(s, u)` with
      `v` at index `i`. */
  ghost predicate SvGives(data: Data, k: nat, day: (int, int), s: string, u: DateTime, i: nat, v: string)
    requires DataValid(data) && k <= |data.keys|
    decreases |data.keys| - k
  {
    && k < |data.keys|
    && ((data.keys[k] == s && EpochGives(data.m[s], 0, day, u, i, v)) || SvGives(data, k + 1, day, s, u, i, v))
  }

  /** The loop visits each satellite once: the `k`-th satellite is not met again from any
      later satellite on. */
  lemma {:induction false} SvGivesOnce(data: Data, k: nat, n: nat, day: (int, int), u: DateTime, i: nat, v: string)
    requires DataValid(data) && k < n <= |data.keys|
    ensures !SvGives(data, n, day, data.keys[k], u, i, v)
    decreases |data.keys| - n
  {
    if n < |data.keys| {
      assert data.keys[n] != data.keys[k];
      SvGivesOnce(data, k, n + 1, day, u, i, v);
    }
  }

  lemma {:induction false} SvGivesIn(data: Data, k: nat, day: (int, int), s: string, u: DateTime, i: nat, v: string)
    requires DataValid(data) && k <= |data.keys| && SvGives(data, k, day, s, u, i, v)
    ensures s in data.m && EpochGives(data.m[s], 0, day, u, i, v)
    decreases |data.keys| - k
  {
    if !(data.keys[k] == s && EpochGives(data.m[s], 0, day, u, i, v)) {
      SvGivesIn(data, k + 1, day, s, u, i, v);
    }
  }

  lemma {:induction false} SvGivesFrom(data: Data, k: nat, q: nat, day: (int, int), s: string, u: DateTime, i: nat, v: string)
    requires DataValid(data) && k <= q < |data.keys| && data.keys[q] == s && EpochGives(data.m[s], 0, day, u, i, v)
    ensures SvGives(data, k, day, s, u, i, v)
    decreases q - k
  {
    if k < q {
      SvGivesFrom(data, k + 1, q, day, s, u, i, v);
    }
  }

  /** A file dated on `day` has its record `(s, u)` counted, with `v` at index `i`, exactly when
      `s` is one of its satellites and `u` one of the epochs the epoch loop counts for it. */
  lemma SvGivesIff(data: Data, day: (int, int), s: string, u: DateTime, i: nat, v: string)
    requires DataValid(data)
    ensures SvGives(data, 0, day, s, u, i, v) <==> s in data.m && EpochGives(data.m[s], 0, day, u, i, v)
  {
    if s in data.m && EpochGives(data.m[s], 0, day, u, i, v) {
      var q :| 0 <= q < |data.keys| && data.keys[q] == s;
      SvGivesFrom(data, 0, q, day, s, u, i, v);
    }
    if SvGives(data, 0, day, s, u, i, v) {
      SvGivesIn(data, 0, day, s, u, i, v);
    }
  }

  /** Counting one record of file `name` appends `name` to the owners of exactly the values
      that record gives, and changes no other record's owners. */
  lemma AddRecordOwners(m: Merged, sv: string, t: DateTime, tokens: seq<string>, name: string,
                        s: string, u: DateTime, i: nat, v: string)
    ensures OwnersAt(RecordOf(AddRecord(m, sv, t, tokens, name), s, u), i, v) ==
      OwnersAt(RecordOf(m, s, u), i, v) + if s == sv && u == t && GivesAt(tokens, i, v) then [name] else []
  {
    TickAllOwners(RecordOf(m, sv, t), tokens, name, i, v);
  }

  lemma AppendThen(a: seq<string>, b: seq<string>, c: seq<string>, x: seq<string>, y: seq<string>)
    requires b == a + x && c == b + y
    ensures c == a + (x + y)
  {
  }

  /** Two appends of `name`, at most one of them real, are one append when either is. */
  lemma AppendOnce(a: seq<string>, b: seq<string>, c: seq<string>, name: string, first: bool, second: bool)
    requires b == a + (if first then [name] else []) && c == b + (if second then [name] else [])
    requires !(first && second)
    ensures c == a + if first || second then [name] else []
  {
  }

  /** The epoch loop appends `name` once to the owners of each value it counts, when it ends
      in the merged records `r`. */
  lemma {:induction false} EpochsFromOwners(m: Merged, maxIQ: nat, sv: string, recs: Records, j: nat, day: (int, int),
                                            name: string, r: Merged, q: nat, s: string, u: DateTime, i: nat, v: string)
    requires recs.Valid() && j <= |recs.keys| && EpochsFrom(m, maxIQ, sv, recs, j, day, name) == Ok((r, q))
    ensures OwnersAt(RecordOf(r, s, u), i, v) ==
      OwnersAt(RecordOf(m, s, u), i, v) + if s == sv && EpochGives(recs, j, day, u, i, v) then [name] else []
    decreases |recs.keys| - j
  {
    if j < |recs.keys| && EpochYearDay(recs.keys[j]) == day {
      var t := recs.keys[j];
      var tokens := recs.m[t];
      var added := AddRecord(m, sv, t, tokens, name);
      var maxNext := Max(maxIQ, |tokens| - 1);
      assert tokens != [];
      EpochsFromNext(m, maxIQ, sv, recs, j, day, name);
      assert EpochsFrom(added, maxNext, sv, recs, j + 1, day, name) == Ok((r, q));
      var now := s == sv && u == t && GivesAt(tokens, i, v);
      var later := s == sv && EpochGives(recs, j + 1, day, u, i, v);
      assert (s == sv && EpochGives(recs, j, day, u, i, v)) == (now || later);
      EpochGivesOnce(recs, j, j + 1, day, i, v);
      assert !(now && later);
      AddRecordOwners(m, sv, t, tokens, name, s, u, i, v);
      EpochsFromOwners(added, maxNext, sv, recs, j + 1, day, name, r, q, s, u, i, v);
      AppendOnce(OwnersAt(RecordOf(m, s, u), i, v), OwnersAt(RecordOf(added, s, u), i, v), OwnersAt(RecordOf(r, s, u), i, v),
        name, now, later);
    }
  }

  /** The satellite loop appends `name` once to the owners of each value the file gives. */
  lemma {:induction false} SvsFromOwners(m: Merged, maxIQ: nat, data: Data, k: nat, day: (int, int),
                                         name: string, s: string, u: DateTime, i: nat, v: string)
    requires DataValid(data) && k <= |data.keys| && SvsFrom(m, maxIQ, data, k, day, name).Ok?
    ensures OwnersAt(RecordOf(SvsFrom(m, maxIQ, data, k, day, name).value.0, s, u), i, v) ==
      OwnersAt(RecordOf(m, s, u), i, v) + if SvGives(data, k, day, s, u, i, v) then [name] else []
    decreases |data.keys| - k
  {
    if k < |data.keys| {
      var sv := data.keys[k];
      var folded := EpochsFrom(m, maxIQ, sv, data.m[sv], 0, day, name).value;
      var now := sv == s && EpochGives(data.m[sv], 0, day, u, i, v);
      var later := SvGives(data, k + 1, day, s, u, i, v);
      SvGivesOnce(data, k, k + 1, day, u, i, v);
      EpochsFromOwners(m, maxIQ, sv, data.m[sv], 0, day, name, folded.0, folded.1, s, u, i, v);
      SvsFromOwners(folded.0, folded.1, data, k + 1, day, name, s, u, i, v);
      AppendOnce(OwnersAt(RecordOf(m, s, u), i, v), OwnersAt(RecordOf(folded.0, s, u), i, v),
        OwnersAt(RecordOf(SvsFrom(m, maxIQ, data, k, day, name).value.0, s, u), i, v), name, now, later);
    }
  }

  /** One file appends its name once to the owners of each value it gives, and only when it read. */
  lemma FileStepOwners(st: State, name: string, parsed: Result<Parsed>, s: string, u: DateTime, i: nat, v: string)
    requires parsed.Ok? ==> WellFormed(parsed.value)
    requires FileStep(st, name, parsed).Ok?
    ensures DateFromFileName(name).Ok?
    ensures OwnersAt(RecordOf(FileStep(st, name, parsed).value.data, s, u), i, v) ==
      OwnersAt(RecordOf(st.data, s, u), i, v) + FileOwner(name, parsed, s, u, i, v)
  {
    if parsed.Ok? {
      var p := parsed.value;
      SvsFromOwners(st.data, st.maxIQ, p.data, 0, FileYearDay(DateFromFileName(name).value), name, s, u, i, v);
    }
  }

  /** File `name`, when it read and its name is dated, if its record `(s, u)` is counted with
      `v` at index `i`. */
  ghost function FileOwner(name: string, parsed: Result<Parsed>, s: string, u: DateTime, i: nat, v: string): seq<string>
    requires parsed.Ok? ==> WellFormed(parsed.value)
  {
    var date := DateFromFileName(name);
    if parsed.Ok? && date.Ok? && SvGives(parsed.value.data, 0, FileYearDay(date.value), s, u, i, v) then [name] else []
  }

  /** The files from the `k`-th on whose record `(s, u)` is counted with `v` at index `i`, in
      the order they are read. */
  ghost function OwnersFrom(files: seq<(string, Result<Parsed>)>, k: nat, s: string, u: DateTime, i: nat, v: string): seq<string>
    requires k <= |files| && FilesWellFormed(files)
    decreases |files| - k
  {
    if k == |files| then [] else FileOwner(files[k].0, files[k].1, s, u, i, v) + OwnersFrom(files, k + 1, s, u, i, v)
  }

  /** The file loop appends, to the owners of each value, the files that give it, in order. */
  lemma {:induction false} MergeFromOwners(files: seq<(string, Result<Parsed>)>, k: nat, st: State,
                                           s: string, u: DateTime, i: nat, v: string)
    requires k <= |files| && FilesWellFormed(files) && MergeFrom(files, k, st).Ok?
    ensures OwnersAt(RecordOf(MergeFrom(files, k, st).value.data, s, u), i, v) ==
      OwnersAt(RecordOf(st.data, s, u), i, v) + OwnersFrom(files, k, s, u, i, v)
    decreases |files| - k
  {
    if k < |files| {
      var next := FileStep(st, files[k].0, files[k].1).value;
      FileStepOwners(st, files[k].0, files[k].1, s, u, i, v);
      MergeFromOwners(files, k + 1, next, s, u, i, v);
      AppendThen(OwnersAt(RecordOf(st.data, s, u), i, v), OwnersAt(RecordOf(next.data, s, u), i, v),
        OwnersAt(RecordOf(MergeFrom(files, k + 1, next).value.data, s, u), i, v),
        FileOwner(files[k].0, files[k].1, s, u, i, v), OwnersFrom(files, k + 1, s, u, i, v));
    }
  }

  // ---------------------------------------------------------------------------------------
  // What the correction tallies count

  /** The count of `v` in slot `idx` of the tally of label `g`; zero while there is none. */
  function IonoCount(iv: ODict<string, Tally>, g: string, idx: nat, v: string): nat {
    if g in iv.m then CountOf(SlotOr(iv.m[g], idx), v) else 0
  }

  /** Counting a list adds one vote for the value at each index, whichever slot is asked. */
  lemma TickAllSlotCount(slots: Tally, vals: seq<string>, idx: nat, k: string)
    ensures CountOf(SlotOr(TickAll(slots, vals, 1, Inc), idx), k) ==
      CountOf(SlotOr(slots, idx), k) + (if idx < |vals| && vals[idx] == k then 1 else 0)
  {
    if idx < Max(|slots|, |vals|) {
      TickAllCount(slots, vals, idx, k);
    }
  }

  /** One if label `g`, among the labels of `ionos` from the `k`-th on, has `v` at index `idx`. */
  function IonoHit(ionos: ODict<string, seq<string>>, k: nat, g: string, idx: nat, v: string): nat
    requires k <= |ionos.keys|
  {
    if g in ionos.keys[k..] && g in ionos.m && idx < |ionos.m[g]| && ionos.m[g][idx] == v then 1 else 0
  }

  /** Counting the list of label `h` adds one vote for `v` in slot `idx` of `h` when the list
      has `v` at `idx`, and changes no count of another label. */
  lemma IonoPutCount(iv: ODict<string, Tally>, h: string, vals: seq<string>, g: string, idx: nat, v: string)
    ensures var tally := if h in iv.m then iv.m[h] else [];
      IonoCount(iv.Put(h, TickAll(tally, vals, 1, Inc)), g, idx, v) ==
        IonoCount(iv, g, idx, v) + (if g == h && idx < |vals| && vals[idx] == v then 1 else 0)
  {
    if g == h {
      var tally := if h in iv.m then iv.m[h] else [];
      TickAllSlotCount(tally, vals, idx, v);
    }
  }

  /** A label is one of the labels from the `k`-th on when it is the `k`-th or one after it,
      and never both. */
  lemma IonoHitNext(ionos: ODict<string, seq<string>>, k: nat, g: string, idx: nat, v: string)
    requires ionos.Valid() && k < |ionos.keys|
    ensures var h := ionos.keys[k];
      IonoHit(ionos, k, g, idx, v) ==
        IonoHit(ionos, k + 1, g, idx, v) + (if g == h && idx < |ionos.m[h]| && ionos.m[h][idx] == v then 1 else 0)
  {
    assert ionos.keys[k..] == [ionos.keys[k]] + ionos.keys[k + 1..];
    if g == ionos.keys[k] {
      assert forall j :: k + 1 <= j < |ionos.keys| ==> ionos.keys[j] != ionos.keys[k];
      assert g !in ionos.keys[k + 1..];
    }
  }

  /** Counting a file's correction table adds one vote for `v` in slot `idx` of label `g`
      exactly when the table gives `g` the value `v` at `idx`, and changes no other count. */
  lemma {:induction false} IonoFromCount(iv: ODict<string, Tally>, ionos: ODict<string, seq<string>>, k: nat,
                                         g: string, idx: nat, v: string)
    requires ionos.Valid() && k <= |ionos.keys|
    ensures IonoCount(IonoFrom(iv, ionos, k), g, idx, v) == IonoCount(iv, g, idx, v) + IonoHit(ionos, k, g, idx, v)
    decreases |ionos.keys| - k
  {
    if k < |ionos.keys| {
      var h := ionos.keys[k];
      var tally := if h in iv.m then iv.m[h] else [];
      var next := iv.Put(h, TickAll(tally, ionos.m[h], 1, Inc));
      assert IonoFrom(iv, ionos, k) == IonoFrom(next, ionos, k + 1);
      IonoFromCount(next, ionos, k + 1, g, idx, v);
      IonoPutCount(iv, h, ionos.m[h], g, idx, v);
      IonoHitNext(ionos, k, g, idx, v);
    }
  }

  /** One if file `name` read, its name is dated and its correction table gives label `g` the
      value `v` at index `idx`. */
  function FileIono(name: string, parsed: Result<Parsed>, g: string, idx: nat, v: string): nat {
    if parsed.Ok? && DateFromFileName(name).Ok? then
      match GetIonosphericCor(parsed.value.header)
      case Ok(ionos) => if g in ionos.m && idx < |ionos.m[g]| && ionos.m[g][idx] == v then 1 else 0
      case Err(_) => 0
    else 0
  }

  lemma FileStepIonoCount(st: State, name: string, parsed: Result<Parsed>, g: string, idx: nat, v: string)
    requires parsed.Ok? ==> WellFormed(parsed.value)
    requires FileStep(st, name, parsed).Ok?
    ensures IonoCount(FileStep(st, name, parsed).value.iono, g, idx, v) ==
      IonoCount(st.iono, g, idx, v) + FileIono(name, parsed, g, idx, v)
  {
    if parsed.Ok? {
      var ionos := GetIonosphericCor(parsed.value.header).value;
      IonoFromCount(st.iono, ionos, 0, g, idx, v);
      assert ionos.keys[0..] == ionos.keys;
    }
  }

  /** The number of files from the `k`-th on whose correction table gives label `g` the value
      `v` at index `idx`. */
  function IonoCountFrom(files: seq<(string, Result<Parsed>)>, k: nat, g: string, idx: nat, v: string): nat
    requires k <= |files|
    decreases |files| - k
  {
    if k == |files| then 0 else FileIono(files[k].0, files[k].1, g, idx, v) + IonoCountFrom(files, k + 1, g, idx, v)
  }

  /** The file loop adds, to the count of each value of each correction slot, the number of
      files that give it. */
  lemma {:induction false} MergeFromIonoCount(files: seq<(string, Result<Parsed>)>, k: nat, st: State,
                                              g: string, idx: nat, v: string)
    requires k <= |files| && FilesWellFormed(files) && MergeFrom(files, k, st).Ok?
    ensures IonoCount(MergeFrom(files, k, st).value.iono, g, idx, v) ==
      IonoCount(st.iono, g, idx, v) + IonoCountFrom(files, k, g, idx, v)
    decreases |files| - k
  {
    if k < |files| {
      var next := FileStep(st, files[k].0, files[k].1).value;
      FileStepIonoCount(st, files[k].0, files[k].1, g, idx, v);
      MergeFromIonoCount(files, k + 1, next, g, idx, v);
    }
  }

  /** `ks` followed by each value of `vs` not seen before: the values in order of first
      appearance. */
  function FirstSeen(ks: seq<string>, vs: seq<string>): seq<string>
    decreases |vs|
  {
    if vs == [] then ks else FirstSeen(if vs[0] in ks then ks else ks + [vs[0]], vs[1..])
  }

  lemma {:induction false} FirstSeenAppend(ks: seq<string>, a: seq<string>, b: seq<string>)
    ensures FirstSeen(ks, a + b) == FirstSeen(FirstSeen(ks, a), b)
    decreases |a|
  {
    if a == [] {
      assert a + b == b;
    } else {
      assert (a + b)[0] == a[0] && (a + b)[1..] == a[1..] + b;
      FirstSeenAppend(if a[0] in ks then ks else ks + [a[0]], a[1..], b);
    }
  }

  /** The keys of slot `idx` of label `g`, in order; none while there is no such slot. */
  function KeysAt(iv: ODict<string, Tally>, g: string, idx: nat): seq<string> {
    if g in iv.m then SlotOr(iv.m[g], idx).keys else []
  }

  ghost predicate SlotValidAt(iv: ODict<string, Tally>, g: string, idx: nat) {
    g in iv.m ==> SlotOr(iv.m[g], idx).Valid()
  }

  /** Counting a list opens, in the slot of each index, a key for a value new to that slot,
      after the keys already there. */
  lemma {:induction false} TickAllSlotKeys(slots: Tally, vals: seq<string>, idx: nat)
    requires SlotOr(slots, idx).Valid()
    ensures SlotOr(TickAll(slots, vals, 1, Inc), idx).Valid()
    ensures SlotOr(TickAll(slots, vals, 1, Inc), idx).keys ==
      SlotOr(slots, idx).keys + (if idx < |vals| && vals[idx] !in SlotOr(slots, idx).keys then [vals[idx]] else [])
    decreases |vals|
  {
    if vals != [] {
      var n := |vals| - 1;
      TickAllSlotKeys(slots, vals[..n], idx);
      if idx == n {
        TickAllSlotKeys(slots, vals[..n], n);
      }
    }
  }

  /** The value label `g` of `ionos` has at index `idx`, if `g` is among the labels from the
      `k`-th on and its list is long enough. */
  function IonoValue(ionos: ODict<string, seq<string>>, k: nat, g: string, idx: nat): seq<string>
    requires k <= |ionos.keys|
  {
    if g in ionos.keys[k..] && g in ionos.m && idx < |ionos.m[g]| then [ionos.m[g][idx]] else []
  }

  lemma IonoPutKeys(iv: ODict<string, Tally>, h: string, vals: seq<string>, g: string, idx: nat)
    requires SlotValidAt(iv, g, idx)
    ensures var tally := if h in iv.m then iv.m[h] else [];
      var next := iv.Put(h, TickAll(tally, vals, 1, Inc));
      && SlotValidAt(next, g, idx)
      && KeysAt(next, g, idx) == KeysAt(iv, g, idx) +
           (if g == h && idx < |vals| && vals[idx] !in KeysAt(iv, g, idx) then [vals[idx]] else [])
  {
    if g == h {
      var tally := if h in iv.m then iv.m[h] else [];
      TickAllSlotKeys(tally, vals, idx);
    }
  }

  /** Seeing at most one value is appending it when it is new. */
  lemma FirstSeenOne(ks: seq<string>, vs: seq<string>)
    requires |vs| <= 1
    ensures FirstSeen(ks, vs) == ks + (if vs != [] && vs[0] !in ks then vs else [])
  {
    if vs != [] {
      assert vs[1..] == [];
    }
  }

  lemma IonoValueNext(ionos: ODict<string, seq<string>>, k: nat, g: string, idx: nat)
    requires ionos.Valid() && k < |ionos.keys|
    ensures var h := ionos.keys[k];
      IonoValue(ionos, k, g, idx) ==
        (if g == h && idx < |ionos.m[h]| then [ionos.m[h][idx]] else []) + IonoValue(ionos, k + 1, g, idx)
  {
    assert ionos.keys[k..] == [ionos.keys[k]] + ionos.keys[k + 1..];
    if g == ionos.keys[k] {
      assert forall j :: k + 1 <= j < |ionos.keys| ==> ionos.keys[j] != ionos.keys[k];
      assert g !in ionos.keys[k + 1..];
    }
  }

  /** Counting a file's correction table opens a key for the value it gives label `g` at index
      `idx` when that value is new to the slot. */
  lemma {:induction false} IonoFromKeys(iv: ODict<string, Tally>, ionos: ODict<string, seq<string>>, k: nat, g: string, idx: nat)
    requires ionos.Valid() && k <= |ionos.keys| && SlotValidAt(iv, g, idx)
    ensures SlotValidAt(IonoFrom(iv, ionos, k), g, idx)
    ensures KeysAt(IonoFrom(iv, ionos, k), g, idx) == FirstSeen(KeysAt(iv, g, idx), IonoValue(ionos, k, g, idx))
    decreases |ionos.keys| - k
  {
    if k < |ionos.keys| {
      var h := ionos.keys[k];
      var tally := if h in iv.m then iv.m[h] else [];
      var next := iv.Put(h, TickAll(tally, ionos.m[h], 1, Inc));
      assert IonoFrom(iv, ionos, k) == IonoFrom(next, ionos, k + 1);
      IonoPutKeys(iv, h, ionos.m[h], g, idx);
      IonoFromKeys(next, ionos, k + 1, g, idx);
      IonoValueNext(ionos, k, g, idx);
      FirstSeenOne(KeysAt(iv, g, idx), if g == h && idx < |ionos.m[h]| then [ionos.m[h][idx]] else []);
      FirstSeenAppend(KeysAt(iv, g, idx), if g == h && idx < |ionos.m[h]| then [ionos.m[h][idx]] else [], IonoValue(ionos, k + 1, g, idx));
    }
  }

  /** The value file `name` gives label `g` at index `idx`, when it read and its name is dated. */
  function FileIonoValue(name: string, parsed: Result<Parsed>, g: string, idx: nat): seq<string> {
    if parsed.Ok? && DateFromFileName(name).Ok? then
      match GetIonosphericCor(parsed.value.header)
      case Ok(ionos) => if g in ionos.m && idx < |ionos.m[g]| then [ionos.m[g][idx]] else []
      case Err(_) => []
    else []
  }

  lemma FileStepIonoKeys(st: State, name: string, parsed: Result<Parsed>, g: string, idx: nat)
    requires parsed.Ok? ==> WellFormed(parsed.value)
    requires FileStep(st, name, parsed).Ok? && SlotValidAt(st.iono, g, idx)
    ensures SlotValidAt(FileStep(st, name, parsed).value.iono, g, idx)
    ensures KeysAt(FileStep(st, name, parsed).value.iono, g, idx) == FirstSeen(KeysAt(st.iono, g, idx), FileIonoValue(name, parsed, g, idx))
  {
    if parsed.Ok? {
      var ionos := GetIonosphericCor(parsed.value.header).value;
      IonoFromKeys(st.iono, ionos, 0, g, idx);
      assert ionos.keys[0..] == ionos.keys;
    }
  }

  /** The values the files from the `k`-th on give label `g` at index `idx`, in file order. */
  function IonoValuesFrom(files: seq<(string, Result<Parsed>)>, k: nat, g: string, idx: nat): seq<string>
    requires k <= |files|
    decreases |files| - k
  {
    if k == |files| then [] else FileIonoValue(files[k].0, files[k].1, g, idx) + IonoValuesFrom(files, k + 1, g, idx)
  }

  /** The file loop opens the keys of each correction slot in the order the files first give
      the values. */
  lemma {:induction false} MergeFromIonoKeys(files: seq<(string, Result<Parsed>)>, k: nat, st: State, g: string, idx: nat)
    requires k <= |files| && FilesWellFormed(files) && MergeFrom(files, k, st).Ok? && SlotValidAt(st.iono, g, idx)
    ensures KeysAt(MergeFrom(files, k, st).value.iono, g, idx) == FirstSeen(KeysAt(st.iono, g, idx), IonoValuesFrom(files, k, g, idx))
    decreases |files| - k
  {
    if k < |files| {
      var next := FileStep(st, files[k].0, files[k].1).value;
      FileStepIonoKeys(st, files[k].0, files[k].1, g, idx);
      MergeFromIonoKeys(files, k + 1, next, g, idx);
      FirstSeenAppend(KeysAt(st.iono, g, idx), FileIonoValue(files[k].0, files[k].1, g, idx), IonoValuesFrom(files, k + 1, g, idx));
    }
  }

  /** The number of votes cast. */
  function VoteSum(votes: ODict<FileDate, nat>): nat {
    Total(Initial(votes), (n: nat) => n)
  }

  /** A vote adds one to the number cast and makes its date a key. */
  lemma TickVoteSum(votes: ODict<FileDate, nat>, date: FileDate)
    requires votes.Valid()
    ensures VoteSum(Tick(votes, date, 1, Inc)) == VoteSum(votes) + 1
  {
    var r := Tick(votes, date, 1, Inc);
    if date in votes.m {
      var p :| 0 <= p < |votes.keys| && votes.keys[p] == date;
      assert Initial(r) == Initial(votes)[p := Some(votes.m[date] + 1)];
      TotalUpdate(Initial(votes), p, Some(votes.m[date] + 1), (n: nat) => n);
    } else {
      InitialPut(votes, date, 1);
      TotalAppend(Initial(votes), Some(1), (n: nat) => n);
    }
  }

  /** Every file from the `i`-th on casts one vote, whether or not it then reads: the number
      of votes grows by the number of files. */
  lemma {:induction false} MergeFromVotes(files: seq<(string, Result<Parsed>)>, i: nat, st: State)
    requires i <= |files| && FilesWellFormed(files) && StateOK(st) && MergeFrom(files, i, st).Ok?
    ensures VoteSum(MergeFrom(files, i, st).value.votes) == VoteSum(st.votes) + (|files| - i)
    decreases |files| - i
  {
    if i < |files| {
      var next := FileStep(st, files[i].0, files[i].1).value;
      assert MergeFrom(files, i, st) == MergeFrom(files, i + 1, next);
      FileStepOK(st, files[i].0, files[i].1);
      TickVoteSum(st.votes, DateFromFileName(files[i].0).value);
      MergeFromVotes(files, i + 1, next);
    }
  }

  /** A file that folds without error had a dated name, and its date got one vote. */
  lemma FileStepVotes(st: State, name: string, parsed: Result<Parsed>)
    requires parsed.Ok? ==> WellFormed(parsed.value)
    requires FileStep(st, name, parsed).Ok?
    ensures DateFromFileName(name).Ok?
    ensures FileStep(st, name, parsed).value.votes == Tick(st.votes, DateFromFileName(name).value, 1, Inc)
  {
  }

  /** No date once voted for leaves the vote table. */
  lemma {:induction false} MergeFromKeeps(files: seq<(string, Result<Parsed>)>, i: nat, st: State, d: FileDate)
    requires i <= |files| && FilesWellFormed(files) && MergeFrom(files, i, st).Ok?
    requires d in st.votes.m
    ensures d in MergeFrom(files, i, st).value.votes.m
    decreases |files| - i
  {
    if i < |files| {
      FileStepVotes(st, files[i].0, files[i].1);
      MergeFromKeeps(files, i + 1, FileStep(st, files[i].0, files[i].1).value, d);
    }
  }

  /** Only dates some name announced get votes, so every date voted for is one `datetime` can
      hold. */
  lemma {:induction false} MergeFromDated(files: seq<(string, Result<Parsed>)>, i: nat, st: State)
    requires i <= |files| && FilesWellFormed(files) && MergeFrom(files, i, st).Ok?
    requires forall d :: d in st.votes.m ==> Dated(d)
    ensures forall d :: d in MergeFrom(files, i, st).value.votes.m ==> Dated(d)
    decreases |files| - i
  {
    if i < |files| {
      FileStepVotes(st, files[i].0, files[i].1);
      MergeFromDated(files, i + 1, FileStep(st, files[i].0, files[i].1).value);
    }
  }

  /** The date every file's name announces, from the `i`-th file on, is among the keys of the
      vote table. */
  lemma {:induction false} MergeFromDates(files: seq<(string, Result<Parsed>)>, i: nat, st: State, k: nat)
    requires i <= k < |files| && FilesWellFormed(files) && MergeFrom(files, i, st).Ok?
    ensures DateFromFileName(files[k].0).Ok?
    ensures DateFromFileName(files[k].0).value in MergeFrom(files, i, st).value.votes.m
    decreases |files| - i
  {
    var next := FileStep(st, files[i].0, files[i].1).value;
    FileStepVotes(st, files[i].0, files[i].1);
    if k == i {
      MergeFromKeeps(files, i + 1, next, DateFromFileName(files[i].0).value);
    } else {
      MergeFromDates(files, i + 1, next, k);
    }
  }

  // ---------------------------------------------------------------------------------------
  // The consensus of the ionospheric corrections

  function Plus(a: nat, b: nat): nat { a + b }

  /** The count of a key, as the sort reads it. */
  function CountIn(c: ODict<string, nat>): string -> nat {
    k => CountOf(c, k)
  }

  /** Every key of `d` is text `float()` accepts, `isFloat` standing for that. */
  predicate KeysFloat<V>(d: ODict<string, V>, isFloat: string -> bool) {
    forall j :: 0 <= j < |d.keys| ==> isFloat(d.keys[j])
  }

  /** `delete_similar_coefs` over counts. Its outer loop calls `float(coef_to)` on every key,
      and a key `float()` refuses raises ValueError out of the merge, so the values folded
      before it are never seen: the keys are checked first, then folded. */
  method DeleteSimilarCounts(d: ODict<string, nat>, isFloat: string -> bool, near: (string, string) -> bool, isZero: string -> bool)
    returns (r: Result<ODict<string, nat>>)
    requires d.Valid()
    ensures r == if KeysFloat(d, isFloat) then Ok(Folded(d, near, isZero, Plus)) else Err(ValueError)
  {
    var j := 0;
    while j < |d.keys|
      invariant j <= |d.keys|
      invariant forall i :: 0 <= i < j ==> isFloat(d.keys[i])
    {
      if !isFloat(d.keys[j]) {
        return Err(ValueError);
      }
      j := j + 1;
    }
    var folded := DeleteSimilar(d, near, isZero, Plus);
    r := Ok(folded);
  }

  /** The near-duplicate fold over counts loses and invents no vote. */
  lemma DeleteSimilarCountsTotal(d: ODict<string, nat>, near: (string, string) -> bool, isZero: string -> bool)
    requires d.Valid()
    ensures Total(Initial(Folded(d, near, isZero, Plus)), (n: nat) => n) == Total(Initial(d), (n: nat) => n)
  {
    FoldedTotal(d, near, isZero, Plus, (n: nat) => n);
  }

  /** `sorted(coefs, key=coefs.get, reverse=True)[0]` after the fold: a key `float()` refuses
      raises ValueError in the fold; on an empty dictionary the index raises. */
  function Winner(slot: ODict<string, nat>, isFloat: string -> bool, near: (string, string) -> bool, isZero: string -> bool): (r: Result<string>)
  {
    if !KeysFloat(slot, isFloat) then Err(ValueError)
    else
      var c := Folded(slot, near, isZero, Plus);
      if c.keys == [] then Err(IndexError) else Ok(SortDesc(c.keys, CountIn(c))[0])
  }

  /** The accepted value is a key of the slot, a surviving key of greatest count, and of the
      keys with that count the first in the dictionary's order. The slot raises ValueError
      exactly when one of its keys is not a number; otherwise a non-empty slot always has a
      value, so the index raises only on an empty slot. */
  lemma WinnerFirstMax(slot: ODict<string, nat>, isFloat: string -> bool, near: (string, string) -> bool, isZero: string -> bool)
    requires slot.Valid()
    ensures Winner(slot, isFloat, near, isZero).Ok? <==> slot.keys != [] && KeysFloat(slot, isFloat)
    ensures Winner(slot, isFloat, near, isZero).Err? ==>
      Winner(slot, isFloat, near, isZero).error == if KeysFloat(slot, isFloat) then IndexError else ValueError
    ensures Winner(slot, isFloat, near, isZero).Ok? ==>
      var c := Folded(slot, near, isZero, Plus);
      var w := Winner(slot, isFloat, near, isZero).value;
      && w in slot.m && w in c.m
      && (forall k :: k in c.m ==> c.m[k] <= c.m[w])
      && exists j :: 0 <= j < |c.keys| && c.keys[j] == w && forall i :: 0 <= i < j ==> CountOf(c, c.keys[i]) < c.m[w]
  {
    if slot.keys != [] { FoldedNonEmpty(slot, near, isZero, Plus); }
    FoldedValid(slot, near, isZero, Plus);
    if KeysFloat(slot, isFloat) && slot.keys != [] { FoldedFirstMax(slot, near, isZero); }
  }

  /** The head of the folded slot sorted by count is a key of the slot, of greatest count, and
      the first such among the survivors. */
  lemma FoldedFirstMax(slot: ODict<string, nat>, near: (string, string) -> bool, isZero: string -> bool)
    requires slot.Valid() && slot.keys != []
    ensures var c := Folded(slot, near, isZero, Plus);
      && c.keys != []
      && var w := SortDesc(c.keys, CountIn(c))[0];
      && w in slot.m && w in c.m
      && (forall k :: k in c.m ==> c.m[k] <= c.m[w])
      && exists j :: 0 <= j < |c.keys| && c.keys[j] == w && forall i :: 0 <= i < j ==> CountOf(c, c.keys[i]) < c.m[w]
  {
    FoldedNonEmpty(slot, near, isZero, Plus);
    FoldedValid(slot, near, isZero, Plus);
    var c := Folded(slot, near, isZero, Plus);
    var w := SortDesc(c.keys, CountIn(c))[0];
    SortDescFirst(c.keys, CountIn(c));
    assert w in multiset(c.keys);
    forall k | k in c.m ensures c.m[k] <= c.m[w] {
      var p :| 0 <= p < |c.keys| && c.keys[p] == k;
      assert CountIn(c)(c.keys[p]) <= CountIn(c)(w);
    }
  }

  /** How one slot of votes is decided. The consensus below is stated for any such rule;
      the merge decides by `Winner`. */
  type Rule = ODict<string, nat> -> Result<string>

  /** `decide` decides every slot as `Winner` does. The equation is used only where a
      `Winner` term is in view, so reasoning about a consensus under this rule does not unfold
      the fold and the sort of every slot. */
  ghost predicate DecidesByWinner(decide: Rule, isFloat: string -> bool, near: (string, string) -> bool, isZero: string -> bool) {
    forall slot {:trigger Winner(slot, isFloat, near, isZero)} :: decide(slot) == Winner(slot, isFloat, near, isZero)
  }

  /** The rule of the merge. */
  ghost function MergeRule(isFloat: string -> bool, near: (string, string) -> bool, isZero: string -> bool): (decide: Rule)
    ensures DecidesByWinner(decide, isFloat, near, isZero)
  {
    var byWinner := (slot: ODict<string, nat>) => Winner(slot, isFloat, near, isZero);
    assert DecidesByWinner(byWinner, isFloat, near, isZero);
    var decide :| DecidesByWinner(decide, isFloat, near, isZero);
    decide
  }

  /** Every key of every slot of the tallies is a number. */
  ghost predicate IonoFloats(iv: ODict<string, Tally>, isFloat: string -> bool) {
    forall g, idx :: g in iv.m && 0 <= idx < |iv.m[g]| ==> KeysFloat(iv.m[g][idx], isFloat)
  }

  /** On well-formed tallies of non-empty slots, the rule of the merge decides a slot exactly
      when its keys are numbers, and raises ValueError otherwise. */
  lemma MergeRuleDecides(iv: ODict<string, Tally>, isFloat: string -> bool, near: (string, string) -> bool, isZero: string -> bool)
    requires IonoOK(iv)
    ensures forall g, idx :: g in iv.m && 0 <= idx < |iv.m[g]| ==>
      && (MergeRule(isFloat, near, isZero)(iv.m[g][idx]).Ok? <==> KeysFloat(iv.m[g][idx], isFloat))
      && (MergeRule(isFloat, near, isZero)(iv.m[g][idx]).Err? ==> MergeRule(isFloat, near, isZero)(iv.m[g][idx]).error == ValueError)
  {
    forall g, idx | g in iv.m && 0 <= idx < |iv.m[g]|
      ensures && (MergeRule(isFloat, near, isZero)(iv.m[g][idx]).Ok? <==> KeysFloat(iv.m[g][idx], isFloat))
              && (MergeRule(isFloat, near, isZero)(iv.m[g][idx]).Err? ==> MergeRule(isFloat, near, isZero)(iv.m[g][idx]).error == ValueError)
    {
      WinnerFirstMax(iv.m[g][idx], isFloat, near, isZero);
    }
  }

  /** The decision of each index of a label, in index order; the first slot that cannot be
      decided stops it. */
  function Winners(tally: Tally, decide: Rule): (r: Result<seq<string>>)
    ensures r.Ok? ==> |r.value| == |tally|
    decreases |tally|
  {
    if tally == [] then Ok([])
    else
      var n := |tally| - 1;
      var init :- Winners(tally[..n], decide);
      var w :- decide(tally[n]);
      Ok(init + [w])
  }

  /** When every slot is decided, so is the label, each index with its slot's decision. */
  lemma {:induction false} WinnersOK(tally: Tally, decide: Rule)
    requires forall idx :: 0 <= idx < |tally| ==> decide(tally[idx]).Ok?
    ensures Winners(tally, decide).Ok?
    ensures forall idx :: 0 <= idx < |tally| ==> decide(tally[idx]) == Ok(Winners(tally, decide).value[idx])
    decreases |tally|
  {
    if tally != [] {
      var n := |tally| - 1;
      var front := tally[..n];
      assert forall idx :: 0 <= idx < n ==> front[idx] == tally[idx];
      WinnersOK(front, decide);
      var init := Winners(front, decide).value;
      var w := decide(tally[n]).value;
      assert Winners(tally, decide) == Ok(init + [w]);
    }
  }

  /** An error at some index is the error of the whole label. */
  lemma {:induction false} WinnersErr(tally: Tally, n: nat, decide: Rule)
    requires n <= |tally| && Winners(tally[..n], decide).Err?
    ensures Winners(tally, decide) == Winners(tally[..n], decide)
    decreases |tally| - n
  {
    if n < |tally| {
      assert tally[..n + 1][..n] == tally[..n];
      WinnersErr(tally, n + 1, decide);
    } else {
      assert tally[..n] == tally;
    }
  }

  /** The header table of the first `n` labels: every label with at least one index gets its
      list of decisions. */
  function Consensus(iv: ODict<string, Tally>, n: nat, decide: Rule): (r: Result<ODict<string, seq<string>>>)
    requires iv.Valid() && n <= |iv.keys|
  {
    if n == 0 then Ok(Empty())
    else
      var acc :- Consensus(iv, n - 1, decide);
      var g := iv.keys[n - 1];
      if iv.m[g] == [] then Ok(acc)
      else
        var ws :- Winners(iv.m[g], decide);
        Ok(acc.Put(g, ws))
  }

  /** When every slot is decided, the consensus holds exactly the labels with at least one
      index, each with the decision of every index. */
  lemma {:induction false} ConsensusOK(iv: ODict<string, Tally>, n: nat, decide: Rule)
    requires iv.Valid() && n <= |iv.keys|
    requires forall g, idx :: g in iv.m && 0 <= idx < |iv.m[g]| ==> decide(iv.m[g][idx]).Ok?
    ensures Consensus(iv, n, decide).Ok?
    ensures Consensus(iv, n, decide).value.Valid()
    ensures forall g :: g in Consensus(iv, n, decide).value.m <==> g in iv.keys[..n] && iv.m[g] != []
    ensures forall g :: g in Consensus(iv, n, decide).value.m ==>
      && |Consensus(iv, n, decide).value.m[g]| == |iv.m[g]|
      && forall idx :: 0 <= idx < |iv.m[g]| ==> decide(iv.m[g][idx]) == Ok(Consensus(iv, n, decide).value.m[g][idx])
  {
    if n > 0 {
      ConsensusOK(iv, n - 1, decide);
      var g := iv.keys[n - 1];
      assert iv.keys[..n] == iv.keys[..n - 1] + [g];
      WinnersOK(iv.m[g], decide);
    }
  }

  /** An error after `n` labels is the error of the whole consensus. */
  lemma {:induction false} ConsensusErr(iv: ODict<string, Tally>, n: nat, m: nat, decide: Rule)
    requires iv.Valid() && n <= m <= |iv.keys| && Consensus(iv, n, decide).Err?
    ensures Consensus(iv, m, decide) == Consensus(iv, n, decide)
    decreases m - n
  {
    if n < m {
      ConsensusErr(iv, n, m - 1, decide);
      var e := Consensus(iv, m - 1, decide);
      assert Consensus(iv, m, decide) == Err(e.error);
    }
  }

  /** When every slot that cannot be decided raises `e`, a label is decided exactly when each
      of its slots is, and raises `e` otherwise. */
  lemma {:induction false} WinnersOnly(tally: Tally, decide: Rule, e: Error)
    requires forall idx :: 0 <= idx < |tally| && decide(tally[idx]).Err? ==> decide(tally[idx]).error == e
    ensures Winners(tally, decide).Ok? <==> forall idx :: 0 <= idx < |tally| ==> decide(tally[idx]).Ok?
    ensures Winners(tally, decide).Err? ==> Winners(tally, decide).error == e
    decreases |tally|
  {
    if tally != [] {
      var n := |tally| - 1;
      var front := tally[..n];
      assert forall idx :: 0 <= idx < n ==> front[idx] == tally[idx];
      WinnersOnly(front, decide, e);
    }
  }

  /** When every slot that cannot be decided raises `e`, the consensus of the first `n` labels
      succeeds exactly when each of their slots is decided, and raises `e` otherwise. */
  lemma {:induction false} ConsensusOnly(iv: ODict<string, Tally>, n: nat, decide: Rule, e: Error)
    requires iv.Valid() && n <= |iv.keys|
    requires forall g, idx :: g in iv.m && 0 <= idx < |iv.m[g]| && decide(iv.m[g][idx]).Err? ==> decide(iv.m[g][idx]).error == e
    ensures Consensus(iv, n, decide).Ok? <==>
      forall p, idx :: 0 <= p < n && 0 <= idx < |iv.m[iv.keys[p]]| ==> decide(iv.m[iv.keys[p]][idx]).Ok?
    ensures Consensus(iv, n, decide).Err? ==> Consensus(iv, n, decide).error == e
    decreases n
  {
    if n > 0 {
      ConsensusOnly(iv, n - 1, decide, e);
      var g := iv.keys[n - 1];
      WinnersOnly(iv.m[g], decide, e);
    }
  }

  /** On well-formed tallies of non-empty slots, the consensus of the merge succeeds exactly
      when every key of every slot is a number, and raises ValueError otherwise. */
  lemma MergeRuleConsensus(iv: ODict<string, Tally>, isFloat: string -> bool, near: (string, string) -> bool, isZero: string -> bool)
    requires IonoOK(iv)
    ensures Consensus(iv, |iv.keys|, MergeRule(isFloat, near, isZero)).Ok? <==> IonoFloats(iv, isFloat)
    ensures Consensus(iv, |iv.keys|, MergeRule(isFloat, near, isZero)).Err? ==>
      Consensus(iv, |iv.keys|, MergeRule(isFloat, near, isZero)).error == ValueError
  {
    var decide := MergeRule(isFloat, near, isZero);
    MergeRuleDecides(iv, isFloat, near, isZero);
    ConsensusOnly(iv, |iv.keys|, decide, ValueError);
    if Consensus(iv, |iv.keys|, decide).Ok? {
      forall g, idx | g in iv.m && 0 <= idx < |iv.m[g]| ensures KeysFloat(iv.m[g][idx], isFloat) {
        var p :| 0 <= p < |iv.keys| && iv.keys[p] == g;
        assert decide(iv.m[iv.keys[p]][idx]).Ok?;
      }
    }
  }

  /** The accepted value of a slot is one of its keys, so a number when the slot is decided. */
  lemma WinnerFloat(slot: ODict<string, nat>, isFloat: string -> bool, near: (string, string) -> bool, isZero: string -> bool)
    requires slot.Valid() && Winner(slot, isFloat, near, isZero).Ok?
    ensures isFloat(Winner(slot, isFloat, near, isZero).value)
  {
    WinnerFirstMax(slot, isFloat, near, isZero);
    var w := Winner(slot, isFloat, near, isZero).value;
    var j :| 0 <= j < |slot.keys| && slot.keys[j] == w;
  }

  /** Every value some file's correction table gives is a number. */
  ghost predicate GivenFloats(files: seq<(string, Result<Parsed>)>, isFloat: string -> bool) {
    forall g, idx: nat, v {:trigger IonoCountFrom(files, 0, g, idx, v)} :: IonoCountFrom(files, 0, g, idx, v) > 0 ==> isFloat(v)
  }

  /** The keys of the merged tallies are all numbers exactly when every value the files give
      is one. */
  lemma MergeFromFloats(files: seq<(string, Result<Parsed>)>, isFloat: string -> bool)
    requires FilesWellFormed(files) && MergeFrom(files, 0, Start()).Ok?
    ensures IonoFloats(MergeFrom(files, 0, Start()).value.iono, isFloat) <==> GivenFloats(files, isFloat)
  {
    var iv := MergeFrom(files, 0, Start()).value.iono;
    MergeFromOK(files, 0, Start());
    if IonoFloats(iv, isFloat) {
      forall g, idx: nat, v | IonoCountFrom(files, 0, g, idx, v) > 0 ensures isFloat(v) {
        MergeFromIonoCount(files, 0, Start(), g, idx, v);
        assert IonoCount(iv, g, idx, v) > 0;
        var slot := iv.m[g][idx];
        assert v in slot.m;
        var j :| 0 <= j < |slot.keys| && slot.keys[j] == v;
      }
    }
    if GivenFloats(files, isFloat) {
      forall g, idx | g in iv.m && 0 <= idx < |iv.m[g]| ensures KeysFloat(iv.m[g][idx], isFloat) {
        var slot := iv.m[g][idx];
        forall j | 0 <= j < |slot.keys| ensures isFloat(slot.keys[j]) {
          var v := slot.keys[j];
          MergeFromIonoCount(files, 0, Start(), g, idx, v);
          assert v in slot.m && slot.m[v] >= 1;
          assert IonoCountFrom(files, 0, g, idx, v) > 0;
        }
      }
    }
  }
}
