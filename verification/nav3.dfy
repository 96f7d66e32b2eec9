/** The RINEX 3 navigation reader: the header up to `END OF HEADER`, then one record per epoch
    line, each followed by a fixed number of continuation lines that depends on the system letter.
    A file is its sequence of lines, each with its line terminator. */
module Nav3 {
  import opened Wrappers
  import opened ODicts
  import opened Text
  import opened Epochs
  import opened Tokens
  import opened NavData

  /** Continuation lines after an epoch line, per system letter. */
  const Nl: map<char, nat> := map['C' := 7, 'E' := 7, 'G' := 7, 'J' := 7, 'R' := 3, 'S' := 3, 'I' := 7]

  const EndOfHeader := "END OF HEADER"
  const IonoKind := "IONOSPHERIC CORR"

  /** The line the reader takes for the end of the file. */
  predicate StartsWithNewline(ln: string) { |ln| > 0 && ln[0] == '\n' }

  /** The columns of year, month, day, hour, minute and second on an epoch line. */
  const TimeColumns: seq<(nat, nat)> := [(4, 8), (9, 11), (12, 14), (15, 17), (18, 20), (21, 23)]

  /** `_time`: the epoch the six time columns spell; a column `int()` refuses or a date
      `datetime()` refuses gives `None`. */
  function Time(ln: string): (r: Option<DateTime>)
    ensures r.Some? ==> |ln| > 4 && r.value.micro == 0
  {
    var f :- Fields(ln, TimeColumns);
    var e := Epoch(f[0], f[1], f[2], f[3], f[4], f[5], 0);
    if Valid(e) then Some(e) else None
  }

  /** An epoch line's epoch is read from columns 4:8, 9:11, 12:14, 15:17, 18:20 and 21:23, and
      a line whose six columns read as integers forming a valid date is an epoch line. */
  lemma TimeOfColumns(ln: string, e: Epoch)
    ensures Time(ln) == Some(e) <==>
      && Valid(e) && e.micro == 0
      && ParseInt(Slice(ln, 4, 8)) == Some(e.year) && ParseInt(Slice(ln, 9, 11)) == Some(e.month)
      && ParseInt(Slice(ln, 12, 14)) == Some(e.day) && ParseInt(Slice(ln, 15, 17)) == Some(e.hour)
      && ParseInt(Slice(ln, 18, 20)) == Some(e.minute) && ParseInt(Slice(ln, 21, 23)) == Some(e.second)
  {
    FieldsColumns(ln, TimeColumns);
    var c := TimeColumns;
    assert c[0] == (4, 8) && c[1] == (9, 11) && c[2] == (12, 14) && c[3] == (15, 17) && c[4] == (18, 20) && c[5] == (21, 23);
    if Valid(e) && e.micro == 0 && ParseInt(Slice(ln, 4, 8)) == Some(e.year) && ParseInt(Slice(ln, 9, 11)) == Some(e.month)
      && ParseInt(Slice(ln, 12, 14)) == Some(e.day) && ParseInt(Slice(ln, 15, 17)) == Some(e.hour)
      && ParseInt(Slice(ln, 18, 20)) == Some(e.minute) && ParseInt(Slice(ln, 21, 23)) == Some(e.second) {
      assert forall k :: 0 <= k < |c| ==> ParseInt(Slice(ln, c[k].0, c[k].1)).Some?;
      var f := Fields(ln, c).value;
      assert f == [e.year, e.month, e.day, e.hour, e.minute, e.second];
    }
  }

  predicate InWindow(t: DateTime, tlim: Option<(DateTime, DateTime)>) {
    tlim.None? || !(Before(t, tlim.value.0) || Before(tlim.value.1, t))
  }

  predicate Accepts(use: Option<seq<string>>, c: char) {
    use.None? || [c] in use.value
  }

  /** One turn of the record loop (see `StepAtCases`). */
  function StepAt(lines: seq<string>, i: nat, use: Option<seq<string>>, tlim: Option<(DateTime, DateTime)>): (st: Step)
    requires i < |lines|
    ensures (st.Skip? || st.Keep?) ==> i < st.next <= |lines|
  {
    var line := lines[i];
    if StartsWithNewline(line) then Stop
    else match Time(line)
      case None => Skip(i + 1)
      case Some(t) => EpochStep(lines, i, t, use, tlim)
  }

  /** The turn of the record loop for an epoch line at `i` whose epoch is `t`. */
  function EpochStep(lines: seq<string>, i: nat, t: DateTime, use: Option<seq<string>>, tlim: Option<(DateTime, DateTime)>): (st: Step)
    requires i < |lines| && |lines[i]| > 0
    ensures (st.Skip? || st.Keep?) ==> i < st.next <= |lines|
  {
    var line := lines[i];
    var c := line[0];
    if c !in Nl then Fail(KeyError)
    else
      var next := i + 1 + Min(Nl[c], |lines| - i - 1);
      if !InWindow(t, tlim) || !Accepts(use, c) then Skip(next)
      else Keep(next, ReplaceChar(Slice(line, 0, 3), ' ', '0'), t, Slice(line, 23, 80) + Cont(lines, i + 1, next, 4, 80))
  }

  /** One turn of the record loop: stop at a line that starts with a newline, pass over a line
      that is not an epoch line, raise KeyError for an epoch line of an unknown system, and
      otherwise consume the epoch line and `Nl[letter]` more lines (fewer at the end of the
      file) whether the record is kept or refused by the time window or the system filter. */
  lemma StepAtCases(lines: seq<string>, i: nat, use: Option<seq<string>>, tlim: Option<(DateTime, DateTime)>)
    requires i < |lines|
    ensures var st := StepAt(lines, i, use, tlim);
      && (st.Stop? <==> StartsWithNewline(lines[i]))
      && (!st.Stop? && Time(lines[i]).None? ==> st == Skip(i + 1))
      && (st.Fail? <==> !StartsWithNewline(lines[i]) && Time(lines[i]).Some? && lines[i][0] !in Nl)
      && (st.Fail? ==> st.error == KeyError)
      && (!st.Stop? && Time(lines[i]).Some? && lines[i][0] in Nl ==>
            (st.Skip? || st.Keep?) && st.next == i + 1 + Min(Nl[lines[i][0]], |lines| - i - 1))
      && (st.Keep? <==>
            && !StartsWithNewline(lines[i]) && Time(lines[i]).Some? && lines[i][0] in Nl
            && InWindow(Time(lines[i]).value, tlim) && Accepts(use, lines[i][0]))
      && (st.Keep? ==>
            && st.time == Time(lines[i]).value
            && st.sv == ReplaceChar(Slice(lines[i], 0, 3), ' ', '0')
            && st.raw == Slice(lines[i], 23, 80) + Cont(lines, i + 1, st.next, 4, 80))
  {
    if !StartsWithNewline(lines[i]) && Time(lines[i]).Some? {
      EpochStepCases(lines, i, Time(lines[i]).value, use, tlim);
    }
  }

  /** The turn for an epoch line: KeyError for an unknown system letter, otherwise the line and
      its continuation lines are consumed, and the record is kept when the window and the
      system filter accept it. */
  lemma EpochStepCases(lines: seq<string>, i: nat, t: DateTime, use: Option<seq<string>>, tlim: Option<(DateTime, DateTime)>)
    requires i < |lines| && |lines[i]| > 0
    ensures var st := EpochStep(lines, i, t, use, tlim); var c := lines[i][0];
      && (st.Fail? <==> c !in Nl) && (st.Fail? ==> st.error == KeyError)
      && !st.Stop?
      && (c in Nl ==> st.next == i + 1 + Min(Nl[c], |lines| - i - 1))
      && (st.Keep? <==> c in Nl && InWindow(t, tlim) && Accepts(use, c))
      && (st.Keep? ==>
            && st.time == t
            && st.sv == ReplaceChar(Slice(lines[i], 0, 3), ' ', '0')
            && st.raw == Slice(lines[i], 23, 80) + Cont(lines, i + 1, st.next, 4, 80))
  {
  }

  /** The record loop from line `i` on, with the records read so far in `data`. */
  function Read(lines: seq<string>, i: nat, use: Option<seq<string>>, tlim: Option<(DateTime, DateTime)>, data: Data): (r: Result<Data>)
    requires i <= |lines|
    decreases |lines| - i
  {
    if i == |lines| then Ok(data)
    else match StepAt(lines, i, use, tlim)
      case Stop => Ok(data)
      case Skip(next) => Read(lines, next, use, tlim, data)
      case Keep(next, sv, t, raw) => Read(lines, next, use, tlim, Insert(data, sv, t, ExtractTokens(raw)))
      case Fail(e) => Err(e)
  }

  /** A record already read is never replaced by a later one. */
  lemma {:induction false} ReadKeepsFirst(lines: seq<string>, i: nat, use: Option<seq<string>>, tlim: Option<(DateTime, DateTime)>, data: Data, sv: string, t: DateTime)
    requires i <= |lines| && Has(data, sv, t)
    requires Read(lines, i, use, tlim, data).Ok?
    ensures Has(Read(lines, i, use, tlim, data).value, sv, t)
    ensures Read(lines, i, use, tlim, data).value.m[sv].m[t] == data.m[sv].m[t]
    decreases |lines| - i
  {
    if i < |lines| {
      match StepAt(lines, i, use, tlim)
      case Stop =>
      case Skip(next) => ReadKeepsFirst(lines, next, use, tlim, data, sv, t);
      case Keep(next, s, u, raw) => ReadKeepsFirst(lines, next, use, tlim, Insert(data, s, u, ExtractTokens(raw)), sv, t);
      case Fail(e) =>
    }
  }

  /** Every token the reader stores has the primary pattern's form, and the tables stay
      well formed. */
  lemma {:induction false} ReadShapes(lines: seq<string>, i: nat, use: Option<seq<string>>, tlim: Option<(DateTime, DateTime)>, data: Data)
    requires i <= |lines| && DataValid(data) && TokensShaped(data)
    requires Read(lines, i, use, tlim, data).Ok?
    ensures DataValid(Read(lines, i, use, tlim, data).value)
    ensures TokensShaped(Read(lines, i, use, tlim, data).value)
    decreases |lines| - i
  {
    if i < |lines| {
      match StepAt(lines, i, use, tlim)
      case Stop =>
      case Skip(next) => ReadShapes(lines, next, use, tlim, data);
      case Keep(next, sv, t, raw) =>
        InsertShaped(data, sv, t, ExtractTokens(raw));
        ReadShapes(lines, next, use, tlim, Insert(data, sv, t, ExtractTokens(raw)));
      case Fail(e) =>
    }
  }

  /** Characters per data field. */
  const FieldWidth: nat := 19

  /** `math.ceil(len(raw) / 19)`: how many fields the data columns of a record hold. */
  function NumVal(raw: string): nat { (|raw| + FieldWidth - 1) / FieldWidth }

  /** `_sparefields`: the field names `cf` cut to the spare fields the record of system `sys`
      actually carries (which depends on how many fields its data columns hold), refused when
      the count still differs. */
  function SpareFields(cf: seq<string>, sys: string, raw: string): (r: Result<seq<string>>)
    ensures r.Ok? ==> |r.value| == NumVal(raw)
    ensures r.Err? ==> r.error == ValueError || (r.error == IndexError && sys == "C" && NumVal(raw) == 27 && |cf| <= 21)
    ensures sys !in {"G", "C", "J", "E", "I"} ==> (r.Ok? <==> |cf| == NumVal(raw)) && (r.Ok? ==> r.value == cf)
  {
    var numval := NumVal(raw);
    var patched :-
      if sys == "G" then
        Ok(if numval == 30 then ListSlice(cf, 0, -1) else if numval == 29 then ListSlice(cf, 0, -2) else cf)
      else if sys == "C" then
        if numval == 27 then
          (if |cf| <= 21 then Err(IndexError) else Ok(ListSlice(cf, 0, 20) + [cf[21]] + ListSlice(cf, 23, 29)))
        else if numval == 28 then Ok(ListSlice(cf, 0, 22) + ListSlice(cf, 23, 29))
        else if numval == 29 then Ok(ListSlice(cf, 0, 29))
        else if numval == 30 then Ok(ListSlice(cf, 0, 30))
        else Ok(cf)
      else if sys == "J" then
        Ok(if numval == 29 then ListSlice(cf, 0, 29) else if numval == 30 then ListSlice(cf, 0, 30) else cf)
      else if sys == "E" then
        Ok(if numval == 29 then ListSlice(cf, 0, -2)
           else if numval == 28 then ListSlice(cf, 0, -3)
           else if numval == 27 then ListSlice(cf, 0, 22) + ListSlice(cf, 23, -3)
           else cf)
      else if sys == "I" then
        Ok(if numval == 28 then ListSlice(cf, 0, 28) else cf)
      else Ok(cf);
    if numval != |patched| then Err(ValueError) else Ok(patched)
  }

  /** The broadcast orbit fields of GPS (RINEX 3.03, pages A23-A24). */
  const GpsFields: seq<string> := [
    "SVclockBias", "SVclockDrift", "SVclockDriftRate",
    "IODE", "Crs", "DeltaN", "M0",
    "Cuc", "Eccentricity", "Cus", "sqrtA",
    "Toe", "Cic", "Omega0", "Cis",
    "Io", "Crc", "omega", "OmegaDot",
    "IDOT", "CodesL2", "GPSWeek", "L2Pflag",
    "SVacc", "health", "TGD", "IODC",
    "TransTime", "FitIntvl", "spare0", "spare1"]

  /** BeiDou (RINEX 3.03, pages A33-A34). */
  const BeidouFields: seq<string> := [
    "SVclockBias", "SVclockDrift", "SVclockDriftRate",
    "AODE", "Crs", "DeltaN", "M0",
    "Cuc", "Eccentricity", "Cus", "sqrtA",
    "Toe", "Cic", "Omega0", "Cis",
    "Io", "Crc", "omega", "OmegaDot",
    "IDOT", "spare0", "BDTWeek", "spare1",
    "SVacc", "SatH1", "TGD1", "TGD2",
    "TransTime", "AODC", "spare2", "spare3"]

  /** GLONASS (RINEX 3.03, pages A29-A30). */
  const GlonassFields: seq<string> := [
    "SVclockBias", "SVrelFreqBias", "MessageFrameTime",
    "X", "dX", "dX2", "health",
    "Y", "dY", "dY2", "FreqNum",
    "Z", "dZ", "dZ2", "AgeOpInfo"]

  /** SBAS (RINEX 3.03, pages A35-A36). */
  const SbasFields: seq<string> := [
    "SVclockBias", "SVrelFreqBias", "MessageFrameTime",
    "X", "dX", "dX2", "health",
    "Y", "dY", "dY2", "URA",
    "Z", "dZ", "dZ2", "IODN"]

  /** QZSS (RINEX 3.03, pages A31-A32), spelled out separately but equal to the GPS list. */
  const QzssFields: seq<string> := [
    "SVclockBias", "SVclockDrift", "SVclockDriftRate",
    "IODE", "Crs", "DeltaN", "M0",
    "Cuc", "Eccentricity", "Cus", "sqrtA",
    "Toe", "Cic", "Omega0", "Cis",
    "Io", "Crc", "omega", "OmegaDot",
    "IDOT", "CodesL2", "GPSWeek", "L2Pflag",
    "SVacc", "health", "TGD", "IODC",
    "TransTime", "FitIntvl", "spare0", "spare1"]

  /** Galileo (RINEX 3.03, pages A25-A28). */
  const GalileoFields: seq<string> := [
    "SVclockBias", "SVclockDrift", "SVclockDriftRate",
    "IODnav", "Crs", "DeltaN", "M0",
    "Cuc", "Eccentricity", "Cus", "sqrtA",
    "Toe", "Cic", "Omega0", "Cis",
    "Io", "Crc", "omega", "OmegaDot",
    "IDOT", "DataSrc", "GALWeek",
    "spare0",
    "SISA", "health", "BGDe5a", "BGDe5b",
    "TransTime",
    "spare1", "spare2", "spare3"]

  /** IRNSS (RINEX 3.03, pages A37-A39). */
  const IrnssFields: seq<string> := [
    "SVclockBias", "SVclockDrift", "SVclockDriftRate",
    "IODEC", "Crs", "DeltaN", "M0",
    "Cuc", "Eccentricity", "Cus", "sqrtA",
    "Toe", "Cic", "Omega0", "Cis",
    "Io", "Crc", "omega", "OmegaDot",
    "IDOT", "spare0", "BDTWeek", "spare1",
    "URA", "health", "TGD", "spare2",
    "TransTime",
    "spare3", "spare4", "spare5"]

  /** `_newnav`: the field names of a record, chosen by the satellite's system letter; an
      unknown letter raises ValueError, and an empty name fails already on reading its letter. */
  function NewNav(ln: string, sv: string): (r: Result<seq<string>>)
    ensures sv == [] ==> r == Err(IndexError)
    ensures sv != [] ==> (r.Ok? <==> sv[0] in "GCRSJEI")
    ensures sv != [] && r.Err? ==> r.error == ValueError
    ensures r.Ok? ==> |r.value| == (if sv[0] in "RS" then 15 else 31) && r.value[0] == "SVclockBias"
  {
    if sv != [] && sv[0] == 'G' then Ok(GpsFields)
    else if sv != [] && sv[0] == 'C' then Ok(BeidouFields)
    else if sv != [] && sv[0] == 'R' then Ok(GlonassFields)
    else if sv != [] && sv[0] == 'S' then Ok(SbasFields)
    else if sv != [] && sv[0] == 'J' then Ok(QzssFields)
    else if sv != [] && sv[0] == 'E' then Ok(GalileoFields)
    else if sv != [] && sv[0] == 'I' then Ok(IrnssFields)
    else if sv == [] then Err(IndexError)
    else Err(ValueError)
  }

  /** The counts of data fields `_sparefields` accepts for the names `_newnav` gives each system. */
  function Accepted(c: char): set<nat> {
    match c
    case 'G' => {29, 30, 31}
    case 'C' => {27, 28, 29, 30, 31}
    case 'J' => {29, 30, 31}
    case 'E' => {27, 28, 29, 31}
    case 'I' => {28, 31}
    case _ => {15}
  }

  /** A record of a known system passes the field-count check exactly when its data columns hold
      one of the accepted counts; GPS drops its last one or two spare names, and Galileo without
      spare fields loses its middle spare and its last three names. */
  lemma SpareFieldsOfNewNav(c: char, raw: string)
    requires c in "GCRSJEI"
    ensures SpareFields(NewNav("", [c]).value, [c], raw).Ok? <==> NumVal(raw) in Accepted(c)
    ensures c == 'G' && NumVal(raw) == 30 ==> SpareFields(GpsFields, "G", raw) == Ok(GpsFields[..30])
    ensures c == 'G' && NumVal(raw) == 29 ==> SpareFields(GpsFields, "G", raw) == Ok(GpsFields[..29])
    ensures c == 'E' && NumVal(raw) == 27 ==> SpareFields(GalileoFields, "E", raw) == Ok(GalileoFields[..22] + GalileoFields[23..28])
  {
    if c == 'G' {
      assert NewNav("", [c]) == Ok(GpsFields);
    } else if c == 'C' {
      assert NewNav("", [c]) == Ok(BeidouFields);
    } else if c == 'R' {
      assert NewNav("", [c]) == Ok(GlonassFields);
    } else if c == 'S' {
      assert NewNav("", [c]) == Ok(SbasFields);
    } else if c == 'J' {
      assert NewNav("", [c]) == Ok(QzssFields);
    } else if c == 'E' {
      assert NewNav("", [c]) == Ok(GalileoFields);
    } else {
      assert NewNav("", [c]) == Ok(IrnssFields);
    }
  }

  /** QZSS records are named like GPS records. */
  lemma QzssLikeGps()
    ensures NewNav("", "J") == NewNav("", "G")
  {
  }

  /** The twelve-column coefficient fields of an `IONOSPHERIC CORR` line, starting at column 5. */
  function IonoSlices(content: string, n: nat): (cs: seq<string>)
    ensures |cs| == n
    ensures forall k :: 0 <= k < n ==> cs[k] == Slice(content, 5 + k * 12, 5 + (k + 1) * 12)
  {
    seq(n, k requires 0 <= k < n => Slice(content, 5 + k * 12, 5 + (k + 1) * 12))
  }

  /** How many coefficients a correction label has: three for Galileo, four otherwise. */
  function IonoCount(tag: string): nat { if tag == "GAL" then 3 else 4 }

  /** One header line: its kind is what follows column 60, stripped, and its content the first
      60 columns; an `IONOSPHERIC CORR` line files its coefficients under its label. */
  function HeaderLine(hdr: Header, ln: string): (r: Result<Header>)
    ensures Kind(ln) != IonoKind ==> r == Ok(hdr[Kind(ln) := Text(Content(ln))])
    ensures Kind(ln) == IonoKind ==>
      (r.Err? <==> IonoKind in hdr && hdr[IonoKind].Text?) && (r.Err? ==> r.error == TypeError)
    ensures Kind(ln) == IonoKind && r.Ok? ==>
      var tag := Strip(Slice(Content(ln), 0, 4));
      && r.value.Keys == hdr.Keys + {IonoKind}
      && (forall k :: k in hdr && k != IonoKind ==> r.value[k] == hdr[k])
      && r.value[IonoKind].Table?
      && tag in r.value[IonoKind].table.m
      && r.value[IonoKind].table.m[tag] == IonoSlices(Content(ln), IonoCount(tag))
      && |r.value[IonoKind].table.m[tag]| == IonoCount(tag)
  {
    var kind := Kind(ln);
    var content := Content(ln);
    if kind != IonoKind then Ok(hdr[kind := Text(content)])
    else
      var table :- if kind !in hdr then Ok(Empty()) else if hdr[kind].Text? then Err(TypeError) else Ok(hdr[kind].table);
      var tag := Strip(Slice(content, 0, 4));
      Ok(hdr[kind := Table(table.Put(tag, IonoSlices(content, IonoCount(tag))))])
  }

  /** The header loop from line `i` on: the header and the index of the first data line. */
  function HeaderFrom(lines: seq<string>, i: nat, hdr: Header): (r: Result<(Header, nat)>)
    requires i <= |lines|
    ensures r.Ok? ==> i <= r.value.1 <= |lines|
    decreases |lines| - i
  {
    if i == |lines| then Ok((hdr, i))
    else if Contains(lines[i], EndOfHeader) then Ok((hdr, i + 1))
    else
      var h :- HeaderLine(hdr, lines[i]);
      HeaderFrom(lines, i + 1, h)
  }

  /** The header ends just after the first line that holds `END OF HEADER`, or at the end of the
      file. */
  lemma {:induction false} HeaderEnds(lines: seq<string>, i: nat, hdr: Header)
    requires i <= |lines| && HeaderFrom(lines, i, hdr).Ok?
    ensures var n := HeaderFrom(lines, i, hdr).value.1;
      && (forall j :: i <= j < n - 1 ==> !Contains(lines[j], EndOfHeader))
      && (n == |lines| || (i < n && Contains(lines[n - 1], EndOfHeader)))
    decreases |lines| - i
  {
    if i < |lines| && !Contains(lines[i], EndOfHeader) {
      var h := HeaderLine(hdr, lines[i]).value;
      assert HeaderFrom(lines, i, hdr) == HeaderFrom(lines, i + 1, h);
      HeaderEnds(lines, i + 1, h);
    }
  }

  /** A header that runs to the end of the file without a last `END OF HEADER` line met none. */
  lemma {:induction false} HeaderWithoutEnd(lines: seq<string>, i: nat, hdr: Header)
    requires i <= |lines| && HeaderFrom(lines, i, hdr).Ok?
    requires var n := HeaderFrom(lines, i, hdr).value.1;
      n == |lines| && (n == i || !Contains(lines[n - 1], EndOfHeader))
    ensures forall j :: i <= j < |lines| ==> !Contains(lines[j], EndOfHeader)
    decreases |lines| - i
  {
    if i < |lines| && !Contains(lines[i], EndOfHeader) {
      var h := HeaderLine(hdr, lines[i]).value;
      assert HeaderFrom(lines, i, hdr) == HeaderFrom(lines, i + 1, h);
      HeaderWithoutEnd(lines, i + 1, h);
    }
  }

  /** Every correction table the header loop builds is a well-formed dictionary. */
  lemma {:induction false} HeaderTables(lines: seq<string>, i: nat, hdr: Header)
    requires i <= |lines| && TablesValid(hdr) && HeaderFrom(lines, i, hdr).Ok?
    ensures TablesValid(HeaderFrom(lines, i, hdr).value.0)
    decreases |lines| - i
  {
    if i < |lines| && !Contains(lines[i], EndOfHeader) {
      var h := HeaderLine(hdr, lines[i]).value;
      assert TablesValid(h);
      HeaderTables(lines, i + 1, h);
    }
  }

  /** `navheader3`: the fields the version-line reader supplies, then the header lines. */
  method NavHeader3(info: map<string, string>, lines: seq<string>) returns (r: Result<(Header, nat)>)
    ensures r == HeaderFrom(lines, 0, InfoHeader(info))
  {
    var hdr := InfoHeader(info);
    var i := 0;
    while i < |lines|
      invariant i <= |lines|
      invariant HeaderFrom(lines, 0, InfoHeader(info)) == HeaderFrom(lines, i, hdr)
      decreases |lines| - i
    {
      var ln := lines[i];
      if Contains(ln, EndOfHeader) {
        return Ok((hdr, i + 1));
      }
      var next := ReadHeaderLine(hdr, ln);
      if next.Err? {
        return Err(next.error);
      }
      hdr := next.value;
      i := i + 1;
    }
    return Ok((hdr, i));
  }

  /** The body of the header loop: one line filed under its kind. */
  method ReadHeaderLine(hdr: Header, ln: string) returns (r: Result<Header>)
    ensures r == HeaderLine(hdr, ln)
  {
    var kind := Kind(ln);
    var content := Content(ln);
    if kind == IonoKind {
      var table: ODict<string, seq<string>>;
      if kind !in hdr {
        table := Empty();
      } else if hdr[kind].Text? {
        return Err(TypeError);
      } else {
        table := hdr[kind].table;
      }
      var tag := Strip(Slice(content, 0, 4));
      var coeff := IonoSlices(content, IonoCount(tag));
      r := Ok(hdr[kind := Table(table.Put(tag, coeff))]);
    } else {
      r := Ok(hdr[kind := Text(content)]);
    }
  }

  /** The whole reading of a RINEX 3 navigation file. */
  function Nav3(info: map<string, string>, lines: seq<string>, use: Option<seq<string>>, tlim: Option<(DateTime, DateTime)>): Result<Parsed>
  {
    var h :- HeaderFrom(lines, 0, InfoHeader(info));
    var data :- Read(lines, h.1, use, tlim, Empty());
    Ok(Parsed(h.0, data))
  }

  /** `rinexnav3`: the header, then the record loop. */
  method RinexNav3(info: map<string, string>, lines: seq<string>, use: Option<seq<string>>, tlim: Option<(DateTime, DateTime)>) returns (r: Result<Parsed>)
    ensures r == Nav3(info, lines, use, tlim)
  {
    var h := NavHeader3(info, lines);
    if h.Err? {
      return Err(h.error);
    }
    var data := ReadRecords(lines, h.value.1, use, tlim);
    if data.Err? {
      return Err(data.error);
    }
    return Ok(Parsed(h.value.0, data.value));
  }

  /** The record loop of `rinexnav3`, filling the satellite tables in place. */
  method ReadRecords(lines: seq<string>, start: nat, use: Option<seq<string>>, tlim: Option<(DateTime, DateTime)>) returns (r: Result<Data>)
    requires start <= |lines|
    ensures r == Read(lines, start, use, tlim, Empty())
  {
    var data: Data := Empty();
    var i := start;
    while i < |lines|
      invariant start <= i <= |lines|
      invariant Read(lines, start, use, tlim, Empty()) == Read(lines, i, use, tlim, data)
      decreases |lines| - i
    {
      var st := NextRecord(lines, i, use, tlim);
      match st
      case Stop => return Ok(data);
      case Fail(e) => return Err(e);
      case Skip(next) => i := next;
      case Keep(next, sv, t, raw) =>
        var tokens := ExtractTokens(raw);
        data := Insert(data, sv, t, tokens);
        i := next;
    }
    return Ok(data);
  }

  /** One turn of the record loop: the epoch line at `i` and its continuation lines. */
  method NextRecord(lines: seq<string>, i: nat, use: Option<seq<string>>, tlim: Option<(DateTime, DateTime)>) returns (st: Step)
    requires i < |lines|
    ensures st == StepAt(lines, i, use, tlim)
  {
    var line := lines[i];
    if StartsWithNewline(line) {
      return Stop;
    }
    var time := Time(line);
    if time.None? {
      return Skip(i + 1);
    }
    st := NextEpochRecord(lines, i, time.value, use, tlim);
  }

  /** The rest of the turn once the line at `i` is known to be an epoch line of epoch `t`. */
  method NextEpochRecord(lines: seq<string>, i: nat, t: DateTime, use: Option<seq<string>>, tlim: Option<(DateTime, DateTime)>) returns (st: Step)
    requires i < |lines| && |lines[i]| > 0
    ensures st == EpochStep(lines, i, t, use, tlim)
  {
    var line := lines[i];
    var c := line[0];
    if c !in Nl {
      return Fail(KeyError);
    }
    if !InWindow(t, tlim) || !Accepts(use, c) {
      var next := SkipLines(lines, i + 1, Nl[c]);
      return Skip(next);
    }
    var sv := Slice(line, 0, 3);
    var raw, next := Gather(lines, i, Nl[c], 23, 80, 4, 80);
    sv := ReplaceChar(sv, ' ', '0');
    return Keep(next, sv, t, raw);
  }

  /** The `navtime3` loop from line `i` on, with the epochs seen so far in `acc`. */
  function Times(lines: seq<string>, i: nat, acc: seq<DateTime>): (r: Result<seq<DateTime>>)
    requires i <= |lines|
    ensures r.Ok? ==> acc <= r.value
    ensures r.Err? ==> r.error == KeyError
    decreases |lines| - i
  {
    if i == |lines| then Ok(acc)
    else match Time(lines[i])
      case None => Times(lines, i + 1, acc)
      case Some(t) =>
        if lines[i][0] !in Nl then Err(KeyError)
        else Times(lines, i + 1 + Min(Nl[lines[i][0]], |lines| - i - 1), acc + [t])
  }

  /** `navtime3`: every epoch of the file, sorted, each once. */
  method NavTime3(info: map<string, string>, lines: seq<string>) returns (r: Result<seq<DateTime>>)
    ensures r.Ok? <==> HeaderFrom(lines, 0, InfoHeader(info)).Ok? && Times(lines, HeaderFrom(lines, 0, InfoHeader(info)).value.1, []).Ok?
    ensures r.Ok? ==> r.value == Unique(Times(lines, HeaderFrom(lines, 0, InfoHeader(info)).value.1, []).value)
    ensures r.Ok? ==> StrictlyIncreasing(r.value)
  {
    var h := NavHeader3(info, lines);
    if h.Err? {
      return Err(h.error);
    }
    var times := CollectTimes(lines, h.value.1);
    if times.Err? {
      return Err(times.error);
    }
    return Ok(Unique(times.value));
  }

  /** The `navtime3` loop: each epoch line's epoch, then its continuation lines passed over. */
  method CollectTimes(lines: seq<string>, start: nat) returns (r: Result<seq<DateTime>>)
    requires start <= |lines|
    ensures r == Times(lines, start, [])
  {
    var times: seq<DateTime> := [];
    var i := start;
    while i < |lines|
      invariant start <= i <= |lines|
      invariant Times(lines, start, []) == Times(lines, i, times)
      decreases |lines| - i
    {
      var next := NextTime(lines, i, times);
      if next.Err? {
        return Err(next.error);
      }
      i, times := next.value.0, next.value.1;
    }
    return Ok(times);
  }

  /** One turn of the `navtime3` loop at line `i`: the line's epoch, if it has one, is
      appended and its continuation lines are passed over. */
  method NextTime(lines: seq<string>, i: nat, times: seq<DateTime>) returns (r: Result<(nat, seq<DateTime>)>)
    requires i < |lines|
    ensures r.Ok? ==> i < r.value.0 <= |lines| && Times(lines, i, times) == Times(lines, r.value.0, r.value.1)
    ensures r.Err? ==> Times(lines, i, times) == Err(r.error)
  {
    var line := lines[i];
    var time := Time(line);
    if time.None? {
      return Ok((i + 1, times));
    }
    if line[0] !in Nl {
      return Err(KeyError);
    }
    var next := SkipLines(lines, i + 1, Nl[line[0]]);
    return Ok((next, times + [time.value]));
  }
}
