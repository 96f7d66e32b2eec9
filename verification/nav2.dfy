/** The RINEX 2 navigation reader: the header up to `END OF HEADER`, then one record per epoch
    line, each followed by a fixed number of continuation lines set by the header's `systems`
    field. A file is its sequence of lines, each with its line terminator. */
module Nav2 {
  import opened Wrappers
  import opened ODicts
  import opened Text
  import opened Epochs
  import opened Tokens
  import opened NavData

  /** Continuation lines after an epoch line, per system named in the header. */
  const Nl: map<string, nat> := map["G" := 7, "R" := 3, "E" := 7]

  const EndOfHeader := "END OF HEADER"

  /** The system letter of the file's satellites, from the header's file type: `N` is GPS, `G`
      is GLONASS and `E` is Galileo. Another file type raises NotImplementedError, whose message
      reads the `sys` field first (KeyError when it is missing). */
  function SvType(hdr: Header): (r: Result<char>)
    ensures r == Ok('G') <==> "filetype" in hdr && hdr["filetype"] == Text("N")
    ensures r == Ok('R') <==> "filetype" in hdr && hdr["filetype"] == Text("G")
    ensures r == Ok('E') <==> "filetype" in hdr && hdr["filetype"] == Text("E")
    ensures r.Ok? ==> r.value in "GRE"
    ensures r.Err? ==> r.error == (if "filetype" in hdr && "sys" in hdr then NotImplementedError else KeyError)
  {
    if "filetype" !in hdr then Err(KeyError)
    else if hdr["filetype"] == Text("N") then Ok('G')
    else if hdr["filetype"] == Text("G") then Ok('R')
    else if hdr["filetype"] == Text("E") then Ok('E')
    else if "sys" !in hdr then Err(KeyError)
    else Err(NotImplementedError)
  }

  /** `Nl[header['systems']]`: a missing field or an unknown system is a KeyError, and a table
      (which Python cannot hash) a TypeError. */
  function ExtraLines(hdr: Header): (r: Result<nat>)
    ensures r.Ok? <==> "systems" in hdr && hdr["systems"].Text? && hdr["systems"].text in Nl
    ensures r.Ok? ==> r.value == Nl[hdr["systems"].text] && (r.value == 7 || r.value == 3)
    ensures r.Err? ==> r.error == (if "systems" in hdr && hdr["systems"].Table? then TypeError else KeyError)
  {
    if "systems" !in hdr then Err(KeyError)
    else match hdr["systems"]
      case Table(_) => Err(TypeError)
      case Text(s) => if s in Nl then Ok(Nl[s]) else Err(KeyError)
  }

  /** A two-digit year: 80 to 99 are 1980 to 1999, anything below 80 is 20xx. */
  function Rebase(y: int): (r: Option<int>)
    ensures 80 <= y <= 99 ==> r == Some(1900 + y)
    ensures y < 80 ==> r == Some(2000 + y)
    ensures y > 99 ==> r.None?
  {
    if 80 <= y <= 99 then Some(y + 1900)
    else if y < 80 then Some(y + 2000)
    else None
  }

  /** The columns of the two-digit year, month, day, hour and minute on an epoch line. */
  const TimeColumns: seq<(nat, nat)> := [(3, 5), (6, 8), (9, 11), (12, 14), (15, 17)]

  /** `_timenav`: the epoch of an epoch line, with the year rebased, the whole seconds of
      columns 17:20 and the microseconds `subsec` reads from 17:22. A refused column or date
      gives `None`. */
  function TimeNav(ln: string, subsec: string -> Option<int>): (r: Option<DateTime>)
    ensures r.Some? ==> |ln| > 3
  {
    var f :- Fields(ln, TimeColumns);
    var year :- Rebase(f[0]);
    var second :- TruncFloat(Slice(ln, 17, 20));
    var micro :- subsec(Slice(ln, 17, 22));
    var e := Epoch(year, f[1], f[2], f[3], f[4], second, micro);
    if Valid(e) then Some(e) else None
  }

  /** An epoch line's epoch is read from columns 3:5 (rebased), 6:8, 9:11, 12:14, 15:17 and
      17:20, with the microseconds of 17:22; and a line whose columns read and form a valid date
      is an epoch line. */
  lemma TimeNavOfColumns(ln: string, subsec: string -> Option<int>, e: Epoch)
    ensures TimeNav(ln, subsec) == Some(e) <==>
      && Valid(e)
      && (exists y :: ParseInt(Slice(ln, 3, 5)) == Some(y) && Rebase(y) == Some(e.year))
      && ParseInt(Slice(ln, 6, 8)) == Some(e.month) && ParseInt(Slice(ln, 9, 11)) == Some(e.day)
      && ParseInt(Slice(ln, 12, 14)) == Some(e.hour) && ParseInt(Slice(ln, 15, 17)) == Some(e.minute)
      && TruncFloat(Slice(ln, 17, 20)) == Some(e.second) && subsec(Slice(ln, 17, 22)) == Some(e.micro)
  {
    FieldsColumns(ln, TimeColumns);
    var c := TimeColumns;
    assert c[0] == (3, 5) && c[1] == (6, 8) && c[2] == (9, 11) && c[3] == (12, 14) && c[4] == (15, 17);
    if && Valid(e)
       && (exists y :: ParseInt(Slice(ln, 3, 5)) == Some(y) && Rebase(y) == Some(e.year))
       && ParseInt(Slice(ln, 6, 8)) == Some(e.month) && ParseInt(Slice(ln, 9, 11)) == Some(e.day)
       && ParseInt(Slice(ln, 12, 14)) == Some(e.hour) && ParseInt(Slice(ln, 15, 17)) == Some(e.minute)
       && TruncFloat(Slice(ln, 17, 20)) == Some(e.second) && subsec(Slice(ln, 17, 22)) == Some(e.micro) {
      var y :| ParseInt(Slice(ln, 3, 5)) == Some(y) && Rebase(y) == Some(e.year);
      assert forall k :: 0 <= k < |c| ==> ParseInt(Slice(ln, c[k].0, c[k].1)).Some?;
      var f := Fields(ln, c).value;
      assert f == [y, e.month, e.day, e.hour, e.minute];
    }
  }

  /** Every epoch a RINEX 2 line can name lies in the years 1980 to 2079. */
  lemma TimeNavYears(ln: string, subsec: string -> Option<int>)
    requires TimeNav(ln, subsec).Some?
    ensures 1980 <= TimeNav(ln, subsec).value.year <= 2079
  {
    FieldsColumns(ln, TimeColumns);
    assert TimeColumns[0] == (3, 5);
    ParseIntTwoColumns(Slice(ln, 3, 5));
  }

  /** What the record loop learns once from the header, with the caller's time window. */
  datatype Setup = Setup(
    svtype: char,
    extra: Result<nat>,
    tlim: Option<(DateTime, DateTime)>,
    subsec: string -> Option<int>)

  /** One turn of the record loop at line `i`. */
  function StepAt(lines: seq<string>, i: nat, su: Setup): (st: Step)
    requires i < |lines|
    ensures (st.Skip? || st.Keep?) ==> i < st.next <= |lines|
  {
    match TimeNav(lines[i], su.subsec)
    case None => Skip(i + 1)
    case Some(t) => EpochStep(lines, i, t, su)
  }

  /** The turn of the record loop for an epoch line at `i` whose epoch is `t`. */
  function EpochStep(lines: seq<string>, i: nat, t: DateTime, su: Setup): (st: Step)
    requires i < |lines|
    ensures (st.Skip? || st.Keep?) ==> i < st.next <= |lines|
  {
    if su.tlim.Some? && Before(t, su.tlim.value.0) then
      (if su.extra.Err? then Fail(su.extra.error) else Skip(i + 1 + Min(su.extra.value, |lines| - i - 1)))
    else if su.tlim.Some? && Before(su.tlim.value.1, t) then Stop
    else if su.extra.Err? then Fail(su.extra.error)
    else
      var next := i + 1 + Min(su.extra.value, |lines| - i - 1);
      Keep(next, ReplaceChar([su.svtype] + Slice(lines[i], 0, 2), ' ', '0'), t, Slice(lines[i], 22, 79) + Cont(lines, i + 1, next, 3, 79))
  }

  /** One turn of the record loop: pass over a line that is not an epoch line; an epoch before
      the window passes over its continuation lines, one after the window ends the loop; any
      other epoch line is kept with its continuation lines. The continuation count is looked up
      only when it is needed. */
  lemma StepAtCases(lines: seq<string>, i: nat, su: Setup)
    requires i < |lines|
    ensures var st := StepAt(lines, i, su); var time := TimeNav(lines[i], su.subsec);
      && (time.None? ==> st == Skip(i + 1))
      && (st.Stop? <==> time.Some? && su.tlim.Some? && !Before(time.value, su.tlim.value.0) && Before(su.tlim.value.1, time.value))
      && (st.Fail? <==> time.Some? && su.extra.Err? && !st.Stop?)
      && (st.Fail? ==> st.error == su.extra.error)
      && (time.Some? && (st.Skip? || st.Keep?) ==> su.extra.Ok? && st.next == i + 1 + Min(su.extra.value, |lines| - i - 1))
      && (st.Keep? <==> time.Some? && su.extra.Ok? && (su.tlim.None? || InWindow(time.value, su.tlim.value)))
      && (st.Keep? ==>
            && st.time == time.value
            && st.sv == ReplaceChar([su.svtype] + Slice(lines[i], 0, 2), ' ', '0')
            && st.raw == Slice(lines[i], 22, 79) + Cont(lines, i + 1, st.next, 3, 79))
  {
    if TimeNav(lines[i], su.subsec).Some? {
      EpochStepCases(lines, i, TimeNav(lines[i], su.subsec).value, su);
    }
  }

  /** The turn for an epoch line: before the window its continuation lines are passed over,
      after it the loop ends; the continuation count is needed (and its lookup fails) only for
      an epoch that does not end the loop. */
  lemma EpochStepCases(lines: seq<string>, i: nat, t: DateTime, su: Setup)
    requires i < |lines|
    ensures var st := EpochStep(lines, i, t, su);
      && (st.Stop? <==> su.tlim.Some? && !Before(t, su.tlim.value.0) && Before(su.tlim.value.1, t))
      && (st.Fail? <==> su.extra.Err? && !st.Stop?)
      && (st.Fail? ==> st.error == su.extra.error)
      && ((st.Skip? || st.Keep?) ==> su.extra.Ok? && st.next == i + 1 + Min(su.extra.value, |lines| - i - 1))
      && (st.Keep? <==> su.extra.Ok? && (su.tlim.None? || InWindow(t, su.tlim.value)))
      && (st.Keep? ==>
            && st.time == t
            && st.sv == ReplaceChar([su.svtype] + Slice(lines[i], 0, 2), ' ', '0')
            && st.raw == Slice(lines[i], 22, 79) + Cont(lines, i + 1, st.next, 3, 79))
  {
  }

  predicate InWindow(t: DateTime, w: (DateTime, DateTime)) {
    !Before(t, w.0) && !Before(w.1, t)
  }

  /** The record loop from line `i` on, with the records read so far in `data`. */
  function Read(lines: seq<string>, i: nat, su: Setup, data: Data): (r: Result<Data>)
    requires i <= |lines|
    decreases |lines| - i
  {
    if i == |lines| then Ok(data)
    else match StepAt(lines, i, su)
      case Stop => Ok(data)
      case Skip(next) => Read(lines, next, su, data)
      case Keep(next, sv, t, raw) => Read(lines, next, su, Insert(data, sv, t, ExtractTokens(raw)))
      case Fail(e) => Err(e)
  }

  /** A record already read is never replaced by a later one. */
  lemma {:induction false} ReadKeepsFirst(lines: seq<string>, i: nat, su: Setup, data: Data, sv: string, t: DateTime)
    requires i <= |lines| && Has(data, sv, t)
    requires Read(lines, i, su, data).Ok?
    ensures Has(Read(lines, i, su, data).value, sv, t)
    ensures Read(lines, i, su, data).value.m[sv].m[t] == data.m[sv].m[t]
    decreases |lines| - i
  {
    if i < |lines| {
      match StepAt(lines, i, su)
      case Stop =>
      case Skip(next) => ReadKeepsFirst(lines, next, su, data, sv, t);
      case Keep(next, s, u, raw) => ReadKeepsFirst(lines, next, su, Insert(data, s, u, ExtractTokens(raw)), sv, t);
      case Fail(e) =>
    }
  }

  /** Every token the reader stores has the primary pattern's form, and the tables stay
      well formed. */
  lemma {:induction false} ReadShapes(lines: seq<string>, i: nat, su: Setup, data: Data)
    requires i <= |lines| && DataValid(data) && TokensShaped(data)
    requires Read(lines, i, su, data).Ok?
    ensures DataValid(Read(lines, i, su, data).value)
    ensures TokensShaped(Read(lines, i, su, data).value)
    decreases |lines| - i
  {
    if i < |lines| {
      match StepAt(lines, i, su)
      case Stop =>
      case Skip(next) => ReadShapes(lines, next, su, data);
      case Keep(next, sv, t, raw) =>
        InsertShaped(data, sv, t, ExtractTokens(raw));
        ReadShapes(lines, next, su, Insert(data, sv, t, ExtractTokens(raw)));
      case Fail(e) =>
    }
  }

  /** With a time window, every stored epoch lies inside it. */
  lemma {:induction false} ReadWithin(lines: seq<string>, i: nat, su: Setup, data: Data)
    requires i <= |lines| && su.tlim.Some?
    requires forall s, u :: Has(data, s, u) ==> InWindow(u, su.tlim.value)
    requires Read(lines, i, su, data).Ok?
    ensures var d := Read(lines, i, su, data).value;
      forall s, u :: Has(d, s, u) ==> InWindow(u, su.tlim.value)
    decreases |lines| - i
  {
    if i < |lines| {
      match StepAt(lines, i, su)
      case Stop =>
      case Skip(next) => ReadWithin(lines, next, su, data);
      case Keep(next, sv, t, raw) =>
        StepAtCases(lines, i, su);
        ReadWithin(lines, next, su, Insert(data, sv, t, ExtractTokens(raw)));
      case Fail(e) =>
    }
  }

  /** `navheader2`: every line up to `END OF HEADER` stores its content under its kind. */
  function HeaderFrom(lines: seq<string>, i: nat, hdr: Header): (r: (Header, nat))
    requires i <= |lines|
    ensures i <= r.1 <= |lines|
    ensures hdr.Keys <= r.0.Keys
    decreases |lines| - i
  {
    if i == |lines| then (hdr, i)
    else if Contains(lines[i], EndOfHeader) then (hdr, i + 1)
    else HeaderFrom(lines, i + 1, hdr[Kind(lines[i]) := Text(Content(lines[i]))])
  }

  /** The RINEX 2 header holds only text fields. */
  lemma {:induction false} HeaderText(lines: seq<string>, i: nat, hdr: Header)
    requires i <= |lines| && forall k :: k in hdr ==> hdr[k].Text?
    ensures forall k :: k in HeaderFrom(lines, i, hdr).0 ==> HeaderFrom(lines, i, hdr).0[k].Text?
    decreases |lines| - i
  {
    if i < |lines| && !Contains(lines[i], EndOfHeader) {
      HeaderText(lines, i + 1, hdr[Kind(lines[i]) := Text(Content(lines[i]))]);
    }
  }

  /** A field that no header line from `i` on writes keeps its value. */
  lemma {:induction false} HeaderKeeps(lines: seq<string>, i: nat, hdr: Header, key: string)
    requires i <= |lines| && key in hdr
    requires forall k :: i <= k < HeaderFrom(lines, i, hdr).1 && !Contains(lines[k], EndOfHeader) ==> Kind(lines[k]) != key
    ensures HeaderFrom(lines, i, hdr).0[key] == hdr[key]
    decreases |lines| - i
  {
    if i < |lines| && !Contains(lines[i], EndOfHeader) {
      HeaderKeeps(lines, i + 1, hdr[Kind(lines[i]) := Text(Content(lines[i]))], key);
    }
  }

  /** Of several header lines of one kind, the last one before `END OF HEADER` wins. */
  lemma {:induction false} HeaderLatest(lines: seq<string>, i: nat, hdr: Header, j: nat)
    requires i <= j < |lines| && j < HeaderFrom(lines, i, hdr).1 && !Contains(lines[j], EndOfHeader)
    requires forall k :: j < k < HeaderFrom(lines, i, hdr).1 && !Contains(lines[k], EndOfHeader) ==> Kind(lines[k]) != Kind(lines[j])
    ensures Kind(lines[j]) in HeaderFrom(lines, i, hdr).0
    ensures HeaderFrom(lines, i, hdr).0[Kind(lines[j])] == Text(Content(lines[j]))
    decreases j - i
  {
    var h := hdr[Kind(lines[i]) := Text(Content(lines[i]))];
    if i == j {
      HeaderKeeps(lines, i + 1, h, Kind(lines[j]));
    } else {
      HeaderLatest(lines, i + 1, h, j);
    }
  }

  /** `navheader2`: the fields the version-line reader supplies, then the header lines. */
  method NavHeader2(info: map<string, string>, lines: seq<string>) returns (hdr: Header, n: nat)
    ensures (hdr, n) == HeaderFrom(lines, 0, InfoHeader(info))
  {
    hdr := InfoHeader(info);
    var i := 0;
    while i < |lines|
      invariant i <= |lines|
      invariant HeaderFrom(lines, 0, InfoHeader(info)) == HeaderFrom(lines, i, hdr)
      decreases |lines| - i
    {
      var ln := lines[i];
      if Contains(ln, EndOfHeader) {
        return hdr, i + 1;
      }
      var kind, content := Kind(ln), Content(ln);
      hdr := hdr[kind := Text(content)];
      i := i + 1;
    }
    return hdr, i;
  }

  /** The whole reading of a RINEX 2 navigation file. */
  function Nav2(info: map<string, string>, lines: seq<string>, tlim: Option<(DateTime, DateTime)>, subsec: string -> Option<int>): Result<Parsed>
  {
    var h := HeaderFrom(lines, 0, InfoHeader(info));
    var svtype :- SvType(h.0);
    var data :- Read(lines, h.1, Setup(svtype, ExtraLines(h.0), tlim, subsec), Empty());
    Ok(Parsed(h.0, data))
  }

  /** `rinexnav2`: the header, the system letter from the file type, then the record loop. */
  method RinexNav2(info: map<string, string>, lines: seq<string>, tlim: Option<(DateTime, DateTime)>, subsec: string -> Option<int>) returns (r: Result<Parsed>)
    ensures r == Nav2(info, lines, tlim, subsec)
  {
    var hdr, n := NavHeader2(info, lines);
    var svtype := SvType(hdr);
    if svtype.Err? {
      return Err(svtype.error);
    }
    var data := ReadRecords(lines, n, Setup(svtype.value, ExtraLines(hdr), tlim, subsec));
    if data.Err? {
      return Err(data.error);
    }
    return Ok(Parsed(hdr, data.value));
  }

  /** The record loop of `rinexnav2`, filling the satellite tables in place. */
  method ReadRecords(lines: seq<string>, start: nat, su: Setup) returns (r: Result<Data>)
    requires start <= |lines|
    ensures r == Read(lines, start, su, Empty())
  {
    var data: Data := Empty();
    var i := start;
    while i < |lines|
      invariant start <= i <= |lines|
      invariant Read(lines, start, su, Empty()) == Read(lines, i, su, data)
      decreases |lines| - i
    {
      var st := NextRecord(lines, i, su);
      match st
      case Stop => break;
      case Fail(e) => return Err(e);
      case Skip(next) => i := next;
      case Keep(next, sv, t, raw) =>
        var tokens := ExtractTokens(raw);
        data := Insert(data, sv, t, tokens);
        i := next;
    }
    return Ok(data);
  }

  /** One turn of the record loop: the epoch line at `i` and its continuation lines. */
  method NextRecord(lines: seq<string>, i: nat, su: Setup) returns (st: Step)
    requires i < |lines|
    ensures st == StepAt(lines, i, su)
  {
    var time := TimeNav(lines[i], su.subsec);
    if time.None? {
      return Skip(i + 1);
    }
    st := NextEpochRecord(lines, i, time.value, su);
  }

  /** The rest of the turn once the line at `i` is known to be an epoch line of epoch `t`. */
  method NextEpochRecord(lines: seq<string>, i: nat, t: DateTime, su: Setup) returns (st: Step)
    requires i < |lines|
    ensures st == EpochStep(lines, i, t, su)
  {
    var ln := lines[i];
    if su.tlim.Some? {
      if Before(t, su.tlim.value.0) {
        if su.extra.Err? {
          return Fail(su.extra.error);
        }
        var next := SkipLines(lines, i + 1, su.extra.value);
        return Skip(next);
      } else if Before(su.tlim.value.1, t) {
        return Stop;
      }
    }
    var sv := [su.svtype] + Slice(ln, 0, 2);
    sv := ReplaceChar(sv, ' ', '0');
    if su.extra.Err? {
      return Fail(su.extra.error);
    }
    var raw, next := Gather(lines, i, su.extra.value, 22, 79, 3, 79);
    return Keep(next, sv, t, raw);
  }

  /** `_timenav` as a reader of lines. */
  function EpochOf(subsec: string -> Option<int>): (read: string -> Option<DateTime>)
    ensures forall ln :: read(ln) == TimeNav(ln, subsec)
  {
    ln => TimeNav(ln, subsec)
  }

  /** The `navtime2` loop from line `i` on, each line read by `read`, with the epochs seen so
      far in `acc`; it ends at the end of the file (an empty read). */
  function Times(lines: seq<string>, i: nat, extra: Result<nat>, read: string -> Option<DateTime>, acc: seq<DateTime>): (r: Result<seq<DateTime>>)
    requires i <= |lines|
    ensures r.Ok? ==> acc <= r.value
    ensures r.Err? ==> extra.Err? && r.error == extra.error
    decreases |lines| - i
  {
    if i == |lines| || lines[i] == "" then Ok(acc)
    else match read(lines[i])
      case None => Times(lines, i + 1, extra, read, acc)
      case Some(t) =>
        if extra.Err? then Err(extra.error)
        else Times(lines, i + 1 + Min(extra.value, |lines| - i - 1), extra, read, acc + [t])
  }

  /** `navtime2`: every epoch of the file, sorted, each once. */
  method NavTime2(info: map<string, string>, lines: seq<string>, subsec: string -> Option<int>) returns (r: Result<seq<DateTime>>)
    ensures var h := HeaderFrom(lines, 0, InfoHeader(info));
      r.Ok? <==> Times(lines, h.1, ExtraLines(h.0), EpochOf(subsec), []).Ok?
    ensures var h := HeaderFrom(lines, 0, InfoHeader(info));
      r.Ok? ==> r.value == Unique(Times(lines, h.1, ExtraLines(h.0), EpochOf(subsec), []).value)
    ensures r.Ok? ==> StrictlyIncreasing(r.value)
  {
    var hdr, n := NavHeader2(info, lines);
    var times := CollectTimes(lines, n, ExtraLines(hdr), EpochOf(subsec));
    if times.Err? {
      return Err(times.error);
    }
    return Ok(Unique(times.value));
  }

  /** The `navtime2` loop: each epoch line's epoch, then its continuation lines passed over. */
  method CollectTimes(lines: seq<string>, start: nat, extra: Result<nat>, read: string -> Option<DateTime>) returns (r: Result<seq<DateTime>>)
    requires start <= |lines|
    ensures r == Times(lines, start, extra, read, [])
  {
    var times: seq<DateTime> := [];
    var i := start;
    while i < |lines|
      invariant start <= i <= |lines|
      invariant Times(lines, start, extra, read, []) == Times(lines, i, extra, read, times)
      decreases |lines| - i
    {
      if lines[i] == "" {
        break;
      }
      var next := NextTime(lines, i, extra, read, times);
      if next.Err? {
        return Err(next.error);
      }
      i, times := next.value.0, next.value.1;
    }
    return Ok(times);
  }

  /** One turn of the `navtime2` loop at a non-empty line `i`: the line's epoch, if it has
      one, is appended and the continuation lines are passed over. */
  method NextTime(lines: seq<string>, i: nat, extra: Result<nat>, read: string -> Option<DateTime>, times: seq<DateTime>)
    returns (r: Result<(nat, seq<DateTime>)>)
    requires i < |lines| && lines[i] != ""
    ensures r.Ok? ==> i < r.value.0 <= |lines| && Times(lines, i, extra, read, times) == Times(lines, r.value.0, extra, read, r.value.1)
    ensures r.Err? ==> Times(lines, i, extra, read, times) == Err(r.error)
  {
    var time := read(lines[i]);
    if time.None? {
      return Ok((i + 1, times));
    }
    if extra.Err? {
      return Err(extra.error);
    }
    var next := SkipLines(lines, i + 1, extra.value);
    return Ok((next, times + [time.value]));
  }
}
