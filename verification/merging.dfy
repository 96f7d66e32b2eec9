/** `merge_rinexes`, the loops themselves: each method below is the source's loop over
    dictionaries it updates in place, proved equal to the fold of `Merger` that specifies it. */
module Merging {
  import opened Wrappers
  import opened ODicts
  import opened Epochs
  import opened NavData
  import opened Folding
  import opened Sorting
  import opened Merger

  /** The result of the merge: the highest coefficient index met, the votes for each date the
      file names announce, the header's ionospheric table and the vote tables of the records. */
  datatype Merge = Merge(maxIQ: nat, votes: ODict<FileDate, nat>, iono: ODict<string, seq<string>>, data: Merged)

  /** The merge of `files` (each name with what the reader made of it): the file loop, then the
      consensus of the corrections. */
  ghost function MergeOf(files: seq<(string, Result<Parsed>)>, isFloat: string -> bool, near: (string, string) -> bool, isZero: string -> bool): (r: Result<Merge>)
    requires FilesWellFormed(files)
  {
    var st :- MergeFrom(files, 0, Start());
    MergeFromOK(files, 0, Start());
    var iono :- Consensus(st.iono, |st.iono.keys|, MergeRule(isFloat, near, isZero));
    Ok(Merge(st.maxIQ, st.votes, iono, st.data))
  }

  /** The votes of a successful merge: one per file, for the date its name announces. */
  lemma MergeOfVotes(files: seq<(string, Result<Parsed>)>, isFloat: string -> bool, near: (string, string) -> bool, isZero: string -> bool)
    requires FilesWellFormed(files) && MergeOf(files, isFloat, near, isZero).Ok?
    ensures var r := MergeOf(files, isFloat, near, isZero).value;
      && r.votes.Valid() && VoteSum(r.votes) == |files|
      && (forall k :: 0 <= k < |files| ==>
            DateFromFileName(files[k].0).Ok? && DateFromFileName(files[k].0).value in r.votes.m)
  {
    var st := MergeFrom(files, 0, Start()).value;
    MergeFromOK(files, 0, Start());
    MergeFromVotes(files, 0, Start());
    forall k | 0 <= k < |files|
      ensures DateFromFileName(files[k].0).Ok? && DateFromFileName(files[k].0).value in st.votes.m
    {
      MergeFromDates(files, 0, Start(), k);
    }
  }

  /** The records of a successful merge: every one sound and within `maxIQ + 1` slots, some
      record exactly that long unless `maxIQ` is 0, and on a day some name announced. */
  lemma MergeOfRecords(files: seq<(string, Result<Parsed>)>, isFloat: string -> bool, near: (string, string) -> bool, isZero: string -> bool)
    requires FilesWellFormed(files) && MergeOf(files, isFloat, near, isZero).Ok?
    ensures var r := MergeOf(files, isFloat, near, isZero).value;
      DataOK(r.data, r.maxIQ) && DaysOK(r.data, r.votes) && Reached(r.data, r.maxIQ)
  {
    MergeFromOK(files, 0, Start());
  }

  /** The header of a successful merge: exactly the labels some file gave a value for, each
      with the accepted value of every index. */
  lemma MergeOfIono(files: seq<(string, Result<Parsed>)>, isFloat: string -> bool, near: (string, string) -> bool, isZero: string -> bool)
    requires FilesWellFormed(files) && MergeOf(files, isFloat, near, isZero).Ok?
    ensures var st := MergeFrom(files, 0, Start()).value;
      var r := MergeOf(files, isFloat, near, isZero).value;
      && IonoOK(st.iono) && IonoFloats(st.iono, isFloat) && r.iono.Valid()
      && (forall g :: g in r.iono.m <==> g in st.iono.m && st.iono.m[g] != [])
      && (forall g :: g in r.iono.m ==>
            && |r.iono.m[g]| == |st.iono.m[g]|
            && forall idx :: 0 <= idx < |st.iono.m[g]| ==> Winner(st.iono.m[g][idx], isFloat, near, isZero) == Ok(r.iono.m[g][idx]))
  {
    var st := MergeFrom(files, 0, Start()).value;
    MergeFromOK(files, 0, Start());
    MergeRuleConsensus(st.iono, isFloat, near, isZero);
    MergeRuleDecides(st.iono, isFloat, near, isZero);
    ConsensusOK(st.iono, |st.iono.keys|, MergeRule(isFloat, near, isZero));
    assert st.iono.keys[..|st.iono.keys|] == st.iono.keys;
  }


  /** What the correction tallies count: in a successful merge, the count of value `v` in slot
      `idx` of label `g` is the number of files whose correction table gives `g` the value `v`
      at index `idx`; every value some file gave has its entry; and the slot lists its values
      in the order the files first give them, which is the order ties are broken in. */
  lemma MergeOfIonoCounts(files: seq<(string, Result<Parsed>)>, isFloat: string -> bool, near: (string, string) -> bool, isZero: string -> bool,
                          g: string, idx: nat, v: string)
    requires FilesWellFormed(files) && MergeOf(files, isFloat, near, isZero).Ok?
    ensures var st := MergeFrom(files, 0, Start()).value;
      && (g in st.iono.m && idx < |st.iono.m[g]| ==> CountOf(st.iono.m[g][idx], v) == IonoCountFrom(files, 0, g, idx, v))
      && (IonoCountFrom(files, 0, g, idx, v) > 0 ==> g in st.iono.m && idx < |st.iono.m[g]| && v in st.iono.m[g][idx].m)
      && (g in st.iono.m && idx < |st.iono.m[g]| ==> st.iono.m[g][idx].keys == FirstSeen([], IonoValuesFrom(files, 0, g, idx)))
  {
    MergeFromIonoCount(files, 0, Start(), g, idx, v);
    MergeFromIonoKeys(files, 0, Start(), g, idx);
  }
  /** When the merge raises: once the file loop has gone through, the consensus raises
      ValueError exactly when some file's correction table gives a value that is not a number,
      and it raises nothing else. */
  lemma MergeOfFails(files: seq<(string, Result<Parsed>)>, isFloat: string -> bool, near: (string, string) -> bool, isZero: string -> bool)
    requires FilesWellFormed(files) && MergeFrom(files, 0, Start()).Ok?
    ensures MergeOf(files, isFloat, near, isZero).Ok? <==> GivenFloats(files, isFloat)
    ensures MergeOf(files, isFloat, near, isZero).Err? ==> MergeOf(files, isFloat, near, isZero).error == ValueError
  {
    var st := MergeFrom(files, 0, Start()).value;
    MergeFromOK(files, 0, Start());
    MergeRuleConsensus(st.iono, isFloat, near, isZero);
    MergeFromFloats(files, isFloat);
  }

  /** What a successful merge holds: the three lemmas above together. */
  lemma MergeOfSound(files: seq<(string, Result<Parsed>)>, isFloat: string -> bool, near: (string, string) -> bool, isZero: string -> bool)
    requires FilesWellFormed(files) && MergeOf(files, isFloat, near, isZero).Ok?
    ensures var r := MergeOf(files, isFloat, near, isZero).value;
      && r.votes.Valid() && VoteSum(r.votes) == |files|
      && (forall k :: 0 <= k < |files| ==>
            DateFromFileName(files[k].0).Ok? && DateFromFileName(files[k].0).value in r.votes.m)
      && DataOK(r.data, r.maxIQ) && DaysOK(r.data, r.votes) && Reached(r.data, r.maxIQ)
    ensures var st := MergeFrom(files, 0, Start()).value;
      var r := MergeOf(files, isFloat, near, isZero).value;
      && IonoOK(st.iono) && IonoFloats(st.iono, isFloat) && r.iono.Valid()
      && (forall g :: g in r.iono.m <==> g in st.iono.m && st.iono.m[g] != [])
      && (forall g :: g in r.iono.m ==>
            && |r.iono.m[g]| == |st.iono.m[g]|
            && forall idx :: 0 <= idx < |st.iono.m[g]| ==> Winner(st.iono.m[g][idx], isFloat, near, isZero) == Ok(r.iono.m[g][idx]))
  {
    MergeOfVotes(files, isFloat, near, isZero);
    MergeOfRecords(files, isFloat, near, isZero);
    MergeOfIono(files, isFloat, near, isZero);
  }

  /** Who the vote table names: in a successful merge, the owners of value `v` in slot `i` of
      the record of satellite `s` at epoch `u` are the files, in the order given, whose record
      `(s, u)` was counted with `v` at index `i`; the entry's count is their number; and every
      value some file gave has its entry. */
  lemma MergeOfOwners(files: seq<(string, Result<Parsed>)>, isFloat: string -> bool, near: (string, string) -> bool, isZero: string -> bool,
                      s: string, u: DateTime, i: nat, v: string)
    requires FilesWellFormed(files) && MergeOf(files, isFloat, near, isZero).Ok?
    ensures var rec := RecordOf(MergeOf(files, isFloat, near, isZero).value.data, s, u);
      var owners := OwnersFrom(files, 0, s, u, i, v);
      && OwnersAt(rec, i, v) == owners
      && (i < |rec| && v in rec[i].m ==> rec[i].m[v].count == |owners|)
      && (owners != [] ==> InMerged(MergeOf(files, isFloat, near, isZero).value.data, s, u) && i < |rec| && v in rec[i].m)
  {
    var st := MergeFrom(files, 0, Start()).value;
    var rec := RecordOf(st.data, s, u);
    MergeFromOwners(files, 0, Start(), s, u, i, v);
    assert OwnersAt(RecordOf(Start().data, s, u), i, v) == [];
    if i < |rec| && v in rec[i].m {
      MergeFromOK(files, 0, Start());
      assert InMerged(st.data, s, u) && RecordOK(rec);
    }
  }

  // ---------------------------------------------------------------------------------------
  // The loops

  /** Counting one more value of a list: the value of index `idx` in the slot of that index. */
  lemma TickAllNext<V>(slots: seq<ODict<string, V>>, vals: seq<string>, idx: nat, first: V, more: V -> V)
    requires idx < |vals|
    ensures |TickAll(slots, vals[..idx], first, more)| == Max(|slots|, idx)
    ensures TickAll(slots, vals[..idx + 1], first, more) == TickAt(TickAll(slots, vals[..idx], first, more), idx, vals[idx], first, more)
  {
    assert vals[..idx + 1][..idx] == vals[..idx];
  }

  /** One vote for `val` in slot `idx`, the slot opened when the index is new. */
  method CountVote(tally: Tally, idx: nat, val: string) returns (r: Tally)
    requires idx <= |tally|
    ensures r == TickAt(tally, idx, val, 1, Inc)
  {
    if idx < |tally| {
      var slot := tally[idx];
      if val in slot.m {
        slot := slot.Put(val, slot.m[val] + 1);
      } else {
        slot := slot.Put(val, 1);
      }
      r := tally[idx := slot];
    } else {
      var slot: ODict<string, nat> := Empty();
      slot := slot.Put(val, 1);
      r := tally + [slot];
    }
  }

  /** `for idx, val in enumerate(vals)`: one more vote for each value in the slot of its
      index. */
  method CountIono(tally: Tally, vals: seq<string>) returns (r: Tally)
    ensures r == TickAll(tally, vals, 1, Inc)
  {
    r := tally;
    var idx := 0;
    while idx < |vals|
      invariant idx <= |vals| && |r| == Max(|tally|, idx)
      invariant r == TickAll(tally, vals[..idx], 1, Inc)
    {
      TickAllNext(tally, vals, idx, 1, Inc);
      r := CountVote(r, idx, vals[idx]);
      idx := idx + 1;
    }
    assert vals[..idx] == vals;
  }

  /** The loop over the labels of one file's corrections. */
  method FoldIono(iv: ODict<string, Tally>, ionos: ODict<string, seq<string>>) returns (r: ODict<string, Tally>)
    requires ionos.Valid()
    ensures r == IonoFrom(iv, ionos, 0)
  {
    r := iv;
    var k := 0;
    while k < |ionos.keys|
      invariant k <= |ionos.keys|
      invariant IonoFrom(iv, ionos, 0) == IonoFrom(r, ionos, k)
    {
      var gps := ionos.keys[k];
      var tally := if gps in r.m then r.m[gps] else [];
      var counted := CountIono(tally, ionos.m[gps]);
      r := r.Put(gps, counted);
      k := k + 1;
    }
  }

  /** Token `coef` counted in slot `idx` with the file as one more owner, the slot opened when
      the index is new and the entry when the token is new. */
  method CountCoef(rec: Record, idx: nat, coef: string, name: string) returns (r: Record)
    requires idx <= |rec|
    ensures r == TickAt(rec, idx, coef, Fresh(name), More(name))
  {
    if idx < |rec| {
      var slot := rec[idx];
      if coef in slot.m {
        slot := slot.Put(coef, Entry(slot.m[coef].count + 1, slot.m[coef].owners + [name]));
      } else {
        slot := slot.Put(coef, Entry(1, [name]));
      }
      r := rec[idx := slot];
    } else {
      var slot: Slot := Empty();
      slot := slot.Put(coef, Entry(1, [name]));
      r := rec + [slot];
    }
  }

  /** `for idx, coef in enumerate(coefs)`: the highest index raises `max_i_q`, and each token
      is counted in its slot. */
  method CountCoefs(rec: Record, coefs: seq<string>, name: string, maxIQ: nat) returns (r: Record, q: nat)
    ensures r == TickAll(rec, coefs, Fresh(name), More(name))
    ensures q == if coefs == [] then maxIQ else Max(maxIQ, |coefs| - 1)
  {
    r, q := rec, maxIQ;
    var idx := 0;
    while idx < |coefs|
      invariant idx <= |coefs| && |r| == Max(|rec|, idx)
      invariant r == TickAll(rec, coefs[..idx], Fresh(name), More(name))
      invariant q == if idx == 0 then maxIQ else Max(maxIQ, idx - 1)
    {
      TickAllNext(rec, coefs, idx, Fresh(name), More(name));
      if idx > q {
        q := idx;
      }
      r := CountCoef(r, idx, coefs[idx], name);
      idx := idx + 1;
    }
    assert coefs[..idx] == coefs;
  }

  /** The record of `(sv, t)`, opened when new, with one file's coefficients counted in. */
  method FoldRecord(m: Merged, maxIQ: nat, sv: string, t: DateTime, coefs: seq<string>, name: string)
    returns (r: Merged, q: nat)
    requires coefs != []
    ensures r == AddRecord(m, sv, t, coefs, name) && q == Max(maxIQ, |coefs| - 1)
  {
    var rec;
    rec, q := CountCoefs(RecordOf(m, sv, t), coefs, name, maxIQ);
    r := Store(m, sv, t, rec);
  }

  /** The loop over the epochs of one satellite: it stops at the first epoch of another day
      and raises on an epoch without coefficients. */
  method FoldEpochs(m: Merged, maxIQ: nat, sv: string, recs: Records, day: (int, int), name: string)
    returns (r: Result<(Merged, nat)>)
    requires recs.Valid()
    ensures r == EpochsFrom(m, maxIQ, sv, recs, 0, day, name)
  {
    var cur, q := m, maxIQ;
    var j := 0;
    while j < |recs.keys|
      invariant j <= |recs.keys|
      invariant EpochsFrom(m, maxIQ, sv, recs, 0, day, name) == EpochsFrom(cur, q, sv, recs, j, day, name)
    {
      var t := recs.keys[j];
      if EpochYearDay(t) != day {
        break;
      }
      var coefs := recs.m[t];
      if coefs == [] {
        return Err(MissedCoefs);
      }
      EpochsFromNext(cur, q, sv, recs, j, day, name);
      cur, q := FoldRecord(cur, q, sv, t, coefs, name);
      j := j + 1;
    }
    r := Ok((cur, q));
  }

  /** The loop over the satellites of one file. */
  method FoldSvs(m: Merged, maxIQ: nat, data: Data, day: (int, int), name: string) returns (r: Result<(Merged, nat)>)
    requires DataValid(data)
    ensures r == SvsFrom(m, maxIQ, data, 0, day, name)
  {
    var cur, q := m, maxIQ;
    var k := 0;
    while k < |data.keys|
      invariant k <= |data.keys|
      invariant SvsFrom(m, maxIQ, data, 0, day, name) == SvsFrom(cur, q, data, k, day, name)
    {
      var sv := data.keys[k];
      var folded := FoldEpochs(cur, q, sv, data.m[sv], day, name);
      if folded.Err? {
        return Err(folded.error);
      }
      cur, q := folded.value.0, folded.value.1;
      k := k + 1;
    }
    r := Ok((cur, q));
  }

  /** The vote of one file for the date its name announces. */
  method CountDate(votes: ODict<FileDate, nat>, date: FileDate) returns (r: ODict<FileDate, nat>)
    ensures r == Tick(votes, date, 1, Inc)
  {
    if date in votes.m {
      r := votes.Put(date, votes.m[date] + 1);
    } else {
      r := votes.Put(date, 1);
    }
  }

  /** One pass of the file loop: the vote for the name's date, then, for a file that read,
      its corrections and its records. */
  method FoldFile(st: State, name: string, parsed: Result<Parsed>) returns (r: Result<State>)
    requires parsed.Ok? ==> WellFormed(parsed.value)
    ensures r == FileStep(st, name, parsed)
  {
    var date := DateFromFileName(name);
    if date.Err? {
      return Err(date.error);
    }
    var votes := CountDate(st.votes, date.value);
    if parsed.Err? {
      return Ok(st.(votes := votes));
    }
    var ionos := GetIonosphericCor(parsed.value.header);
    if ionos.Err? {
      return Err(ionos.error);
    }
    var iono := FoldIono(st.iono, ionos.value);
    var folded := FoldSvs(st.data, st.maxIQ, parsed.value.data, FileYearDay(date.value), name);
    if folded.Err? {
      return Err(folded.error);
    }
    r := Ok(State(votes, folded.value.1, iono, folded.value.0));
  }

  /** The accepted value of one slot: the similar values folded together, then the first of
      the most voted. The fold raises ValueError on a key that is not a number, and `[0]` of
      the sorted keys raises IndexError on an empty slot. */
  method WinnerOf(slot: ODict<string, nat>, isFloat: string -> bool, near: (string, string) -> bool, isZero: string -> bool)
    returns (w: Result<string>)
    requires slot.Valid()
    ensures MergeRule(isFloat, near, isZero)(slot) == w
  {
    var coefs := DeleteSimilarCounts(slot, isFloat, near, isZero);
    if coefs.Err? {
      assert Winner(slot, isFloat, near, isZero) == Err(ValueError);
      return Err(coefs.error);
    }
    if coefs.value.keys == [] {
      assert Winner(slot, isFloat, near, isZero) == Err(IndexError);
      return Err(IndexError);
    }
    w := Ok(SortDesc(coefs.value.keys, CountIn(coefs.value))[0]);
    assert Winner(slot, isFloat, near, isZero) == w;
  }

  /** The accepted value of every index of one label, in index order; the first slot that
      raises stops the loop. */
  method WinnersOf(tally: Tally, isFloat: string -> bool, near: (string, string) -> bool, isZero: string -> bool)
    returns (ws: Result<seq<string>>)
    requires forall idx :: 0 <= idx < |tally| ==> tally[idx].Valid()
    ensures Winners(tally, MergeRule(isFloat, near, isZero)) == ws
  {
    var acc := [];
    var idx := 0;
    while idx < |tally|
      invariant idx <= |tally|
      invariant Winners(tally[..idx], MergeRule(isFloat, near, isZero)) == Ok(acc)
    {
      assert tally[..idx + 1][..idx] == tally[..idx];
      var w := WinnerOf(tally[idx], isFloat, near, isZero);
      if w.Err? {
        WinnersErr(tally, idx + 1, MergeRule(isFloat, near, isZero));
        return Err(w.error);
      }
      acc := acc + [w.value];
      idx := idx + 1;
    }
    assert tally[..idx] == tally;
    ws := Ok(acc);
  }

  /** One label of the consensus loop: a label with at least one index gets its list of
      accepted values, or the error of its first slot that raises. */
  method ConsensusStep(iv: ODict<string, Tally>, k: nat, acc: ODict<string, seq<string>>,
                       isFloat: string -> bool, near: (string, string) -> bool, isZero: string -> bool)
    returns (r: Result<ODict<string, seq<string>>>)
    requires IonoOK(iv) && k < |iv.keys| && Consensus(iv, k, MergeRule(isFloat, near, isZero)) == Ok(acc)
    ensures Consensus(iv, k + 1, MergeRule(isFloat, near, isZero)) == r
  {
    var gps := iv.keys[k];
    r := Ok(acc);
    if iv.m[gps] != [] {
      var ws := WinnersOf(iv.m[gps], isFloat, near, isZero);
      if ws.Err? {
        return Err(ws.error);
      }
      r := Ok(acc.Put(gps, ws.value));
    }
  }

  /** The loop over the labels of the merged corrections; the first label that raises stops it. */
  method ConsensusOf(iv: ODict<string, Tally>, isFloat: string -> bool, near: (string, string) -> bool, isZero: string -> bool)
    returns (r: Result<ODict<string, seq<string>>>)
    requires IonoOK(iv)
    ensures Consensus(iv, |iv.keys|, MergeRule(isFloat, near, isZero)) == r
  {
    var acc := Empty();
    var k := 0;
    while k < |iv.keys|
      invariant k <= |iv.keys|
      invariant Consensus(iv, k, MergeRule(isFloat, near, isZero)) == Ok(acc)
      decreases |iv.keys| - k
    {
      var next := ConsensusStep(iv, k, acc, isFloat, near, isZero);
      if next.Err? {
        ConsensusErr(iv, k + 1, |iv.keys|, MergeRule(isFloat, near, isZero));
        return next;
      }
      acc := next.value;
      k := k + 1;
    }
    r := Ok(acc);
  }

  /** `merge_rinexes`: the file loop, then the consensus loop. */
  method MergeRinexes(files: seq<(string, Result<Parsed>)>, isFloat: string -> bool, near: (string, string) -> bool, isZero: string -> bool)
    returns (r: Result<Merge>)
    requires FilesWellFormed(files)
    ensures r == MergeOf(files, isFloat, near, isZero)
  {
    var st := Start();
    var i := 0;
    while i < |files|
      invariant i <= |files| && StateOK(st)
      invariant MergeFrom(files, 0, Start()) == MergeFrom(files, i, st)
    {
      var next := FoldFile(st, files[i].0, files[i].1);
      if next.Err? {
        return Err(next.error);
      }
      FileStepOK(st, files[i].0, files[i].1);
      st := next.value;
      i := i + 1;
    }
    var iono := ConsensusOf(st.iono, isFloat, near, isZero);
    if iono.Err? {
      return Err(iono.error);
    }
    r := Ok(Merge(st.maxIQ, st.votes, iono.value, st.data));
  }
}
