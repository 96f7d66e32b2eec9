/** `bad_coefs_searcher`: every slot of the merged records is folded like the ionospheric
    votes, and then split into the value most files gave (the right coefficient) and the others
    (the error coefficients), most voted first. The ratio test on the floats the texts spell is
    the parameter `near`, and `isZero` says that a text spells zero. */
module Searcher {
  import opened Wrappers
  import opened ODicts
  import opened Epochs
  import opened Sorting
  import opened Folding
  import opened Merger

  /** A coefficient text with its tally: the `count`, `owners` and `value` fields. */
  datatype Coef = Coef(value: string, count: nat, owners: seq<string>)

  /** What a slot becomes: its right coefficient and its error coefficients. */
  datatype Verdict = Verdict(right: Coef, errors: seq<Coef>)

  /** Satellite, then epoch, then one verdict per coefficient index. */
  type Searched = ODict<string, ODict<DateTime, seq<Verdict>>>

  /** One entry absorbing another: the counts add up and the absorbed owners follow the
      absorber's. */
  function AddEntry(a: Entry, b: Entry): Entry {
    Entry(a.count + b.count, a.owners + b.owners)
  }

  /** The count of a text in a folded slot, the sort key. */
  function CountBy(c: Slot): string -> nat {
    (k: string) => if k in c.m then c.m[k].count else 0
  }

  /** The entry of `k` with its text stored as `value`. */
  function CoefOf(c: Slot, k: string): Coef {
    if k in c.m then Coef(k, c.m[k].count, c.m[k].owners) else Coef(k, 0, [])
  }

  function CoefsOf(c: Slot, ks: seq<string>): (r: seq<Coef>)
    ensures |r| == |ks| && forall i :: 0 <= i < |ks| ==> r[i] == CoefOf(c, ks[i])
  {
    seq(|ks|, i requires 0 <= i < |ks| => CoefOf(c, ks[i]))
  }

  /** The texts of a verdict, the right one first. */
  function Values(v: Verdict): (r: seq<string>)
    ensures |r| == |v.errors| + 1 && r[0] == v.right.value
    ensures forall i :: 0 <= i < |v.errors| ==> r[i + 1] == v.errors[i].value
  {
    [v.right.value] + seq(|v.errors|, i requires 0 <= i < |v.errors| => v.errors[i].value)
  }

  /** The verdict of a sorted list of texts: the first is right and the rest are errors. */
  function VerdictOf(c: Slot, l: seq<string>): (v: Verdict)
    requires l != []
    ensures Values(v) == l
  {
    var v := Verdict(CoefOf(c, l[0]), CoefsOf(c, l[1..]));
    assert forall i :: 0 < i < |l| ==> l[1..][i - 1] == l[i];
    v
  }

  /** One slot: folded, its texts sorted by count, most first and ties in slot order; the
      first is right and the rest are errors. A slot that folds to nothing has no first text. */
  function Judge(slot: Slot, near: (string, string) -> bool, isZero: string -> bool): (r: Result<Verdict>)
  {
    var c := Folded(slot, near, isZero, AddEntry);
    if c.keys == [] then Err(IndexError) else Ok(VerdictOf(c, SortDesc(c.keys, CountBy(c))))
  }

  /** The texts of a verdict are the sorted texts of the folded slot, each with its entry. */
  lemma JudgeValues(slot: Slot, near: (string, string) -> bool, isZero: string -> bool)
    requires Judge(slot, near, isZero).Ok?
    ensures var c := Folded(slot, near, isZero, AddEntry);
      var v := Judge(slot, near, isZero).value;
      && Values(v) == SortDesc(c.keys, CountBy(c))
      && v.right == CoefOf(c, v.right.value)
      && forall i :: 0 <= i < |v.errors| ==> v.errors[i] == CoefOf(c, v.errors[i].value)
  {
  }

  /** A well-formed slot is decided exactly when it holds a text; otherwise the sorted list has
      no first element. */
  lemma JudgeDecides(slot: Slot, near: (string, string) -> bool, isZero: string -> bool)
    requires slot.Valid()
    ensures Judge(slot, near, isZero).Ok? <==> slot.keys != []
    ensures Judge(slot, near, isZero).Err? ==> Judge(slot, near, isZero).error == IndexError
  {
    if slot.keys != [] {
      FoldedNonEmpty(slot, near, isZero, AddEntry);
    }
  }

  /** Every text of the folded slot appears in the verdict exactly once, with its own count and
      owners. */
  lemma JudgeCovers(slot: Slot, near: (string, string) -> bool, isZero: string -> bool)
    requires slot.Valid() && Judge(slot, near, isZero).Ok?
    ensures var c := Folded(slot, near, isZero, AddEntry);
      var v := Judge(slot, near, isZero).value;
      && multiset(Values(v)) == multiset(c.keys)
      && v.right.value in c.m && v.right == CoefOf(c, v.right.value)
      && forall i :: 0 <= i < |v.errors| ==> v.errors[i].value in c.m && v.errors[i] == CoefOf(c, v.errors[i].value)
  {
    var c := Folded(slot, near, isZero, AddEntry);
    FoldedValid(slot, near, isZero, AddEntry);
    JudgeValues(slot, near, isZero);
    var v := Judge(slot, near, isZero).value;
    var vs := Values(v);
    assert vs[0] in multiset(c.keys);
    forall i | 0 <= i < |v.errors| ensures v.errors[i].value in c.m {
      assert vs[i + 1] in multiset(c.keys);
    }
  }

  /** The first of the sorted texts of a slot has the greatest count, and no text before it
      in the slot has that count. */
  lemma VerdictRight(c: Slot)
    requires c.Valid() && c.keys != []
    ensures var v := VerdictOf(c, SortDesc(c.keys, CountBy(c)));
      && (forall k :: k in c.m ==> c.m[k].count <= v.right.count)
      && exists j :: 0 <= j < |c.keys| && c.keys[j] == v.right.value &&
           forall i :: 0 <= i < j ==> CountBy(c)(c.keys[i]) < v.right.count
  {
    var w := CountBy(c);
    var l := SortDesc(c.keys, w);
    SortDescFirst(c.keys, w);
    forall k | k in c.m ensures c.m[k].count <= w(l[0]) {
      var p :| 0 <= p < |c.keys| && c.keys[p] == k;
    }
  }

  /** The right coefficient has the greatest count, and it is the first text of the folded
      slot with that count. */
  lemma JudgeRight(slot: Slot, near: (string, string) -> bool, isZero: string -> bool)
    requires slot.Valid() && Judge(slot, near, isZero).Ok?
    ensures var c := Folded(slot, near, isZero, AddEntry);
      var v := Judge(slot, near, isZero).value;
      && (forall k :: k in c.m ==> c.m[k].count <= v.right.count)
      && exists j :: 0 <= j < |c.keys| && c.keys[j] == v.right.value &&
           forall i :: 0 <= i < j ==> CountBy(c)(c.keys[i]) < v.right.count
  {
    FoldedValid(slot, near, isZero, AddEntry);
    VerdictRight(Folded(slot, near, isZero, AddEntry));
  }

  /** A verdict of texts sorted by count lists its errors in non-increasing count, none above
      the right one. */
  lemma VerdictOrder(c: Slot, l: seq<string>)
    requires l != [] && NonIncreasing(l, CountBy(c))
    ensures var v := VerdictOf(c, l);
      && (forall i :: 0 <= i < |v.errors| ==> v.errors[i].count <= v.right.count)
      && (forall i, j :: 0 <= i < j < |v.errors| ==> v.errors[i].count >= v.errors[j].count)
  {
    var v := VerdictOf(c, l);
    var w := CountBy(c);
    assert v.right.count == w(l[0]);
    forall i | 0 <= i < |v.errors| ensures v.errors[i].count == w(l[i + 1]) <= w(l[0]) {
      assert v.errors[i] == CoefOf(c, l[i + 1]);
    }
    forall i, j | 0 <= i < j < |v.errors| ensures v.errors[i].count >= v.errors[j].count {
      assert w(l[i + 1]) >= w(l[j + 1]);
    }
  }

  /** The error coefficients come in non-increasing count, none above the right one. */
  lemma JudgeOrder(slot: Slot, near: (string, string) -> bool, isZero: string -> bool)
    requires Judge(slot, near, isZero).Ok?
    ensures var v := Judge(slot, near, isZero).value;
      && (forall i :: 0 <= i < |v.errors| ==> v.errors[i].count <= v.right.count)
      && (forall i, j :: 0 <= i < j < |v.errors| ==> v.errors[i].count >= v.errors[j].count)
  {
    var c := Folded(slot, near, isZero, AddEntry);
    SortDescSorted(c.keys, CountBy(c));
    VerdictOrder(c, SortDesc(c.keys, CountBy(c)));
  }

  /** `sorted` is stable: the texts of any one count come in their order in the folded slot. */
  lemma JudgeStable(slot: Slot, near: (string, string) -> bool, isZero: string -> bool, n: nat)
    requires Judge(slot, near, isZero).Ok?
    ensures var c := Folded(slot, near, isZero, AddEntry);
      OfWeight(Values(Judge(slot, near, isZero).value), CountBy(c), n) == OfWeight(c.keys, CountBy(c), n)
  {
    var c := Folded(slot, near, isZero, AddEntry);
    JudgeValues(slot, near, isZero);
    SortDescStable(c.keys, CountBy(c), n);
  }

  /** A slot's count. */
  function Count(e: Entry): nat { e.count }

  /** Folding a well-formed slot in which every count is the number of owners keeps a
      well-formed slot with the same property, drawn from the slot's texts in their order,
      and with the same summed count: no vote is lost or made up. */
  lemma ClearedSound(slot: Slot, near: (string, string) -> bool, isZero: string -> bool)
    requires slot.Valid() && forall k :: k in slot.m ==> slot.m[k].count == |slot.m[k].owners|
    ensures var c := Folded(slot, near, isZero, AddEntry);
      && c.Valid() && SubSeq(c.keys, slot.keys)
      && (forall k :: k in c.m ==> c.m[k].count == |c.m[k].owners|)
      && Total(Initial(c), Count) == Total(Initial(slot), Count)
  {
    var P := (e: Entry) => e.count == |e.owners|;
    FoldedValid(slot, near, isZero, AddEntry);
    FoldedKeeps(slot, near, isZero, AddEntry, P);
    FoldedTotal(slot, near, isZero, AddEntry, Count);
  }

  /** A verdict of a slot of such a tally: every coefficient's count is its number of owners. */
  lemma JudgeOwners(slot: Slot, near: (string, string) -> bool, isZero: string -> bool)
    requires slot.Valid() && forall k :: k in slot.m ==> slot.m[k].count == |slot.m[k].owners|
    requires Judge(slot, near, isZero).Ok?
    ensures var v := Judge(slot, near, isZero).value;
      && v.right.count == |v.right.owners|
      && forall i :: 0 <= i < |v.errors| ==> v.errors[i].count == |v.errors[i].owners|
  {
    ClearedSound(slot, near, isZero);
    JudgeCovers(slot, near, isZero);
  }

  // ---------------------------------------------------------------------------------------
  // The loops over the merged records

  /** How one slot is decided. The loops below are stated for any such rule; the search
      decides by `Judge`. */
  type Judgement = Slot -> Result<Verdict>

  /** `judge` decides every slot as `Judge` does. The equation is used only where a `Judge`
      term is in view, so reasoning about the loops does not unfold the fold and the sort of
      every slot. */
  ghost predicate JudgesBySearch(judge: Judgement, near: (string, string) -> bool, isZero: string -> bool) {
    forall slot {:trigger Judge(slot, near, isZero)} :: judge(slot) == Judge(slot, near, isZero)
  }

  /** The rule of the search. */
  ghost function SearchRule(near: (string, string) -> bool, isZero: string -> bool): (judge: Judgement)
    ensures JudgesBySearch(judge, near, isZero)
  {
    var byJudge := (slot: Slot) => Judge(slot, near, isZero);
    assert JudgesBySearch(byJudge, near, isZero);
    var judge :| JudgesBySearch(judge, near, isZero);
    judge
  }

  /** The verdicts of a record's slots in index order; the first slot that cannot be decided
      stops the search. */
  function RecordVerdicts(rec: Record, judge: Judgement): (r: Result<seq<Verdict>>)
    ensures r.Ok? ==> |r.value| == |rec|
    decreases |rec|
  {
    if rec == [] then Ok([])
    else
      var n := |rec| - 1;
      var init :- RecordVerdicts(rec[..n], judge);
      var v :- judge(rec[n]);
      Ok(init + [v])
  }

  /** When every slot is decided, so is the record, each index with its slot's verdict. */
  lemma {:induction false} RecordVerdictsOK(rec: Record, judge: Judgement)
    requires forall idx :: 0 <= idx < |rec| ==> judge(rec[idx]).Ok?
    ensures RecordVerdicts(rec, judge).Ok?
    ensures forall idx :: 0 <= idx < |rec| ==> judge(rec[idx]) == Ok(RecordVerdicts(rec, judge).value[idx])
    decreases |rec|
  {
    if rec != [] {
      var n := |rec| - 1;
      var front := rec[..n];
      assert forall idx :: 0 <= idx < n ==> front[idx] == rec[idx];
      RecordVerdictsOK(front, judge);
      var init := RecordVerdicts(front, judge).value;
      var v := judge(rec[n]).value;
      assert RecordVerdicts(rec, judge) == Ok(init + [v]);
    }
  }

  /** An error at some index is the error of the whole record. */
  lemma {:induction false} RecordVerdictsErr(rec: Record, n: nat, judge: Judgement)
    requires n <= |rec| && RecordVerdicts(rec[..n], judge).Err?
    ensures RecordVerdicts(rec, judge) == RecordVerdicts(rec[..n], judge)
    decreases |rec| - n
  {
    if n < |rec| {
      assert rec[..n + 1][..n] == rec[..n];
      RecordVerdictsErr(rec, n + 1, judge);
    } else {
      assert rec[..n] == rec;
    }
  }

  /** The epochs of one satellite from the `j`-th on, each record replaced by its verdicts;
      `acc` holds the epochs already done. */
  function EpochVerdictsFrom(recs: ODict<DateTime, Record>, j: nat, acc: ODict<DateTime, seq<Verdict>>, judge: Judgement)
    : (r: Result<ODict<DateTime, seq<Verdict>>>)
    requires recs.Valid() && j <= |recs.keys|
    decreases |recs.keys| - j
  {
    if j == |recs.keys| then Ok(acc)
    else
      var t := recs.keys[j];
      var vs :- RecordVerdicts(recs.m[t], judge);
      EpochVerdictsFrom(recs, j + 1, acc.Put(t, vs), judge)
  }

  /** The `j`-th key of a well-formed dictionary is not among the ones before it. */
  lemma KeyIsNew<K(!new), V>(d: ODict<K, V>, j: nat)
    requires d.Valid() && j < |d.keys|
    ensures d.keys[..j + 1] == d.keys[..j] + [d.keys[j]] && d.keys[j] !in d.keys[..j]
  {
  }

  /** When every record is decided, the satellite keeps its epochs in their order, each with
      the verdicts of its record. */
  lemma {:induction false} EpochVerdictsOK(recs: ODict<DateTime, Record>, j: nat, acc: ODict<DateTime, seq<Verdict>>, judge: Judgement)
    requires recs.Valid() && j <= |recs.keys| && acc.Valid() && acc.keys == recs.keys[..j]
    requires forall t :: t in recs.m ==> RecordVerdicts(recs.m[t], judge).Ok?
    ensures var r := EpochVerdictsFrom(recs, j, acc, judge);
      && r.Ok? && r.value.Valid() && r.value.keys == recs.keys
      && forall t :: t in r.value.m ==>
           if t in acc.m then r.value.m[t] == acc.m[t] else RecordVerdicts(recs.m[t], judge) == Ok(r.value.m[t])
    decreases |recs.keys| - j
  {
    if j < |recs.keys| {
      var t := recs.keys[j];
      KeyIsNew(recs, j);
      EpochVerdictsOK(recs, j + 1, acc.Put(t, RecordVerdicts(recs.m[t], judge).value), judge);
    } else {
      assert recs.keys[..j] == recs.keys;
    }
  }

  /** The satellites from the `k`-th on, each with its epochs replaced by their verdicts;
      `acc` holds the satellites already done. */
  function SearchFrom(md: Merged, k: nat, acc: Searched, judge: Judgement): (r: Result<Searched>)
    requires MergedValid(md) && k <= |md.keys|
    decreases |md.keys| - k
  {
    if k == |md.keys| then Ok(acc)
    else
      var sv := md.keys[k];
      var e :- EpochVerdictsFrom(md.m[sv], 0, Empty(), judge);
      SearchFrom(md, k + 1, acc.Put(sv, e), judge)
  }

  /** When every satellite is decided, the search keeps the satellites in their order, each
      with its epochs' verdicts. */
  lemma {:induction false} SearchOK(md: Merged, k: nat, acc: Searched, judge: Judgement)
    requires MergedValid(md) && k <= |md.keys| && acc.Valid() && acc.keys == md.keys[..k]
    requires forall sv :: sv in md.m ==> EpochVerdictsFrom(md.m[sv], 0, Empty(), judge).Ok?
    ensures var r := SearchFrom(md, k, acc, judge);
      && r.Ok? && r.value.Valid() && r.value.keys == md.keys
      && forall sv :: sv in r.value.m ==>
           if sv in acc.m then r.value.m[sv] == acc.m[sv] else EpochVerdictsFrom(md.m[sv], 0, Empty(), judge) == Ok(r.value.m[sv])
    decreases |md.keys| - k
  {
    if k < |md.keys| {
      var sv := md.keys[k];
      KeyIsNew(md, k);
      SearchOK(md, k + 1, acc.Put(sv, EpochVerdictsFrom(md.m[sv], 0, Empty(), judge).value), judge);
    } else {
      assert md.keys[..k] == md.keys;
    }
  }

  /** A slot of a merged record: well formed, non-empty and counting its owners. */
  ghost predicate SlotOK(slot: Slot) {
    slot.Valid() && slot.keys != [] && forall k :: k in slot.m ==> slot.m[k].count == |slot.m[k].owners|
  }

  /** Every slot of a merged record is decided, as a well-formed, owner-counting verdict. */
  lemma RecordDecided(rec: Record, near: (string, string) -> bool, isZero: string -> bool)
    requires forall idx :: 0 <= idx < |rec| ==> SlotOK(rec[idx])
    ensures RecordVerdicts(rec, SearchRule(near, isZero)).Ok?
    ensures forall idx :: 0 <= idx < |rec| ==>
      var v := RecordVerdicts(rec, SearchRule(near, isZero)).value[idx];
      Judge(rec[idx], near, isZero) == Ok(v) && v.right.count == |v.right.owners|
  {
    var judge := SearchRule(near, isZero);
    forall idx | 0 <= idx < |rec| ensures judge(rec[idx]).Ok? && judge(rec[idx]) == Judge(rec[idx], near, isZero) {
      JudgeDecides(rec[idx], near, isZero);
    }
    RecordVerdictsOK(rec, judge);
    forall idx | 0 <= idx < |rec| ensures RecordVerdicts(rec, judge).value[idx].right.count == |RecordVerdicts(rec, judge).value[idx].right.owners| {
      JudgeOwners(rec[idx], near, isZero);
    }
  }

  /** The records of merged data are made of such slots. */
  lemma MergedSlots(md: Merged, maxIQ: nat, s: string, u: DateTime)
    requires DataOK(md, maxIQ) && InMerged(md, s, u)
    ensures forall idx :: 0 <= idx < |md.m[s].m[u]| ==> SlotOK(md.m[s].m[u][idx])
  {
    assert RecordOK(RecordOf(md, s, u));
  }

  /** Every satellite of merged data is decided, each epoch with its record's verdicts. */
  lemma SatelliteDecided(md: Merged, maxIQ: nat, near: (string, string) -> bool, isZero: string -> bool, sv: string)
    requires DataOK(md, maxIQ) && sv in md.m
    ensures var r := EpochVerdictsFrom(md.m[sv], 0, Empty(), SearchRule(near, isZero));
      && r.Ok? && r.value.Valid() && r.value.keys == md.m[sv].keys
      && forall t :: t in md.m[sv].m ==> t in r.value.m && RecordVerdicts(md.m[sv].m[t], SearchRule(near, isZero)) == Ok(r.value.m[t])
  {
    var recs := md.m[sv];
    forall t | t in recs.m ensures RecordVerdicts(recs.m[t], SearchRule(near, isZero)).Ok? {
      MergedSlots(md, maxIQ, sv, t);
      RecordDecided(recs.m[t], near, isZero);
    }
    EpochVerdictsOK(recs, 0, Empty(), SearchRule(near, isZero));
  }

  /** Every table of the searched data is a well-formed ordered dictionary. */
  ghost predicate SearchedValid(data: Searched) {
    data.Valid() && forall sv :: sv in data.m ==> data.m[sv].Valid()
  }

  /** `search_bad_coefs` on merged records: nothing raises, the satellites keep their order
      and every table it builds is well formed. */
  lemma SearchShape(md: Merged, maxIQ: nat, near: (string, string) -> bool, isZero: string -> bool)
    requires DataOK(md, maxIQ)
    ensures var r := SearchFrom(md, 0, Empty(), SearchRule(near, isZero));
      && r.Ok? && r.value.keys == md.keys && SearchedValid(r.value)
      && forall sv :: sv in md.m ==> sv in r.value.m && EpochVerdictsFrom(md.m[sv], 0, Empty(), SearchRule(near, isZero)) == Ok(r.value.m[sv])
  {
    var judge := SearchRule(near, isZero);
    forall sv | sv in md.m ensures EpochVerdictsFrom(md.m[sv], 0, Empty(), judge).Ok? {
      SatelliteDecided(md, maxIQ, near, isZero, sv);
    }
    SearchOK(md, 0, Empty(), judge);
    var r := SearchFrom(md, 0, Empty(), judge).value;
    forall sv | sv in r.m ensures r.m[sv].Valid() {
      assert sv in md.keys;
      SatelliteDecided(md, maxIQ, near, isZero, sv);
    }
  }

  /** `search_bad_coefs` on merged records: each satellite keeps its epochs in their order,
      each record gets one verdict per slot, and each verdict is the slot's `Judge`, whose
      right coefficient counts its owners. */
  lemma SearchVerdict(md: Merged, maxIQ: nat, near: (string, string) -> bool, isZero: string -> bool, s: string, u: DateTime)
    requires DataOK(md, maxIQ) && InMerged(md, s, u)
    ensures var r := SearchFrom(md, 0, Empty(), SearchRule(near, isZero));
      && r.Ok? && s in r.value.m && r.value.m[s].keys == md.m[s].keys && u in r.value.m[s].m
      && |r.value.m[s].m[u]| == |md.m[s].m[u]|
      && forall idx :: 0 <= idx < |md.m[s].m[u]| ==>
           var v := r.value.m[s].m[u][idx];
           Judge(md.m[s].m[u][idx], near, isZero) == Ok(v) && v.right.count == |v.right.owners|
  {
    var judge := SearchRule(near, isZero);
    SearchShape(md, maxIQ, near, isZero);
    var r := SearchFrom(md, 0, Empty(), judge).value;
    SatelliteDecided(md, maxIQ, near, isZero, s);
    var e := EpochVerdictsFrom(md.m[s], 0, Empty(), judge).value;
    assert r.m[s] == e;
    MergedSlots(md, maxIQ, s, u);
    RecordDecided(md.m[s].m[u], near, isZero);
    assert RecordVerdicts(md.m[s].m[u], judge) == Ok(e.m[u]);
  }

  // ---------------------------------------------------------------------------------------
  // The loops of `search_bad_coefs`

  /** `delete_similar_coefs` of the searcher: the entries of near-equal texts merged. */
  method DeleteSimilarCoefs(coefs: Slot, near: (string, string) -> bool, isZero: string -> bool) returns (r: Slot)
    ensures r == Folded(coefs, near, isZero, AddEntry)
  {
    r := DeleteSimilar(coefs, near, isZero, AddEntry);
  }

  /** The error list: each remaining text's entry with its text stored as `value`. */
  method ErrorCoefs(c: Slot, rest: seq<string>) returns (errs: seq<Coef>)
    ensures errs == CoefsOf(c, rest)
  {
    errs := [];
    var i := 0;
    while i < |rest|
      invariant i <= |rest| && errs == CoefsOf(c, rest[..i])
    {
      errs := errs + [CoefOf(c, rest[i])];
      i := i + 1;
    }
    assert rest[..i] == rest;
  }

  /** One slot: folded, sorted by count, then split into the right coefficient and the
      errors. A slot that folds to nothing raises IndexError at `[0]`. */
  method JudgeSlot(slot: Slot, near: (string, string) -> bool, isZero: string -> bool) returns (r: Result<Verdict>)
    ensures SearchRule(near, isZero)(slot) == r
  {
    var c := DeleteSimilarCoefs(slot, near, isZero);
    if c.keys == [] {
      r := Err(IndexError);
    } else {
      var l := SortDesc(c.keys, CountBy(c));
      var right := CoefOf(c, l[0]);
      var errs := ErrorCoefs(c, l[1..]);
      r := Ok(Verdict(right, errs));
    }
    assert Judge(slot, near, isZero) == r;
  }

  /** The slots of one record in index order, each replaced by its verdict. */
  method JudgeRecord(rec: Record, near: (string, string) -> bool, isZero: string -> bool) returns (r: Result<seq<Verdict>>)
    ensures r == RecordVerdicts(rec, SearchRule(near, isZero))
  {
    var vs: seq<Verdict> := [];
    var idx := 0;
    while idx < |rec|
      invariant idx <= |rec|
      invariant RecordVerdicts(rec[..idx], SearchRule(near, isZero)) == Ok(vs)
    {
      assert rec[..idx + 1][..idx] == rec[..idx];
      var v := JudgeSlot(rec[idx], near, isZero);
      if v.Err? {
        RecordVerdictsErr(rec, idx + 1, SearchRule(near, isZero));
        return Err(v.error);
      }
      vs := vs + [v.value];
      idx := idx + 1;
    }
    assert rec[..idx] == rec;
    r := Ok(vs);
  }

  /** The epochs of one satellite in their order, each record replaced by its verdicts. */
  method JudgeEpochs(recs: ODict<DateTime, Record>, near: (string, string) -> bool, isZero: string -> bool)
    returns (r: Result<ODict<DateTime, seq<Verdict>>>)
    requires recs.Valid()
    ensures r == EpochVerdictsFrom(recs, 0, Empty(), SearchRule(near, isZero))
  {
    var acc: ODict<DateTime, seq<Verdict>> := Empty();
    var j := 0;
    while j < |recs.keys|
      invariant j <= |recs.keys|
      invariant EpochVerdictsFrom(recs, 0, Empty(), SearchRule(near, isZero)) == EpochVerdictsFrom(recs, j, acc, SearchRule(near, isZero))
      decreases |recs.keys| - j
    {
      var t := recs.keys[j];
      var vs := JudgeRecord(recs.m[t], near, isZero);
      if vs.Err? {
        return Err(vs.error);
      }
      acc := acc.Put(t, vs.value);
      j := j + 1;
    }
    r := Ok(acc);
  }

  /** `search_bad_coefs`: every satellite, every epoch and every slot, in order; the first slot
      that cannot be decided raises. */
  method SearchBadCoefs(md: Merged, near: (string, string) -> bool, isZero: string -> bool) returns (r: Result<Searched>)
    requires MergedValid(md)
    ensures r == SearchFrom(md, 0, Empty(), SearchRule(near, isZero))
  {
    var acc: Searched := Empty();
    var k := 0;
    while k < |md.keys|
      invariant k <= |md.keys|
      invariant SearchFrom(md, 0, Empty(), SearchRule(near, isZero)) == SearchFrom(md, k, acc, SearchRule(near, isZero))
      decreases |md.keys| - k
    {
      var sv := md.keys[k];
      var e := JudgeEpochs(md.m[sv], near, isZero);
      if e.Err? {
        return Err(e.error);
      }
      acc := acc.Put(sv, e.value);
      k := k + 1;
    }
    r := Ok(acc);
  }
}
