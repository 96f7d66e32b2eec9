/** `delete_similar_coefs`: near-duplicate folding over an insertion-ordered dictionary of
    coefficient texts. Every ordered pair of keys is visited, the outer key as the absorber;
    an absorbed key's value is set to None and the dictionary is rebuilt from the keys whose
    value is not None. The ratio test on the floats the keys spell is the parameter `near`, and
    `isZero` says that a key spells zero (such a key never absorbs). */
module Folding {
  import opened Wrappers
  import opened ODicts

  /** One test of the inner loop: `keys[i]` absorbs `keys[j]` when the keys differ, both are
      still live, `keys[i]` is not zero and the ratio test passes. */
  function Absorb<K(==,!new), V>(keys: seq<K>, vals: seq<Option<V>>, i: nat, j: nat,
                        near: (K, K) -> bool, isZero: K -> bool, add: (V, V) -> V): (r: seq<Option<V>>)
    requires |vals| == |keys| && i < |keys| && j < |keys|
    ensures |r| == |vals|
  {
    if keys[i] == keys[j] || vals[i].None? || vals[j].None? then vals
    else if !isZero(keys[i]) && near(keys[i], keys[j]) then vals[i := Some(add(vals[i].value, vals[j].value))][j := None]
    else vals
  }

  /** The two loops from the pair `(i, j)` on. */
  function Sweep<K(==,!new), V>(keys: seq<K>, vals: seq<Option<V>>, i: nat, j: nat,
                       near: (K, K) -> bool, isZero: K -> bool, add: (V, V) -> V): (r: seq<Option<V>>)
    requires |vals| == |keys| && i <= |keys| && j <= |keys|
    ensures |r| == |vals|
    decreases |keys| - i, |keys| - j
  {
    if i == |keys| then vals
    else if j == |keys| then Sweep(keys, vals, i + 1, 0, near, isZero, add)
    else Sweep(keys, Absorb(keys, vals, i, j, near, isZero, add), i, j + 1, near, isZero, add)
  }

  /** The values of `d`, in key order, all live (a key without a value reads as folded). */
  function Initial<K(==,!new), V>(d: ODict<K, V>): (vals: seq<Option<V>>)
    ensures |vals| == |d.keys|
    ensures forall p :: 0 <= p < |vals| && d.keys[p] in d.m ==> vals[p] == Some(d.m[d.keys[p]])
  {
    seq(|d.keys|, p requires 0 <= p < |d.keys| => if d.keys[p] in d.m then Some(d.m[d.keys[p]]) else None)
  }

  /** `a` is `b` with some elements left out. */
  predicate SubSeq<K(==)>(a: seq<K>, b: seq<K>)
    decreases |b|
  {
    |a| <= |b| &&
    (a == [] || (b != [] && ((a[|a| - 1] == b[|b| - 1] && SubSeq(a[..|a| - 1], b[..|b| - 1])) || SubSeq(a, b[..|b| - 1]))))
  }

  predicate Distinct<K(==)>(keys: seq<K>) {
    forall a, b :: 0 <= a < b < |keys| ==> keys[a] != keys[b]
  }

  /** The rebuilt dictionary: the live keys in their order, with their values. */
  function Survivors<K(==,!new), V>(keys: seq<K>, vals: seq<Option<V>>): (r: ODict<K, V>)
    requires |vals| == |keys|
    ensures forall k :: k in r.m ==> k in keys
    ensures SubSeq(r.keys, keys)
  {
    if keys == [] then Empty()
    else
      var n := |keys| - 1;
      var init := Survivors(keys[..n], vals[..n]);
      match vals[n]
      case None => init
      case Some(v) => init.Put(keys[n], v)
  }

  /** With distinct keys, the rebuilt dictionary is well formed and holds exactly the live
      keys, each with its value. */
  lemma {:induction false} SurvivorsLive<K(!new), V>(keys: seq<K>, vals: seq<Option<V>>)
    requires |vals| == |keys| && Distinct(keys)
    ensures Survivors(keys, vals).Valid()
    ensures forall p :: 0 <= p < |keys| ==>
      (keys[p] in Survivors(keys, vals).m <==> vals[p].Some?) &&
      (vals[p].Some? ==> Survivors(keys, vals).m[keys[p]] == vals[p].value)
  {
    if keys != [] {
      var n := |keys| - 1;
      var ks, vs := keys[..n], vals[..n];
      assert Distinct(ks);
      SurvivorsLive(ks, vs);
      LastIsNew(keys);
      var init, r := Survivors(ks, vs), Survivors(keys, vals);
      assert keys[n] !in init.m;
      assert r == if vals[n].Some? then init.Put(keys[n], vals[n].value) else init;
      forall p | 0 <= p < |keys|
        ensures (keys[p] in r.m <==> vals[p].Some?) && (vals[p].Some? ==> r.m[keys[p]] == vals[p].value)
      {
        if p < n {
          assert ks[p] == keys[p] && vs[p] == vals[p] && keys[p] != keys[n];
        }
      }
    }
  }

  /** The last of distinct keys is not among the ones before it. */
  lemma LastIsNew<K>(keys: seq<K>)
    requires keys != [] && Distinct(keys)
    ensures keys[|keys| - 1] !in keys[..|keys| - 1]
  {
    var n := |keys| - 1;
    forall p | 0 <= p < n ensures keys[..n][p] != keys[n] {
      assert keys[..n][p] == keys[p];
    }
  }

  /** `delete_similar_coefs(d)`. */
  function Folded<K(==,!new), V>(d: ODict<K, V>, near: (K, K) -> bool, isZero: K -> bool, add: (V, V) -> V): (r: ODict<K, V>)
    ensures d.Valid() ==> r.m.Keys <= d.m.Keys
    ensures SubSeq(r.keys, d.keys)
  {
    Survivors(d.keys, Sweep(d.keys, Initial(d), 0, 0, near, isZero, add))
  }

  /** The folded dictionary is well formed. */
  lemma FoldedValid<K(!new), V>(d: ODict<K, V>, near: (K, K) -> bool, isZero: K -> bool, add: (V, V) -> V)
    requires d.Valid()
    ensures Folded(d, near, isZero, add).Valid()
  {
    SurvivorsLive(d.keys, Sweep(d.keys, Initial(d), 0, 0, near, isZero, add));
  }

  /** The nested loops: every ordered pair of keys, the outer key as the absorber, folding
      the values in place. */
  method SweepPairs<K(==,!new), V>(keys: seq<K>, init: seq<Option<V>>, near: (K, K) -> bool, isZero: K -> bool, add: (V, V) -> V)
    returns (vals: seq<Option<V>>)
    requires |init| == |keys|
    ensures vals == Sweep(keys, init, 0, 0, near, isZero, add)
  {
    vals := init;
    var i := 0;
    while i < |keys|
      invariant i <= |keys| && |vals| == |keys|
      invariant Sweep(keys, init, 0, 0, near, isZero, add) == Sweep(keys, vals, i, 0, near, isZero, add)
      decreases |keys| - i
    {
      var j := 0;
      while j < |keys|
        invariant j <= |keys| && |vals| == |keys|
        invariant Sweep(keys, init, 0, 0, near, isZero, add) == Sweep(keys, vals, i, j, near, isZero, add)
        decreases |keys| - j
      {
        if keys[i] != keys[j] && vals[i].Some? && vals[j].Some? && !isZero(keys[i]) && near(keys[i], keys[j]) {
          vals := vals[i := Some(add(vals[i].value, vals[j].value))];
          vals := vals[j := None];
        }
        j := j + 1;
      }
      i := i + 1;
    }
  }

  /** The new dictionary of the keys whose value is still there, in their order. */
  method Rebuild<K(==,!new), V>(keys: seq<K>, vals: seq<Option<V>>) returns (r: ODict<K, V>)
    requires |vals| == |keys|
    ensures r == Survivors(keys, vals)
  {
    r := Empty();
    var p := 0;
    while p < |keys|
      invariant p <= |keys|
      invariant r == Survivors(keys[..p], vals[..p])
      decreases |keys| - p
    {
      assert keys[..p + 1][..p] == keys[..p] && vals[..p + 1][..p] == vals[..p];
      if vals[p].Some? {
        r := r.Put(keys[p], vals[p].value);
      }
      p := p + 1;
    }
    assert keys[..p] == keys && vals[..p] == vals;
  }

  /** `delete_similar_coefs`: the values folded over a copy, then the dictionary rebuilt. */
  method DeleteSimilar<K(==,!new), V>(d: ODict<K, V>, near: (K, K) -> bool, isZero: K -> bool, add: (V, V) -> V) returns (r: ODict<K, V>)
    ensures r == Folded(d, near, isZero, add)
  {
    var vals := SweepPairs(d.keys, Initial(d), near, isZero, add);
    r := Rebuild(d.keys, vals);
  }

  /** The summed weight of the live values. */
  function Total<V>(vals: seq<Option<V>>, weight: V -> nat): nat {
    if vals == [] then 0
    else Total(vals[..|vals| - 1], weight) + (match vals[|vals| - 1] case None => 0 case Some(v) => weight(v))
  }

  /** Changing one position changes the total by the difference at that position. */
  lemma {:induction false} TotalUpdate<V>(vals: seq<Option<V>>, p: nat, x: Option<V>, weight: V -> nat)
    requires p < |vals|
    ensures Total(vals[p := x], weight) + (match vals[p] case None => 0 case Some(v) => weight(v))
         == Total(vals, weight) + (match x case None => 0 case Some(v) => weight(v))
    decreases |vals|
  {
    var n := |vals| - 1;
    if p < n {
      assert vals[p := x][..n] == vals[..n][p := x];
      TotalUpdate(vals[..n], p, x, weight);
    } else {
      assert vals[p := x][..n] == vals[..n];
    }
  }

  /** Folding keeps the total weight when `add` adds weights: no count is lost or made up. */
  lemma {:induction false} SweepTotal<K(!new), V>(keys: seq<K>, vals: seq<Option<V>>, i: nat, j: nat,
                                            near: (K, K) -> bool, isZero: K -> bool, add: (V, V) -> V, weight: V -> nat)
    requires |vals| == |keys| && i <= |keys| && j <= |keys|
    requires forall a, b :: weight(add(a, b)) == weight(a) + weight(b)
    ensures Total(Sweep(keys, vals, i, j, near, isZero, add), weight) == Total(vals, weight)
    decreases |keys| - i, |keys| - j
  {
    if i == |keys| {
    } else if j == |keys| {
      SweepTotal(keys, vals, i + 1, 0, near, isZero, add, weight);
    } else {
      var next := Absorb(keys, vals, i, j, near, isZero, add);
      if keys[i] != keys[j] && vals[i].Some? && vals[j].Some? && !isZero(keys[i]) && near(keys[i], keys[j]) {
        var v1 := vals[i := Some(add(vals[i].value, vals[j].value))];
        TotalUpdate(vals, i, Some(add(vals[i].value, vals[j].value)), weight);
        TotalUpdate(v1, j, None, weight);
      }
      SweepTotal(keys, next, i, j + 1, near, isZero, add, weight);
    }
  }

  /** Folding never leaves a dictionary with live values empty: some value stays live. */
  lemma {:induction false} SweepLive<K(!new), V>(keys: seq<K>, vals: seq<Option<V>>, i: nat, j: nat,
                                           near: (K, K) -> bool, isZero: K -> bool, add: (V, V) -> V, q: nat) returns (p: nat)
    requires |vals| == |keys| && i <= |keys| && j <= |keys|
    requires q < |vals| && vals[q].Some?
    ensures p < |vals| && Sweep(keys, vals, i, j, near, isZero, add)[p].Some?
    decreases |keys| - i, |keys| - j
  {
    if i == |keys| {
      p := q;
    } else if j == |keys| {
      p := SweepLive(keys, vals, i + 1, 0, near, isZero, add, q);
    } else {
      var next := Absorb(keys, vals, i, j, near, isZero, add);
      var q' := if next[q].Some? then q else i;
      p := SweepLive(keys, next, i, j + 1, near, isZero, add, q');
    }
  }

  /** A folded key stays folded, and a key that spells zero is never enlarged: it keeps its
      value or is itself folded away. */
  lemma {:induction false} SweepDeadAndZero<K(!new), V>(keys: seq<K>, vals: seq<Option<V>>, i: nat, j: nat,
                                                  near: (K, K) -> bool, isZero: K -> bool, add: (V, V) -> V, p: nat)
    requires |vals| == |keys| && i <= |keys| && j <= |keys| && p < |keys|
    ensures vals[p].None? ==> Sweep(keys, vals, i, j, near, isZero, add)[p].None?
    ensures isZero(keys[p]) && Sweep(keys, vals, i, j, near, isZero, add)[p].Some? ==>
      Sweep(keys, vals, i, j, near, isZero, add)[p] == vals[p]
    decreases |keys| - i, |keys| - j
  {
    if i == |keys| {
    } else if j == |keys| {
      SweepDeadAndZero(keys, vals, i + 1, 0, near, isZero, add, p);
    } else {
      SweepDeadAndZero(keys, Absorb(keys, vals, i, j, near, isZero, add), i, j + 1, near, isZero, add, p);
    }
  }

  /** Every live value has property `P`. */
  predicate AllLive<V>(vals: seq<Option<V>>, P: V -> bool) {
    forall p :: 0 <= p < |vals| && vals[p].Some? ==> P(vals[p].value)
  }

  /** Every live value keeps a property that `add` preserves (such as `count == len(owners)`). */
  lemma {:induction false} SweepKeeps<K(!new), V>(keys: seq<K>, vals: seq<Option<V>>, i: nat, j: nat,
                                            near: (K, K) -> bool, isZero: K -> bool, add: (V, V) -> V, P: V -> bool)
    requires |vals| == |keys| && i <= |keys| && j <= |keys|
    requires forall a, b :: P(a) && P(b) ==> P(add(a, b))
    requires AllLive(vals, P)
    ensures AllLive(Sweep(keys, vals, i, j, near, isZero, add), P)
    decreases |keys| - i, |keys| - j
  {
    if i == |keys| {
    } else if j == |keys| {
      SweepKeeps(keys, vals, i + 1, 0, near, isZero, add, P);
    } else {
      SweepKeeps(keys, Absorb(keys, vals, i, j, near, isZero, add), i, j + 1, near, isZero, add, P);
    }
  }

  /** Putting a new key appends its value to the values in key order. */
  lemma InitialPut<K(!new), V>(d: ODict<K, V>, k: K, v: V)
    requires d.Valid() && k !in d.m
    ensures Initial(d.Put(k, v)) == Initial(d) + [Some(v)]
  {
    var a, b := Initial(d.Put(k, v)), Initial(d) + [Some(v)];
    assert |a| == |b|;
    forall p | 0 <= p < |a| ensures a[p] == b[p] {
      if p < |d.keys| { assert d.keys[p] != k; }
    }
  }

  lemma TotalAppend<V>(vals: seq<Option<V>>, x: Option<V>, weight: V -> nat)
    ensures Total(vals + [x], weight) == Total(vals, weight) + (match x case None => 0 case Some(v) => weight(v))
  {
    assert (vals + [x])[..|vals|] == vals;
  }

  /** With distinct keys, the rebuilt dictionary weighs what the live values weigh. */
  lemma {:induction false} SurvivorsTotal<K(!new), V>(keys: seq<K>, vals: seq<Option<V>>, weight: V -> nat)
    requires |vals| == |keys| && Distinct(keys)
    ensures Total(Initial(Survivors(keys, vals)), weight) == Total(vals, weight)
  {
    if keys != [] {
      var n := |keys| - 1;
      assert Distinct(keys[..n]);
      SurvivorsTotal(keys[..n], vals[..n], weight);
      SurvivorsLive(keys[..n], vals[..n]);
      var init := Survivors(keys[..n], vals[..n]);
      assert keys[n] !in init.m;
      assert vals == vals[..n] + [vals[n]];
      TotalAppend(vals[..n], vals[n], weight);
      if vals[n].Some? { InitialPut(init, keys[n], vals[n].value); TotalAppend(Initial(init), vals[n], weight); }
    }
  }

  /** Folding keeps the total weight of the dictionary when `add` adds weights. */
  lemma FoldedTotal<K(!new), V>(d: ODict<K, V>, near: (K, K) -> bool, isZero: K -> bool, add: (V, V) -> V, weight: V -> nat)
    requires d.Valid()
    requires forall a, b :: weight(add(a, b)) == weight(a) + weight(b)
    ensures Total(Initial(Folded(d, near, isZero, add)), weight) == Total(Initial(d), weight)
  {
    var vals := Sweep(d.keys, Initial(d), 0, 0, near, isZero, add);
    SweepTotal(d.keys, Initial(d), 0, 0, near, isZero, add, weight);
    SurvivorsTotal(d.keys, vals, weight);
  }

  /** Every value of the folded dictionary has a property that every input value has and
      that `add` preserves. */
  lemma FoldedKeeps<K(!new), V>(d: ODict<K, V>, near: (K, K) -> bool, isZero: K -> bool, add: (V, V) -> V, P: V -> bool)
    requires d.Valid()
    requires forall a, b :: P(a) && P(b) ==> P(add(a, b))
    requires forall k :: k in d.m ==> P(d.m[k])
    ensures forall k :: k in Folded(d, near, isZero, add).m ==> P(Folded(d, near, isZero, add).m[k])
  {
    var vals := Sweep(d.keys, Initial(d), 0, 0, near, isZero, add);
    SweepKeeps(d.keys, Initial(d), 0, 0, near, isZero, add, P);
    SurvivorsLive(d.keys, vals);
    forall k | k in Folded(d, near, isZero, add).m ensures P(Folded(d, near, isZero, add).m[k]) {
      var p :| 0 <= p < |d.keys| && d.keys[p] == k;
    }
  }

  /** A non-empty dictionary folds to a non-empty one. */
  lemma FoldedNonEmpty<K(!new), V>(d: ODict<K, V>, near: (K, K) -> bool, isZero: K -> bool, add: (V, V) -> V)
    requires d.Valid() && d.keys != []
    ensures Folded(d, near, isZero, add).keys != []
  {
    var vals := Sweep(d.keys, Initial(d), 0, 0, near, isZero, add);
    var p := SweepLive(d.keys, Initial(d), 0, 0, near, isZero, add, 0);
    SurvivorsLive(d.keys, vals);
    assert d.keys[p] in Folded(d, near, isZero, add).m;
  }

  /** A surviving key that spells zero keeps its own value: it absorbed nothing. */
  lemma FoldedZero<K(!new), V>(d: ODict<K, V>, near: (K, K) -> bool, isZero: K -> bool, add: (V, V) -> V, k: K)
    requires d.Valid() && isZero(k) && k in Folded(d, near, isZero, add).m
    ensures Folded(d, near, isZero, add).m[k] == d.m[k]
  {
    var vals := Sweep(d.keys, Initial(d), 0, 0, near, isZero, add);
    SurvivorsLive(d.keys, vals);
    var p :| 0 <= p < |d.keys| && d.keys[p] == k;
    SweepDeadAndZero(d.keys, Initial(d), 0, 0, near, isZero, add, p);
  }

  // ---------------------------------------------------------------------------------------
  // What folding means: no two surviving keys are near

  /** The pair `(p, q)` comes before `(i, j)` in the order the two loops visit pairs. */
  predicate Visited(p: nat, q: nat, i: nat, j: nat) {
    p < i || (p == i && q < j)
  }

  /** Among the pairs visited before `(i, j)`, no two different live keys pass the ratio test
      with a non-zero outer key: each such pair would have been folded. */
  predicate Separated<K(==), V>(keys: seq<K>, vals: seq<Option<V>>, i: nat, j: nat, near: (K, K) -> bool, isZero: K -> bool)
    requires |vals| == |keys|
  {
    forall p, q :: 0 <= p < |keys| && 0 <= q < |keys| && Visited(p, q, i, j) && vals[p].Some? && vals[q].Some? && keys[p] != keys[q] ==>
      isZero(keys[p]) || !near(keys[p], keys[q])
  }

  /** One test keeps the pairs already visited apart, since a live value only ever dies, and
      it settles the pair it tests: either the keys are apart or the inner one dies. */
  lemma AbsorbSeparated<K(!new), V>(keys: seq<K>, vals: seq<Option<V>>, i: nat, j: nat,
                                    near: (K, K) -> bool, isZero: K -> bool, add: (V, V) -> V)
    requires |vals| == |keys| && i < |keys| && j < |keys|
    requires Separated(keys, vals, i, j, near, isZero)
    ensures Separated(keys, Absorb(keys, vals, i, j, near, isZero, add), i, j + 1, near, isZero)
  {
    var r := Absorb(keys, vals, i, j, near, isZero, add);
    assert forall q :: 0 <= q < |r| && r[q].Some? ==> vals[q].Some?;
  }

  /** The two loops leave no pair of different live keys near, unless the outer one spells
      zero. */
  lemma {:induction false} SweepSeparated<K(!new), V>(keys: seq<K>, vals: seq<Option<V>>, i: nat, j: nat,
                                                near: (K, K) -> bool, isZero: K -> bool, add: (V, V) -> V)
    requires |vals| == |keys| && i <= |keys| && j <= |keys|
    requires Separated(keys, vals, i, j, near, isZero)
    ensures Separated(keys, Sweep(keys, vals, i, j, near, isZero, add), |keys|, 0, near, isZero)
    decreases |keys| - i, |keys| - j
  {
    if i == |keys| {
    } else if j == |keys| {
      SweepSeparated(keys, vals, i + 1, 0, near, isZero, add);
    } else {
      AbsorbSeparated(keys, vals, i, j, near, isZero, add);
      SweepSeparated(keys, Absorb(keys, vals, i, j, near, isZero, add), i, j + 1, near, isZero, add);
    }
  }

  /** Near-equal keys get folded: of two different surviving keys, neither passes the ratio
      test against the other unless it spells zero. */
  lemma FoldedSeparated<K(!new), V>(d: ODict<K, V>, near: (K, K) -> bool, isZero: K -> bool, add: (V, V) -> V, a: K, b: K)
    requires d.Valid() && a != b
    requires a in Folded(d, near, isZero, add).m && b in Folded(d, near, isZero, add).m
    ensures isZero(a) || !near(a, b)
  {
    var keys := d.keys;
    var pa :| 0 <= pa < |keys| && keys[pa] == a;
    var pb :| 0 <= pb < |keys| && keys[pb] == b;
    var vals := Sweep(keys, Initial(d), 0, 0, near, isZero, add);
    SurvivorsLive(keys, vals);
    assert vals[pa].Some? && vals[pb].Some?;
    assert Separated(keys, Initial(d), 0, 0, near, isZero);
    SweepSeparated(keys, Initial(d), 0, 0, near, isZero, add);
    assert Visited(pa, pb, |keys|, 0);
  }

  /** Neither `keys[p]` nor any key that would fold with it in either direction. */
  predicate Alone<K(==)>(keys: seq<K>, p: nat, near: (K, K) -> bool, isZero: K -> bool)
    requires p < |keys|
  {
    forall q :: 0 <= q < |keys| && keys[q] != keys[p] ==>
      (isZero(keys[p]) || !near(keys[p], keys[q])) && (isZero(keys[q]) || !near(keys[q], keys[p]))
  }

  /** A key with no near partner is never touched by the loops. */
  lemma {:induction false} SweepAlone<K(!new), V>(keys: seq<K>, vals: seq<Option<V>>, i: nat, j: nat,
                                            near: (K, K) -> bool, isZero: K -> bool, add: (V, V) -> V, p: nat)
    requires |vals| == |keys| && i <= |keys| && j <= |keys| && p < |keys|
    requires Alone(keys, p, near, isZero)
    ensures Sweep(keys, vals, i, j, near, isZero, add)[p] == vals[p]
    decreases |keys| - i, |keys| - j
  {
    if i == |keys| {
    } else if j == |keys| {
      SweepAlone(keys, vals, i + 1, 0, near, isZero, add, p);
    } else {
      var r := Absorb(keys, vals, i, j, near, isZero, add);
      assert r[p] == vals[p];
      SweepAlone(keys, r, i, j + 1, near, isZero, add, p);
    }
  }

  /** A key with no near partner survives the fold with its own value. */
  lemma FoldedAlone<K(!new), V>(d: ODict<K, V>, near: (K, K) -> bool, isZero: K -> bool, add: (V, V) -> V, k: K)
    requires d.Valid() && k in d.m
    requires forall b :: b in d.m && b != k ==> (isZero(k) || !near(k, b)) && (isZero(b) || !near(b, k))
    ensures k in Folded(d, near, isZero, add).m && Folded(d, near, isZero, add).m[k] == d.m[k]
  {
    var vals := Sweep(d.keys, Initial(d), 0, 0, near, isZero, add);
    var p :| 0 <= p < |d.keys| && d.keys[p] == k;
    SweepAlone(d.keys, Initial(d), 0, 0, near, isZero, add, p);
    SurvivorsLive(d.keys, vals);
  }
}
