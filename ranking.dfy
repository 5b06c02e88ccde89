/** Ranking of the tier definitions: `sorted(tiers_dict.values(), key=amount,
    reverse=True)` and the ids of its first two records. Python's sort is
    stable also with reverse=True: records of equal amount keep the dict's
    insertion order. */
module Ranking {
  import opened PatronRecords
  import opened TierTables

  /** Amounts never increase from left to right. */
  predicate Descending(s: seq<Tier>)
  {
    forall i, j :: 0 <= i < j < |s| ==> s[i].amount >= s[j].amount
  }

  /** The records of `s` whose amount is `a`, in their order. A sort is stable
      when it leaves this sequence unchanged for every amount. */
  function WithAmount(s: seq<Tier>, a: int): seq<Tier>
  {
    if s == [] then []
    else (if s[0].amount == a then [s[0]] else []) + WithAmount(s[1..], a)
  }

  lemma {:induction false} WithAmountHas(s: seq<Tier>, a: int, x: Tier)
    ensures x in WithAmount(s, a) <==> x in s && x.amount == a
  {
    if s != [] {
      WithAmountHas(s[1..], a, x);
      assert x in s <==> x == s[0] || x in s[1..];
    }
  }

  /** Puts `x` in front of the first record whose amount is not above its own,
      so `x` goes before the records of equal amount. */
  function Insert(x: Tier, s: seq<Tier>): (r: seq<Tier>)
    ensures multiset(r) == multiset(s) + multiset{x}
  {
    if s == [] || x.amount >= s[0].amount then [x] + s
    else
      assert s == [s[0]] + s[1..];
      [s[0]] + Insert(x, s[1..])
  }

  /** A record costing at least as much as every record of a descending list
      can go in front of it. */
  lemma DescendingCons(y: Tier, s: seq<Tier>)
    requires Descending(s)
    requires forall i :: 0 <= i < |s| ==> s[i].amount <= y.amount
    ensures Descending([y] + s)
  {
  }

  lemma {:induction false} InsertDescending(x: Tier, s: seq<Tier>)
    requires Descending(s)
    ensures Descending(Insert(x, s))
  {
    if s == [] || x.amount >= s[0].amount {
      DescendingCons(x, s);
    } else {
      var rest := Insert(x, s[1..]);
      InsertDescending(x, s[1..]);
      forall i | 0 <= i < |rest| ensures rest[i].amount <= s[0].amount {
        var y := rest[i];
        assert y in multiset(rest);
        if y != x {
          assert y in multiset(s[1..]);
          var k :| 0 <= k < |s[1..]| && s[1..][k] == y;
          assert s[k + 1] == y;
        }
      }
      DescendingCons(s[0], rest);
    }
  }

  lemma {:induction false} InsertStable(x: Tier, s: seq<Tier>)
    ensures forall a :: WithAmount(Insert(x, s), a) == (if x.amount == a then [x] else []) + WithAmount(s, a)
  {
    var r := Insert(x, s);
    if s == [] || x.amount >= s[0].amount {
      assert r[1..] == s;
    } else {
      var rest := Insert(x, s[1..]);
      InsertStable(x, s[1..]);
      assert r[1..] == rest && r[0] == s[0];
      forall a ensures WithAmount(r, a) == (if x.amount == a then [x] else []) + WithAmount(s, a) {
        calc {
          WithAmount(r, a);
          (if s[0].amount == a then [s[0]] else []) + WithAmount(rest, a);
          (if s[0].amount == a then [s[0]] else []) + (if x.amount == a then [x] else []) + WithAmount(s[1..], a);
          (if x.amount == a then [x] else []) + ((if s[0].amount == a then [s[0]] else []) + WithAmount(s[1..], a));
        }
      }
    }
  }

  /** `sorted(ts, key=amount, reverse=True)`: descending, a permutation of
      `ts`, and stable. */
  function SortByAmountDesc(ts: seq<Tier>): (r: seq<Tier>)
    ensures multiset(r) == multiset(ts)
    ensures Descending(r)
    ensures forall a :: WithAmount(r, a) == WithAmount(ts, a)
  {
    if ts == [] then []
    else
      var rest := SortByAmountDesc(ts[1..]);
      assert ts == [ts[0]] + ts[1..];
      InsertDescending(ts[0], rest);
      InsertStable(ts[0], rest);
      Insert(ts[0], rest)
  }

  /** Sorting a list that is already descending leaves it as it is; in
      particular sorting twice is sorting once. */
  lemma {:induction false} SortDescendingUnchanged(ts: seq<Tier>)
    requires Descending(ts)
    ensures SortByAmountDesc(ts) == ts
  {
    if ts != [] {
      var rest := ts[1..];
      assert Descending(rest) by {
        forall i, j | 0 <= i < j < |rest| ensures rest[i].amount >= rest[j].amount {
          assert rest[i] == ts[i + 1] && rest[j] == ts[j + 1];
        }
      }
      SortDescendingUnchanged(rest);
      assert rest != [] ==> rest[0] == ts[1];
      assert Insert(ts[0], rest) == [ts[0]] + rest;
    }
  }

  lemma SortIdempotent(ts: seq<Tier>)
    ensures SortByAmountDesc(SortByAmountDesc(ts)) == SortByAmountDesc(ts)
  {
    SortDescendingUnchanged(SortByAmountDesc(ts));
  }

  /** `[t['id'] for t in ts]`. */
  function Ids(ts: seq<Tier>): seq<string>
  {
    seq(|ts|, i requires 0 <= i < |ts| => ts[i].id)
  }

  /** `[t['id'] for t in sorted_tiers[:2]]`: the ids of the first two records,
      or of all of them when there are fewer. */
  function TopIds(sorted: seq<Tier>): (top: seq<string>)
    ensures |top| == if |sorted| < 2 then |sorted| else 2
    ensures forall i :: 0 <= i < |top| ==> top[i] == sorted[i].id
  {
    Ids(sorted[..if |sorted| < 2 then |sorted| else 2])
  }

  /** `top_tier_ids` of the dict: min(2, number of tiers) ids, distinct, each
      a key of the dict. */
  function TopTierIds(t: TierTable): (top: seq<string>)
    requires Valid(t)
    ensures |top| == if |t.order| < 2 then |t.order| else 2
    ensures Distinct(top)
    ensures forall k :: k in top ==> k in t.byId
  {
    TopIdsShape(t);
    TopIds(SortByAmountDesc(Values(t)))
  }

  lemma {:induction false} DistinctAtMostOnce<T>(s: seq<T>, x: T)
    requires Distinct(s)
    ensures multiset(s)[x] <= 1
  {
    if s != [] {
      assert s == [s[0]] + s[1..];
      DistinctAtMostOnce(s[1..], x);
      if x == s[0] {
        assert x !in s[1..];
      }
    }
  }

  /** A permutation of a sequence without repeats has no repeats. */
  lemma PermutationDistinct<T>(a: seq<T>, b: seq<T>)
    requires multiset(a) == multiset(b) && Distinct(a)
    ensures Distinct(b)
  {
    forall i, j | 0 <= i < j < |b| ensures b[i] != b[j] {
      if b[i] == b[j] {
        assert b == b[..j] + [b[j]] + b[j + 1..];
        assert b[i] in b[..j];
        assert multiset(b)[b[j]] >= 2;
        DistinctAtMostOnce(a, b[j]);
        assert false;
      }
    }
  }

  /** Facts about the sorted values used by the lemmas below. */
  lemma SortedValues(t: TierTable)
    requires Valid(t)
    ensures |SortByAmountDesc(Values(t))| == |t.order|
    ensures Distinct(SortByAmountDesc(Values(t)))
    ensures forall i :: 0 <= i < |SortByAmountDesc(Values(t))| ==>
              var x := SortByAmountDesc(Values(t))[i]; x.id in t.byId && t.byId[x.id] == x
    ensures forall k :: k in t.byId ==> t.byId[k] in SortByAmountDesc(Values(t))
  {
    var vs := Values(t);
    var s := SortByAmountDesc(vs);
    assert |s| == |t.order| && Distinct(s) by {
      ValuesDistinct(t);
      PermutationDistinct(vs, s);
      PermutationSameElements(vs, s);
    }
    forall i | 0 <= i < |s| ensures s[i].id in t.byId && t.byId[s[i].id] == s[i] {
      PermutationSameElements(vs, s);
      ValuesDistinct(t);
      assert s[i] in vs;
    }
    forall k | k in t.byId ensures t.byId[k] in s {
      PermutationSameElements(vs, s);
      ValuesDistinct(t);
      assert t.byId[k].id == k;
    }
  }

  /** A permutation has the same length and the same elements. */
  lemma PermutationSameElements<T>(a: seq<T>, b: seq<T>)
    requires multiset(a) == multiset(b)
    ensures |a| == |b|
    ensures forall x :: x in a <==> x in b
  {
    assert |a| == |multiset(a)|;
    forall x ensures x in a <==> x in b {
      assert x in a <==> x in multiset(a);
      assert x in b <==> x in multiset(b);
    }
  }

  /** The leading ids of records that are pairwise different and stored
      under their own ids are pairwise different keys. */
  lemma TopIdsDistinct(t: TierTable, s: seq<Tier>)
    requires Distinct(s)
    requires forall i :: 0 <= i < |s| ==> s[i].id in t.byId && t.byId[s[i].id] == s[i]
    ensures Distinct(TopIds(s))
    ensures forall k :: k in TopIds(s) ==> k in t.byId
  {
  }

  lemma TopIdsShape(t: TierTable)
    requires Valid(t)
    ensures |SortByAmountDesc(Values(t))| == |t.order|
    ensures Distinct(TopIds(SortByAmountDesc(Values(t))))
    ensures forall k :: k in TopIds(SortByAmountDesc(Values(t))) ==> k in t.byId
  {
    SortedValues(t);
    TopIdsDistinct(t, SortByAmountDesc(Values(t)));
  }

  /** Where the top ids sit in the sorted list. */
  lemma TopTierAt(t: TierTable, k: string) returns (p: nat)
    requires Valid(t) && k in TopTierIds(t)
    ensures p < 2 && p < |SortByAmountDesc(Values(t))|
    ensures SortByAmountDesc(Values(t))[p] == t.byId[k]
  {
    var s := SortByAmountDesc(Values(t));
    SortedValues(t);
    var top := TopTierIds(t);
    p :| 0 <= p < |top| && top[p] == k;
  }

  /** Where a tier outside the top ids sits in the sorted list: after the first two. */
  lemma OtherTierAt(t: TierTable, u: string) returns (q: nat)
    requires Valid(t) && u in t.byId && u !in TopTierIds(t)
    ensures 2 <= q < |SortByAmountDesc(Values(t))|
    ensures SortByAmountDesc(Values(t))[q] == t.byId[u]
  {
    var s := SortByAmountDesc(Values(t));
    SortedValues(t);
    q :| 0 <= q < |s| && s[q] == t.byId[u];
    assert q >= |TopTierIds(t)|;
  }

  /** Every top tier costs at least as much as every tier outside the top. */
  lemma TopTiersOutrank(t: TierTable, k: string, u: string)
    requires Valid(t) && k in TopTierIds(t) && u in t.byId && u !in TopTierIds(t)
    ensures t.byId[k].amount >= t.byId[u].amount
  {
    var p := TopTierAt(t, k);
    var q := OtherTierAt(t, u);
  }

  /** Two records of amount `a` in order in `s` are in the same order among the
      records of amount `a`. */
  lemma {:induction false} WithAmountKeepsOrder(s: seq<Tier>, a: int, i: nat, j: nat) returns (i': nat, j': nat)
    requires i < j < |s| && s[i].amount == a && s[j].amount == a
    ensures i' < j' < |WithAmount(s, a)|
    ensures WithAmount(s, a)[i'] == s[i] && WithAmount(s, a)[j'] == s[j]
  {
    var w := WithAmount(s, a);
    var rest := WithAmount(s[1..], a);
    if i == 0 {
      assert s[j] == s[1..][j - 1];
      WithAmountHas(s[1..], a, s[j]);
      var k :| 0 <= k < |rest| && rest[k] == s[j];
      i', j' := 0, k + 1;
    } else {
      var ri, rj := WithAmountKeepsOrder(s[1..], a, i - 1, j - 1);
      var shift := if s[0].amount == a then 1 else 0;
      i', j' := ri + shift, rj + shift;
    }
  }

  /** Two records in order among those of amount `a` come from positions in the
      same order in `s`. */
  lemma {:induction false} WithAmountOrigin(s: seq<Tier>, a: int, i': nat, j': nat) returns (i: nat, j: nat)
    requires i' < j' < |WithAmount(s, a)|
    ensures i < j < |s|
    ensures s[i] == WithAmount(s, a)[i'] && s[j] == WithAmount(s, a)[j']
  {
    var w := WithAmount(s, a);
    var rest := WithAmount(s[1..], a);
    if s[0].amount == a {
      if i' == 0 {
        assert w[j'] == rest[j' - 1] && rest[j' - 1] in rest;
        WithAmountHas(s[1..], a, rest[j' - 1]);
        var k :| 0 <= k < |s[1..]| && s[1..][k] == rest[j' - 1];
        i, j := 0, k + 1;
      } else {
        var ri, rj := WithAmountOrigin(s[1..], a, i' - 1, j' - 1);
        i, j := ri + 1, rj + 1;
      }
    } else {
      assert w == rest;
      var ri, rj := WithAmountOrigin(s[1..], a, i', j');
      i, j := ri + 1, rj + 1;
    }
  }

  /** On equal amounts the stable sort keeps the dict's insertion order: a top
      tier and an equally priced tier left out were inserted in that order. */
  lemma TopTiersTieOrder(t: TierTable, k: string, u: string)
    requires Valid(t) && k in TopTierIds(t) && u in t.byId && u !in TopTierIds(t)
    requires t.byId[k].amount == t.byId[u].amount
    ensures exists i, j :: 0 <= i < j < |t.order| && t.order[i] == k && t.order[j] == u
  {
    var vs := Values(t);
    var s := SortByAmountDesc(vs);
    var a := t.byId[k].amount;
    var p := TopTierAt(t, k);
    var q := OtherTierAt(t, u);
    var p', q' := WithAmountKeepsOrder(s, a, p, q);
    var i, j := WithAmountOrigin(vs, a, p', q');
    assert t.order[i] == vs[i].id == k;
    assert t.order[j] == vs[j].id == u;
  }
}
