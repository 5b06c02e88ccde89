/** The `tiers` dictionary of the collector: tier records keyed by tier id.
    A Python dict remembers insertion order, and `tiers_dict.values()` yields the
    records in that order, so the table keeps the key order beside the map. */
module TierTables {
  import opened PatronRecords

  datatype TierTable = TierTable(order: seq<string>, byId: map<string, Tier>)

  /** The keys in `order` are distinct and are exactly the map's keys, and every
      record is stored under its own id. */
  ghost predicate Valid(t: TierTable)
  {
    && Distinct(t.order)
    && (forall k :: k in t.order <==> k in t.byId)
    && (forall k :: k in t.byId ==> t.byId[k].id == k)
  }

  /** The empty dict `{}`. */
  function Empty(): (t: TierTable)
    ensures Valid(t) && t.order == [] && t.byId == map[]
  {
    TierTable([], map[])
  }

  /** `tiers[tier.id] = tier`: a new id is appended to the key order, a known id
      keeps its position and only its record is replaced. */
  function Put(t: TierTable, tier: Tier): (r: TierTable)
    requires Valid(t)
    ensures Valid(r)
    ensures r.byId == t.byId[tier.id := tier]
    ensures t.order <= r.order
    ensures tier.id in t.byId ==> |r.order| == |t.order|
  {
    if tier.id in t.byId then TierTable(t.order, t.byId[tier.id := tier])
    else TierTable(t.order + [tier.id], t.byId[tier.id := tier])
  }

  /** `tiers_dict.values()`: the records in key insertion order. */
  function Values(t: TierTable): (vs: seq<Tier>)
    requires Valid(t)
    ensures |vs| == |t.order|
    ensures forall i :: 0 <= i < |vs| ==> vs[i] == t.byId[t.order[i]] && vs[i].id == t.order[i]
  {
    seq(|t.order|, i requires 0 <= i < |t.order| => t.byId[t.order[i]])
  }

  /** The records are pairwise different (their ids are), and a record is listed
      exactly when it is stored in the table. */
  lemma ValuesDistinct(t: TierTable)
    requires Valid(t)
    ensures Distinct(Values(t))
    ensures forall x: Tier :: x in Values(t) <==> x.id in t.byId && t.byId[x.id] == x
  {
  }

  /** First occurrences of `s`, in the order they first occur: a later repeat of
      an element is skipped. This is the key order of a dict filled from `s`. */
  function Dedup(s: seq<string>): (r: seq<string>)
    ensures Distinct(r)
    ensures forall x :: x in r <==> x in s
  {
    if s == [] then []
    else
      var d := Dedup(s[..|s| - 1]);
      var x := s[|s| - 1];
      assert forall y :: y in s <==> y in s[..|s| - 1] || y == x;
      if x in d then d else d + [x]
  }

  /** A later occurrence never moves an element: deduplicating a prefix gives a
      prefix of the deduplicated whole. */
  lemma {:induction false} DedupPrefix(s: seq<string>, n: nat)
    requires n <= |s|
    ensures Dedup(s[..n]) <= Dedup(s)
    decreases |s|
  {
    if n < |s| {
      var init := s[..|s| - 1];
      assert s[..n] == init[..n];
      DedupPrefix(init, n);
    } else {
      assert s[..n] == s;
    }
  }
}
