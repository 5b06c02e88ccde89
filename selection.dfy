/** The member loop of `main`: keep each active member entitled to a top tier
    and show the title of the most expensive tier that member is entitled to. */
module Selection {
  import opened PatronRecords
  import opened TierTables
  import opened Ranking

  /** `any(tid in top for tid in ids)`. */
  function AnyIn(ids: seq<string>, top: seq<string>): (b: bool)
    ensures b <==> exists i :: 0 <= i < |ids| && ids[i] in top
  {
    if ids == [] then false
    else
      assert forall i :: 1 <= i < |ids| ==> ids[i] == ids[1..][i - 1];
      ids[0] in top || AnyIn(ids[1..], top)
  }

  /** The member is entitled to at least one of the top tiers. */
  predicate Qualifies(m: Member, top: seq<string>)
  {
    AnyIn(EntitledTierIds(m), top)
  }

  /** `[tiers_dict[tid] for tid in ids if tid in tiers_dict]`: the records of
      the entitled ids the dict knows, in entitlement order. */
  function OwnedTiers(ids: seq<string>, t: TierTable): (r: seq<Tier>)
    ensures |r| <= |ids|
    ensures forall x :: x in r <==> exists i :: 0 <= i < |ids| && ids[i] in t.byId && x == t.byId[ids[i]]
  {
    if ids == [] then []
    else
      var rest := OwnedTiers(ids[1..], t);
      assert forall i :: 1 <= i < |ids| ==> ids[i] == ids[1..][i - 1];
      assert forall i :: 0 <= i < |ids[1..]| ==> ids[1..][i] == ids[i + 1];
      (if ids[0] in t.byId then [t.byId[ids[0]]] else []) + rest
  }

  /** One entitled id contributes its record when the dict knows it, and
      nothing otherwise. */
  lemma OwnedTiersSingle(k: string, t: TierTable)
    ensures OwnedTiers([k], t) == if k in t.byId then [t.byId[k]] else []
  {
    assert [k][1..] == [];
  }

  /** The candidates keep entitlement order: those of a later run of ids
      follow those of an earlier one. With `OwnedTiersSingle` this gives one
      record per known id, in the order of the ids. */
  lemma {:induction false} OwnedTiersAppend(a: seq<string>, b: seq<string>, t: TierTable)
    ensures OwnedTiers(a + b, t) == OwnedTiers(a, t) + OwnedTiers(b, t)
  {
    if a == [] {
      assert a + b == b;
    } else {
      assert (a + b)[0] == a[0] && (a + b)[1..] == a[1..] + b;
      OwnedTiersAppend(a[1..], b, t);
    }
  }

  /** `max(ts, key=amount, default=None)`: a record of greatest amount, the
      first one on ties (a later record replaces the best so far only when its
      amount is strictly greater). */
  function HighestOwned(ts: seq<Tier>): (r: Option<Tier>)
    ensures r.None? <==> ts == []
    ensures r.Some? ==>
              exists i :: 0 <= i < |ts| && ts[i] == r.value
                && (forall j :: 0 <= j < |ts| ==> ts[j].amount <= r.value.amount)
                && (forall j :: 0 <= j < i ==> ts[j].amount < r.value.amount)
  {
    if ts == [] then None
    else
      var last := ts[|ts| - 1];
      var init := ts[..|ts| - 1];
      match HighestOwned(init)
      case None => Some(last)
      case Some(best) =>
        assert forall j :: 0 <= j < |init| ==> init[j] == ts[j];
        if last.amount > best.amount then Some(last) else Some(best)
  }

  /** Of two records of equal amount, `max` keeps the first. */
  lemma FirstOfEqualMax(a: Tier, b: Tier)
    requires a.amount == b.amount
    ensures HighestOwned([a, b]) == Some(a)
  {
  }

  /** `tier_name`: the title of the best entitled tier, "Unknown" when the dict
      knows none of the member's tiers. */
  function DisplayTier(m: Member, t: TierTable): string
  {
    match HighestOwned(OwnedTiers(EntitledTierIds(m), t))
    case Some(best) => best.title
    case None => UnknownTier
  }

  /** The `{name, tier}` entry for a member. */
  function EntryFor(m: Member, t: TierTable): Subscriber
  {
    Subscriber(m.fullName, DisplayTier(m, t))
  }

  /** `final_list` after the loop over `members`: one entry per qualifying
      member, in member order. */
  function Subscribers(members: seq<Member>, top: seq<string>, t: TierTable): (r: seq<Subscriber>)
    ensures |r| <= |members|
  {
    if members == [] then []
    else
      var m := members[|members| - 1];
      Subscribers(members[..|members| - 1], top, t) + (if Qualifies(m, top) then [EntryFor(m, t)] else [])
  }

  /** A member appears in the output exactly when some entitled id is a top id;
      a member without relation data never does. */
  lemma QualifiesIff(m: Member, top: seq<string>)
    ensures Qualifies(m, top) <==>
              m.entitled.Some? && exists i :: 0 <= i < |m.entitled.value| && m.entitled.value[i] in top
  {
  }

  /** Every entry comes from a qualifying member. */
  lemma {:induction false} SubscribersSound(members: seq<Member>, top: seq<string>, t: TierTable, e: Subscriber)
    requires e in Subscribers(members, top, t)
    ensures exists m :: m in members && Qualifies(m, top) && e == EntryFor(m, t)
  {
    var init := members[..|members| - 1];
    var m := members[|members| - 1];
    assert members == init + [m];
    if e in Subscribers(init, top, t) {
      SubscribersSound(init, top, t, e);
      var x :| x in init && Qualifies(x, top) && e == EntryFor(x, t);
      assert x in members;
    } else {
      assert m in members;
    }
  }

  /** Every qualifying member gets an entry. */
  lemma {:induction false} SubscribersComplete(members: seq<Member>, top: seq<string>, t: TierTable, m: Member)
    requires m in members && Qualifies(m, top)
    ensures EntryFor(m, t) in Subscribers(members, top, t)
  {
    var init := members[..|members| - 1];
    var last := members[|members| - 1];
    assert members == init + [last];
    if m != last {
      assert m in init;
      SubscribersComplete(init, top, t, m);
    }
  }

  /** Output order follows member order: the entries of a later batch of members
      come after those of an earlier one. */
  lemma {:induction false} SubscribersAppend(a: seq<Member>, b: seq<Member>, top: seq<string>, t: TierTable)
    ensures Subscribers(a + b, top, t) == Subscribers(a, top, t) + Subscribers(b, top, t)
    decreases |b|
  {
    if b == [] {
      assert a + b == a;
    } else {
      var b' := b[..|b| - 1];
      assert (a + b)[..|a + b| - 1] == a + b';
      SubscribersAppend(a, b', top, t);
    }
  }

  /** The "Unknown" fallback is never taken: a qualifying member holds a top id,
      every top id is a key of the dict, so the member owns a known tier. */
  lemma UnknownUnreachable(m: Member, t: TierTable)
    requires Valid(t) && Qualifies(m, TopTierIds(t))
    ensures HighestOwned(OwnedTiers(EntitledTierIds(m), t)).Some?
  {
    var ids := EntitledTierIds(m);
    var i :| 0 <= i < |ids| && ids[i] in TopTierIds(t);
    assert t.byId[ids[i]] in OwnedTiers(ids, t);
  }

  /** The displayed tier is an owned tier of greatest amount, the first such
      in entitlement order, and not necessarily one of the top tiers. */
  lemma DisplayedTierIsBestOwned(m: Member, t: TierTable)
    requires Valid(t) && Qualifies(m, TopTierIds(t))
    ensures var owned := OwnedTiers(EntitledTierIds(m), t);
            exists i :: 0 <= i < |owned| && DisplayTier(m, t) == owned[i].title
              && (forall j :: 0 <= j < |owned| ==> owned[j].amount <= owned[i].amount)
              && (forall j :: 0 <= j < i ==> owned[j].amount < owned[i].amount)
  {
    UnknownUnreachable(m, t);
  }

  /** The displayed tier costs at least as much as every top tier the member
      holds; when it is not itself a top tier, it costs exactly as much as one
      of them (a tie broken by entitlement order). */
  lemma DisplayedTierMatchesTop(m: Member, t: TierTable)
    requires Valid(t) && Qualifies(m, TopTierIds(t))
    ensures HighestOwned(OwnedTiers(EntitledTierIds(m), t)).Some?
    ensures var best := HighestOwned(OwnedTiers(EntitledTierIds(m), t)).value;
            && best.id in t.byId && t.byId[best.id] == best
            && (forall k :: k in EntitledTierIds(m) && k in TopTierIds(t) ==> t.byId[k].amount <= best.amount)
            && (best.id !in TopTierIds(t) ==>
                  exists k :: k in EntitledTierIds(m) && k in TopTierIds(t) && t.byId[k].amount == best.amount)
  {
    var ids := EntitledTierIds(m);
    var owned := OwnedTiers(ids, t);
    var top := TopTierIds(t);
    UnknownUnreachable(m, t);
    var best := HighestOwned(owned).value;
    assert best in owned;
    forall k | k in ids && k in top ensures t.byId[k].amount <= best.amount {
      assert t.byId[k] in owned;
    }
    if best.id !in top {
      var i :| 0 <= i < |ids| && ids[i] in top;
      assert t.byId[ids[i]] in owned;
      TopTiersOutrank(t, ids[i], best.id);
    }
  }

  /** Every shown tier name is the title of a tier of the dict: "Unknown" is
      never shown in place of a tier. */
  lemma EntriesShowKnownTiers(members: seq<Member>, t: TierTable)
    requires Valid(t)
    ensures forall e :: e in Subscribers(members, TopTierIds(t), t) ==>
              exists k :: k in t.byId && e.tier == t.byId[k].title
  {
    forall e | e in Subscribers(members, TopTierIds(t), t)
      ensures exists k :: k in t.byId && e.tier == t.byId[k].title
    {
      SubscribersSound(members, TopTierIds(t), t, e);
      var m :| m in members && Qualifies(m, TopTierIds(t)) && e == EntryFor(m, t);
      DisplayedTierMatchesTop(m, t);
      var best := HighestOwned(OwnedTiers(EntitledTierIds(m), t)).value;
      assert e.tier == t.byId[best.id].title;
    }
  }

  /** The member loop of `main`: for each member in order, test the entitled ids
      against the top ids and append `{name, tier}` for those that qualify. */
  method SelectTopSubscribers(members: seq<Member>, t: TierTable) returns (finalList: seq<Subscriber>)
    requires Valid(t)
    ensures finalList == Subscribers(members, TopTierIds(t), t)
  {
    var top := TopTierIds(t);
    finalList := [];
    for i := 0 to |members|
      invariant finalList == Subscribers(members[..i], top, t)
    {
      var member := members[i];
      assert members[..i + 1][..i] == members[..i];
      var memberTierIds := EntitledTierIds(member);
      if AnyIn(memberTierIds, top) {
        var highest := HighestOwned(OwnedTiers(memberTierIds, t));
        var tierName := if highest.Some? then highest.value.title else UnknownTier;
        finalList := finalList + [Subscriber(member.fullName, tierName)];
      }
    }
    assert members[..|members|] == members;
  }
}
