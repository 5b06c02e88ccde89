/** The pipeline of `main` after the campaign lookup: collect the pages, rank
    the tiers and select the subscribers of the top tiers. */
module Sync {
  import opened PatronRecords
  import opened TierTables
  import opened Collector
  import opened Ranking
  import opened Selection

  /** `main` from the collector call to the end of the member loop. The list
      keeps the order of the collected members; it is not re-sorted. */
  method FetchTopSubscribers(pages: seq<Page>) returns (finalList: seq<Subscriber>)
    requires Terminates(pages)
    ensures var tiers := MergeTiers(Empty(), PageItems(Served(pages)));
            finalList == Subscribers(ActiveOf(PageMembers(Served(pages))), TopTierIds(tiers), tiers)
    ensures |finalList| <= |ActiveOf(PageMembers(Served(pages)))|
    ensures var tiers := MergeTiers(Empty(), PageItems(Served(pages)));
            forall e :: e in finalList ==> exists k :: k in tiers.byId && e.tier == tiers.byId[k].title
  {
    var members, tiersDict := CollectMembersAndTiers(pages);
    finalList := SelectTopSubscribers(members, tiersDict);
    EntriesShowKnownTiers(members, tiersDict);
  }

  /** Three tiers listed in the order gold, silver, bronze, where silver and
      bronze cost the same: gold and silver are the top tiers, silver winning
      the tie by its earlier position. */
  lemma TieScenarioTop(vs: seq<Tier>)
    requires |vs| == 3 && vs[0].amount > vs[1].amount == vs[2].amount
    requires vs[2].id != vs[0].id && vs[2].id != vs[1].id
    ensures var top := TopIds(SortByAmountDesc(vs));
            |top| == 2 && top[0] == vs[0].id && top[1] == vs[1].id && vs[2].id !in top
  {
    assert Descending(vs);
    SortDescendingUnchanged(vs);
  }

  /** A member entitled to [bronze, silver], where silver is a top tier and
      bronze costs the same, qualifies through silver and is shown bronze: the
      first of the equally priced tiers the member holds, whether or not it is
      a top tier. */
  lemma TieScenarioDisplay(t: TierTable, silver: Tier, bronze: Tier, m: Member)
    requires Valid(t) && silver.id in TopTierIds(t) && silver.amount == bronze.amount
    requires silver.id in t.byId && t.byId[silver.id] == silver
    requires bronze.id in t.byId && t.byId[bronze.id] == bronze
    requires m.entitled == Some([bronze.id, silver.id])
    ensures Qualifies(m, TopTierIds(t)) && DisplayTier(m, t) == bronze.title
  {
    var ids := EntitledTierIds(m);
    assert ids[1] in TopTierIds(t);
    assert OwnedTiers(ids[1..], t) == [silver] by {
      assert ids[1..] == [silver.id] && ids[1..][1..] == [];
    }
    assert OwnedTiers(ids, t) == [bronze, silver];
    FirstOfEqualMax(bronze, silver);
  }
}
