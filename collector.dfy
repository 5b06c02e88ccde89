/** The paginated collector: requests pages of the campaign-members listing,
    following each page's next link, keeps the active members and merges the
    side-loaded tier definitions into a dict keyed by tier id.
    The HTTP requests are replaced by `pages`, the server's responses in the
    order they would be fetched. */
module Collector {
  import opened PatronRecords
  import opened TierTables

  /** The chain of next links ends: some page has no next link. */
  predicate Terminates(pages: seq<Page>)
  {
    exists i :: 0 <= i < |pages| && !HasNext(pages[i])
  }

  /** How many pages the loop fetches: up to and including the first page
      without a next link. At least one page is always fetched. */
  function ServedCount(pages: seq<Page>): (n: nat)
    requires Terminates(pages)
    ensures 1 <= n <= |pages|
    ensures !HasNext(pages[n - 1])
    ensures forall k :: 0 <= k < n - 1 ==> HasNext(pages[k])
  {
    if !HasNext(pages[0]) then 1
    else
      var i :| 0 <= i < |pages| && !HasNext(pages[i]);
      assert 0 <= i - 1 < |pages[1..]| && pages[1..][i - 1] == pages[i];
      1 + ServedCount(pages[1..])
  }

  /** The pages the loop fetches. */
  function Served(pages: seq<Page>): seq<Page>
    requires Terminates(pages)
  {
    pages[..ServedCount(pages)]
  }

  /** Pages after the first page without a next link are never read: the
      fetched pages are the same whatever follows them. */
  lemma ServedIgnoresLaterPages(pages: seq<Page>, rest: seq<Page>)
    requires Terminates(pages)
    ensures Terminates(Served(pages) + rest)
    ensures Served(Served(pages) + rest) == Served(pages)
  {
    var n := ServedCount(pages);
    var s := Served(pages) + rest;
    assert s[n - 1] == pages[n - 1];
    assert forall k :: 0 <= k < n ==> s[k] == pages[k];
    assert ServedCount(s) == n;
    assert s[..n] == pages[..n];
  }

  /** Every member record of the pages, page by page. */
  function PageMembers(pages: seq<Page>): seq<Member>
  {
    if pages == [] then [] else PageMembers(pages[..|pages| - 1]) + pages[|pages| - 1].data
  }

  /** The records of `ms` with patron_status "active_patron", in their order. */
  function ActiveOf(ms: seq<Member>): (r: seq<Member>)
    ensures |r| <= |ms|
    ensures forall i :: 0 <= i < |r| ==> IsActive(r[i]) && r[i] in ms
  {
    if ms == [] then []
    else
      var init := ActiveOf(ms[..|ms| - 1]);
      var m := ms[|ms| - 1];
      assert forall x :: x in ms[..|ms| - 1] ==> x in ms;
      if IsActive(m) then init + [m] else init
  }

  /** No active record is dropped. */
  lemma {:induction false} ActiveOfComplete(ms: seq<Member>, m: Member)
    requires m in ms && IsActive(m)
    ensures m in ActiveOf(ms)
  {
    var init := ms[..|ms| - 1];
    if m != ms[|ms| - 1] {
      assert m in init by { assert ms == init + [ms[|ms| - 1]]; }
      ActiveOfComplete(init, m);
    }
  }

  /** Filtering distributes over concatenation: the kept members of a later
      batch come after those of an earlier one. */
  lemma {:induction false} ActiveOfAppend(a: seq<Member>, b: seq<Member>)
    ensures ActiveOf(a + b) == ActiveOf(a) + ActiveOf(b)
    decreases |b|
  {
    if b == [] {
      assert a + b == a;
    } else {
      var b' := b[..|b| - 1];
      assert (a + b)[..|a + b| - 1] == a + b';
      ActiveOfAppend(a, b');
    }
  }

  /** The `included` items of every page, page by page; a page without the
      key contributes nothing. */
  function PageItems(pages: seq<Page>): seq<Item>
  {
    if pages == [] then []
    else
      var last := pages[|pages| - 1];
      PageItems(pages[..|pages| - 1]) + (match last.included case None => [] case Some(items) => items)
  }

  /** The ids of the tier items of `items`, in order. */
  function TierIds(items: seq<Item>): seq<string>
  {
    if items == [] then []
    else
      var it := items[|items| - 1];
      TierIds(items[..|items| - 1]) + (if IsTierItem(it) then [it.id] else [])
  }

  /** The tier dict after `tiers[item.id] = {...}` for every tier item of
      `items` in turn, starting from `t`. */
  function MergeTiers(t: TierTable, items: seq<Item>): (r: TierTable)
    requires Valid(t)
    ensures Valid(r)
    ensures t.order <= r.order
  {
    if items == [] then t
    else
      var before := MergeTiers(t, items[..|items| - 1]);
      var it := items[|items| - 1];
      if IsTierItem(it) then Put(before, TierOf(it)) else before
  }

  /** The dict holds one entry per id seen, and ids only from tier items:
      items of any other kind add nothing. */
  lemma {:induction false} MergeTiersKeys(t: TierTable, items: seq<Item>)
    requires Valid(t)
    ensures forall k :: k in MergeTiers(t, items).byId <==> k in t.byId || k in TierIds(items)
  {
    if items != [] {
      var init := items[..|items| - 1];
      MergeTiersKeys(t, init);
    }
  }

  /** The record under an id is built from the LAST tier item with that id. */
  lemma {:induction false} MergeTiersLastWins(t: TierTable, items: seq<Item>, k: string) returns (j: nat)
    requires Valid(t) && k in TierIds(items)
    ensures j < |items| && IsTierItem(items[j]) && items[j].id == k
    ensures forall j' :: j < j' < |items| ==> !(IsTierItem(items[j']) && items[j'].id == k)
    ensures k in MergeTiers(t, items).byId && MergeTiers(t, items).byId[k] == TierOf(items[j])
  {
    var n := |items| - 1;
    var init := items[..n];
    var it := items[n];
    assert TierIds(items) == TierIds(init) + if IsTierItem(it) then [it.id] else [];
    if IsTierItem(it) && it.id == k {
      j := n;
    } else {
      assert k in TierIds(init);
      j := MergeTiersLastWins(t, init, k);
      assert items[j] == init[j];
      forall j' | j < j' < |items|
        ensures !(IsTierItem(items[j']) && items[j'].id == k)
      {
        if j' < n { assert items[j'] == init[j']; }
      }
    }
  }

  /** An id that no tier item carries keeps its earlier record. */
  lemma {:induction false} MergeTiersUntouched(t: TierTable, items: seq<Item>, k: string)
    requires Valid(t) && k in t.byId && k !in TierIds(items)
    ensures k in MergeTiers(t, items).byId && MergeTiers(t, items).byId[k] == t.byId[k]
  {
    if items != [] {
      var n := |items| - 1;
      var init := items[..n];
      var it := items[n];
      assert TierIds(items) == TierIds(init) + if IsTierItem(it) then [it.id] else [];
      MergeTiersUntouched(t, init, k);
    }
  }

  /** Starting from `{}`, the key order is the order in which tier ids first
      occur: a later definition of an id does not move it. */
  lemma {:induction false} MergeTiersOrder(items: seq<Item>)
    ensures MergeTiers(Empty(), items).order == Dedup(TierIds(items))
  {
    if items != [] {
      var init := items[..|items| - 1];
      var it := items[|items| - 1];
      var before := MergeTiers(Empty(), init);
      MergeTiersOrder(init);
      var initIds := TierIds(init);
      if IsTierItem(it) {
        var ids := TierIds(items);
        assert ids == initIds + [it.id];
        assert ids[..|ids| - 1] == initIds && ids[|ids| - 1] == it.id;
        assert Dedup(ids) == if it.id in Dedup(initIds) then Dedup(initIds) else Dedup(initIds) + [it.id];
        assert MergeTiers(Empty(), items) == Put(before, TierOf(it));
        assert it.id in before.byId <==> it.id in before.order;
      } else {
        assert TierIds(items) == initIds + [] == initIds;
        assert MergeTiers(Empty(), items) == before;
      }
    }
  }

  /** Taking one more element of a sequence appends that element. */
  lemma TakeSnoc<T>(s: seq<T>, j: nat)
    requires j < |s|
    ensures s[..j + 1] == s[..j] + [s[j]]
  {
  }

  lemma ActiveOfSnoc(ms: seq<Member>, m: Member)
    ensures ActiveOf(ms + [m]) == ActiveOf(ms) + if IsActive(m) then [m] else []
  {
  }

  lemma MergeTiersSnoc(t: TierTable, items: seq<Item>, it: Item)
    requires Valid(t)
    ensures MergeTiers(t, items + [it]) ==
              if IsTierItem(it) then Put(MergeTiers(t, items), TierOf(it)) else MergeTiers(t, items)
  {
  }

  /** One more page adds its active members after the earlier ones and merges
      its tier items, if any, into the dict built so far. */
  lemma PageStep(pages: seq<Page>, i: nat)
    requires i < |pages|
    ensures ActiveOf(PageMembers(pages[..i + 1])) == ActiveOf(PageMembers(pages[..i])) + ActiveOf(pages[i].data)
    ensures MergeTiers(Empty(), PageItems(pages[..i + 1])) ==
              match pages[i].included
              case None => MergeTiers(Empty(), PageItems(pages[..i]))
              case Some(items) => MergeTiers(MergeTiers(Empty(), PageItems(pages[..i])), items)
  {
    assert pages[..i + 1][..i] == pages[..i];
    ActiveOfAppend(PageMembers(pages[..i]), pages[i].data);
    if pages[i].included.Some? {
      MergeTiersAppend(Empty(), PageItems(pages[..i]), pages[i].included.value);
    } else {
      assert PageItems(pages[..i]) + [] == PageItems(pages[..i]);
    }
  }

  /** Merging two batches of items one after the other is merging them in one go. */
  lemma {:induction false} MergeTiersAppend(t: TierTable, a: seq<Item>, b: seq<Item>)
    requires Valid(t)
    ensures MergeTiers(t, a + b) == MergeTiers(MergeTiers(t, a), b)
    decreases |b|
  {
    if b == [] {
      assert a + b == a;
    } else {
      var b' := b[..|b| - 1];
      assert (a + b)[..|a + b| - 1] == a + b';
      MergeTiersAppend(t, a, b');
    }
  }

  /** Step 1 for one page: append each member whose patron_status is
      "active_patron", in page order. */
  method StoreMembers(members: seq<Member>, data: seq<Member>) returns (r: seq<Member>)
    ensures r == members + ActiveOf(data)
  {
    r := members;
    assert data[..0] == [];
    for j := 0 to |data|
      invariant r == members + ActiveOf(data[..j])
    {
      TakeSnoc(data, j);
      ActiveOfSnoc(data[..j], data[j]);
      if IsActive(data[j]) {
        r := r + [data[j]];
      }
    }
    assert data[..|data|] == data;
  }

  /** Step 2 for one page: `tiers[item.id] = {...}` for each tier item of the
      page's `included` list, in order. */
  method StoreTiers(tiers: TierTable, items: seq<Item>) returns (r: TierTable)
    requires Valid(tiers)
    ensures Valid(r) && r == MergeTiers(tiers, items)
  {
    r := tiers;
    assert items[..0] == [];
    for j := 0 to |items|
      invariant r == MergeTiers(tiers, items[..j])
    {
      TakeSnoc(items, j);
      MergeTiersSnoc(tiers, items[..j], items[j]);
      if IsTierItem(items[j]) {
        r := Put(r, TierOf(items[j]));
      }
    }
    assert items[..|items|] == items;
  }

  /** The loop of the collector: fetch pages until one has no next link, keep
      each active member in page order and merge each page's tier items. */
  method CollectMembersAndTiers(pages: seq<Page>) returns (members: seq<Member>, tiers: TierTable)
    requires Terminates(pages)
    ensures members == ActiveOf(PageMembers(Served(pages)))
    ensures Valid(tiers) && tiers == MergeTiers(Empty(), PageItems(Served(pages)))
  {
    members := [];
    tiers := Empty();
    ghost var n := ServedCount(pages);
    var i := 0;
    var more := true;
    while more
      invariant 0 <= i <= n
      invariant more <==> i < n
      invariant members == ActiveOf(PageMembers(pages[..i]))
      invariant tiers == MergeTiers(Empty(), PageItems(pages[..i]))
      decreases n - i
    {
      var page := pages[i];
      PageStep(pages, i);
      members := StoreMembers(members, page.data);
      if page.included.Some? {
        tiers := StoreTiers(tiers, page.included.value);
      }
      more := HasNext(page);
      i := i + 1;
    }
  }

  /** The collected members are exactly the active records of the fetched
      pages, and they come page by page, each page's in its own order. */
  lemma CollectedMembers(pages: seq<Page>, m: Member)
    requires |pages| > 0
    ensures m in ActiveOf(PageMembers(pages)) <==> IsActive(m) && exists p :: p in pages && m in p.data
    ensures ActiveOf(PageMembers(pages)) ==
      ActiveOf(PageMembers(pages[..|pages| - 1])) + ActiveOf(pages[|pages| - 1].data)
  {
    ActiveOfAppend(PageMembers(pages[..|pages| - 1]), pages[|pages| - 1].data);
    PageMembersHolds(pages, m);
    if IsActive(m) && m in PageMembers(pages) {
      ActiveOfComplete(PageMembers(pages), m);
    }
  }

  lemma {:induction false} PageMembersHolds(pages: seq<Page>, m: Member)
    ensures m in PageMembers(pages) <==> exists p :: p in pages && m in p.data
  {
    if pages != [] {
      var init := pages[..|pages| - 1];
      var last := pages[|pages| - 1];
      PageMembersHolds(init, m);
      assert forall p :: p in pages <==> p in init || p == last;
    }
  }
}
