# Patron sync: collector and top-tier selection

A model of the data-processing core of `fetch_patrons.py`, the daily job that
reads a creator's campaign members from the Patreon API and writes the patrons
of the two most expensive tiers to `subscribers.json`. Two parts are modelled:

- **The paginated collector** (`get_all_members_and_tiers`). It follows the
  `links.next` chain of the members listing. It keeps the members whose
  `patron_status` is `"active_patron"`, in page order. It merges every
  side-loaded `tier` item into a dict keyed by tier id. The HTTP requests are
  replaced by a sequence of already-decoded pages: the server's answers in
  the order they would be fetched.
- **The selection in `main`**. It sorts the tier records by amount,
  descending. It takes the ids of the first two records. It keeps each active
  member entitled to one of those ids. Each kept member is shown with the
  title of the most expensive tier they hold.

The JSON dictionaries become typed records (`records.dfy`). The tier dict
becomes a table that keeps the key insertion order beside the map
(`tier_table.dfy`), because a Python dict's `values()` follows insertion
order. `collector.dfy` holds the page loop. `ranking.dfy` holds the stable
sort and the top ids. `selection.dfy` holds the member loop. `sync.dfy`
composes the pipeline and works through a tie example.

Python facts the model relies on:

- **`while url`** stops on a missing or null next link, and also on an empty
  string. `HasNext` therefore demands a present, non-empty link.
- **`sorted(..., reverse=True)`** is stable: records of equal amount keep
  their dict order. It is modelled as a stable insertion sort.
- **`max(..., key=...)`** returns the first of several maximal elements, so
  `HighestOwned` replaces its candidate only on a strictly greater amount.

Three points where the code differs from what one might expect, and which
the model follows:

- The output list is not sorted by tier amount. It keeps the order of the
  collected members.
- A qualifying member whose tiers the dict does not know would be shown as
  `"Unknown"`, not dropped. That branch is in fact unreachable
  (`UnknownUnreachable`).
- The entitled ids are a list, not a set. Their order decides which of
  several equally priced tiers is shown.

## Model

| member | source | states |
|---|---|---|
| Collector.ServedCount | fetch_patrons.py:45-66 | the loop fetches pages up to and including the first page without a (non-empty) next link, at least one page, and every earlier page had a next link |
| Collector.ServedIgnoresLaterPages | fetch_patrons.py:45-66 | pages after the first page without a next link are never read: the fetched pages are the same whatever follows |
| Collector.ActiveOf | fetch_patrons.py:51-53 | the kept members are at most as many as the records, and each is active and comes from the records |
| Collector.ActiveOfComplete | fetch_patrons.py:51-53 | no active member record is dropped |
| Collector.ActiveOfAppend | fetch_patrons.py:51-53 | the kept members of a later batch come after those of an earlier batch, in their own order |
| Collector.MergeTiers | fetch_patrons.py:56-63 | merging tier items keeps the dict well formed and never moves or removes an existing key |
| Collector.MergeTiersKeys | fetch_patrons.py:56-63 | the dict has a key exactly for each earlier key and each id of a `tier` item; other item kinds add nothing |
| Collector.MergeTiersLastWins | fetch_patrons.py:56-63 | the record under an id is built from the last `tier` item carrying that id |
| Collector.MergeTiersUntouched | fetch_patrons.py:56-63 | an id that no tier item carries keeps its earlier record |
| Collector.MergeTiersOrder | fetch_patrons.py:56-63 | starting from `{}`, the key order is the order in which tier ids first occur; a redefinition does not move a key |
| Collector.MergeTiersAppend | fetch_patrons.py:56-63 | merging two batches one after the other equals merging them in one go, which is how pages accumulate |
| Collector.PageStep | fetch_patrons.py:45-63 | one more page appends its active members and merges its tier items, if it has an `included` list, into the dict so far |
| Collector.StoreMembers | fetch_patrons.py:51-53 | the member loop of one page appends exactly that page's active members, in order |
| Collector.StoreTiers | fetch_patrons.py:56-63 | the item loop of one page leaves the dict merged with that page's tier items |
| Collector.CollectMembersAndTiers | fetch_patrons.py:45-70 | the collector returns the active members of the fetched pages, page by page, and the dict merged from their tier items, starting from `{}` |
| Collector.CollectedMembers | fetch_patrons.py:45-53 | a member is collected exactly when it is active and appears on a fetched page, and a later page's members follow the earlier pages' members |
| TierTables.Empty | fetch_patrons.py:34 | the empty dict is well formed and has no keys |
| TierTables.Put | fetch_patrons.py:59-63 | `tiers[id] = record` maps the id to the record; a new id goes last in key order and a known id keeps its place |
| TierTables.Values | fetch_patrons.py:84 | `values()` lists one record per key, in key order, each stored under its own id |
| TierTables.ValuesDistinct | fetch_patrons.py:84 | the listed records are pairwise different, and a record is listed exactly when the dict stores it |
| TierTables.Dedup | fetch_patrons.py:59 | the first occurrences of the ids have no repeats and the same members as the ids |
| TierTables.DedupPrefix | fetch_patrons.py:59 | later items never move an earlier key: the key order of a prefix is a prefix of the key order |
| Ranking.Insert | fetch_patrons.py:84 | inserting a record adds exactly that record |
| Ranking.InsertDescending | fetch_patrons.py:84 | inserting into a descending list keeps it descending |
| Ranking.InsertStable | fetch_patrons.py:84 | the inserted record goes before the records of equal amount, and the order among the others is unchanged |
| Ranking.SortByAmountDesc | fetch_patrons.py:84 | the sort result is a permutation of the input, descending by amount, and stable: for each amount the records of that amount keep their input order |
| Ranking.SortDescendingUnchanged | fetch_patrons.py:84 | a list that is already descending is left as it is |
| Ranking.SortIdempotent | fetch_patrons.py:84 | sorting a sorted list changes nothing |
| Ranking.TopIds | fetch_patrons.py:87 | the ids of the first min(2, n) records, in order |
| Ranking.TopTierIds | fetch_patrons.py:84-87 | `top_tier_ids` has min(2, number of tiers) entries, has no repeats, and each is a key of the dict |
| Ranking.SortedValues | fetch_patrons.py:84 | the sorted records are as many as the keys, have no repeats, and are exactly the stored records |
| Ranking.TopTierAt | fetch_patrons.py:84-87 | each top id is the id of one of the first two sorted records |
| Ranking.OtherTierAt | fetch_patrons.py:84-87 | every other tier sits after the first two sorted records |
| Ranking.TopTiersOutrank | fetch_patrons.py:84-87 | every top tier costs at least as much as every tier outside the top |
| Ranking.TopTiersTieOrder | fetch_patrons.py:84-87 | if a top tier and a left-out tier cost the same, the top tier was inserted into the dict first |
| Ranking.WithAmountKeepsOrder | fetch_patrons.py:84 | two records of the same amount keep their relative order among the records of that amount |
| Ranking.WithAmountOrigin | fetch_patrons.py:84 | two records in order among those of one amount come from positions in that order |
| Selection.AnyIn | fetch_patrons.py:101 | `any(tid in top for tid in ids)` holds exactly when some entitled id is a top id |
| Selection.QualifiesIff | fetch_patrons.py:95-101 | a member qualifies exactly when it has relation data and one of its entitled ids is a top id; without relation data it never qualifies |
| Selection.OwnedTiers | fetch_patrons.py:105 | the candidate records are exactly the dict's records for the entitled ids it knows, and there are no more of them than entitled ids |
| Selection.OwnedTiersSingle | fetch_patrons.py:105 | one entitled id contributes its record when the dict knows it and nothing otherwise |
| Selection.OwnedTiersAppend | fetch_patrons.py:105 | the candidates keep entitlement order: those of later ids follow those of earlier ids, which is the order `max` breaks ties by |
| Selection.HighestOwned | fetch_patrons.py:104-108 | `max(..., default=None)` is None exactly on an empty list; otherwise it is a record of the list, of greatest amount, the first such |
| Selection.Subscribers | fetch_patrons.py:91-115 | at most one entry per member |
| Selection.SubscribersSound | fetch_patrons.py:91-115 | every entry is the `{name, tier}` entry of a qualifying member |
| Selection.SubscribersComplete | fetch_patrons.py:91-115 | every qualifying member gets its entry |
| Selection.SubscribersAppend | fetch_patrons.py:91-115 | entries follow member order: a later batch's entries come after an earlier batch's |
| Selection.UnknownUnreachable | fetch_patrons.py:104-110 | a qualifying member always holds a tier the dict knows, so the "Unknown" fallback is never taken |
| Selection.DisplayedTierIsBestOwned | fetch_patrons.py:104-110 | the shown title is that of an owned tier of greatest amount, the first such in entitlement order |
| Selection.DisplayedTierMatchesTop | fetch_patrons.py:84-110 | the shown tier costs at least as much as every top tier the member holds; if it is not a top tier, it costs exactly as much as one they hold |
| Selection.EntriesShowKnownTiers | fetch_patrons.py:91-115 | every shown tier name is the title of a tier in the dict |
| Selection.SelectTopSubscribers | fetch_patrons.py:87-115 | the member loop builds exactly the entries of the qualifying members, in member order |
| Sync.FetchTopSubscribers | fetch_patrons.py:81-115 | the pipeline's list is the selection over the collected members and dict, has at most one entry per collected member, and names only known tiers |
| Selection.FirstOfEqualMax | fetch_patrons.py:104-108 | of two tiers of equal amount, `max` keeps the first |
| Sync.TieScenarioTop | fetch_patrons.py:84-87 | with tier records gold > silver = bronze in that values order, the top ids are gold and silver, and bronze is left out |
| Sync.TieScenarioDisplay | fetch_patrons.py:95-110 | a member entitled to [bronze, silver], where silver is a top tier of bronze's price, qualifies and is shown bronze, whether or not bronze is a top tier |

## Left out

- `get_campaign_id` (lines 19-29) and the early return when no campaign is found: one HTTP request with no logic beyond picking the first included id.
- `requests.get`, `raise_for_status` and `r.json()`: network I/O. The decoded pages are an input sequence. An HTTP error aborts the real job, and the model has no such path.
- Request headers and `params`, including clearing `params` after the first request: they only shape the HTTP calls.
- The `PATREON_ACCESS_TOKEN` check, the `try`/`except` wrapper and the `sys.exit` calls: process configuration and error plumbing.
- The `print` logging (including the titles of the top tiers) and writing `subscribers.json`: output I/O. The list written is `Sync.FetchTopSubscribers`'s result.
- Malformed records: the source raises `KeyError` on a member without `attributes` or a tier item without `title` or `amount_cents`, and the job then exits. The model uses typed records that always carry these fields.
- A next-link chain that never ends: `CollectMembersAndTiers` requires a page without a next link. An endless chain keeps the source requesting forever.
- The truthiness test `if highest_tier_owned` is modelled as "is not None". A tier record is a non-empty dict, so the two agree.
- Amounts are unbounded integers. Python integers do not overflow, so nothing is lost.
