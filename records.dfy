/** Typed records for the decoded JSON of the members API: what one page of the
    campaign-members listing carries, the tier definitions kept from it, and the
    `{name, tier}` entries written to the subscribers file. */
module PatronRecords {

  datatype Option<T> = None | Some(value: T)

  /** A tier definition as the collector stores it: `{id, title, amount}`,
      the amount in cents. */
  datatype Tier = Tier(id: string, title: string, amount: int)

  /** One member record of a page's `data` list. `entitled` holds the ids under
      relationships.currently_entitled_tiers.data, and is None when any level of
      that path is missing from the record. */
  datatype Member = Member(fullName: string, patronStatus: string, entitled: Option<seq<string>>)

  /** One item of a page's side-loaded `included` list. `title` and `amountCents`
      are read only when `kind` is "tier". */
  datatype Item = Item(kind: string, id: string, title: string, amountCents: int)

  /** One decoded page: `data` (absent reads as []), `included` (may be absent)
      and links.next (absent or null reads as None). */
  datatype Page = Page(data: seq<Member>, included: Option<seq<Item>>, next: Option<string>)

  /** One entry of the output list. */
  datatype Subscriber = Subscriber(name: string, tier: string)

  const ActivePatron: string := "active_patron"
  const TierKind: string := "tier"
  const UnknownTier: string := "Unknown"

  predicate IsActive(m: Member)
  {
    m.patronStatus == ActivePatron
  }

  predicate IsTierItem(it: Item)
  {
    it.kind == TierKind
  }

  /** The record stored under `tiers[item.id]` for a tier item. */
  function TierOf(it: Item): Tier
  {
    Tier(it.id, it.title, it.amountCents)
  }

  /** `while url` goes on only for a next link that is present and non-empty:
      None and "" are both falsy in the source. */
  predicate HasNext(p: Page)
  {
    p.next.Some? && p.next.value != ""
  }

  /** The member's entitled tier ids; a record without that relation data gives []. */
  function EntitledTierIds(m: Member): seq<string>
  {
    match m.entitled
    case None => []
    case Some(ids) => ids
  }

  /** No two positions of `s` hold the same element. */
  predicate Distinct<T(==)>(s: seq<T>)
  {
    forall i, j :: 0 <= i < j < |s| ==> s[i] != s[j]
  }
}
