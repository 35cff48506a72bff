/**
 * The console's vault grid: which of the placeholder, the loading skeletons,
 * the error line and the vault cards it shows, and how a card shortens a
 * vault's title and description.
 */
module VaultGrid {
  import opened Wrappers
  import Js
  import Request
  import Store
  import VaultsRoute

  /** `SKELETON_COUNT`: the number of skeleton cards shown while loading. */
  const SkeletonCount: nat := 5

  /** The number of title characters a card shows. */
  const TitleLimit: nat := 35

  /** The number of description characters a card shows. */
  const DescriptionLimit: nat := 100

  // ----- truncation -----

  /** `s.substring(0, n)` followed by `"..."` when `s` is longer than `n`. */
  function Truncate(s: string, n: nat): (r: string)
    ensures |r| <= n + 3
    ensures |r| > n <==> |s| > n
    ensures |s| <= n ==> r == s
    ensures |s| > n ==> r[..n] == s[..n] && r[n..] == "..."
  {
    if |s| > n then s[..n] + "..." else s
  }

  /** The shown text starts with the first `n` characters of the original (all of it when shorter). */
  lemma TruncateKeepsPrefix(s: string, n: nat)
    ensures var k := if |s| < n then |s| else n; Truncate(s, n)[..k] == s[..k]
  {
  }

  // ----- cards -----

  /** What a vault card shows as text. */
  datatype CardText = CardText(href: string, title: string, description: string, pagesCount: nat)

  /**
   * `VaultCard` as written: it reads `vault.description.substring`, which
   * throws on a `null` description; `None` stands for that failure.
   */
  function CardAsWritten(v: VaultsRoute.VaultItem): (r: Option<CardText>)
    ensures r.None? <==> v.description.None?
    ensures r.Some? ==> r.value.description == Truncate(v.description.value, DescriptionLimit)
    ensures r.Some? ==> r.value.title == Truncate(v.title, TitleLimit)
  {
    match v.description
    case None => None
    case Some(d) =>
      Some(CardText("/console/vault/" + v.id, Truncate(v.title, TitleLimit), Truncate(d, DescriptionLimit), v.pagesCount))
  }

  /** The card with a missing description shown as empty text. */
  function Card(v: VaultsRoute.VaultItem): (r: CardText)
    ensures |r.title| <= TitleLimit + 3 && |r.description| <= DescriptionLimit + 3
    ensures r.pagesCount == v.pagesCount
    ensures v.description.Some? ==> Some(r) == CardAsWritten(v)
    ensures v.description.None? ==> r.description == ""
  {
    CardText("/console/vault/" + v.id, Truncate(v.title, TitleLimit), Truncate(v.description.GetOr(""), DescriptionLimit), v.pagesCount)
  }

  /**
   * A vault created without a description (or with a blank one) is stored
   * with `null`, and the card as written fails on it; the corrected card
   * shows it with an empty description.
   */
  lemma NoDescriptionBreaksCard(session: Option<string>, body: Js.Value, now: int, randomness: string, pages: seq<Store.Page>)
    requires VaultsRoute.CreateOutcome(session, Request.Parsed(body), now, randomness).Done?
    requires Js.IsNullish(VaultsRoute.ReadFields(body).description)
    ensures var v := VaultsRoute.CreateOutcome(session, Request.Parsed(body), now, randomness).value;
      CardAsWritten(VaultsRoute.Item(v, pages)).None? && Card(VaultsRoute.Item(v, pages)).description == ""
  {
    var v := VaultsRoute.CreateOutcome(session, Request.Parsed(body), now, randomness).value;
    assert Request.NormalisedText(VaultsRoute.ReadFields(body).description, v.description);
    assert v.description == None;
  }

  // ----- the grid -----

  /** What the grid shows: the create placeholder, the skeletons, the error line and the cards. */
  datatype Grid = Grid(placeholder: bool, skeletons: nat, failed: bool, cards: seq<CardText>)

  /** The cards of the loaded vaults, in their order. */
  function Cards(vaults: seq<VaultsRoute.VaultItem>): (r: seq<CardText>)
    ensures |r| == |vaults| && forall i :: 0 <= i < |vaults| ==> r[i] == Card(vaults[i])
  {
    seq(|vaults|, i requires 0 <= i < |vaults| => Card(vaults[i]))
  }

  /**
   * `VaultGrid`: the placeholder always, the skeletons while loading, the
   * error line once loading failed, and the cards of the loaded vaults
   * (none when there is no data) otherwise.
   */
  function Render(isLoading: bool, error: bool, vaults: Option<seq<VaultsRoute.VaultItem>>): (g: Grid)
    ensures g.placeholder
    ensures isLoading ==> g.skeletons == SkeletonCount && !g.failed && g.cards == []
    ensures !isLoading ==> g.skeletons == 0
    ensures g.failed <==> !isLoading && error
    ensures isLoading || error || vaults.None? ==> g.cards == []
    ensures !isLoading && !error && vaults.Some? ==> g.cards == Cards(vaults.value)
  {
    Grid(
      true,
      if isLoading then SkeletonCount else 0,
      !isLoading && error,
      if !isLoading && !error && vaults.Some? then Cards(vaults.value) else [])
  }

  /** The loading, error and loaded views exclude one another. */
  lemma OneViewAtATime(isLoading: bool, error: bool, vaults: Option<seq<VaultsRoute.VaultItem>>)
    ensures var g := Render(isLoading, error, vaults);
      (g.skeletons > 0 ==> !g.failed && g.cards == []) && (g.failed ==> g.skeletons == 0 && g.cards == [])
  {
  }

  /** Every card of a loaded grid is one vault, its texts within the shown lengths. */
  lemma LoadedCardsBounded(vaults: seq<VaultsRoute.VaultItem>)
    ensures var g := Render(false, false, Some(vaults));
      |g.cards| == |vaults| &&
      forall i :: 0 <= i < |g.cards| ==> |g.cards[i].title| <= 38 && |g.cards[i].description| <= 103
  {
  }
}
