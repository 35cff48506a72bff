/**
 * The relational store behind the handlers, held in memory: the vault and
 * page records, and the two inserts the create handlers perform.
 */
module Store {
  import opened Wrappers
  import Js

  /** A vault record. `icon` and `accentColor` hold whatever value the creator sent, or `null`. */
  datatype Vault = Vault(
    id: string,
    title: string,
    description: Option<string>,
    icon: Js.Value,
    accentColor: Js.Value,
    userId: string,
    createdAt: int,
    updatedAt: int)

  /** A page record. `thumbnail` and the `tags` elements hold the values the creator sent. */
  datatype Page = Page(
    id: string,
    title: string,
    content: string,
    summary: Option<string>,
    thumbnail: Js.Value,
    tags: seq<Js.Value>,
    vaultId: string,
    userId: string,
    createdAt: int,
    updatedAt: int)

  /** Some vault has id `vaultId` and belongs to `userId` (`findFirst({ where: { id, userId } })`). */
  predicate Owns(vaults: seq<Vault>, vaultId: string, userId: string) {
    exists v :: v in vaults && v.id == vaultId && v.userId == userId
  }

  /** The number of pages in vault `vaultId` (`_count.pages`): none exactly when no page lies in it. */
  function PageCount(pages: seq<Page>, vaultId: string): (n: nat)
    ensures n <= |pages|
    ensures n == 0 <==> forall p :: p in pages ==> p.vaultId != vaultId
  {
    if pages == [] then 0
    else
      assert forall p :: p in pages ==> p == pages[0] || p in pages[1..];
      (if pages[0].vaultId == vaultId then 1 else 0) + PageCount(pages[1..], vaultId)
  }

  /** Counting distributes over concatenation, so an inserted page adds one to its own vault's count and nothing to the others. */
  lemma {:induction false} PageCountAppend(a: seq<Page>, b: seq<Page>, vaultId: string)
    ensures PageCount(a + b, vaultId) == PageCount(a, vaultId) + PageCount(b, vaultId)
  {
    if a == [] {
      assert a + b == b;
    } else {
      assert (a + b)[1..] == a[1..] + b;
      PageCountAppend(a[1..], b, vaultId);
    }
  }

  /** Every page sits in a vault owned by the page's own owner. */
  predicate PagesOwned(vaults: seq<Vault>, pages: seq<Page>) {
    forall p :: p in pages ==> Owns(vaults, p.vaultId, p.userId)
  }

  /** Adding vaults keeps every page's vault in place. */
  lemma PagesOwnedMoreVaults(vaults: seq<Vault>, pages: seq<Page>, more: seq<Vault>)
    requires PagesOwned(vaults, pages)
    ensures PagesOwned(vaults + more, pages)
  {
    forall p | p in pages ensures Owns(vaults + more, p.vaultId, p.userId) {
      var v :| v in vaults && v.id == p.vaultId && v.userId == p.userId;
      assert v in vaults + more;
    }
  }

  /** The store: the two tables the core reads and writes. */
  class Db {
    var vaults: seq<Vault>
    var pages: seq<Page>

    /** The store's invariant: pages live in vaults of their own owner. */
    predicate Valid()
      reads this
    {
      PagesOwned(vaults, pages)
    }

    constructor ()
      ensures vaults == [] && pages == []
      ensures Valid()
    {
      vaults := [];
      pages := [];
    }

    /** `prisma.vault.create`: appends one vault. */
    method InsertVault(v: Vault)
      requires Valid()
      modifies this
      ensures Valid()
      ensures vaults == old(vaults) + [v] && pages == old(pages)
    {
      PagesOwnedMoreVaults(vaults, pages, [v]);
      vaults := vaults + [v];
    }

    /** `prisma.page.create`: appends one page, into a vault of the page's owner. */
    method InsertPage(p: Page)
      requires Valid()
      requires Owns(vaults, p.vaultId, p.userId)
      modifies this
      ensures Valid()
      ensures pages == old(pages) + [p] && vaults == old(vaults)
    {
      pages := pages + [p];
    }
  }
}
