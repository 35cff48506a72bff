/**
 * `/api/pages`: the list handler (`GET`), which pages through the caller's
 * pages of one of the caller's vaults, and the create handler (`POST`),
 * which validates a body, checks the vault's owner and inserts one page.
 * Both answer pages without their `content`.
 */
module PagesRoute {
  import opened Wrappers
  import Js
  import JsString
  import Api
  import Request
  import Store
  import Listing
  import Utils

  /** The text read when the `limit` or `offset` parameter is absent or empty. */
  const DefaultLimit: string := "50"
  const DefaultOffset: string := "0"

  /** A page as both handlers answer it: every listed column, and no `content`. */
  datatype PageSummary = PageSummary(
    id: string,
    title: string,
    summary: Option<string>,
    thumbnail: Js.Value,
    tags: seq<Js.Value>,
    updatedAt: int,
    createdAt: int)

  /** The `select` of the list query, which is also what `POST` echoes: every column but `content`, `vaultId` and `userId`. */
  function Summary(p: Store.Page): (r: PageSummary)
    ensures r.id == p.id && r.title == p.title && r.summary == p.summary && r.thumbnail == p.thumbnail
    ensures r.tags == p.tags && r.updatedAt == p.updatedAt && r.createdAt == p.createdAt
  {
    PageSummary(p.id, p.title, p.summary, p.thumbnail, p.tags, p.updatedAt, p.createdAt)
  }

  // ----- GET -----

  /** The ordering key, `updatedAt`. */
  function UpdatedAt(p: Store.Page): int {
    p.updatedAt
  }

  /** `where: { vaultId, userId }`. */
  function InVault(pages: seq<Store.Page>, vaultId: string, userId: string): (r: seq<Store.Page>)
    ensures forall p :: p in r <==> p in pages && p.vaultId == vaultId && p.userId == userId
  {
    Listing.Filter(pages, (p: Store.Page) => p.vaultId == vaultId && p.userId == userId)
  }

  /** The pages of the vault, most recently updated first, then `skip`/`take`. */
  function Selected(pages: seq<Store.Page>, vaultId: string, userId: string, offset: nat, limit: nat): (w: seq<Store.Page>)
    ensures exists sorted :: Listing.IsSortingDesc(sorted, InVault(pages, vaultId, userId), UpdatedAt)
                             && w == Listing.Window(sorted, offset, limit)
  {
    var sorted := Listing.SortDesc(InVault(pages, vaultId, userId), UpdatedAt);
    assert Listing.IsSortingDesc(sorted, InVault(pages, vaultId, userId), UpdatedAt);
    Listing.Window(sorted, offset, limit)
  }

  /**
   * The window skips the first `offset` of the caller's pages of the vault in
   * that order and holds the next `limit` of them, or all that remain: each
   * is one of those pages, and they are ordered.
   */
  lemma SelectedInVaultSorted(pages: seq<Store.Page>, vaultId: string, userId: string, offset: nat, limit: nat)
    ensures |Selected(pages, vaultId, userId, offset, limit)| == Listing.WindowCount(|InVault(pages, vaultId, userId)|, offset, limit)
    ensures |Selected(pages, vaultId, userId, offset, limit)| <= limit
    ensures forall p :: p in Selected(pages, vaultId, userId, offset, limit) ==>
              p in pages && p.vaultId == vaultId && p.userId == userId
    ensures Listing.SortedDesc(Selected(pages, vaultId, userId, offset, limit), UpdatedAt)
  {
    var kept := InVault(pages, vaultId, userId);
    var sorted := Listing.SortDesc(kept, UpdatedAt);
    var w := Selected(pages, vaultId, userId, offset, limit);
    assert |sorted| == |multiset(sorted)| == |multiset(kept)| == |kept|;
    Listing.WindowSorted(sorted, UpdatedAt, offset, limit);
    forall p | p in w ensures p in pages && p.vaultId == vaultId && p.userId == userId {
      var i :| 0 <= i < |w| && w[i] == p;
      assert p == sorted[offset + i];
      assert p in multiset(sorted);
    }
  }

  /** Each page of `w` as a summary. */
  function Summaries(w: seq<Store.Page>): (r: seq<PageSummary>)
    ensures |r| == |w| && forall i :: 0 <= i < |w| ==> r[i] == Summary(w[i])
  {
    seq(|w|, i requires 0 <= i < |w| => Summary(w[i]))
  }

  /** `item` summarises one of the caller's pages of the vault. */
  predicate ListedFrom(pages: seq<Store.Page>, vaultId: string, userId: string, item: PageSummary) {
    exists p :: p in pages && p.vaultId == vaultId && p.userId == userId && item == Summary(p)
  }

  /**
   * The query of the list handler: the caller's pages of vault `vaultId`
   * ordered by `updatedAt` descending, `skip: offset`, `take: limit`.
   */
  function ListPages(pages: seq<Store.Page>, vaultId: string, userId: string, offset: nat, limit: nat): (r: seq<PageSummary>)
    ensures exists sorted :: Listing.IsSortingDesc(sorted, InVault(pages, vaultId, userId), UpdatedAt)
                             && r == Summaries(Listing.Window(sorted, offset, limit))
    ensures |r| == Listing.WindowCount(|InVault(pages, vaultId, userId)|, offset, limit) && |r| <= limit
    ensures forall i :: 0 <= i < |r| ==> ListedFrom(pages, vaultId, userId, r[i])
    ensures forall i, j :: 0 <= i < j < |r| ==> r[i].updatedAt >= r[j].updatedAt
  {
    var sorted := Listing.SortDesc(InVault(pages, vaultId, userId), UpdatedAt);
    var w := Selected(pages, vaultId, userId, offset, limit);
    assert w == Listing.Window(sorted, offset, limit);
    assert Listing.IsSortingDesc(sorted, InVault(pages, vaultId, userId), UpdatedAt);
    SelectedInVaultSorted(pages, vaultId, userId, offset, limit);
    SummariesListed(pages, vaultId, userId, w);
    Summaries(w)
  }

  /** Summarising ordered pages of the caller in the vault gives ordered summaries, each listed from those pages. */
  lemma SummariesListed(pages: seq<Store.Page>, vaultId: string, userId: string, w: seq<Store.Page>)
    requires forall p :: p in w ==> p in pages && p.vaultId == vaultId && p.userId == userId
    requires Listing.SortedDesc(w, UpdatedAt)
    ensures var r := Summaries(w);
      && (forall i :: 0 <= i < |r| ==> ListedFrom(pages, vaultId, userId, r[i]))
      && (forall i, j :: 0 <= i < j < |r| ==> r[i].updatedAt >= r[j].updatedAt)
  {
    var r := Summaries(w);
    forall i | 0 <= i < |r| ensures ListedFrom(pages, vaultId, userId, r[i]) {
      assert w[i] in w;
    }
    forall i, j | 0 <= i < j < |r| ensures r[i].updatedAt >= r[j].updatedAt {
      assert UpdatedAt(w[i]) >= UpdatedAt(w[j]);
    }
  }

  /** Summarising distributes over concatenation. */
  lemma SummariesAppend(x: seq<Store.Page>, y: seq<Store.Page>)
    ensures Summaries(x + y) == Summaries(x) + Summaries(y)
  {
    assert |Summaries(x + y)| == |Summaries(x) + Summaries(y)|;
  }

  /**
   * Paging through the list loses and repeats nothing: the page of `a`
   * pages at `offset` followed by the page of `b` pages after it is the page
   * of `a + b` pages at `offset`.
   */
  lemma ListingsTile(pages: seq<Store.Page>, vaultId: string, userId: string, offset: nat, a: nat, b: nat)
    ensures ListPages(pages, vaultId, userId, offset, a) + ListPages(pages, vaultId, userId, offset + a, b)
         == ListPages(pages, vaultId, userId, offset, a + b)
  {
    var sorted := Listing.SortDesc(InVault(pages, vaultId, userId), UpdatedAt);
    Listing.WindowsTile(sorted, offset, a, b);
    SummariesAppend(Listing.Window(sorted, offset, a), Listing.Window(sorted, offset + a, b));
  }

  /** With `offset` 0 and a `limit` no smaller than the store, every page of the caller in the vault is listed. */
  lemma ListedAll(pages: seq<Store.Page>, vaultId: string, userId: string, limit: nat)
    requires limit >= |pages|
    ensures forall p :: p in pages && p.vaultId == vaultId && p.userId == userId ==>
              Summary(p) in ListPages(pages, vaultId, userId, 0, limit)
  {
    var kept := InVault(pages, vaultId, userId);
    var sorted := Listing.SortDesc(kept, UpdatedAt);
    assert |sorted| == |multiset(sorted)| == |multiset(kept)| == |kept|;
    Listing.WholeWindow(sorted, limit);
    assert Selected(pages, vaultId, userId, 0, limit) == sorted;
    var r := ListPages(pages, vaultId, userId, 0, limit);
    forall p | p in pages && p.vaultId == vaultId && p.userId == userId ensures Summary(p) in r {
      assert p in multiset(sorted);
      var k :| 0 <= k < |sorted| && sorted[k] == p;
      assert r[k] == Summary(p);
    }
  }

  /** The body of `GET`, up to the `try`: it answers a list or throws. */
  function ListOutcome(
    vaults: seq<Store.Vault>, pages: seq<Store.Page>, session: Option<string>,
    vaultId: Option<string>, limitParam: Option<string>, offsetParam: Option<string>
  ): (r: Api.Outcome<seq<PageSummary>>)
    ensures session.None? ==> r == Api.Throw("Unauthorized", 401)
    ensures session.Some? && (vaultId.None? || vaultId.value == "") ==> r == Api.Throw("vaultId is required", 400)
    ensures
      var limit, offset := Request.PagingValue(limitParam, DefaultLimit), Request.PagingValue(offsetParam, DefaultOffset);
      var err := Request.PagingError(limit, offset);
      var checked := session.Some? && vaultId.Some? && vaultId.value != "";
      && (checked && err.Some? ==> r == Api.Throw(err.value, 400))
      && (checked && err.None? && !Store.Owns(vaults, vaultId.value, session.value) ==> r == Api.Throw("Vault not found", 404))
      && (r.Done? <==> checked && err.None? && Store.Owns(vaults, vaultId.value, session.value) && limit.Some? && offset.Some?)
      && (r.Done? ==> r.value == ListPages(pages, vaultId.value, session.value, offset.value, limit.value))
  {
    if session.None? then Api.Throw("Unauthorized", 401)
    else
      var limit := Request.PagingValue(limitParam, DefaultLimit);
      var offset := Request.PagingValue(offsetParam, DefaultOffset);
      if vaultId.None? || vaultId.value == "" then Api.Throw("vaultId is required", 400)
      else
        var err := Request.PagingError(limit, offset);
        if err.Some? then Api.Throw(err.value, 400)
        else if !Store.Owns(vaults, vaultId.value, session.value) then Api.Throw("Vault not found", 404)
        else if limit.None? || offset.None? then Api.Threw(Api.ThrownError(Request.NaNPaging))
        else Api.Done(ListPages(pages, vaultId.value, session.value, offset.value, limit.value))
  }

  /** `GET /api/pages`: the list under the key `success`, or the resolved fault. */
  function Get(db: Store.Db, session: Option<string>, vaultId: Option<string>, limitParam: Option<string>, offsetParam: Option<string>): (r: Api.Reply<seq<PageSummary>>)
    reads db
    ensures session.None? ==> r == Api.FaultReply("Unauthorized", 401)
    ensures session.Some? && (vaultId.None? || vaultId.value == "") ==> r == Api.FaultReply("vaultId is required", 400)
    ensures
      var limit, offset := Request.PagingValue(limitParam, DefaultLimit), Request.PagingValue(offsetParam, DefaultOffset);
      var err := Request.PagingError(limit, offset);
      var checked := session.Some? && vaultId.Some? && vaultId.value != "";
      && (checked && err.Some? ==> r == Api.FaultReply(err.value, 400))
      && (checked && err.None? && !Store.Owns(db.vaults, vaultId.value, session.value) ==> r == Api.FaultReply("Vault not found", 404))
      && (checked && err.None? && Store.Owns(db.vaults, vaultId.value, session.value) && (limit.None? || offset.None?) ==>
            r == Api.Failure(Api.ErrorResponse(500, false, Api.Text(Request.NaNPaging))))
      && (r.Success? <==> checked && err.None? && Store.Owns(db.vaults, vaultId.value, session.value) && limit.Some? && offset.Some?)
      && (r.Success? ==> r.successKey == "success" && r.data == ListPages(db.pages, vaultId.value, session.value, offset.value, limit.value))
  {
    Api.Respond(ListOutcome(db.vaults, db.pages, session, vaultId, limitParam, offsetParam), "success")
  }

  /**
   * A vault that does not exist and a vault of someone else get the same
   * answer: whatever the two stores hold, neither lets the caller tell them apart.
   */
  lemma NotFoundIsUniform(
    vaults1: seq<Store.Vault>, pages1: seq<Store.Page>, vaults2: seq<Store.Vault>, pages2: seq<Store.Page>,
    userId: string, vaultId: string, limitParam: Option<string>, offsetParam: Option<string>)
    requires !Store.Owns(vaults1, vaultId, userId) && !Store.Owns(vaults2, vaultId, userId)
    ensures ListOutcome(vaults1, pages1, Some(userId), Some(vaultId), limitParam, offsetParam)
         == ListOutcome(vaults2, pages2, Some(userId), Some(vaultId), limitParam, offsetParam)
  {
  }

  /** Without paging parameters (both absent) the first fifty pages are listed. */
  lemma DefaultListing(
    vaults: seq<Store.Vault>, pages: seq<Store.Page>, userId: string, vaultId: string,
    limitParam: Option<string>, offsetParam: Option<string>)
    requires vaultId != "" && Store.Owns(vaults, vaultId, userId)
    requires limitParam == None && offsetParam == None
    ensures ListOutcome(vaults, pages, Some(userId), Some(vaultId), limitParam, offsetParam) == Api.Done(ListPages(pages, vaultId, userId, 0, 50))
  {
    Request.DefaultFifty();
    Request.DefaultZero();
    assert DefaultLimit == "50" && DefaultOffset == "0";
    var limit, offset := Request.PagingValue(limitParam, DefaultLimit), Request.PagingValue(offsetParam, DefaultOffset);
    assert limit == Some(50) && offset == Some(0);
    assert Request.PagingError(limit, offset) == None;
  }

  // ----- POST -----

  /** The fields `POST` destructures from its body. */
  datatype PageFields = PageFields(
    vaultId: Js.Value,
    title: Js.Value,
    content: Js.Value,
    summary: Js.Value,
    thumbnail: Js.Value,
    tags: Js.Value)

  /** `const { vaultId, title, content, summary, thumbnail, tags } = body`. */
  function ReadFields(body: Js.Value): PageFields
    requires !Js.IsNullish(body)
  {
    PageFields(
      Js.Get(body, "vaultId"), Js.Get(body, "title"), Js.Get(body, "content"),
      Js.Get(body, "summary"), Js.Get(body, "thumbnail"), Js.Get(body, "tags"))
  }

  /** A non-empty string. */
  predicate NonEmptyText(v: Js.Value) {
    v.Str? && v.s != ""
  }

  /** The title is a non-empty string of at most 200 UTF-16 units, measured before trimming. */
  predicate TitleOk(title: Js.Value) {
    NonEmptyText(title) && JsString.Utf16Length(title.s) <= 200
  }

  /** The summary is falsy, or a string of at most 500 UTF-16 units. */
  predicate SummaryOk(summary: Js.Value) {
    !Js.Truthy(summary) || (summary.Str? && JsString.Utf16Length(summary.s) <= 500)
  }

  /** The tags are falsy or an array. */
  predicate TagsOk(tags: Js.Value) {
    !Js.Truthy(tags) || tags.Arr?
  }

  /** Every body check of `POST` passes. */
  predicate Valid(f: PageFields) {
    NonEmptyText(f.vaultId) && TitleOk(f.title) && NonEmptyText(f.content) && SummaryOk(f.summary) && TagsOk(f.tags)
  }

  /** The body checks of `POST`, in order, first failure wins; `None` when all pass. */
  function ValidationError(f: PageFields): (e: Option<string>)
    ensures e.None? <==> Valid(f)
    ensures e == Some("vaultId is required") <==> !NonEmptyText(f.vaultId)
    ensures e == Some("Title is required") <==> NonEmptyText(f.vaultId) && !NonEmptyText(f.title)
    ensures e == Some("Title is too long") <==> NonEmptyText(f.vaultId) && NonEmptyText(f.title) && !TitleOk(f.title)
    ensures e == Some("Content is required") <==> NonEmptyText(f.vaultId) && TitleOk(f.title) && !NonEmptyText(f.content)
    ensures e == Some("Summary must be a string") <==>
              NonEmptyText(f.vaultId) && TitleOk(f.title) && NonEmptyText(f.content) && Js.Truthy(f.summary) && !f.summary.Str?
    ensures e == Some("Summary is too long") <==>
              NonEmptyText(f.vaultId) && TitleOk(f.title) && NonEmptyText(f.content) && f.summary.Str? && !SummaryOk(f.summary)
    ensures e == Some("Tags must be an array") <==>
              NonEmptyText(f.vaultId) && TitleOk(f.title) && NonEmptyText(f.content) && SummaryOk(f.summary) && !TagsOk(f.tags)
  {
    if !Js.Truthy(f.vaultId) || !f.vaultId.Str? then Some("vaultId is required")
    else if !Js.Truthy(f.title) || !f.title.Str? then Some("Title is required")
    else if JsString.Utf16Length(f.title.s) > 200 then Some("Title is too long")
    else if !Js.Truthy(f.content) || !f.content.Str? then Some("Content is required")
    else if Js.Truthy(f.summary) && !f.summary.Str? then Some("Summary must be a string")
    else if Js.Truthy(f.summary) && JsString.Utf16Length(f.summary.s) > 500 then Some("Summary is too long")
    else if Js.Truthy(f.tags) && !f.tags.Arr? then Some("Tags must be an array")
    else None
  }

  /** `tags || []` for tags that passed the checks. */
  function StoredTags(tags: Js.Value): (r: seq<Js.Value>)
    requires TagsOk(tags)
    ensures Js.Truthy(tags) ==> r == tags.items
    ensures !Js.Truthy(tags) ==> r == []
  {
    if Js.Truthy(tags) then tags.items else []
  }

  /**
   * `p` is the record `POST` creates from the validated fields `f` for
   * `userId` at `now`: a `pg_` id around the random part, the trimmed title,
   * the content as sent, the summary trimmed or null, the thumbnail as sent
   * or null, the tags as sent in their order or none, the vault as named.
   */
  predicate Created(p: Store.Page, f: PageFields, userId: string, now: int, randomness: string)
    requires Valid(f)
  {
    && p.id == Utils.GenerateId("pg", randomness)
    && p.title == JsString.Trim(f.title.s)
    && p.content == f.content.s
    && Request.NormalisedText(f.summary, p.summary)
    && p.thumbnail == Js.Or(f.thumbnail, Js.Null)
    && p.tags == StoredTags(f.tags)
    && p.vaultId == f.vaultId.s
    && p.userId == userId
    && p.createdAt == now && p.updatedAt == now
  }

  /** The fields of a parsed, non-nullish body, if the session and body get that far. */
  predicate Readable(session: Option<string>, body: Request.Body) {
    session.Some? && body.Parsed? && !Js.IsNullish(body.value)
  }

  /** What `POST` does, up to the `try`: the page it inserts, or what it throws. */
  function CreateOutcome(vaults: seq<Store.Vault>, session: Option<string>, body: Request.Body, now: int, randomness: string): (r: Api.Outcome<Store.Page>)
    ensures session.None? ==> r == Api.Throw("Unauthorized", 401)
    ensures session.Some? && body.Malformed? ==> r == Api.Threw(Api.ThrownError(body.error))
    ensures session.Some? && body.Parsed? && Js.IsNullish(body.value) ==> r == Api.Threw(Api.ThrownError(Request.DestructureNull))
    ensures Readable(session, body) && ValidationError(ReadFields(body.value)).Some? ==>
              r == Api.Throw(ValidationError(ReadFields(body.value)).value, 400)
    ensures Readable(session, body) && Valid(ReadFields(body.value)) &&
            !Store.Owns(vaults, ReadFields(body.value).vaultId.s, session.value) ==>
              r == Api.Throw("Vault not found", 404)
    ensures r.Done? <==>
              && Readable(session, body) && Valid(ReadFields(body.value))
              && Store.Owns(vaults, ReadFields(body.value).vaultId.s, session.value)
              && (Js.IsNullish(ReadFields(body.value).summary) || ReadFields(body.value).summary.Str?)
    ensures r.Done? ==> Created(r.value, ReadFields(body.value), session.value, now, randomness)
    ensures r.Done? ==> Store.Owns(vaults, r.value.vaultId, r.value.userId)
  {
    if session.None? then Api.Throw("Unauthorized", 401)
    else if body.Malformed? then Api.Threw(Api.ThrownError(body.error))
    else if Js.IsNullish(body.value) then Api.Threw(Api.ThrownError(Request.DestructureNull))
    else
      var f := ReadFields(body.value);
      var e := ValidationError(f);
      if e.Some? then Api.Throw(e.value, 400)
      else if !Store.Owns(vaults, f.vaultId.s, session.value) then Api.Throw("Vault not found", 404)
      else
        var summary := Request.TrimOrNull("summary", f.summary);
        if summary.Threw? then Api.Threw(summary.thrown)
        else
          Api.Done(Store.Page(
            Utils.GenerateId("pg", randomness), JsString.Trim(f.title.s), f.content.s, summary.value,
            Js.Or(f.thumbnail, Js.Null), StoredTags(f.tags), f.vaultId.s, session.value, now, now))
  }

  /** `POST`'s answer for an outcome: the page's summary under the key `success`, or the resolved fault. */
  function CreateReply(o: Api.Outcome<Store.Page>): (r: Api.Reply<PageSummary>)
    ensures o.Done? <==> r.Success?
    ensures o.Done? ==> r == Api.Success("success", Summary(o.value))
    ensures o.Threw? ==> r == Api.Failure(Api.ResolveAPIErrors(o.thrown))
  {
    match o
    case Done(p) => Api.Success("success", Summary(p))
    case Threw(t) => Api.Failure(Api.ResolveAPIErrors(t))
  }

  /**
   * `POST /api/pages`: the guard chain, the ownership check, then one insert.
   * The store grows by exactly the page `CreateOutcome` describes, or not at all.
   */
  method Post(db: Store.Db, session: Option<string>, body: Request.Body, now: int, randomness: string)
    returns (reply: Api.Reply<PageSummary>)
    requires db.Valid()
    modifies db
    ensures db.Valid()
    ensures reply == CreateReply(CreateOutcome(old(db.vaults), session, body, now, randomness))
    ensures CreateOutcome(old(db.vaults), session, body, now, randomness).Done? ==>
              db.pages == old(db.pages) + [CreateOutcome(old(db.vaults), session, body, now, randomness).value]
    ensures CreateOutcome(old(db.vaults), session, body, now, randomness).Threw? ==> db.pages == old(db.pages)
    ensures db.vaults == old(db.vaults)
  {
    if session.None? {
      return CreateReply(Api.Throw("Unauthorized", 401));
    }
    if body.Malformed? {
      return CreateReply(Api.Threw(Api.ThrownError(body.error)));
    }
    if Js.IsNullish(body.value) {
      return CreateReply(Api.Threw(Api.ThrownError(Request.DestructureNull)));
    }
    var f := ReadFields(body.value);
    var e := ValidationError(f);
    if e.Some? {
      return CreateReply(Api.Throw(e.value, 400));
    }
    if !Store.Owns(db.vaults, f.vaultId.s, session.value) {
      return CreateReply(Api.Throw("Vault not found", 404));
    }
    var summary := Request.TrimOrNull("summary", f.summary);
    if summary.Threw? {
      return CreateReply(Api.Threw(summary.thrown));
    }
    var p := Store.Page(
      Utils.GenerateId("pg", randomness), JsString.Trim(f.title.s), f.content.s, summary.value,
      Js.Or(f.thumbnail, Js.Null), StoredTags(f.tags), f.vaultId.s, session.value, now, now);
    db.InsertPage(p);
    reply := CreateReply(Api.Done(p));
  }

  /** A created page is listed in its vault: a first page large enough shows it. */
  lemma CreatedIsListed(vaults: seq<Store.Vault>, pages: seq<Store.Page>, session: Option<string>, body: Request.Body, now: int, randomness: string, limit: nat)
    requires CreateOutcome(vaults, session, body, now, randomness).Done?
    requires limit > |pages|
    ensures
      var p := CreateOutcome(vaults, session, body, now, randomness).value;
      Summary(p) in ListPages(pages + [p], p.vaultId, session.value, 0, limit)
  {
    var p := CreateOutcome(vaults, session, body, now, randomness).value;
    ListedAll(pages + [p], p.vaultId, session.value, limit);
    assert p in pages + [p];
  }

  /** A body that passes every check, for a vault of the caller, creates its page. */
  lemma ValidBodyCreates(vaults: seq<Store.Vault>, userId: string, body: Js.Value, now: int, randomness: string)
    requires !Js.IsNullish(body) && Valid(ReadFields(body))
    requires Store.Owns(vaults, ReadFields(body).vaultId.s, userId)
    requires Js.IsNullish(ReadFields(body).summary) || ReadFields(body).summary.Str?
    ensures ValidationError(ReadFields(body)).None?
    ensures
      var r := CreateOutcome(vaults, Some(userId), Request.Parsed(body), now, randomness);
      r.Done? && Created(r.value, ReadFields(body), userId, now, randomness)
  {
    assert Readable(Some(userId), Request.Parsed(body));
  }
}
