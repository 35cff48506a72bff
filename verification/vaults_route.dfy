/**
 * `/api/vaults`: the list handler (`GET`), which pages through the caller's
 * vaults most recently updated first, and the create handler (`POST`), which
 * validates a body, normalises it and inserts one vault.
 */
module VaultsRoute {
  import opened Wrappers
  import Js
  import JsString
  import Api
  import Request
  import Store
  import Listing
  import Utils
  import NumberParse

  /** The text read when the `limit` or `offset` parameter is absent or empty. */
  const DefaultLimit: string := "10"
  const DefaultOffset: string := "0"

  // ----- GET -----

  /** One element of the list response. */
  datatype VaultItem = VaultItem(
    id: string,
    title: string,
    description: Option<string>,
    icon: Js.Value,
    accentColor: Js.Value,
    updatedAt: int,
    pagesCount: nat)

  /** The projection of a vault: its listed columns, without owner or creation time, plus the number of its pages. */
  function Item(v: Store.Vault, pages: seq<Store.Page>): (r: VaultItem)
    ensures r.id == v.id && r.title == v.title && r.description == v.description
    ensures r.icon == v.icon && r.accentColor == v.accentColor && r.updatedAt == v.updatedAt
    ensures r.pagesCount == Store.PageCount(pages, v.id)
  {
    VaultItem(v.id, v.title, v.description, v.icon, v.accentColor, v.updatedAt, Store.PageCount(pages, v.id))
  }

  /** Inserting a page raises the listed page count of its own vault by one and leaves every other vault's. */
  lemma InsertedPageCounted(v: Store.Vault, pages: seq<Store.Page>, p: Store.Page)
    ensures Item(v, pages + [p]).pagesCount == Item(v, pages).pagesCount + (if p.vaultId == v.id then 1 else 0)
  {
    Store.PageCountAppend(pages, [p], v.id);
    assert [p][1..] == [];
  }

  /** The ordering key, `updatedAt`. */
  function UpdatedAt(v: Store.Vault): int {
    v.updatedAt
  }

  /** `where: { userId }`. */
  function Owned(vaults: seq<Store.Vault>, userId: string): (r: seq<Store.Vault>)
    ensures forall v :: v in r <==> v in vaults && v.userId == userId
  {
    Listing.Filter(vaults, (v: Store.Vault) => v.userId == userId)
  }

  /** `item` is the projection of one of `userId`'s vaults. */
  predicate ListedFrom(vaults: seq<Store.Vault>, pages: seq<Store.Page>, userId: string, item: VaultItem) {
    exists v :: v in vaults && v.userId == userId && item == Item(v, pages)
  }

  /** Each vault of `w` projected with its page count. */
  function Project(w: seq<Store.Vault>, pages: seq<Store.Page>): (r: seq<VaultItem>)
    ensures |r| == |w| && forall i :: 0 <= i < |w| ==> r[i] == Item(w[i], pages)
  {
    seq(|w|, i requires 0 <= i < |w| => Item(w[i], pages))
  }

  /** The caller's vaults, most recently updated first, then `skip`/`take`. */
  function Selected(vaults: seq<Store.Vault>, userId: string, offset: nat, limit: nat): (w: seq<Store.Vault>)
    ensures exists sorted :: Listing.IsSortingDesc(sorted, Owned(vaults, userId), UpdatedAt)
                             && w == Listing.Window(sorted, offset, limit)
  {
    var sorted := Listing.SortDesc(Owned(vaults, userId), UpdatedAt);
    assert Listing.IsSortingDesc(sorted, Owned(vaults, userId), UpdatedAt);
    Listing.Window(sorted, offset, limit)
  }

  /**
   * The window skips the first `offset` of the caller's vaults in that order
   * and holds the next `limit` of them, or all that remain: each is one of the
   * caller's vaults, and they are ordered.
   */
  lemma SelectedOwnedSorted(vaults: seq<Store.Vault>, userId: string, offset: nat, limit: nat)
    ensures |Selected(vaults, userId, offset, limit)| == Listing.WindowCount(|Owned(vaults, userId)|, offset, limit)
    ensures |Selected(vaults, userId, offset, limit)| <= limit
    ensures forall v :: v in Selected(vaults, userId, offset, limit) ==> v in vaults && v.userId == userId
    ensures Listing.SortedDesc(Selected(vaults, userId, offset, limit), UpdatedAt)
  {
    var owned := Owned(vaults, userId);
    var sorted := Listing.SortDesc(owned, UpdatedAt);
    var w := Selected(vaults, userId, offset, limit);
    assert |sorted| == |multiset(sorted)| == |multiset(owned)| == |owned|;
    Listing.WindowSorted(sorted, UpdatedAt, offset, limit);
    forall v | v in w ensures v in vaults && v.userId == userId {
      var i :| 0 <= i < |w| && w[i] == v;
      assert v == sorted[offset + i];
      assert v in multiset(sorted);
    }
  }

  /**
   * The query of the list handler: the caller's vaults ordered by
   * `updatedAt` descending, `skip: offset`, `take: limit`, each projected
   * with its page count.
   */
  function ListVaults(vaults: seq<Store.Vault>, pages: seq<Store.Page>, userId: string, offset: nat, limit: nat): (r: seq<VaultItem>)
    ensures exists sorted :: Listing.IsSortingDesc(sorted, Owned(vaults, userId), UpdatedAt)
                             && r == Project(Listing.Window(sorted, offset, limit), pages)
    ensures |r| == Listing.WindowCount(|Owned(vaults, userId)|, offset, limit) && |r| <= limit
    ensures forall i :: 0 <= i < |r| ==> ListedFrom(vaults, pages, userId, r[i])
    ensures forall i :: 0 <= i < |r| ==> r[i].pagesCount == Store.PageCount(pages, r[i].id)
    ensures forall i, j :: 0 <= i < j < |r| ==> r[i].updatedAt >= r[j].updatedAt
  {
    var sorted := Listing.SortDesc(Owned(vaults, userId), UpdatedAt);
    var w := Selected(vaults, userId, offset, limit);
    assert w == Listing.Window(sorted, offset, limit);
    assert Listing.IsSortingDesc(sorted, Owned(vaults, userId), UpdatedAt);
    SelectedOwnedSorted(vaults, userId, offset, limit);
    ProjectListed(vaults, pages, userId, w);
    Project(w, pages)
  }

  /** Projecting ordered vaults of the caller gives ordered items, each listed from the caller's vaults. */
  lemma ProjectListed(vaults: seq<Store.Vault>, pages: seq<Store.Page>, userId: string, w: seq<Store.Vault>)
    requires forall v :: v in w ==> v in vaults && v.userId == userId
    requires Listing.SortedDesc(w, UpdatedAt)
    ensures var r := Project(w, pages);
      && (forall i :: 0 <= i < |r| ==> ListedFrom(vaults, pages, userId, r[i]))
      && (forall i :: 0 <= i < |r| ==> r[i].pagesCount == Store.PageCount(pages, r[i].id))
      && (forall i, j :: 0 <= i < j < |r| ==> r[i].updatedAt >= r[j].updatedAt)
  {
    var r := Project(w, pages);
    forall i | 0 <= i < |r| ensures ListedFrom(vaults, pages, userId, r[i]) {
      assert w[i] in w;
    }
    forall i, j | 0 <= i < j < |r| ensures r[i].updatedAt >= r[j].updatedAt {
      assert UpdatedAt(w[i]) >= UpdatedAt(w[j]);
    }
  }

  /** Projecting distributes over concatenation. */
  lemma ProjectAppend(x: seq<Store.Vault>, y: seq<Store.Vault>, pages: seq<Store.Page>)
    ensures Project(x + y, pages) == Project(x, pages) + Project(y, pages)
  {
    assert |Project(x + y, pages)| == |Project(x, pages) + Project(y, pages)|;
  }

  /**
   * Paging through the list loses and repeats nothing: the page of `a`
   * vaults at `offset` followed by the page of `b` vaults after it is the
   * page of `a + b` vaults at `offset`.
   */
  lemma ListingsTile(vaults: seq<Store.Vault>, pages: seq<Store.Page>, userId: string, offset: nat, a: nat, b: nat)
    ensures ListVaults(vaults, pages, userId, offset, a) + ListVaults(vaults, pages, userId, offset + a, b)
         == ListVaults(vaults, pages, userId, offset, a + b)
  {
    var sorted := Listing.SortDesc(Owned(vaults, userId), UpdatedAt);
    Listing.WindowsTile(sorted, offset, a, b);
    ProjectAppend(Listing.Window(sorted, offset, a), Listing.Window(sorted, offset + a, b), pages);
  }

  /** With `offset` 0 and a `limit` no smaller than the store, every vault of the caller is listed. */
  lemma ListedAll(vaults: seq<Store.Vault>, pages: seq<Store.Page>, userId: string, limit: nat)
    requires limit >= |vaults|
    ensures forall v :: v in vaults && v.userId == userId ==> Item(v, pages) in ListVaults(vaults, pages, userId, 0, limit)
  {
    var owned := Owned(vaults, userId);
    var sorted := Listing.SortDesc(owned, UpdatedAt);
    assert |sorted| == |multiset(sorted)| == |multiset(owned)| == |owned|;
    Listing.WholeWindow(sorted, limit);
    assert Selected(vaults, userId, 0, limit) == sorted;
    var r := ListVaults(vaults, pages, userId, 0, limit);
    forall v | v in vaults && v.userId == userId ensures Item(v, pages) in r {
      assert v in multiset(sorted);
      var k :| 0 <= k < |sorted| && sorted[k] == v;
      assert r[k] == Item(v, pages);
    }
  }

  /** The body of `GET`, up to the `try`: it answers a list or throws. */
  function ListOutcome(
    vaults: seq<Store.Vault>, pages: seq<Store.Page>,
    limitParam: Option<string>, offsetParam: Option<string>, session: Option<string>
  ): (r: Api.Outcome<seq<VaultItem>>)
    ensures
      var limit, offset := Request.PagingValue(limitParam, DefaultLimit), Request.PagingValue(offsetParam, DefaultOffset);
      var err := Request.PagingError(limit, offset);
      && (err.Some? ==> r == Api.Throw(err.value, 400))
      && (err.None? && session.None? ==> r == Api.Throw("Unauthorized", 401))
      && (r.Done? <==> err.None? && session.Some? && limit.Some? && offset.Some?)
      && (r.Done? ==> r.value == ListVaults(vaults, pages, session.value, offset.value, limit.value))
      && (err.None? && session.Some? && (limit.None? || offset.None?) ==> r == Api.Threw(Api.ThrownError(Request.NaNPaging)))
  {
    var limit := Request.PagingValue(limitParam, DefaultLimit);
    var offset := Request.PagingValue(offsetParam, DefaultOffset);
    var err := Request.PagingError(limit, offset);
    if err.Some? then Api.Throw(err.value, 400)
    else if session.None? then Api.Throw("Unauthorized", 401)
    else if limit.None? || offset.None? then Api.Threw(Api.ThrownError(Request.NaNPaging))
    else Api.Done(ListVaults(vaults, pages, session.value, offset.value, limit.value))
  }

  /** `GET /api/vaults`: the list under the key `sucess`, as the handler spells it, or the resolved fault. */
  function Get(db: Store.Db, limitParam: Option<string>, offsetParam: Option<string>, session: Option<string>): (r: Api.Reply<seq<VaultItem>>)
    reads db
    ensures
      var limit, offset := Request.PagingValue(limitParam, DefaultLimit), Request.PagingValue(offsetParam, DefaultOffset);
      var err := Request.PagingError(limit, offset);
      && (err.Some? ==> r == Api.FaultReply(err.value, 400))
      && (err.None? && session.None? ==> r == Api.FaultReply("Unauthorized", 401))
      && (err.None? && session.Some? && (limit.None? || offset.None?) ==>
            r == Api.Failure(Api.ErrorResponse(500, false, Api.Text(Request.NaNPaging))))
      && (r.Success? <==> err.None? && session.Some? && limit.Some? && offset.Some?)
      && (r.Success? ==> r.successKey == "sucess" && r.data == ListVaults(db.vaults, db.pages, session.value, offset.value, limit.value))
  {
    var outcome := ListOutcome(db.vaults, db.pages, limitParam, offsetParam, session);
    var err := Request.PagingError(Request.PagingValue(limitParam, DefaultLimit), Request.PagingValue(offsetParam, DefaultOffset));
    if err.Some? then
      Api.ThrowReplies<seq<VaultItem>>(err.value, 400, "sucess");
      Api.Respond(outcome, "sucess")
    else if session.None? then
      Api.ThrowReplies<seq<VaultItem>>("Unauthorized", 401, "sucess");
      Api.Respond(outcome, "sucess")
    else Api.Respond(outcome, "sucess")
  }

  /** Bad paging is answered 400 before the session is looked at, so even an anonymous caller gets it. */
  lemma PagingBeforeSession(vaults: seq<Store.Vault>, pages: seq<Store.Page>, limitParam: Option<string>, offsetParam: Option<string>, session: Option<string>)
    requires Request.PagingError(Request.PagingValue(limitParam, DefaultLimit), Request.PagingValue(offsetParam, DefaultOffset)).Some?
    ensures ListOutcome(vaults, pages, limitParam, offsetParam, session) == ListOutcome(vaults, pages, limitParam, offsetParam, None)
    ensures ListOutcome(vaults, pages, limitParam, offsetParam, session).thrown.fault.statusCode == 400
  {
  }

  /** Without paging parameters (both absent) the first ten vaults are listed. */
  lemma DefaultListing(
    vaults: seq<Store.Vault>, pages: seq<Store.Page>, userId: string,
    limitParam: Option<string>, offsetParam: Option<string>)
    requires limitParam == None && offsetParam == None
    ensures ListOutcome(vaults, pages, limitParam, offsetParam, Some(userId)) == Api.Done(ListVaults(vaults, pages, userId, 0, 10))
  {
    Request.DefaultTen();
    Request.DefaultZero();
    assert DefaultLimit == "10" && DefaultOffset == "0";
    assert Request.PagingValue(limitParam, DefaultLimit) == Some(10);
    assert Request.PagingValue(offsetParam, DefaultOffset) == Some(0);
  }

  // ----- POST -----

  /** The fields `POST` destructures from its body. */
  datatype VaultFields = VaultFields(title: Js.Value, description: Js.Value, icon: Js.Value, accentColor: Js.Value)

  /** `const { title, description, icon, accentColor } = body`. */
  function ReadFields(body: Js.Value): VaultFields
    requires !Js.IsNullish(body)
  {
    VaultFields(Js.Get(body, "title"), Js.Get(body, "description"), Js.Get(body, "icon"), Js.Get(body, "accentColor"))
  }

  /** The title is a non-empty string of at most 100 UTF-16 units, measured before trimming. */
  predicate TitleOk(title: Js.Value) {
    title.Str? && title.s != "" && JsString.Utf16Length(title.s) <= 100
  }

  /** The description is falsy, or a string of at most 500 UTF-16 units. */
  predicate DescriptionOk(description: Js.Value) {
    !Js.Truthy(description) || (description.Str? && JsString.Utf16Length(description.s) <= 500)
  }

  /** The body checks of `POST`, first failure wins; `None` when all pass. */
  function ValidationError(f: VaultFields): (e: Option<string>)
    ensures e.None? <==> TitleOk(f.title) && DescriptionOk(f.description)
    ensures e == Some("Title is required") <==> !f.title.Str? || f.title.s == ""
    ensures e == Some("Title is too long") <==> f.title.Str? && f.title.s != "" && JsString.Utf16Length(f.title.s) > 100
    ensures e == Some("Description must be a string") <==> TitleOk(f.title) && Js.Truthy(f.description) && !f.description.Str?
    ensures e == Some("Description is too long") <==> TitleOk(f.title) && !DescriptionOk(f.description) && f.description.Str?
  {
    if !Js.Truthy(f.title) || !f.title.Str? then Some("Title is required")
    else if JsString.Utf16Length(f.title.s) > 100 then Some("Title is too long")
    else if Js.Truthy(f.description) && !f.description.Str? then Some("Description must be a string")
    else if Js.Truthy(f.description) && JsString.Utf16Length(f.description.s) > 500 then Some("Description is too long")
    else None
  }

  /**
   * `v` is the record `POST` creates from the validated fields `f` for
   * `userId` at `now`: a `vault_` id around the random part, the trimmed
   * title, the description trimmed or null, icon and accent colour as sent or
   * null, and both timestamps `now`.
   */
  predicate Created(v: Store.Vault, f: VaultFields, userId: string, now: int, randomness: string) {
    && v.id == Utils.GenerateId("vault", randomness)
    && f.title.Str? && v.title == JsString.Trim(f.title.s)
    && Request.NormalisedText(f.description, v.description)
    && v.icon == Js.Or(f.icon, Js.Null)
    && v.accentColor == Js.Or(f.accentColor, Js.Null)
    && v.userId == userId
    && v.createdAt == now && v.updatedAt == now
  }

  /** What `POST` does, up to the `try`: the vault it inserts, or what it throws. */
  function CreateOutcome(session: Option<string>, body: Request.Body, now: int, randomness: string): (r: Api.Outcome<Store.Vault>)
    ensures session.None? ==> r == Api.Throw("Unauthorized", 401)
    ensures session.Some? && body.Malformed? ==> r == Api.Threw(Api.ThrownError(body.error))
    ensures session.Some? && body.Parsed? && Js.IsNullish(body.value) ==> r == Api.Threw(Api.ThrownError(Request.DestructureNull))
    ensures session.Some? && body.Parsed? && !Js.IsNullish(body.value) && ValidationError(ReadFields(body.value)).Some? ==>
              r == Api.Throw(ValidationError(ReadFields(body.value)).value, 400)
    ensures r.Done? <==>
              && session.Some? && body.Parsed? && !Js.IsNullish(body.value)
              && ValidationError(ReadFields(body.value)).None?
              && (Js.IsNullish(ReadFields(body.value).description) || ReadFields(body.value).description.Str?)
    ensures r.Done? ==> Created(r.value, ReadFields(body.value), session.value, now, randomness)
  {
    if session.None? then Api.Throw("Unauthorized", 401)
    else if body.Malformed? then Api.Threw(Api.ThrownError(body.error))
    else if Js.IsNullish(body.value) then Api.Threw(Api.ThrownError(Request.DestructureNull))
    else
      var f := ReadFields(body.value);
      var e := ValidationError(f);
      if e.Some? then Api.Throw(e.value, 400)
      else
        var description := Request.TrimOrNull("description", f.description);
        if description.Threw? then Api.Threw(description.thrown)
        else
          Api.Done(Store.Vault(
            Utils.GenerateId("vault", randomness), JsString.Trim(f.title.s), description.value,
            Js.Or(f.icon, Js.Null), Js.Or(f.accentColor, Js.Null), session.value, now, now))
  }

  /** The `data` of `POST`'s answer: the stored vault without its owner. */
  datatype CreatedVault = CreatedVault(
    id: string,
    title: string,
    description: Option<string>,
    icon: Js.Value,
    accentColor: Js.Value,
    updatedAt: int,
    createdAt: int)

  function Echo(v: Store.Vault): CreatedVault {
    CreatedVault(v.id, v.title, v.description, v.icon, v.accentColor, v.updatedAt, v.createdAt)
  }

  /** `POST`'s answer for an outcome: the echoed vault under the key `success`, or the resolved fault. */
  function CreateReply(o: Api.Outcome<Store.Vault>): (r: Api.Reply<CreatedVault>)
    ensures o.Done? <==> r.Success?
    ensures o.Done? ==> r == Api.Success("success", Echo(o.value))
    ensures o.Threw? ==> r == Api.Failure(Api.ResolveAPIErrors(o.thrown))
  {
    match o
    case Done(v) => Api.Success("success", Echo(v))
    case Threw(t) => Api.Failure(Api.ResolveAPIErrors(t))
  }

  /**
   * `POST /api/vaults`: the guard chain, then one insert. The store grows by
   * exactly the vault `CreateOutcome` describes, or not at all.
   */
  method Post(db: Store.Db, session: Option<string>, body: Request.Body, now: int, randomness: string)
    returns (reply: Api.Reply<CreatedVault>)
    requires db.Valid()
    modifies db
    ensures db.Valid()
    ensures reply == CreateReply(CreateOutcome(session, body, now, randomness))
    ensures CreateOutcome(session, body, now, randomness).Done? ==>
              db.vaults == old(db.vaults) + [CreateOutcome(session, body, now, randomness).value]
    ensures CreateOutcome(session, body, now, randomness).Threw? ==> db.vaults == old(db.vaults)
    ensures db.pages == old(db.pages)
  {
    if session.None? {
      return CreateReply(Api.Throw("Unauthorized", 401));
    }
    if body.Malformed? {
      return CreateReply(Api.Threw(Api.ThrownError(body.error)));
    }
    if Js.IsNullish(body.value) {
      return CreateReply(Api.Threw(Api.ThrownError(Request.DestructureNull)));
    }
    var f := ReadFields(body.value);
    var e := ValidationError(f);
    if e.Some? {
      return CreateReply(Api.Throw(e.value, 400));
    }
    var description := Request.TrimOrNull("description", f.description);
    if description.Threw? {
      return CreateReply(Api.Threw(description.thrown));
    }
    var v := Store.Vault(
      Utils.GenerateId("vault", randomness), JsString.Trim(f.title.s), description.value,
      Js.Or(f.icon, Js.Null), Js.Or(f.accentColor, Js.Null), session.value, now, now);
    db.InsertVault(v);
    reply := CreateReply(Api.Done(v));
  }

  /** A created vault is at the owner's disposal: a first page large enough lists it. */
  lemma CreatedIsListed(vaults: seq<Store.Vault>, pages: seq<Store.Page>, session: Option<string>, body: Request.Body, now: int, randomness: string, limit: nat)
    requires CreateOutcome(session, body, now, randomness).Done?
    requires limit > |vaults|
    ensures
      var v := CreateOutcome(session, body, now, randomness).value;
      Item(v, pages) in ListVaults(vaults + [v], pages, session.value, 0, limit)
  {
    var v := CreateOutcome(session, body, now, randomness).value;
    ListedAll(vaults + [v], pages, session.value, limit);
    assert v in vaults + [v];
  }

  /**
   * A non-empty title that trims to nothing (all white space, by
   * `JsString.TrimEmptyIff`) passes validation and is stored empty.
   */
  lemma BlankTitleStoredEmpty(userId: string, body: Js.Value, title: string, now: int, randomness: string)
    requires body.Obj? && "title" in body.props && body.props["title"] == Js.Str(title)
    requires "description" !in body.props
    requires title != [] && JsString.Utf16Length(title) <= 100
    requires JsString.Trim(title) == ""
    ensures
      var r := CreateOutcome(Some(userId), Request.Parsed(body), now, randomness);
      r.Done? && r.value.title == "" && r.value.description == None
  {
    var f := ReadFields(body);
    assert f.title == Js.Str(title) && f.description == Js.Undefined;
    assert TitleOk(f.title) && DescriptionOk(f.description);
    assert ValidationError(f).None?;
    var r := CreateOutcome(Some(userId), Request.Parsed(body), now, randomness);
    assert r.Done?;
    assert Created(r.value, f, userId, now, randomness);
    assert r.value.title == JsString.Trim(title);
    assert Request.NormalisedText(Js.Undefined, r.value.description);
  }

  /** An anonymous caller gets 401 whatever the body, before it is read. */
  lemma AnonymousFirst(body: Request.Body, now: int, randomness: string)
    ensures CreateReply(CreateOutcome(None, body, now, randomness)) == Api.FaultReply("Unauthorized", 401)
  {
  }
}
