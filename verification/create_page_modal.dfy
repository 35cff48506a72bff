/**
 * The create-page dialog: its form schema, the tag string it turns into a
 * list (split at commas, trimmed, empties dropped), the request body it
 * sends to `POST /api/pages`, and the close action that waits for a
 * pending create.
 */
module CreatePageModal {
  import opened Wrappers
  import opened JsString
  import Js
  import Store
  import Request
  import PagesRoute

  // ----- tags -----

  /** `.map((tag) => tag.trim())`. */
  function TrimEach(parts: seq<string>): (r: seq<string>)
    ensures |r| == |parts| && forall i :: 0 <= i < |parts| ==> r[i] == Trim(parts[i])
  {
    if parts == [] then [] else [Trim(parts[0])] + TrimEach(parts[1..])
  }

  /** `.filter(Boolean)`: the non-empty strings, in their order. */
  function NonEmpty(parts: seq<string>): (r: seq<string>)
    ensures |r| <= |parts|
    ensures forall t :: t in r <==> t in parts && t != ""
  {
    if parts == [] then []
    else if parts[0] == "" then NonEmpty(parts[1..])
    else [parts[0]] + NonEmpty(parts[1..])
  }

  /** Trimming comma-free parts gives trimmed, comma-free parts. */
  lemma TrimmedParts(parts: seq<string>)
    requires forall p :: p in parts ==> ',' !in p
    ensures forall t :: t in TrimEach(parts) ==> IsTrimmed(t) && ',' !in t
  {
    var trimmed := TrimEach(parts);
    forall t | t in trimmed ensures IsTrimmed(t) && ',' !in t {
      var i :| 0 <= i < |trimmed| && trimmed[i] == t;
      assert t == Trim(parts[i]);
      assert parts[i] in parts;
      assert ',' !in parts[i];
    }
  }

  /**
   * The split, trim and filter chain on a tag string: a string without a
   * comma gives its trimmed text as the one tag, or none when that is empty;
   * `PipelineAppend` gives the rest.
   */
  function Pipeline(s: string): (r: seq<string>)
    ensures |r| <= Count(s, ',') + 1
    ensures forall t :: t in r ==> t != "" && IsTrimmed(t) && ',' !in t
    ensures ',' !in s ==> r == if Trim(s) == "" then [] else [Trim(s)]
  {
    var parts := Split(s, ',');
    var trimmed := TrimEach(parts);
    TrimmedParts(parts);
    if ',' in s then NonEmpty(trimmed)
    else
      OneEntry(s);
      NonEmpty(trimmed)
  }

  /** A string without a comma is one entry: its trimmed text, dropped when empty. */
  lemma OneEntry(s: string)
    requires ',' !in s
    ensures NonEmpty(TrimEach(Split(s, ','))) == if Trim(s) == "" then [] else [Trim(s)]
  {
    SplitNoSep(s, ',');
    var t := Trim(s);
    assert TrimEach([s]) == [t];
    assert [t][1..] == [];
  }

  /**
   * The tags the dialog sends: nothing for an absent or empty tag string,
   * otherwise the comma-separated entries, trimmed, without empty ones.
   */
  function ParseTags(tags: Option<string>): (r: seq<string>)
    ensures tags.None? || tags.value == "" ==> r == []
    ensures forall t :: t in r ==> t != "" && IsTrimmed(t) && ',' !in t
    ensures tags.Some? ==> |r| <= Count(tags.value, ',') + 1
    ensures tags.Some? && ',' !in tags.value ==> r == if Trim(tags.value) == "" then [] else [Trim(tags.value)]
  {
    if tags.None? || tags.value == "" then [] else Pipeline(tags.value)
  }

  /** The chain applied to the empty string also gives no tags, so `ParseTags` is the chain wherever a string is given. */
  lemma ParseTagsIsPipeline(s: string)
    ensures ParseTags(Some(s)) == Pipeline(s)
  {
    if s == "" {
      var parts := Split(s, ',');
      assert parts == [""];
      assert Trim("") == "";
      var t := TrimEach(parts);
      assert t == [""];
      assert NonEmpty(t) == [];
    }
  }

  /** Filtering distributes over concatenation. */
  lemma {:induction false} NonEmptyAppend(a: seq<string>, b: seq<string>)
    ensures NonEmpty(a + b) == NonEmpty(a) + NonEmpty(b)
  {
    if a == [] {
      assert a + b == b;
    } else {
      assert (a + b)[0] == a[0];
      assert (a + b)[1..] == a[1..] + b;
      NonEmptyAppend(a[1..], b);
    }
  }

  /** Filtering strings that are all non-empty keeps them all. */
  lemma {:induction false} NonEmptyKeepsAll(parts: seq<string>)
    requires forall t :: t in parts ==> t != ""
    ensures NonEmpty(parts) == parts
  {
    if parts != [] {
      assert parts[0] in parts;
      assert forall t :: t in parts[1..] ==> t in parts;
      NonEmptyKeepsAll(parts[1..]);
    }
  }

  /** Trimming each part distributes over concatenation. */
  lemma {:induction false} TrimEachAppend(x: seq<string>, y: seq<string>)
    ensures TrimEach(x + y) == TrimEach(x) + TrimEach(y)
  {
    if x == [] {
      assert x + y == y;
    } else {
      assert (x + y)[0] == x[0];
      assert (x + y)[1..] == x[1..] + y;
      TrimEachAppend(x[1..], y);
    }
  }

  /** The chain distributes over a comma between two strings. */
  lemma PipelineAppend(a: string, b: string)
    ensures Pipeline(a + [','] + b) == Pipeline(a) + Pipeline(b)
  {
    SplitAppend(a, b, ',');
    var x, y := Split(a, ','), Split(b, ',');
    TrimEachAppend(x, y);
    NonEmptyAppend(TrimEach(x), TrimEach(y));
  }

  /**
   * Tags keep their order: the tags of two strings joined by a comma are the
   * tags of the first followed by those of the second.
   */
  lemma TagsConcat(a: string, b: string)
    ensures ParseTags(Some(a + "," + b)) == ParseTags(Some(a)) + ParseTags(Some(b))
  {
    var s := a + "," + b;
    assert s == a + [','] + b;
    ParseTagsIsPipeline(s);
    ParseTagsIsPipeline(a);
    ParseTagsIsPipeline(b);
    PipelineAppend(a, b);
  }

  /** Parsing is idempotent: the tags joined with `,` parse to the same tags. */
  lemma ParseTagsIdempotent(tags: Option<string>)
    ensures ParseTags(Some(Join(ParseTags(tags), ','))) == ParseTags(tags)
  {
    var t := ParseTags(tags);
    if t != [] {
      ParseTagsIsPipeline(Join(t, ','));
      SplitJoin(t, ',');
      assert TrimEach(t) == t by {
        forall i | 0 <= i < |t| ensures Trim(t[i]) == t[i] {
          assert t[i] in t;
          TrimTrimmed(t[i]);
        }
      }
      NonEmptyKeepsAll(t);
    }
  }

  // ----- form -----

  /** The form's values; `summary` and `tags` are optional in the schema. */
  datatype FormValues = FormValues(title: string, summary: Option<string>, content: string, tags: Option<string>)

  /** The form's `defaultValues`. */
  const DefaultValues: FormValues := FormValues("", Some(""), "", Some(""))

  /** The title's schema issue: between 1 and 200 UTF-16 units. */
  function TitleIssue(title: string): (e: Option<string>)
    ensures e.None? <==> 1 <= Utf16Length(title) <= 200
    ensures e == Some("Title is required") <==> title == ""
    ensures e == Some("Title is too long") <==> Utf16Length(title) > 200
  {
    if Utf16Length(title) < 1 then Some("Title is required")
    else if Utf16Length(title) > 200 then Some("Title is too long")
    else None
  }

  /** The summary's schema issue: absent, or at most 500 UTF-16 units. */
  function SummaryIssue(summary: Option<string>): (e: Option<string>)
    ensures e.None? <==> summary.None? || Utf16Length(summary.value) <= 500
    ensures e.Some? ==> e.value == "Summary is too long"
  {
    if summary.Some? && Utf16Length(summary.value) > 500 then Some("Summary is too long") else None
  }

  /** The content's schema issue: at least one UTF-16 unit. */
  function ContentIssue(content: string): (e: Option<string>)
    ensures e.None? <==> content != ""
    ensures e.Some? ==> e.value == "Content is required"
  {
    if Utf16Length(content) < 1 then Some("Content is required") else None
  }

  /** The form passes the schema when no field has an issue. */
  predicate Accepts(f: FormValues) {
    TitleIssue(f.title).None? && SummaryIssue(f.summary).None? && ContentIssue(f.content).None?
  }

  /** `data.summary || null`. */
  function SummaryOrNull(summary: Option<string>): (v: Js.Value)
    ensures summary.None? || summary.value == "" ==> v == Js.Null
    ensures summary.Some? && summary.value != "" ==> v == Js.Str(summary.value)
  {
    if summary.Some? && summary.value != "" then Js.Str(summary.value) else Js.Null
  }

  /** Each tag as a JSON string. */
  function TagValues(tags: seq<string>): (r: seq<Js.Value>)
    ensures |r| == |tags| && forall i :: 0 <= i < |tags| ==> r[i] == Js.Str(tags[i])
  {
    seq(|tags|, i requires 0 <= i < |tags| => Js.Str(tags[i]))
  }

  /** The object the dialog serialises as the request body. */
  function PostBody(vaultId: string, title: string, summary: Js.Value, content: string, tags: seq<Js.Value>): Js.Value {
    Js.Obj(map[
      "vaultId" := Js.Str(vaultId),
      "title" := Js.Str(title),
      "summary" := summary,
      "content" := Js.Str(content),
      "tags" := Js.Arr(tags)
    ])
  }

  /** The JSON body the dialog posts for vault `vaultId`. */
  function RequestBody(vaultId: string, f: FormValues): Js.Value {
    PostBody(vaultId, f.title, SummaryOrNull(f.summary), f.content, TagValues(ParseTags(f.tags)))
  }

  /** The fields the create handler reads from such a body; there is no thumbnail. */
  lemma BodyFields(vaultId: string, title: string, summary: Js.Value, content: string, tags: seq<Js.Value>)
    ensures PagesRoute.ReadFields(PostBody(vaultId, title, summary, content, tags)) ==
            PagesRoute.PageFields(Js.Str(vaultId), Js.Str(title), Js.Str(content), summary, Js.Undefined, Js.Arr(tags))
  {
    var props := PostBody(vaultId, title, summary, content, tags).props;
    assert "thumbnail" !in props;
  }

  /**
   * What the dialog accepts, the create handler accepts: the body built from
   * a form that passes the schema passes every field check of
   * `POST /api/pages`, carrying the vault, the summary and the parsed tags.
   */
  lemma AcceptedFormIsValid(vaultId: string, f: FormValues)
    requires vaultId != "" && Accepts(f)
    ensures PagesRoute.Valid(PagesRoute.ReadFields(RequestBody(vaultId, f)))
    ensures PagesRoute.ReadFields(RequestBody(vaultId, f)).vaultId == Js.Str(vaultId)
    ensures PagesRoute.ReadFields(RequestBody(vaultId, f)).summary == SummaryOrNull(f.summary)
    ensures PagesRoute.ReadFields(RequestBody(vaultId, f)).tags == Js.Arr(TagValues(ParseTags(f.tags)))
  {
    var summary, tags := SummaryOrNull(f.summary), TagValues(ParseTags(f.tags));
    BodyFields(vaultId, f.title, summary, f.content, tags);
    var fields := PagesRoute.ReadFields(PostBody(vaultId, f.title, summary, f.content, tags));
    assert PagesRoute.TitleOk(fields.title);
    assert PagesRoute.SummaryOk(fields.summary);
  }

  /** In a vault of the caller, the page is created from such a body, with the parsed tags. */
  lemma AcceptedFormIsCreated(vaults: seq<Store.Vault>, userId: string, vaultId: string, f: FormValues, now: int, randomness: string)
    requires vaultId != "" && Accepts(f)
    requires Store.Owns(vaults, vaultId, userId)
    ensures
      var r := PagesRoute.CreateOutcome(vaults, Some(userId), Request.Parsed(RequestBody(vaultId, f)), now, randomness);
      r.Done? && r.value.tags == TagValues(ParseTags(f.tags)) && r.value.vaultId == vaultId
  {
    var body := RequestBody(vaultId, f);
    var fields := PagesRoute.ReadFields(body);
    AcceptedFormIsValid(vaultId, f);
    assert Store.Owns(vaults, fields.vaultId.s, userId);
    PagesRoute.ValidBodyCreates(vaults, userId, body, now, randomness);
    var r := PagesRoute.CreateOutcome(vaults, Some(userId), Request.Parsed(body), now, randomness);
    assert r.Done? && PagesRoute.Created(r.value, fields, userId, now, randomness);
    assert Js.Truthy(fields.tags);
    assert r.value.tags == PagesRoute.StoredTags(fields.tags);
  }

  // ----- closing -----

  /** After `handleClose`: the form's values, and whether `onClose` was called. */
  datatype Closing = Closing(form: FormValues, closeCalled: bool)

  /** `handleClose()`: while a create is pending nothing happens; otherwise the form is reset and the dialog closed. */
  function HandleClose(pending: bool, form: FormValues): (r: Closing)
    ensures pending ==> r == Closing(form, false)
    ensures !pending ==> r.closeCalled && r.form == DefaultValues
  {
    if pending then Closing(form, false) else Closing(DefaultValues, true)
  }
}
