/** Reading a fetched actor document (src/accounts/remote_fetcher.rs, with the checks of
  src/federation/jsonld/parse.rs that come before).
 */
module ActorDocument {
  import opened Wrappers
  import opened Json
  import opened ProfileFields
  import opened Strings

  datatype Problem =
    | MalformedJson
    | NotAnObject
    | MissingProperty(name: string)
    | NoHost

  // A cached remote account.
  datatype RemoteAccount = RemoteAccount(
    id: int,
    actorUri: string,
    username: string,
    domain: string,
    displayName: string,
    note: string,
    url: string,
    avatarUrl: Option<string>,
    headerUrl: Option<string>,
    fields: seq<Field>,
    bot: bool,
    locked: bool,
    fetchedAt: Instant)

  // ---------- The host of a URI ----------

  function HostFromActorUri(uri: string): Result<string, Problem> {
    var rest := match AfterMark(uri) { case Some(r) => r case None => uri };
    var host := Until(rest, AUTHORITY_STOPS);
    if host == "" then Err(NoHost) else Ok(host)
  }

  // The domain of an absolute URL is its authority, up to the path, query or fragment.
  lemma HostOfUrl(scheme: string, host: string, tail: string)
    requires ':' !in scheme && HasNone(host, AUTHORITY_STOPS) && StartsAfresh(tail, AUTHORITY_STOPS)
    ensures HostFromActorUri(scheme + "://" + (host + tail)) == if host == "" then Err(NoHost) else Ok(host)
  {
    AfterMarkOf(scheme, host + tail);
    UntilOf(host, tail, AUTHORITY_STOPS);
  }

  // Of any URI, the host is what stands behind the first `://`, or at the start if there is none, up to
  // the next `/`, `?` or `#`; there must be something.
  lemma HostExactly(uri: string) returns (start: nat)
    ensures start <= |uri|
    ensures if forall i: nat :: !IsMarkAt(uri, i) then start == 0 else start >= 3 && IsFirstMark(uri, start - 3)
    ensures match HostFromActorUri(uri)
            case Ok(host) =>
              && host != "" && HasNone(host, AUTHORITY_STOPS) && start + |host| <= |uri|
              && uri[start..start + |host|] == host && StartsAfresh(uri[start + |host|..], AUTHORITY_STOPS)
            case Err(e) => e == NoHost && StartsAfresh(uri[start..], AUTHORITY_STOPS)
  {
    var i := AfterMarkExactly(uri);
    start := if AfterMark(uri).Some? then i + 3 else 0;
    var rest := uri[start..];
    UntilIsPrefix(rest, AUTHORITY_STOPS);
    var host := Until(rest, AUTHORITY_STOPS);
    assert uri[start..start + |host|] == rest[..|host|] && uri[start + |host|..] == rest[|host|..];
  }

  // A stored domain is never empty and never holds a character that ends a host.
  lemma DomainIsWellFormed(uri: string)
    requires HostFromActorUri(uri).Ok?
    ensures HostFromActorUri(uri).value != "" && HasNone(HostFromActorUri(uri).value, AUTHORITY_STOPS)
  {
    UntilIsPrefix(match AfterMark(uri) { case Some(r) => r case None => uri }, AUTHORITY_STOPS);
  }

  // ---------- Images ----------

  // The image URL of a property value: a string, the `url` of an object, or the first of an array.
  function ExtractImageUrl(value: Json): Option<string>
    decreases value
  {
    match value
    case Str(url) => Some(url)
    case Obj(fields) => if "url" in fields then ExtractImageUrl(fields["url"]) else None
    case Arr(_) => FirstImageUrl(value, 0)
    case _ => None
  }

  function FirstImageUrl(value: Json, i: nat): Option<string>
    requires value.Arr?
    decreases value, |value.items| - i
  {
    if i >= |value.items| then None else
    var first := ExtractImageUrl(value.items[i]);
    if first.Some? then first else FirstImageUrl(value, i + 1)
  }

  // The path goes through `url` members and array items to a string.
  ghost predicate LeadsTo(value: Json, path: seq<Segment>, url: string) {
    && Lookup(value, path) == Some(Str(url))
    && forall i :: 0 <= i < |path| ==> path[i] == Key("url") || path[i].Index?
  }

  lemma LeadsThrough(value: Json, s: Segment, path: seq<Segment>, url: string)
    requires s == Key("url") || s.Index?
    ensures LeadsTo(value, [s] + path, url) <==> Child(value, s).Some? && LeadsTo(Child(value, s).value, path, url)
  {
    assert ([s] + path)[1..] == path;
    if LeadsTo(value, [s] + path, url) {
      assert forall i :: 0 <= i < |path| ==> path[i] == ([s] + path)[i + 1];
    }
  }

  lemma {:induction false} FoundUrlIsReached(value: Json) returns (path: seq<Segment>)
    requires ExtractImageUrl(value).Some?
    ensures LeadsTo(value, path, ExtractImageUrl(value).value)
    decreases value, 0, 0
  {
    if value.Str? {
      path := [];
    } else if value.Obj? {
      var rest := FoundUrlIsReached(value.fields["url"]);
      LeadsThrough(value, Key("url"), rest, ExtractImageUrl(value).value);
      path := [Key("url")] + rest;
    } else {
      var i := FirstItemWithUrl(value, 0);
      var rest := FoundUrlIsReached(value.items[i]);
      LeadsThrough(value, Index(i), rest, ExtractImageUrl(value).value);
      path := [Index(i)] + rest;
    }
  }

  lemma {:induction false} FirstItemWithUrl(value: Json, from: nat) returns (i: nat)
    requires value.Arr? && FirstImageUrl(value, from).Some?
    ensures from <= i < |value.items| && ExtractImageUrl(value.items[i]) == FirstImageUrl(value, from)
    ensures forall j :: from <= j < i ==> ExtractImageUrl(value.items[j]).None?
    decreases |value.items| - from
  {
    if ExtractImageUrl(value.items[from]).Some? {
      i := from;
    } else {
      i := FirstItemWithUrl(value, from + 1);
    }
  }

  lemma {:induction false} ItemWithUrlIsFound(value: Json, from: nat, i: nat)
    requires value.Arr? && from <= i < |value.items| && ExtractImageUrl(value.items[i]).Some?
    ensures FirstImageUrl(value, from).Some?
    decreases i - from
  {
    if ExtractImageUrl(value.items[from]).None? {
      ItemWithUrlIsFound(value, from + 1, i);
    }
  }

  lemma {:induction false} ReachedUrlIsFound(value: Json, path: seq<Segment>, url: string)
    requires LeadsTo(value, path, url)
    ensures ExtractImageUrl(value).Some?
    decreases |path|
  {
    if path != [] {
      assert path == [path[0]] + path[1..];
      LeadsThrough(value, path[0], path[1..], url);
      ReachedUrlIsFound(Child(value, path[0]).value, path[1..], url);
      if value.Arr? {
        ItemWithUrlIsFound(value, 0, path[0].at);
      }
    }
  }

  // An image URL is found exactly when `url` members and array items lead to a string.
  lemma ImageUrlIsFoundExactly(value: Json)
    ensures ExtractImageUrl(value).Some? <==> exists path, url :: LeadsTo(value, path, url)
    ensures ExtractImageUrl(value).Some? ==> exists path :: LeadsTo(value, path, ExtractImageUrl(value).value)
  {
    if ExtractImageUrl(value).Some? {
      var path := FoundUrlIsReached(value);
    }
    if path, url :| LeadsTo(value, path, url) {
      ReachedUrlIsFound(value, path, url);
    }
  }

  // ---------- Attached fields ----------

  // One attachment as a field: an object whose `type`, if it is a string, is `PropertyValue`, and
  // whose name and value are strings.
  function FieldOf(item: Json): Option<Field> {
    var kind := StringAt(item, "type");
    if !item.Obj? || (kind.Some? && kind.value != "PropertyValue") then None
    else match (StringAt(item, "name"), StringAt(item, "value"))
         case (Some(name), Some(value)) => Some(Field(name, value, None))
         case _ => None
  }

  function FieldsOf(items: seq<Json>): seq<Field> {
    if items == [] then [] else
    var last := |items| - 1;
    FieldsOf(items[..last]) + (match FieldOf(items[last]) case Some(f) => [f] case None => [])
  }

  function ExtractFields(value: Option<Json>): seq<Field> {
    match value
    case Some(Arr(items)) => FieldsOf(items)
    case _ => []
  }

  // A fetched field carries no verification time, so storing it loses nothing.
  lemma {:induction false} FetchedFieldsAreStoredWhole(items: seq<Json>)
    ensures FieldsFromJson(FieldsToJson(FieldsOf(items))) == Some(FieldsOf(items))
  {
    FetchedFieldsAreUnverified(items);
    FieldsReadBack(FieldsOf(items));
    assert Cut(FieldsOf(items)) == FieldsOf(items);
  }

  lemma {:induction false} FetchedFieldsAreUnverified(items: seq<Json>)
    ensures forall i :: 0 <= i < |FieldsOf(items)| ==> FieldsOf(items)[i].verifiedAt == None
    decreases |items|
  {
    if items != [] {
      FetchedFieldsAreUnverified(items[..|items| - 1]);
    }
  }

  ghost predicate HoldsText(t: Json, key: string, text: string) {
    t.Obj? && key in t.fields && t.fields[key] == Str(text)
  }

  // An attachment that is a profile field: an object with text as its name and its value, and no
  // other text than `PropertyValue` as its type.
  ghost predicate IsProfileField(item: Json) {
    && (exists name :: HoldsText(item, "name", name))
    && (exists value :: HoldsText(item, "value", value))
    && (forall kind :: HoldsText(item, "type", kind) ==> kind == "PropertyValue")
  }

  // `at` lists the positions of the profile fields among the attachments, in order and none left
  // out, and `fields` holds the name and value of each.
  ghost predicate AreFieldsAt(fields: seq<Field>, at: seq<nat>, items: seq<Json>) {
    && |at| == |fields|
    && (forall j :: 0 <= j < |at| ==> at[j] < |items|)
    && (forall j, k :: 0 <= j < k < |at| ==> at[j] < at[k])
    && (forall i :: 0 <= i < |items| ==> (IsProfileField(items[i]) <==> i in at))
    && (forall j :: 0 <= j < |at| ==> IsFieldAt(fields[j], items[at[j]]))
  }

  ghost predicate IsFieldAt(field: Field, item: Json) {
    HoldsText(item, "name", field.name) && HoldsText(item, "value", field.value) && field.verifiedAt == None
  }

  lemma FieldIsProfileField(item: Json)
    ensures FieldOf(item).Some? <==> IsProfileField(item)
    ensures FieldOf(item).Some? ==> IsFieldAt(FieldOf(item).value, item)
  {
    if FieldOf(item).Some? {
      assert HoldsText(item, "name", FieldOf(item).value.name);
      assert HoldsText(item, "value", FieldOf(item).value.value);
    }
    if IsProfileField(item) {
      var name :| HoldsText(item, "name", name);
      var value :| HoldsText(item, "value", value);
      if StringAt(item, "type").Some? {
        assert HoldsText(item, "type", StringAt(item, "type").value);
      }
    }
  }

  // The fields are the profile fields among the attachments, in order.
  lemma {:induction false} FieldsAreAttachments(items: seq<Json>) returns (at: seq<nat>)
    ensures AreFieldsAt(FieldsOf(items), at, items)
    decreases |items|
  {
    at := [];
    if items != [] {
      var last := |items| - 1;
      at := FieldsAreAttachments(items[..last]);
      at := NextFieldAt(FieldsOf(items[..last]), at, items);
    }
  }

  lemma NextFieldAt(fields: seq<Field>, at: seq<nat>, items: seq<Json>) returns (next: seq<nat>)
    requires items != [] && AreFieldsAt(fields, at, items[..|items| - 1])
    ensures var last := items[|items| - 1];
            AreFieldsAt(fields + (match FieldOf(last) case Some(f) => [f] case None => []), next, items)
  {
    var last := |items| - 1;
    FieldIsProfileField(items[last]);
    assert forall i :: 0 <= i < last ==> items[..last][i] == items[i];
    assert forall j :: 0 <= j < |at| ==> at[j] in at;
    next := at + (if FieldOf(items[last]).Some? then [last] else []);
    forall i | 0 <= i < |items|
      ensures IsProfileField(items[i]) <==> i in next
    {
      if i < last {
        assert IsProfileField(items[..last][i]) <==> i in at;
      }
    }
  }

  // The attachments of a document: none unless they stand in an array.
  function Attachments(document: Json): seq<Json> {
    match Child(document, Key("attachment"))
    case Some(Arr(items)) => items
    case _ => []
  }

  // ---------- Documents ----------

  // A property that must be a non-empty string.
  function Required(document: Json, name: string): Result<string, Problem> {
    match StringAt(document, name)
    case Some(s) => if s == "" then Err(MissingProperty(name)) else Ok(s)
    case None => Err(MissingProperty(name))
  }

  function OrElse(value: Option<string>, fallback: string): string {
    if value.Some? then value.value else fallback
  }

  datatype Parsed = Parsed(activityType: string, raw: Json)

  // A response body: none if it is not JSON text.
  function ParseActivity(body: Option<Json>): Result<Parsed, Problem> {
    if body.None? then Err(MalformedJson)
    else if !body.value.Obj? then Err(NotAnObject)
    else
      var id :- Required(body.value, "id");
      var kind :- Required(body.value, "type");
      Ok(Parsed(kind, body.value))
  }

  function NormalizeActorDocument(actorUri: string, parsed: Parsed, id: int, fetchedAt: Instant)
    : Result<RemoteAccount, Problem>
  {
    var document := parsed.raw;
    var username :- Required(document, "preferredUsername");
    var domain :- HostFromActorUri(actorUri);
    Ok(RemoteAccount(
         id, actorUri, username, domain,
         OrElse(StringAt(document, "name"), ""),
         OrElse(StringAt(document, "summary"), ""),
         OrElse(StringAt(document, "url"), actorUri),
         ImageAt(document, "icon"),
         ImageAt(document, "image"),
         ExtractFields(Child(document, Key("attachment"))),
         parsed.activityType == "Service",
         Child(document, Key("manuallyApprovesFollowers")) == Some(Bool(true)),
         fetchedAt))
  }

  function ImageAt(document: Json, name: string): Option<string> {
    match Child(document, Key(name))
    case Some(value) => ExtractImageUrl(value)
    case None => None
  }

  // The property is there as a non-empty string.
  ghost predicate HasText(document: Json, name: string) {
    document.Obj? && name in document.fields && document.fields[name].Str? && document.fields[name].value != ""
  }

  // A document is accepted exactly when it is an object with an id, a type and a username and the
  // URI has a host; nothing else in it matters.
  lemma DocumentIsAcceptedExactly(actorUri: string, body: Option<Json>, id: int, fetchedAt: Instant)
    ensures var parsed := ParseActivity(body);
            (parsed.Ok? && NormalizeActorDocument(actorUri, parsed.value, id, fetchedAt).Ok?) <==>
            && body.Some?
            && HasText(body.value, "id") && HasText(body.value, "type") && HasText(body.value, "preferredUsername")
            && HostFromActorUri(actorUri).Ok?
  {
  }

  ghost predicate SameAt(a: Json, b: Json, name: string) {
    Child(a, Key(name)) == Child(b, Key(name))
  }

  // The two objects have the same properties among those that are read.
  ghost predicate AgreeOnRead(a: Json, b: Json) {
    && a.Obj? && b.Obj?
    && SameAt(a, b, "id") && SameAt(a, b, "type") && SameAt(a, b, "preferredUsername")
    && SameAt(a, b, "name") && SameAt(a, b, "summary") && SameAt(a, b, "url")
    && SameAt(a, b, "icon") && SameAt(a, b, "image") && SameAt(a, b, "attachment")
    && SameAt(a, b, "manuallyApprovesFollowers")
  }

  lemma {:induction false} SameRead(a: Json, b: Json, name: string)
    requires SameAt(a, b, name)
    ensures StringAt(a, name) == StringAt(b, name) && ImageAt(a, name) == ImageAt(b, name)
  {
  }

  // Any other property may be there or not: it changes neither acceptance nor the account.
  lemma {:induction false} OtherPropertiesDoNotMatter(actorUri: string, a: Json, b: Json, id: int, fetchedAt: Instant)
    requires AgreeOnRead(a, b)
    ensures ParseActivity(Some(a)).Ok? <==> ParseActivity(Some(b)).Ok?
    ensures ParseActivity(Some(a)).Ok? ==>
              NormalizeActorDocument(actorUri, ParseActivity(Some(a)).value, id, fetchedAt) ==
              NormalizeActorDocument(actorUri, ParseActivity(Some(b)).value, id, fetchedAt)
  {
    SameRead(a, b, "id");
    SameRead(a, b, "type");
    SameRead(a, b, "preferredUsername");
    SameRead(a, b, "name");
    SameRead(a, b, "summary");
    SameRead(a, b, "url");
    SameRead(a, b, "icon");
    SameRead(a, b, "image");
  }

  // An accepted account carries the URI it was asked for, a usable name and domain, the id and the
  // stamp it was given, and fields that are stored whole.
  lemma NormalizedAccount(actorUri: string, parsed: Parsed, id: int, fetchedAt: Instant)
    requires NormalizeActorDocument(actorUri, parsed, id, fetchedAt).Ok?
    ensures var a := NormalizeActorDocument(actorUri, parsed, id, fetchedAt).value;
            && a.id == id && a.actorUri == actorUri && a.fetchedAt == fetchedAt
            && a.username != "" && a.domain != "" && HasNone(a.domain, AUTHORITY_STOPS)
            && FieldsFromJson(FieldsToJson(a.fields)) == Some(a.fields)
  {
    DomainIsWellFormed(actorUri);
    match Child(parsed.raw, Key("attachment"))
    case Some(Arr(items)) => FetchedFieldsAreStoredWhole(items);
    case _ => FetchedFieldsAreStoredWhole([]);
  }

  // `text` is the string the document holds at `key`, or the fallback if it holds none there.
  ghost predicate IsTextOr(document: Json, key: string, fallback: string, text: string) {
    if Lookup(document, [Key(key)]).Some? && Lookup(document, [Key(key)]).value.Str?
    then text == Lookup(document, [Key(key)]).value.value else text == fallback
  }

  // `url` is reached from `key` through `url` members and array items; none if nothing is.
  ghost predicate IsImageAt(document: Json, key: string, url: Option<string>) {
    match url
    case Some(u) =>
      exists path :: Lookup(document, [Key(key)]).Some? && LeadsTo(Lookup(document, [Key(key)]).value, path, u)
    case None =>
      Lookup(document, [Key(key)]).Some? ==>
        forall path, u :: !LeadsTo(Lookup(document, [Key(key)]).value, path, u)
  }

  lemma ImageIsAt(document: Json, key: string)
    ensures IsImageAt(document, key, ImageAt(document, key))
  {
    LookupLast(document, [], Key(key));
    assert [] + [Key(key)] == [Key(key)];
    if Child(document, Key(key)).Some? {
      ImageUrlIsFoundExactly(Child(document, Key(key)).value);
    }
  }

  lemma TextIsAt(document: Json, key: string, fallback: string)
    ensures IsTextOr(document, key, fallback, OrElse(StringAt(document, key), fallback))
  {
    LookupLast(document, [], Key(key));
    assert [] + [Key(key)] == [Key(key)];
  }

  // Each field of an accepted account is what its own property of the document says, or its default.
  lemma AccountReadsDocument(actorUri: string, body: Json, id: int, fetchedAt: Instant)
    requires ParseActivity(Some(body)).Ok?
    requires NormalizeActorDocument(actorUri, ParseActivity(Some(body)).value, id, fetchedAt).Ok?
    ensures var a := NormalizeActorDocument(actorUri, ParseActivity(Some(body)).value, id, fetchedAt).value;
            && IsTextOr(body, "preferredUsername", "", a.username)
            && IsTextOr(body, "name", "", a.displayName)
            && IsTextOr(body, "summary", "", a.note)
            && IsTextOr(body, "url", actorUri, a.url)
            && IsImageAt(body, "icon", a.avatarUrl)
            && IsImageAt(body, "image", a.headerUrl)
            && (a.bot <==> IsTextOr(body, "type", "", "Service"))
            && (a.locked <==> Child(body, Key("manuallyApprovesFollowers")) == Some(Bool(true)))
            && exists at :: AreFieldsAt(a.fields, at, Attachments(body))
  {
    var at := FieldsAreAttachments(Attachments(body));
    var kind := ParseActivity(Some(body)).value.activityType;
    TextIsAt(body, "preferredUsername", "");
    TextIsAt(body, "name", "");
    TextIsAt(body, "summary", "");
    TextIsAt(body, "url", actorUri);
    TextIsAt(body, "type", "");
    assert IsTextOr(body, "type", "", kind);
    ImageIsAt(body, "icon");
    ImageIsAt(body, "image");
  }

  // ---------- Acceptance and refusal ----------

  // A body from which an account is made: an object with an id, a type and a username, for a URI with
  // a host.
  ghost predicate IsActor(body: Option<Json>, actorUri: string) {
    && body.Some?
    && HasText(body.value, "id") && HasText(body.value, "type") && HasText(body.value, "preferredUsername")
    && HostFromActorUri(actorUri).Ok?
  }

  // Why a body is refused: the first thing that is wrong with it.
  ghost predicate IsRefusal(body: Option<Json>, actorUri: string, problem: Problem) {
    if body == None then problem == MalformedJson
    else if !body.value.Obj? then problem == NotAnObject
    else if !HasText(body.value, "id") then problem == MissingProperty("id")
    else if !HasText(body.value, "type") then problem == MissingProperty("type")
    else if !HasText(body.value, "preferredUsername") then problem == MissingProperty("preferredUsername")
    else problem == NoHost && HostFromActorUri(actorUri).Err?
  }

  // The account that a body describes, read for that URI at that time.
  ghost predicate IsAccountOf(a: RemoteAccount, body: Json, actorUri: string, fetchedAt: Instant) {
    && a.actorUri == actorUri && a.fetchedAt == fetchedAt && HostFromActorUri(actorUri) == Ok(a.domain)
    && IsTextOr(body, "preferredUsername", "", a.username)
    && IsTextOr(body, "name", "", a.displayName)
    && IsTextOr(body, "summary", "", a.note)
    && IsTextOr(body, "url", actorUri, a.url)
    && IsImageAt(body, "icon", a.avatarUrl)
    && IsImageAt(body, "image", a.headerUrl)
    && (a.bot <==> IsTextOr(body, "type", "", "Service"))
    && (a.locked <==> Child(body, Key("manuallyApprovesFollowers")) == Some(Bool(true)))
    && exists at :: AreFieldsAt(a.fields, at, Attachments(body))
  }

  // An actor gives its account, with the id as minted; anything else is refused by its problem.
  lemma BodyExactly(body: Option<Json>, actorUri: string, id: int, fetchedAt: Instant)
    ensures IsActor(body, actorUri) ==>
              && ParseActivity(body).Ok?
              && var r := NormalizeActorDocument(actorUri, ParseActivity(body).value, id, fetchedAt);
              r.Ok? && r.value.id == id && IsAccountOf(r.value, body.value, actorUri, fetchedAt)
    ensures !IsActor(body, actorUri) ==>
              match ParseActivity(body)
              case Err(problem) => IsRefusal(body, actorUri, problem)
              case Ok(parsed) =>
                var r := NormalizeActorDocument(actorUri, parsed, id, fetchedAt);
                r.Err? && IsRefusal(body, actorUri, r.error)
  {
    if IsActor(body, actorUri) {
      DocumentIsAcceptedExactly(actorUri, body, id, fetchedAt);
      AccountReadsDocument(actorUri, body.value, id, fetchedAt);
      NormalizedAccount(actorUri, ParseActivity(body).value, id, fetchedAt);
    } else {
      RefusedExactly(body, actorUri, id, fetchedAt);
    }
  }

  lemma RefusedExactly(body: Option<Json>, actorUri: string, id: int, fetchedAt: Instant)
    requires !IsActor(body, actorUri)
    ensures match ParseActivity(body)
            case Err(problem) => IsRefusal(body, actorUri, problem)
            case Ok(parsed) =>
              var r := NormalizeActorDocument(actorUri, parsed, id, fetchedAt);
              r.Err? && IsRefusal(body, actorUri, r.error)
  {
  }

  // The fields of such an account have no verification time, so that storing them changes nothing.
  lemma FieldsStayWhole(a: RemoteAccount, body: Json, actorUri: string, fetchedAt: Instant)
    requires IsAccountOf(a, body, actorUri, fetchedAt)
    ensures Cut(a.fields) == a.fields
  {
    var at :| AreFieldsAt(a.fields, at, Attachments(body));
    forall i | 0 <= i < |a.fields|
      ensures CutField(a.fields[i]) == a.fields[i]
    {
      assert IsFieldAt(a.fields[i], Attachments(body)[at[i]]);
    }
  }
}
