/** The stored profile of a local account and its partial updates
  (src/accounts/profile_repository.rs, src/accounts/model.rs).
 */
module Profile {
  import opened Wrappers
  import opened Json
  import opened ProfileFields
  import opened FormFields

  type Id = int

  datatype CredentialSource = CredentialSource(
    privacy: Visibility,
    sensitive: bool,
    language: Option<string>,
    note: string,
    fields: seq<Field>,
    followRequestsCount: nat)

  datatype AccountProfile = AccountProfile(
    actorId: Id,
    displayName: string,
    note: string,
    avatarMedia: Option<Id>,
    headerMedia: Option<Id>,
    fields: seq<Field>,
    locked: bool,
    bot: bool,
    discoverable: bool,
    source: CredentialSource)

  // A partial update: an absent item leaves its column alone; `Some(None)` clears it.
  datatype ProfilePatch = ProfilePatch(
    displayName: Option<string>,
    note: Option<string>,
    avatarMedia: Option<Option<Id>>,
    headerMedia: Option<Option<Id>>,
    fields: Option<seq<Field>>,
    locked: Option<bool>,
    bot: Option<bool>,
    discoverable: Option<bool>,
    sourcePrivacy: Option<Visibility>,
    sourceSensitive: Option<bool>,
    sourceLanguage: Option<Option<string>>)

  const NOTHING: ProfilePatch := ProfilePatch(None, None, None, None, None, None, None, None, None, None, None)

  function DefaultFor(actorId: Id): AccountProfile {
    AccountProfile(actorId, "", "", None, None, [], false, false, false,
                   CredentialSource(Public, false, None, "", [], 0))
  }

  // ---------- The table ----------

  // A row of `account_profiles`, column by column.
  datatype Row = Row(
    displayName: string,
    note: string,
    avatarMediaId: Option<Id>,
    headerMediaId: Option<Id>,
    fields: Json,
    locked: bool,
    bot: bool,
    discoverable: bool,
    sourcePrivacy: string,
    sourceSensitive: bool,
    sourceLanguage: Option<string>,
    updatedAt: Instant)

  type Rows = map<Id, Row>

  function VisibilityAsStr(v: Visibility): string {
    match v
    case Public => "public"
    case Unlisted => "unlisted"
    case Private => "private"
    case Direct => "direct"
  }

  // None where the program panics.
  function VisibilityFromStr(raw: string): Option<Visibility> {
    match ParseVisibility(raw)
    case Ok(v) => Some(v)
    case Err(_) => None
  }

  function RowToProfile(actorId: Id, row: Row): Option<AccountProfile> {
    match (FieldsFromJson(row.fields), VisibilityFromStr(row.sourcePrivacy))
    case (Some(fields), Some(privacy)) =>
      Some(AccountProfile(actorId, row.displayName, row.note, row.avatarMediaId, row.headerMediaId, fields,
                          row.locked, row.bot, row.discoverable,
                          CredentialSource(privacy, row.sourceSensitive, row.sourceLanguage, row.note, fields, 0)))
    case _ => None
  }

  function Coalesce<T>(first: Option<T>, second: T): T {
    if first.Some? then first.value else second
  }

  function Flatten<T>(value: Option<Option<T>>): Option<T> {
    if value.Some? then value.value else None
  }

  // The values bound to the statement.
  function FieldsBound(patch: ProfilePatch): Option<Json> {
    if patch.fields.Some? then Some(FieldsToJson(patch.fields.value)) else None
  }

  function PrivacyBound(patch: ProfilePatch): Option<string> {
    if patch.sourcePrivacy.Some? then Some(VisibilityAsStr(patch.sourcePrivacy.value)) else None
  }

  // The `VALUES` of the statement.
  function InsertedRow(patch: ProfilePatch, now: Instant): Row {
    Row(Coalesce(patch.displayName, ""),
        Coalesce(patch.note, ""),
        Flatten(patch.avatarMedia),
        Flatten(patch.headerMedia),
        Coalesce(FieldsBound(patch), Arr([])),
        Coalesce(patch.locked, false),
        Coalesce(patch.bot, false),
        Coalesce(patch.discoverable, false),
        Coalesce(PrivacyBound(patch), "public"),
        Coalesce(patch.sourceSensitive, false),
        Flatten(patch.sourceLanguage),
        now)
  }

  // Its `DO UPDATE SET`, over the row that was there.
  function UpdatedRow(row: Row, patch: ProfilePatch, now: Instant): Row {
    Row(Coalesce(patch.displayName, row.displayName),
        Coalesce(patch.note, row.note),
        if patch.avatarMedia.Some? then Flatten(patch.avatarMedia) else row.avatarMediaId,
        if patch.headerMedia.Some? then Flatten(patch.headerMedia) else row.headerMediaId,
        Coalesce(FieldsBound(patch), row.fields),
        Coalesce(patch.locked, row.locked),
        Coalesce(patch.bot, row.bot),
        Coalesce(patch.discoverable, row.discoverable),
        Coalesce(PrivacyBound(patch), row.sourcePrivacy),
        Coalesce(patch.sourceSensitive, row.sourceSensitive),
        if patch.sourceLanguage.Some? then Flatten(patch.sourceLanguage) else row.sourceLanguage,
        now)
  }

  function Upserted(rows: Rows, actorId: Id, patch: ProfilePatch, now: Instant): Rows {
    rows[actorId := if actorId in rows then UpdatedRow(rows[actorId], patch, now) else InsertedRow(patch, now)]
  }

  // Every stored row can be read.
  ghost predicate AllReadable(rows: Rows) {
    forall id :: id in rows ==> RowToProfile(id, rows[id]).Some?
  }

  function Find(rows: Rows, actorId: Id): Option<AccountProfile> {
    if actorId in rows then RowToProfile(actorId, rows[actorId]) else None
  }

  // ---------- What an update means ----------

  // The update of a profile, item by item.
  function Applied(p: AccountProfile, patch: ProfilePatch): AccountProfile {
    var note := Coalesce(patch.note, p.note);
    var fields := if patch.fields.Some? then Cut(patch.fields.value) else p.fields;
    AccountProfile(p.actorId,
      Coalesce(patch.displayName, p.displayName),
      note,
      Coalesce(patch.avatarMedia, p.avatarMedia),
      Coalesce(patch.headerMedia, p.headerMedia),
      fields,
      Coalesce(patch.locked, p.locked),
      Coalesce(patch.bot, p.bot),
      Coalesce(patch.discoverable, p.discoverable),
      CredentialSource(Coalesce(patch.sourcePrivacy, p.source.privacy),
                       Coalesce(patch.sourceSensitive, p.source.sensitive),
                       Coalesce(patch.sourceLanguage, p.source.language),
                       note, fields, 0))
  }

  // What is stored for an actor, or the default where nothing is.
  function StoredOrDefault(rows: Rows, actorId: Id): AccountProfile {
    match Find(rows, actorId)
    case Some(p) => p
    case None => DefaultFor(actorId)
  }

  lemma VisibilityReadsBack(v: Visibility)
    ensures VisibilityFromStr(VisibilityAsStr(v)) == Some(v)
  {
  }

  lemma FieldsBoundReadBack(patch: ProfilePatch, stored: Json)
    ensures FieldsFromJson(Coalesce(FieldsBound(patch), stored)) ==
            if patch.fields.Some? then Some(Cut(patch.fields.value)) else FieldsFromJson(stored)
  {
    if patch.fields.Some? {
      FieldsReadBack(patch.fields.value);
    }
  }

  lemma PrivacyBoundReadsBack(patch: ProfilePatch, stored: string)
    ensures VisibilityFromStr(Coalesce(PrivacyBound(patch), stored)) ==
            if patch.sourcePrivacy.Some? then patch.sourcePrivacy else VisibilityFromStr(stored)
  {
    if patch.sourcePrivacy.Some? {
      VisibilityReadsBack(patch.sourcePrivacy.value);
    }
  }

  // The statement applies the patch to what is stored, or to the default profile where nothing is,
  // and the profile it returns is what a later read finds; other actors' rows stay as they are.
  lemma UpsertApplies(rows: Rows, actorId: Id, patch: ProfilePatch, now: Instant)
    requires AllReadable(rows)
    ensures AllReadable(Upserted(rows, actorId, patch, now))
    ensures Find(Upserted(rows, actorId, patch, now), actorId) == Some(Applied(StoredOrDefault(rows, actorId), patch))
    ensures Upserted(rows, actorId, patch, now) - {actorId} == rows - {actorId}
  {
    var stored := if actorId in rows then rows[actorId].fields else Arr([]);
    FieldsBoundReadBack(patch, stored);
    PrivacyBoundReadsBack(patch, if actorId in rows then rows[actorId].sourcePrivacy else "public");
  }

  // One item of an update: what it says is what is there afterwards; if it says nothing, nothing changes.
  ghost predicate IsItem<T>(after: T, before: T, item: Option<T>) {
    match item
    case None => after == before
    case Some(v) => after == v
  }

  // The profile after an update, item by item. The mirror in the source follows the note and the fields.
  ghost predicate IsUpdated(after: AccountProfile, before: AccountProfile, patch: ProfilePatch) {
    && after.actorId == before.actorId
    && IsItem(after.displayName, before.displayName, patch.displayName)
    && IsItem(after.note, before.note, patch.note)
    && IsItem(after.avatarMedia, before.avatarMedia, patch.avatarMedia)
    && IsItem(after.headerMedia, before.headerMedia, patch.headerMedia)
    && (if patch.fields.Some? then after.fields == Cut(patch.fields.value) else after.fields == before.fields)
    && IsItem(after.locked, before.locked, patch.locked)
    && IsItem(after.bot, before.bot, patch.bot)
    && IsItem(after.discoverable, before.discoverable, patch.discoverable)
    && IsItem(after.source.privacy, before.source.privacy, patch.sourcePrivacy)
    && IsItem(after.source.sensitive, before.source.sensitive, patch.sourceSensitive)
    && IsItem(after.source.language, before.source.language, patch.sourceLanguage)
    && after.source.note == after.note && after.source.fields == after.fields
    && after.source.followRequestsCount == 0
  }

  // An actor without a profile has an empty one: public, and everything else off or unset.
  ghost predicate IsEmpty(p: AccountProfile, actorId: Id) {
    && p.actorId == actorId && p.displayName == "" && p.note == "" && p.fields == []
    && p.avatarMedia == None && p.headerMedia == None && !p.locked && !p.bot && !p.discoverable
    && p.source.privacy == Public && !p.source.sensitive && p.source.language == None
    && p.source.note == "" && p.source.fields == [] && p.source.followRequestsCount == 0
  }

  lemma AppliedExactly(p: AccountProfile, patch: ProfilePatch)
    ensures IsUpdated(Applied(p, patch), p, patch)
  {
  }

  lemma DefaultIsEmpty(actorId: Id)
    ensures IsEmpty(DefaultFor(actorId), actorId)
  {
  }

  // The columns of a row hold the items of its profile, and the time of the last update.
  ghost predicate IsRowOf(row: Row, p: AccountProfile, now: Instant) {
    && row.displayName == p.displayName && row.note == p.note
    && row.avatarMediaId == p.avatarMedia && row.headerMediaId == p.headerMedia
    && FieldsFromJson(row.fields) == Some(p.fields)
    && row.locked == p.locked && row.bot == p.bot && row.discoverable == p.discoverable
    && row.sourceSensitive == p.source.sensitive && row.sourceLanguage == p.source.language
    && row.updatedAt == now
    && row.sourcePrivacy == match p.source.privacy
                            case Public => "public"
                            case Unlisted => "unlisted"
                            case Private => "private"
                            case Direct => "direct"
  }

  lemma PrivacyTextIsUnique(raw: string, v: Visibility)
    requires VisibilityFromStr(raw) == Some(v)
    ensures raw == VisibilityAsStr(v)
  {
  }

  lemma UpsertWritesColumns(rows: Rows, actorId: Id, patch: ProfilePatch, now: Instant)
    requires AllReadable(rows)
    ensures IsRowOf(Upserted(rows, actorId, patch, now)[actorId], Applied(StoredOrDefault(rows, actorId), patch), now)
  {
    UpsertApplies(rows, actorId, patch, now);
    var row := Upserted(rows, actorId, patch, now)[actorId];
    PrivacyTextIsUnique(row.sourcePrivacy, Applied(StoredOrDefault(rows, actorId), patch).source.privacy);
  }

  // ---------- The algebra of updates ----------

  function Later<T>(p: Option<T>, q: Option<T>): Option<T> {
    if q.Some? then q else p
  }

  // Item by item, the later patch wins where it says something.
  function Composed(p: ProfilePatch, q: ProfilePatch): ProfilePatch {
    ProfilePatch(Later(p.displayName, q.displayName), Later(p.note, q.note),
                 Later(p.avatarMedia, q.avatarMedia), Later(p.headerMedia, q.headerMedia),
                 Later(p.fields, q.fields), Later(p.locked, q.locked), Later(p.bot, q.bot),
                 Later(p.discoverable, q.discoverable), Later(p.sourcePrivacy, q.sourcePrivacy),
                 Later(p.sourceSensitive, q.sourceSensitive), Later(p.sourceLanguage, q.sourceLanguage))
  }

  // Two updates leave the same table as one update with their composition.
  lemma UpsertsCompose(rows: Rows, actorId: Id, p: ProfilePatch, q: ProfilePatch, s: Instant, t: Instant)
    ensures Upserted(Upserted(rows, actorId, p, s), actorId, q, t) == Upserted(rows, actorId, Composed(p, q), t)
  {
  }

  lemma CompositionIsAMonoid(p: ProfilePatch, q: ProfilePatch, r: ProfilePatch)
    ensures Composed(Composed(p, q), r) == Composed(p, Composed(q, r))
    ensures Composed(NOTHING, p) == p && Composed(p, NOTHING) == p
  {
  }

  // Clearing an item and leaving it alone are told apart exactly where the item is set.
  lemma ClearIsNotUnchanged(x: AccountProfile, patch: ProfilePatch)
    ensures Applied(x, patch.(avatarMedia := Some(None))) != Applied(x, patch.(avatarMedia := None))
            <==> x.avatarMedia.Some?
    ensures Applied(x, patch.(headerMedia := Some(None))) != Applied(x, patch.(headerMedia := None))
            <==> x.headerMedia.Some?
    ensures Applied(x, patch.(sourceLanguage := Some(None))) != Applied(x, patch.(sourceLanguage := None))
            <==> x.source.language.Some?
  {
  }

  // ---------- Whole histories ----------

  datatype Update = Update(actorId: Id, patch: ProfilePatch, now: Instant)

  function After(rows: Rows, updates: seq<Update>): Rows
    decreases |updates|
  {
    if updates == [] then rows
    else After(Upserted(rows, updates[0].actorId, updates[0].patch, updates[0].now), updates[1..])
  }

  // All that a history says to one actor's profile.
  function ComposedFor(actorId: Id, updates: seq<Update>): ProfilePatch
    decreases |updates|
  {
    if updates == [] then NOTHING
    else if updates[0].actorId == actorId then Composed(updates[0].patch, ComposedFor(actorId, updates[1..]))
    else ComposedFor(actorId, updates[1..])
  }

  ghost predicate Touches(actorId: Id, updates: seq<Update>) {
    exists i :: 0 <= i < |updates| && updates[i].actorId == actorId
  }

  lemma AppliedTwice(x: AccountProfile, p: ProfilePatch, q: ProfilePatch)
    ensures Applied(Applied(x, p), q) == Applied(x, Composed(p, q))
  {
  }

  lemma StoredReflects(rows: Rows, actorId: Id)
    requires AllReadable(rows)
    ensures Applied(StoredOrDefault(rows, actorId), NOTHING) == StoredOrDefault(rows, actorId)
  {
  }

  // After any history of updates of any actors, in any order, an actor's profile is what was there
  // first, or the default, with the composition of that actor's own updates applied; and a row
  // appears only for an actor who was updated.
  lemma {:induction false} HistoryIsOneUpdate(rows: Rows, updates: seq<Update>, actorId: Id)
    requires AllReadable(rows)
    ensures AllReadable(After(rows, updates))
    ensures StoredOrDefault(After(rows, updates), actorId)
            == Applied(StoredOrDefault(rows, actorId), ComposedFor(actorId, updates))
    ensures actorId in After(rows, updates) <==> actorId in rows || Touches(actorId, updates)
    ensures !Touches(actorId, updates) && actorId in rows ==> After(rows, updates)[actorId] == rows[actorId]
    decreases |updates|
  {
    if updates == [] {
      StoredReflects(rows, actorId);
    } else {
      var u := updates[0];
      var next := Upserted(rows, u.actorId, u.patch, u.now);
      UpsertApplies(rows, u.actorId, u.patch, u.now);
      HistoryIsOneUpdate(next, updates[1..], actorId);
      TouchesRest(actorId, updates);
      if u.actorId == actorId {
        AppliedTwice(StoredOrDefault(rows, actorId), u.patch, ComposedFor(actorId, updates[1..]));
      }
    }
  }

  lemma TouchesRest(actorId: Id, updates: seq<Update>)
    requires updates != []
    ensures Touches(actorId, updates) <==> updates[0].actorId == actorId || Touches(actorId, updates[1..])
  {
    if Touches(actorId, updates[1..]) {
      var i :| 0 <= i < |updates[1..]| && updates[1..][i].actorId == actorId;
      assert updates[i + 1].actorId == actorId;
    }
    if Touches(actorId, updates) && updates[0].actorId != actorId {
      var i :| 0 <= i < |updates| && updates[i].actorId == actorId;
      assert updates[1..][i - 1].actorId == actorId;
    }
  }

  // The `account_profiles` table; each method is one SQL statement.
  class ProfileTable {
    var rows: Rows

    constructor ()
      ensures rows == map[] && AllReadable(rows)
    {
      rows := map[];
    }

    method FindProfile(actorId: Id) returns (found: Option<AccountProfile>)
      requires AllReadable(rows)
      ensures found == Find(rows, actorId)
      ensures found.Some? <==> actorId in rows
      ensures found.Some? ==> found.value.actorId == actorId
      ensures found.Some? ==>
                found.value.source.note == found.value.note && found.value.source.fields == found.value.fields
    {
      found := if actorId in rows then RowToProfile(actorId, rows[actorId]) else None;
    }

    method UpsertProfile(actorId: Id, patch: ProfilePatch, now: Instant) returns (profile: AccountProfile)
      requires AllReadable(rows)
      modifies this
      ensures AllReadable(rows)
      ensures rows == Upserted(old(rows), actorId, patch, now)
      ensures Find(rows, actorId) == Some(profile)
      ensures profile == Applied(StoredOrDefault(old(rows), actorId), patch)
      ensures match Find(old(rows), actorId)
              case Some(before) => IsUpdated(profile, before, patch)
              case None => exists before :: IsEmpty(before, actorId) && IsUpdated(profile, before, patch)
      ensures actorId in rows && IsRowOf(rows[actorId], profile, now)
      ensures rows - {actorId} == old(rows) - {actorId}
    {
      UpsertApplies(rows, actorId, patch, now);
      UpsertWritesColumns(rows, actorId, patch, now);
      AppliedExactly(StoredOrDefault(rows, actorId), patch);
      DefaultIsEmpty(actorId);
      if actorId in rows {
        rows := rows[actorId := UpdatedRow(rows[actorId], patch, now)];
      } else {
        rows := rows[actorId := InsertedRow(patch, now)];
      }
      profile := RowToProfile(actorId, rows[actorId]).value;
    }
  }
}
