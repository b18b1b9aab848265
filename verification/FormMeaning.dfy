/** What the form of a profile update says, by the names and texts of its parts
  (src/accounts/endpoints.rs): nothing here follows the way in which the parts are consumed.
 */
module FormMeaning {
  import opened Wrappers
  import opened FormFields
  import Decimal

  // ---------- The parts for one place ----------

  // The last part that passes a test.
  function LastOf(parts: seq<Part>, test: Part -> bool): Option<Part>
    decreases |parts|
  {
    if parts == [] then None else
    var last := parts[|parts| - 1];
    if test(last) then Some(last) else LastOf(parts[..|parts| - 1], test)
  }

  function Named(name: string): Part -> bool {
    (part: Part) => part.Part? && part.name == name
  }

  function LastNamed(parts: seq<Part>, name: string): Option<Part> {
    LastOf(parts, Named(name))
  }

  // `fields_attributes[N][name]` or `fields_attributes[N][value]`, with the text of an index for N.
  ghost predicate IsKeyOf(name: string, i: nat, kind: Kind) {
    && i <= 0xFFFF_FFFF_FFFF_FFFF
    && exists index ::
      && Decimal.IsTextOf(index, i)
      && name == "fields_attributes[" + (index + ("][" + if kind.NameHalf? then "name]" else "value]"))
  }

  ghost function Keyed(i: nat, kind: Kind): Part -> bool {
    (part: Part) => part.Part? && IsKeyOf(part.name, i, kind)
  }

  // ---------- What the form holds ----------

  // The content of the last part of that name, or nothing.
  ghost predicate IsText(part: Option<Part>, text: Option<string>) {
    match part
    case None => text == None
    case Some(p) => p.Part? && p.content.Some? && text == p.content
  }

  // `true` and `1` are true, `false` and `0` are false, and there is no other text.
  ghost predicate IsFlag(part: Option<Part>, flag: Option<bool>) {
    match part
    case None => flag == None
    case Some(p) =>
      && p.Part?
      && (flag == Some(true) <==> p.content == Some("true") || p.content == Some("1"))
      && (flag == Some(false) <==> p.content == Some("false") || p.content == Some("0"))
      && flag != None
  }

  ghost predicate IsLevel(part: Option<Part>, level: Option<Visibility>) {
    match part
    case None => level == None
    case Some(p) =>
      && p.Part?
      && (level == Some(Public) <==> p.content == Some("public"))
      && (level == Some(Unlisted) <==> p.content == Some("unlisted"))
      && (level == Some(Private) <==> p.content == Some("private"))
      && (level == Some(Direct) <==> p.content == Some("direct"))
      && level != None
  }

  // An empty text clears the language.
  ghost predicate IsLanguage(part: Option<Part>, language: Option<Option<string>>) {
    match part
    case None => language == None
    case Some(p) =>
      && p.Part? && p.content.Some? && language.Some?
      && (language.value == None <==> p.content == Some(""))
      && (language.value.Some? ==> language.value == p.content)
  }

  ghost predicate IsFile(part: Option<Part>, upload: Option<Upload>) {
    match part
    case None => upload == None
    case Some(p) =>
      && p.Part? && upload.Some? && p.content == Some(upload.value.bytes)
      && (p.contentType.Some? ==> p.contentType == Some(upload.value.contentType))
      && (p.contentType == None ==> upload.value.contentType == "application/octet-stream")
  }

  // The halves at an index are the contents of the last parts with its keys; there is an entry only
  // if there is a half.
  ghost predicate AreHalves(parts: seq<Part>, fields: map<nat, Halves>, i: nat) {
    if i in fields then
      && IsText(LastOf(parts, Keyed(i, NameHalf)), fields[i].0)
      && IsText(LastOf(parts, Keyed(i, ValueHalf)), fields[i].1)
      && (fields[i].0.Some? || fields[i].1.Some?)
    else
      LastOf(parts, Keyed(i, NameHalf)) == None && LastOf(parts, Keyed(i, ValueHalf)) == None
  }

  ghost predicate IsFormOf(parts: seq<Part>, form: Form) {
    && IsText(LastNamed(parts, "display_name"), form.displayName)
    && IsText(LastNamed(parts, "note"), form.note)
    && IsFlag(LastNamed(parts, "locked"), form.locked)
    && IsFlag(LastNamed(parts, "bot"), form.bot)
    && IsFlag(LastNamed(parts, "discoverable"), form.discoverable)
    && IsLevel(LastNamed(parts, "source[privacy]"), form.sourcePrivacy)
    && IsFlag(LastNamed(parts, "source[sensitive]"), form.sourceSensitive)
    && IsLanguage(LastNamed(parts, "source[language]"), form.sourceLanguage)
    && IsFile(LastNamed(parts, "avatar"), form.avatar)
    && IsFile(LastNamed(parts, "header"), form.header)
    && forall i :: AreHalves(parts, form.fields, i)
  }

  // ---------- What is wrong with a part ----------

  predicate IsFlagName(name: string) {
    name == "locked" || name == "bot" || name == "discoverable" || name == "source[sensitive]"
  }

  ghost predicate IsAsked(name: string) {
    || IsFlagName(name) || name == "display_name" || name == "note" || name == "source[privacy]"
    || name == "source[language]" || name == "avatar" || name == "header"
    || exists i, kind :: IsKeyOf(name, i, kind)
  }

  // A part that cannot be split off, or that is asked for and cannot be read; a flag or a visibility
  // with another text than its own.
  ghost predicate IsProblem(part: Part, e: FormError) {
    if part.BrokenPart? then e == Multipart
    else if part.content == None then IsAsked(part.name) && e == Multipart
    else
      var text := part.content.value;
      || (IsFlagName(part.name) && e == NotABool(part.name)
          && text != "true" && text != "1" && text != "false" && text != "0")
      || (part.name == "source[privacy]" && e == NotAVisibility
          && text != "public" && text != "unlisted" && text != "private" && text != "direct")
  }

  // ---------- The slots are the names ----------

  lemma KeyOfExactly(name: string, i: nat, kind: Kind)
    ensures ParseFieldAttrKey(name) == Some((i, kind)) <==> IsKeyOf(name, i, kind)
  {
    KeyIsRecognisedExactly(name, i, kind);
    if ParseFieldAttrKey(name) == Some((i, kind)) {
      var index :| name == KeyText(index, kind) && Decimal.Parse(index, USIZE_MAX) == Some(i);
      Decimal.ParseExactly(index, USIZE_MAX, i);
    }
    if IsKeyOf(name, i, kind) {
      var index :| Decimal.IsTextOf(index, i) && name == KeyText(index, kind);
      Decimal.ParseExactly(index, USIZE_MAX, i);
    }
  }

  // No key of a profile field is one of the ten names: it is longer.
  lemma KeyIsLong(name: string)
    ensures ParseFieldAttrKey(name).Some? ==> |name| >= 18
  {
  }

  lemma HalfIsKeyed(name: string, i: nat, kind: Kind)
    ensures SlotOf(name) == Some(Half(i, kind)) <==> IsKeyOf(name, i, kind)
  {
    KeyOfExactly(name, i, kind);
    KeyIsLong(name);
  }

  lemma TextIsNamed(name: string)
    ensures SlotOf(name) == Some(DisplayName) <==> name == "display_name"
    ensures SlotOf(name) == Some(Note) <==> name == "note"
  {
  }

  lemma FlagIsNamed(name: string)
    ensures SlotOf(name) == Some(Locked) <==> name == "locked"
    ensures SlotOf(name) == Some(Bot) <==> name == "bot"
    ensures SlotOf(name) == Some(Discoverable) <==> name == "discoverable"
    ensures SlotOf(name) == Some(Sensitive) <==> name == "source[sensitive]"
  {
  }

  lemma SourceIsNamed(name: string)
    ensures SlotOf(name) == Some(Privacy) <==> name == "source[privacy]"
    ensures SlotOf(name) == Some(Language) <==> name == "source[language]"
  {
  }

  lemma FileIsNamed(name: string)
    ensures SlotOf(name) == Some(Avatar) <==> name == "avatar"
    ensures SlotOf(name) == Some(Header) <==> name == "header"
  {
  }

  // ---------- Reading the form ----------

  // The test is passed by the parts for that slot.
  ghost predicate Selects(test: Part -> bool, slot: Slot) {
    forall part :: test(part) <==> SlotAt(part) == Some(slot)
  }

  // The last part for a slot, once it is known which parts are for it.
  lemma {:induction false} LastForIsLastOf(parts: seq<Part>, slot: Slot, test: Part -> bool)
    requires AllGood(parts) && Selects(test, slot)
    ensures match LastOf(parts, test)
            case None => LastFor(parts, slot) == None
            case Some(p) => Fills(p, slot) && LastFor(parts, slot) == Some(PayloadOf(slot, p).value)
    decreases |parts|
  {
    if parts != [] {
      var rest, last := parts[..|parts| - 1], parts[|parts| - 1];
      GoodPartFills(last, slot);
      LastForIsLastOf(rest, slot, test);
    }
  }

  ghost predicate IsNameOf(slot: Slot, name: string) {
    forall n :: SlotOf(n) == Some(slot) <==> n == name
  }

  lemma NamesOfSlots()
    ensures IsNameOf(DisplayName, "display_name") && IsNameOf(Note, "note")
    ensures IsNameOf(Locked, "locked") && IsNameOf(Bot, "bot")
    ensures IsNameOf(Discoverable, "discoverable") && IsNameOf(Sensitive, "source[sensitive]")
    ensures IsNameOf(Privacy, "source[privacy]") && IsNameOf(Language, "source[language]")
    ensures IsNameOf(Avatar, "avatar") && IsNameOf(Header, "header")
  {
    forall n: string
      ensures SlotOf(n) == Some(DisplayName) <==> n == "display_name"
      ensures SlotOf(n) == Some(Note) <==> n == "note"
    {
      TextIsNamed(n);
    }
    forall n: string
      ensures SlotOf(n) == Some(Locked) <==> n == "locked"
      ensures SlotOf(n) == Some(Bot) <==> n == "bot"
      ensures SlotOf(n) == Some(Discoverable) <==> n == "discoverable"
      ensures SlotOf(n) == Some(Sensitive) <==> n == "source[sensitive]"
    {
      FlagIsNamed(n);
    }
    forall n: string
      ensures SlotOf(n) == Some(Privacy) <==> n == "source[privacy]"
      ensures SlotOf(n) == Some(Language) <==> n == "source[language]"
    {
      SourceIsNamed(n);
    }
    forall n: string
      ensures SlotOf(n) == Some(Avatar) <==> n == "avatar"
      ensures SlotOf(n) == Some(Header) <==> n == "header"
    {
      FileIsNamed(n);
    }
  }

  lemma {:induction false} NamedIsLast(parts: seq<Part>, slot: Slot, name: string)
    requires AllGood(parts) && IsNameOf(slot, name)
    ensures match LastNamed(parts, name)
            case None => LastFor(parts, slot) == None
            case Some(p) => Fills(p, slot) && LastFor(parts, slot) == Some(PayloadOf(slot, p).value)
  {
    assert Selects(Named(name), slot);
    LastForIsLastOf(parts, slot, Named(name));
  }

  lemma {:induction false} TextIsRead(parts: seq<Part>, slot: Slot, name: string, text: Option<string>)
    requires AllGood(parts) && IsNameOf(slot, name) && (slot.DisplayName? || slot.Note?)
    requires LastFor(parts, slot) == TextIn(text)
    ensures IsText(LastNamed(parts, name), text)
  {
    NamedIsLast(parts, slot, name);
  }

  lemma {:induction false} FlagIsRead(parts: seq<Part>, slot: Slot, name: string, flag: Option<bool>)
    requires AllGood(parts) && IsNameOf(slot, name)
    requires slot.Locked? || slot.Bot? || slot.Discoverable? || slot.Sensitive?
    requires LastFor(parts, slot) == FlagIn(flag)
    ensures IsFlag(LastNamed(parts, name), flag)
  {
    NamedIsLast(parts, slot, name);
  }

  lemma {:induction false} LevelIsRead(parts: seq<Part>, name: string, level: Option<Visibility>)
    requires AllGood(parts) && IsNameOf(Privacy, name)
    requires LastFor(parts, Privacy) == if level.Some? then Some(Level(level.value)) else None
    ensures IsLevel(LastNamed(parts, name), level)
  {
    NamedIsLast(parts, Privacy, name);
  }

  lemma {:induction false} LanguageIsRead(parts: seq<Part>, name: string, language: Option<Option<string>>)
    requires AllGood(parts) && IsNameOf(Language, name)
    requires LastFor(parts, Language) == if language.Some? then Some(Choice(language.value)) else None
    ensures IsLanguage(LastNamed(parts, name), language)
  {
    NamedIsLast(parts, Language, name);
  }

  lemma {:induction false} FileIsRead(parts: seq<Part>, slot: Slot, name: string, upload: Option<Upload>)
    requires AllGood(parts) && IsNameOf(slot, name) && (slot.Avatar? || slot.Header?)
    requires LastFor(parts, slot) == FileIn(upload)
    ensures IsFile(LastNamed(parts, name), upload)
  {
    NamedIsLast(parts, slot, name);
  }

  lemma KeyedExactly(part: Part, i: nat, kind: Kind)
    ensures Keyed(i, kind)(part) <==> SlotAt(part) == Some(Half(i, kind))
  {
    if part.Part? {
      HalfIsKeyed(part.name, i, kind);
    }
  }

  lemma {:induction false} KeyedIsLast(parts: seq<Part>, i: nat, kind: Kind)
    requires AllGood(parts)
    ensures match LastOf(parts, Keyed(i, kind))
            case None => LastFor(parts, Half(i, kind)) == None
            case Some(p) => p.Part? && p.content.Some? && LastFor(parts, Half(i, kind)) == Some(Text(p.content.value))
  {
    KeyedSelects(i, kind);
    LastForIsLastOf(parts, Half(i, kind), Keyed(i, kind));
    HalfHoldsText(i, kind, LastOf(parts, Keyed(i, kind)));
  }

  lemma KeyedSelects(i: nat, kind: Kind)
    ensures Selects(Keyed(i, kind), Half(i, kind))
  {
    forall part
      ensures Keyed(i, kind)(part) <==> SlotAt(part) == Some(Half(i, kind))
    {
      KeyedExactly(part, i, kind);
    }
  }

  lemma HalfHoldsText(i: nat, kind: Kind, part: Option<Part>)
    ensures part.Some? && Fills(part.value, Half(i, kind)) ==>
              && part.value.content.Some?
              && PayloadOf(Half(i, kind), part.value) == Ok(Text(part.value.content.value))
  {
  }

  lemma {:induction false} HalfIsRead(parts: seq<Part>, i: nat, kind: Kind, text: Option<string>)
    requires AllGood(parts) && LastFor(parts, Half(i, kind)) == TextIn(text)
    ensures IsText(LastOf(parts, Keyed(i, kind)), text)
  {
    KeyedIsLast(parts, i, kind);
  }

  lemma {:induction false} HalvesAreRead(parts: seq<Part>, form: Form, i: nat)
    requires AllGood(parts) && HoldsLast(form, parts)
    ensures AreHalves(parts, form.fields, i)
  {
    assert Get(form, Half(i, NameHalf)) == LastFor(parts, Half(i, NameHalf));
    assert Get(form, Half(i, ValueHalf)) == LastFor(parts, Half(i, ValueHalf));
    HalfIsRead(parts, i, NameHalf, HalvesAt(form.fields, i).0);
    HalfIsRead(parts, i, ValueHalf, HalvesAt(form.fields, i).1);
  }

  lemma {:induction false} SlotsAreHeld(parts: seq<Part>, form: Form)
    requires HoldsLast(form, parts)
    ensures LastFor(parts, DisplayName) == TextIn(form.displayName) && LastFor(parts, Note) == TextIn(form.note)
    ensures LastFor(parts, Locked) == FlagIn(form.locked) && LastFor(parts, Bot) == FlagIn(form.bot)
    ensures LastFor(parts, Discoverable) == FlagIn(form.discoverable)
    ensures LastFor(parts, Sensitive) == FlagIn(form.sourceSensitive)
    ensures LastFor(parts, Privacy) == if form.sourcePrivacy.Some? then Some(Level(form.sourcePrivacy.value)) else None
    ensures LastFor(parts, Language) ==
            if form.sourceLanguage.Some? then Some(Choice(form.sourceLanguage.value)) else None
    ensures LastFor(parts, Avatar) == FileIn(form.avatar) && LastFor(parts, Header) == FileIn(form.header)
  {
    assert Get(form, DisplayName) == LastFor(parts, DisplayName) && Get(form, Note) == LastFor(parts, Note);
    assert Get(form, Locked) == LastFor(parts, Locked) && Get(form, Bot) == LastFor(parts, Bot);
    assert Get(form, Discoverable) == LastFor(parts, Discoverable);
    assert Get(form, Sensitive) == LastFor(parts, Sensitive) && Get(form, Privacy) == LastFor(parts, Privacy);
    assert Get(form, Language) == LastFor(parts, Language);
    assert Get(form, Avatar) == LastFor(parts, Avatar) && Get(form, Header) == LastFor(parts, Header);
  }

  // Every item of an accepted form is what the last part with its own name says.
  lemma {:induction false} FormIsRead(parts: seq<Part>, form: Form)
    requires IsOutcome(parts, Ok(form))
    ensures IsFormOf(parts, form)
  {
    NamesOfSlots();
    SlotsAreHeld(parts, form);
    TextIsRead(parts, DisplayName, "display_name", form.displayName);
    TextIsRead(parts, Note, "note", form.note);
    FlagIsRead(parts, Locked, "locked", form.locked);
    FlagIsRead(parts, Bot, "bot", form.bot);
    FlagIsRead(parts, Discoverable, "discoverable", form.discoverable);
    FlagIsRead(parts, Sensitive, "source[sensitive]", form.sourceSensitive);
    LevelIsRead(parts, "source[privacy]", form.sourcePrivacy);
    LanguageIsRead(parts, "source[language]", form.sourceLanguage);
    FileIsRead(parts, Avatar, "avatar", form.avatar);
    FileIsRead(parts, Header, "header", form.header);
    forall i: nat
      ensures AreHalves(parts, form.fields, i)
    {
      HalvesAreRead(parts, form, i);
    }
  }

  // ---------- Reading the profile fields ----------

  // A half that was not sent is empty.
  ghost predicate IsHalf(part: Option<Part>, text: string) {
    match part
    case None => text == ""
    case Some(p) => p.Part? && p.content == Some(text)
  }

  ghost predicate IsSent(parts: seq<Part>, i: nat) {
    LastOf(parts, Keyed(i, NameHalf)).Some? || LastOf(parts, Keyed(i, ValueHalf)).Some?
  }

  // One field for each index that is sent, ascending, with the last text of each half.
  ghost predicate AreFields(parts: seq<Part>, indices: seq<nat>, out: seq<FieldInput>) {
    && |indices| == |out|
    && (forall k, l :: 0 <= k < l < |indices| ==> indices[k] < indices[l])
    && (forall i :: i in indices <==> IsSent(parts, i))
    && (forall k :: 0 <= k < |out| ==> IsFieldAt(parts, indices[k], out[k]))
  }

  ghost predicate IsFieldAt(parts: seq<Part>, i: nat, field: FieldInput) {
    && IsHalf(LastOf(parts, Keyed(i, NameHalf)), field.name)
    && IsHalf(LastOf(parts, Keyed(i, ValueHalf)), field.value)
  }

  lemma {:induction false} SentIsNamed(parts: seq<Part>, i: nat)
    requires AllGood(parts)
    ensures IsSent(parts, i) <==> Names(parts, i)
  {
    KeyedIsLast(parts, i, NameHalf);
    KeyedIsLast(parts, i, ValueHalf);
    NamesIsEitherHalf(parts, i);
  }

  lemma {:induction false} FieldIsRead(parts: seq<Part>, i: nat)
    requires AllGood(parts)
    ensures IsFieldAt(parts, i, FieldInput(LastText(parts, i, NameHalf), LastText(parts, i, ValueHalf)))
  {
    KeyedIsLast(parts, i, NameHalf);
    KeyedIsLast(parts, i, ValueHalf);
  }

  lemma {:induction false} FieldsAreRead(parts: seq<Part>, form: Form)
    requires IsOutcome(parts, Ok(form))
    ensures match BuildFieldsAttributes(form.fields)
            case None => forall i :: !IsSent(parts, i)
            case Some(out) => out != [] && exists indices :: AreFields(parts, indices, out)
  {
    FieldsComeOutInOrder(parts, form);
    forall i: nat
      ensures IsSent(parts, i) <==> Names(parts, i)
    {
      SentIsNamed(parts, i);
    }
    if BuildFieldsAttributes(form.fields).Some? {
      var out := BuildFieldsAttributes(form.fields).value;
      var indices :| AreFieldsOf(indices, out, parts);
      forall k | 0 <= k < |out|
        ensures IsFieldAt(parts, indices[k], out[k])
      {
        FieldIsRead(parts, indices[k]);
      }
      assert AreFields(parts, indices, out);
    }
  }

  // ---------- Reading the error ----------

  lemma AskedExactly(name: string)
    ensures IsAsked(name) <==> SlotOf(name).Some?
  {
    TextIsNamed(name);
    FlagIsNamed(name);
    SourceIsNamed(name);
    FileIsNamed(name);
    if SlotOf(name).Some? && SlotOf(name).value.Half? {
      HalfIsKeyed(name, SlotOf(name).value.index, SlotOf(name).value.kind);
    }
    if i, kind :| IsKeyOf(name, i, kind) {
      HalfIsKeyed(name, i, kind);
    }
  }

  lemma ReadablePartProblem(part: Part, slot: Slot, e: FormError)
    requires part.Part? && part.content.Some? && SlotOf(part.name) == Some(slot)
    ensures ProblemOf(part) == Some(e) <==> IsProblem(part, e)
  {
    FlagIsNamed(part.name);
    SourceIsNamed(part.name);
  }

  // What is wrong with a part is told by its name and text.
  lemma ProblemExactly(part: Part, e: FormError)
    ensures ProblemOf(part) == Some(e) <==> IsProblem(part, e)
  {
    if part.Part? {
      AskedExactly(part.name);
      if part.content.Some? && SlotOf(part.name).Some? {
        ReadablePartProblem(part, SlotOf(part.name).value, e);
      }
    }
  }

  // A refused form has the problem of its first part that has one.
  lemma {:induction false} ErrorIsFirstProblem(parts: seq<Part>, e: FormError)
    requires IsOutcome(parts, Err(e))
    ensures exists i ::
      0 <= i < |parts| && IsProblem(parts[i], e) && forall j, d :: 0 <= j < i ==> !IsProblem(parts[j], d)
  {
    var i :| 0 <= i < |parts| && AllGood(parts[..i]) && ProblemOf(parts[i]) == Some(e);
    ProblemExactly(parts[i], e);
    forall j, d | 0 <= j < i
      ensures !IsProblem(parts[j], d)
    {
      assert parts[..i][j] == parts[j];
      ProblemExactly(parts[j], d);
    }
  }

  // An accepted form has no part with a problem.
  lemma {:induction false} AcceptedHasNoProblem(parts: seq<Part>, form: Form)
    requires IsOutcome(parts, Ok(form))
    ensures forall i, e :: 0 <= i < |parts| ==> !IsProblem(parts[i], e)
  {
    forall i, e | 0 <= i < |parts|
      ensures !IsProblem(parts[i], e)
    {
      ProblemExactly(parts[i], e);
    }
  }
}
