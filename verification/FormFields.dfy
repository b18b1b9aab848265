/** The form of a profile update (src/accounts/endpoints.rs): its parts are consumed one by one, and
  the profile fields among them are collected by index.
 */
module FormFields {
  import opened Wrappers
  import Decimal
  import opened Sequences

  const USIZE_MAX: nat := 0xFFFF_FFFF_FFFF_FFFF

  datatype Visibility = Public | Unlisted | Private | Direct

  datatype FormError = Multipart | NotABool(field: string) | NotAVisibility

  // A part of the body as it arrives. Its content is none if it cannot be read to the end; a broken
  // part stands for a stream that cannot be split any further.
  datatype Part =
    | Part(name: string, contentType: Option<string>, content: Option<string>)
    | BrokenPart

  // ---------- Keys of profile fields ----------

  datatype Kind = NameHalf | ValueHalf

  const PREFIX := "fields_attributes["
  const DELIMITER := "]["

  predicate StartsWith(s: string, prefix: string) {
    prefix <= s
  }

  // The text before and after the first `][`.
  function SplitOnce(s: string): Option<(string, string)> {
    if |s| < 2 then None
    else if s[..2] == DELIMITER then Some(("", s[2..]))
    else match SplitOnce(s[1..])
         case None => None
         case Some((before, after)) => Some(([s[0]] + before, after))
  }

  function ParseFieldAttrKey(raw: string): Option<(nat, Kind)> {
    if !StartsWith(raw, PREFIX) then None else
    match SplitOnce(raw[|PREFIX|..])
    case None => None
    case Some((index, rest)) =>
      match Decimal.Parse(index, USIZE_MAX)
      case None => None
      case Some(i) =>
        if rest == "name]" then Some((i, NameHalf))
        else if rest == "value]" then Some((i, ValueHalf))
        else None
  }

  function KindText(kind: Kind): string {
    if kind.NameHalf? then "name]" else "value]"
  }

  function KeyText(index: string, kind: Kind): string {
    PREFIX + (index + (DELIMITER + KindText(kind)))
  }

  lemma {:induction false} SplitAtDelimiter(before: string, after: string)
    requires forall i :: 0 <= i < |before| ==> before[i] != ']'
    ensures SplitOnce(before + (DELIMITER + after)) == Some((before, after))
    decreases |before|
  {
    var s := before + (DELIMITER + after);
    if before == "" {
      assert s[..2] == DELIMITER && s[2..] == after;
    } else {
      assert s[0] == before[0] && s[..2][0] == before[0];
      assert s[1..] == before[1..] + (DELIMITER + after);
      SplitAtDelimiter(before[1..], after);
      assert before == [before[0]] + before[1..];
    }
  }

  lemma {:induction false} SplitJoins(s: string)
    requires SplitOnce(s).Some?
    ensures s == SplitOnce(s).value.0 + (DELIMITER + SplitOnce(s).value.1)
    decreases |s|
  {
    if s[..2] == DELIMITER {
      assert s == s[..2] + s[2..];
    } else {
      SplitJoins(s[1..]);
      var (before, after) := SplitOnce(s[1..]).value;
      calc {
        s;
        [s[0]] + s[1..];
        [s[0]] + (before + (DELIMITER + after));
        { JoinAssociates([s[0]], before, DELIMITER + after); }
        ([s[0]] + before) + (DELIMITER + after);
      }
    }
  }

  lemma DigitsHoldNoBracket(s: string)
    requires Decimal.Parse(s, USIZE_MAX).Some?
    ensures forall i :: 0 <= i < |s| ==> s[i] != ']'
  {
    if s[0] == '+' {
      assert forall i :: 1 <= i < |s| ==> s[i] == s[1..][i - 1];
    }
  }

  // The keys that are recognised, and what they mean.
  lemma KeyIsRecognisedExactly(raw: string, i: nat, kind: Kind)
    ensures ParseFieldAttrKey(raw) == Some((i, kind)) <==>
            exists index :: raw == KeyText(index, kind) && Decimal.Parse(index, USIZE_MAX) == Some(i)
  {
    if ParseFieldAttrKey(raw) == Some((i, kind)) {
      var rest := raw[|PREFIX|..];
      var index := SplitOnce(rest).value.0;
      SplitJoins(rest);
      assert raw == PREFIX + rest;
      assert raw == KeyText(index, kind);
    }
    if index :| raw == KeyText(index, kind) && Decimal.Parse(index, USIZE_MAX) == Some(i) {
      DigitsHoldNoBracket(index);
      assert raw[|PREFIX|..] == index + (DELIMITER + KindText(kind));
      SplitAtDelimiter(index, KindText(kind));
    }
  }

  // A printed key reads back, up to the largest index.
  lemma PrintedKeyReadsBack(i: nat, kind: Kind)
    ensures ParseFieldAttrKey(KeyText(Decimal.Print(i), kind)) == if i <= USIZE_MAX then Some((i, kind)) else None
  {
    var index := Decimal.Print(i);
    Decimal.ParseOfPrint(i, USIZE_MAX);
    assert KeyText(index, kind)[|PREFIX|..] == index + (DELIMITER + KindText(kind));
    SplitAtDelimiter(index, KindText(kind));
  }

  // ---------- What a part says ----------

  // The place of the form that a part fills.
  datatype Slot =
    | DisplayName | Note | Locked | Bot | Discoverable
    | Privacy | Sensitive | Language | Avatar | Header
    | Half(index: nat, kind: Kind)

  datatype Payload =
    | Text(text: string)
    | Flag(flag: bool)
    | Level(visibility: Visibility)
    | Choice(language: Option<string>)
    | File(bytes: string, contentType: string)

  function ParseLooseBool(field: string, raw: string): Result<bool, FormError> {
    if raw == "true" || raw == "1" then Ok(true)
    else if raw == "false" || raw == "0" then Ok(false)
    else Err(NotABool(field))
  }

  function ParseVisibility(raw: string): Result<Visibility, FormError> {
    if raw == "public" then Ok(Public)
    else if raw == "unlisted" then Ok(Unlisted)
    else if raw == "private" then Ok(Private)
    else if raw == "direct" then Ok(Direct)
    else Err(NotAVisibility)
  }

  function SlotOf(name: string): Option<Slot> {
    if name == "display_name" then Some(DisplayName)
    else if name == "note" then Some(Note)
    else if name == "locked" then Some(Locked)
    else if name == "bot" then Some(Bot)
    else if name == "discoverable" then Some(Discoverable)
    else if name == "source[privacy]" then Some(Privacy)
    else if name == "source[sensitive]" then Some(Sensitive)
    else if name == "source[language]" then Some(Language)
    else if name == "avatar" then Some(Avatar)
    else if name == "header" then Some(Header)
    else match ParseFieldAttrKey(name)
         case Some((i, kind)) => Some(Half(i, kind))
         case None => None
  }

  function ContentOf(part: Part): Result<string, FormError> {
    if part.Part? && part.content.Some? then Ok(part.content.value) else Err(Multipart)
  }

  const OCTETS := "application/octet-stream"

  function ContentTypeOf(part: Part): string {
    if part.Part? && part.contentType.Some? then part.contentType.value else OCTETS
  }

  // What a part puts into its slot.
  function PayloadOf(slot: Slot, part: Part): Result<Payload, FormError> {
    var raw :- ContentOf(part);
    match slot
    case Locked | Bot | Discoverable | Sensitive =>
      (var flag :- ParseLooseBool(part.name, raw);
       Ok(Flag(flag)))
    case Privacy =>
      (var visibility :- ParseVisibility(raw);
       Ok(Level(visibility)))
    case Language => Ok(Choice(if raw == "" then None else Some(raw)))
    case Avatar | Header => Ok(File(raw, ContentTypeOf(part)))
    case _ => Ok(Text(raw))
  }

  // ---------- The accumulated form ----------

  type Halves = (Option<string>, Option<string>)

  datatype Upload = Upload(bytes: string, contentType: string)

  datatype Form = Form(
    displayName: Option<string>,
    note: Option<string>,
    locked: Option<bool>,
    bot: Option<bool>,
    discoverable: Option<bool>,
    fields: map<nat, Halves>,
    sourcePrivacy: Option<Visibility>,
    sourceSensitive: Option<bool>,
    sourceLanguage: Option<Option<string>>,
    avatar: Option<Upload>,
    header: Option<Upload>)

  const EMPTY: Form := Form(None, None, None, None, None, map[], None, None, None, None, None)

  function HalvesAt(fields: map<nat, Halves>, i: nat): Halves {
    if i in fields then fields[i] else (None, None)
  }

  function WithHalf(fields: map<nat, Halves>, i: nat, kind: Kind, value: string): map<nat, Halves> {
    var h := HalvesAt(fields, i);
    fields[i := if kind.NameHalf? then (Some(value), h.1) else (h.0, Some(value))]
  }

  // What the form holds at a slot.
  function Get(form: Form, slot: Slot): Option<Payload> {
    match slot
    case DisplayName => TextIn(form.displayName)
    case Note => TextIn(form.note)
    case Locked => FlagIn(form.locked)
    case Bot => FlagIn(form.bot)
    case Discoverable => FlagIn(form.discoverable)
    case Privacy => if form.sourcePrivacy.Some? then Some(Level(form.sourcePrivacy.value)) else None
    case Sensitive => FlagIn(form.sourceSensitive)
    case Language => if form.sourceLanguage.Some? then Some(Choice(form.sourceLanguage.value)) else None
    case Avatar => FileIn(form.avatar)
    case Header => FileIn(form.header)
    case Half(i, kind) =>
      var h := HalvesAt(form.fields, i);
      TextIn(if kind.NameHalf? then h.0 else h.1)
  }

  function TextIn(text: Option<string>): Option<Payload> {
    if text.Some? then Some(Text(text.value)) else None
  }

  function FlagIn(flag: Option<bool>): Option<Payload> {
    if flag.Some? then Some(Flag(flag.value)) else None
  }

  function FileIn(upload: Option<Upload>): Option<Payload> {
    if upload.Some? then Some(File(upload.value.bytes, upload.value.contentType)) else None
  }

  // An index is entered only together with one of its halves.
  ghost predicate NoEmptyEntry(form: Form) {
    forall i :: i in form.fields ==> form.fields[i].0.Some? || form.fields[i].1.Some?
  }

  // The form is determined by its slots.
  lemma FormIsItsSlots(f: Form, g: Form)
    requires NoEmptyEntry(f) && NoEmptyEntry(g)
    requires forall slot :: Get(f, slot) == Get(g, slot)
    ensures f == g
  {
    assert Get(f, DisplayName) == Get(g, DisplayName) && Get(f, Note) == Get(g, Note);
    assert Get(f, Locked) == Get(g, Locked) && Get(f, Bot) == Get(g, Bot);
    assert Get(f, Discoverable) == Get(g, Discoverable) && Get(f, Privacy) == Get(g, Privacy);
    assert Get(f, Sensitive) == Get(g, Sensitive) && Get(f, Language) == Get(g, Language);
    assert Get(f, Avatar) == Get(g, Avatar) && Get(f, Header) == Get(g, Header);
    FieldsAreTheirHalves(f, g);
  }

  lemma FieldsAreTheirHalves(f: Form, g: Form)
    requires NoEmptyEntry(f) && NoEmptyEntry(g)
    requires forall slot :: Get(f, slot) == Get(g, slot)
    ensures f.fields == g.fields
  {
    forall i: nat
      ensures HalvesAt(f.fields, i) == HalvesAt(g.fields, i)
    {
      assert Get(f, Half(i, NameHalf)) == Get(g, Half(i, NameHalf));
      assert Get(f, Half(i, ValueHalf)) == Get(g, Half(i, ValueHalf));
    }
    assert forall i :: i in f.fields || i in g.fields ==> HalvesAt(f.fields, i) == HalvesAt(g.fields, i);
  }

  // ---------- The outcome ----------

  // Why a part makes the whole form fail. A part nobody asked for is ignored, whatever it holds.
  function ProblemOf(part: Part): Option<FormError> {
    if part.BrokenPart? then Some(Multipart) else
    match SlotOf(part.name)
    case None => None
    case Some(slot) =>
      match PayloadOf(slot, part)
      case Ok(_) => None
      case Err(e) => Some(e)
  }

  predicate Fills(part: Part, slot: Slot) {
    part.Part? && SlotOf(part.name) == Some(slot) && PayloadOf(slot, part).Ok?
  }

  // What the last part for a slot says.
  function LastFor(parts: seq<Part>, slot: Slot): Option<Payload>
    decreases |parts|
  {
    if parts == [] then None else
    var last := parts[|parts| - 1];
    if Fills(last, slot) then Some(PayloadOf(slot, last).value) else LastFor(parts[..|parts| - 1], slot)
  }

  ghost predicate AllGood(parts: seq<Part>) {
    forall i :: 0 <= i < |parts| ==> ProblemOf(parts[i]) == None
  }

  // The form holds, slot by slot, what was said last.
  ghost predicate HoldsLast(form: Form, parts: seq<Part>) {
    NoEmptyEntry(form) && forall slot :: Get(form, slot) == LastFor(parts, slot)
  }

  // The outcome of a body: the first part that fails makes it fail; otherwise every slot holds what
  // the last part for it says.
  ghost predicate IsOutcome(parts: seq<Part>, r: Result<Form, FormError>) {
    match r
    case Ok(form) => AllGood(parts) && HoldsLast(form, parts)
    case Err(e) => exists i :: 0 <= i < |parts| && AllGood(parts[..i]) && ProblemOf(parts[i]) == Some(e)
  }

  // The form after one slot is set.
  ghost predicate IsSet(after: Form, before: Form, slot: Slot, payload: Payload) {
    && (NoEmptyEntry(before) ==> NoEmptyEntry(after))
    && forall s :: Get(after, s) == if s == slot then Some(payload) else Get(before, s)
  }

  // The form with one slot set.
  function Put(form: Form, slot: Slot, payload: Payload): Form {
    match (slot, payload)
    case (DisplayName, Text(t)) => form.(displayName := Some(t))
    case (Note, Text(t)) => form.(note := Some(t))
    case (Locked, Flag(b)) => form.(locked := Some(b))
    case (Bot, Flag(b)) => form.(bot := Some(b))
    case (Discoverable, Flag(b)) => form.(discoverable := Some(b))
    case (Privacy, Level(v)) => form.(sourcePrivacy := Some(v))
    case (Sensitive, Flag(b)) => form.(sourceSensitive := Some(b))
    case (Language, Choice(l)) => form.(sourceLanguage := Some(l))
    case (Avatar, File(bytes, t)) => form.(avatar := Some(Upload(bytes, t)))
    case (Header, File(bytes, t)) => form.(header := Some(Upload(bytes, t)))
    case (Half(i, kind), Text(t)) => form.(fields := WithHalf(form.fields, i, kind, t))
    case _ => form
  }

  lemma PutSets(form: Form, slot: Slot, part: Part)
    requires PayloadOf(slot, part).Ok?
    ensures var payload := PayloadOf(slot, part).value; IsSet(Put(form, slot, payload), form, slot, payload)
  {
  }

  // One part, as the program consumes it.
  method TakePart(parsed: Form, part: Part) returns (r: Result<Form, FormError>)
    ensures ProblemOf(part).Some? ==> r == Err(ProblemOf(part).value)
    ensures ProblemOf(part).None? ==> r.Ok?
    ensures ProblemOf(part).None? && SlotOf(part.name).None? ==> r.value == parsed
    ensures ProblemOf(part).None? && SlotOf(part.name).Some? ==>
              var slot := SlotOf(part.name).value;
              Fills(part, slot) && IsSet(r.value, parsed, slot, PayloadOf(slot, part).value)
  {
    if part.BrokenPart? {
      return Err(Multipart);
    }
    ghost var slot := SlotOf(part.name);
    if slot.Some? && PayloadOf(slot.value, part).Ok? {
      PutSets(parsed, slot.value, part);
    }
    match part.name {
      case "display_name" =>
        var text :- ContentOf(part);
        r := Ok(parsed.(displayName := Some(text)));
      case "note" =>
        var text :- ContentOf(part);
        r := Ok(parsed.(note := Some(text)));
      case "locked" =>
        var raw :- ContentOf(part);
        var flag :- ParseLooseBool("locked", raw);
        r := Ok(parsed.(locked := Some(flag)));
      case "bot" =>
        var raw :- ContentOf(part);
        var flag :- ParseLooseBool("bot", raw);
        r := Ok(parsed.(bot := Some(flag)));
      case "discoverable" =>
        var raw :- ContentOf(part);
        var flag :- ParseLooseBool("discoverable", raw);
        r := Ok(parsed.(discoverable := Some(flag)));
      case "source[privacy]" =>
        var raw :- ContentOf(part);
        var visibility :- ParseVisibility(raw);
        r := Ok(parsed.(sourcePrivacy := Some(visibility)));
      case "source[sensitive]" =>
        var raw :- ContentOf(part);
        var flag :- ParseLooseBool("source[sensitive]", raw);
        r := Ok(parsed.(sourceSensitive := Some(flag)));
      case "source[language]" =>
        var raw :- ContentOf(part);
        r := Ok(parsed.(sourceLanguage := Some(if raw == "" then None else Some(raw))));
      case "avatar" =>
        var bytes :- ContentOf(part);
        r := Ok(parsed.(avatar := Some(Upload(bytes, ContentTypeOf(part)))));
      case "header" =>
        var bytes :- ContentOf(part);
        r := Ok(parsed.(header := Some(Upload(bytes, ContentTypeOf(part)))));
      case other =>
        r := TakeField(parsed, part);
    }
  }

  // The arm for every other name: a half of a profile field, or nothing.
  method TakeField(parsed: Form, part: Part) returns (r: Result<Form, FormError>)
    requires part.Part? && (SlotOf(part.name).None? || SlotOf(part.name).value.Half?)
    ensures SlotOf(part.name).None? ==> r == Ok(parsed)
    ensures SlotOf(part.name).Some? ==>
              match PayloadOf(SlotOf(part.name).value, part)
              case Err(e) => r == Err(e)
              case Ok(payload) => r.Ok? && IsSet(r.value, parsed, SlotOf(part.name).value, payload)
  {
    var key := ParseFieldAttrKey(part.name);
    if key.None? {
      return Ok(parsed);
    }
    var text :- ContentOf(part);
    PutSets(parsed, Half(key.value.0, key.value.1), part);
    r := Ok(parsed.(fields := WithHalf(parsed.fields, key.value.0, key.value.1, text)));
  }

  // The consumption of a whole body.
  method ParseUpdateCredentials(parts: seq<Part>) returns (r: Result<Form, FormError>)
    ensures IsOutcome(parts, r)
  {
    var parsed := EMPTY;
    for i := 0 to |parts|
      invariant AllGood(parts[..i]) && HoldsLast(parsed, parts[..i])
    {
      var next := TakePart(parsed, parts[i]);
      if next.Err? {
        return next;
      }
      LastGrows(parsed, next.value, parts, i);
      parsed := next.value;
    }
    assert parts[..|parts|] == parts;
    r := Ok(parsed);
  }

  lemma LastGrows(before: Form, after: Form, parts: seq<Part>, i: nat)
    requires i < |parts| && AllGood(parts[..i]) && HoldsLast(before, parts[..i]) && ProblemOf(parts[i]).None?
    requires SlotOf(parts[i].name).None? ==> after == before
    requires SlotOf(parts[i].name).Some? ==>
               var slot := SlotOf(parts[i].name).value;
               Fills(parts[i], slot) && IsSet(after, before, slot, PayloadOf(slot, parts[i]).value)
    ensures AllGood(parts[..i + 1]) && HoldsLast(after, parts[..i + 1])
  {
    assert parts[..i + 1][..i] == parts[..i];
    forall slot
      ensures Get(after, slot) == LastFor(parts[..i + 1], slot)
    {
    }
  }

  // ---------- What the outcome depends on ----------

  lemma FirstProblemIsUnique(parts: seq<Part>, i: nat, j: nat)
    requires i < |parts| && AllGood(parts[..i]) && ProblemOf(parts[i]).Some?
    requires j < |parts| && AllGood(parts[..j]) && ProblemOf(parts[j]).Some?
    ensures i == j
  {
    assert forall k :: 0 <= k < i ==> parts[..i][k] == parts[k];
    assert forall k :: 0 <= k < j ==> parts[..j][k] == parts[k];
  }

  // A body has one outcome.
  lemma OutcomeIsUnique(parts: seq<Part>, r: Result<Form, FormError>, q: Result<Form, FormError>)
    requires IsOutcome(parts, r) && IsOutcome(parts, q)
    ensures r == q
  {
    if r.Ok? && q.Ok? {
      FormIsItsSlots(r.value, q.value);
    } else if r.Err? && q.Err? {
      var i :| 0 <= i < |parts| && AllGood(parts[..i]) && ProblemOf(parts[i]) == Some(r.error);
      var j :| 0 <= j < |parts| && AllGood(parts[..j]) && ProblemOf(parts[j]) == Some(q.error);
      FirstProblemIsUnique(parts, i, j);
    }
  }

  function SlotAt(part: Part): Option<Slot> {
    if part.Part? then SlotOf(part.name) else None
  }

  // A part without a problem fills the slot it names.
  lemma GoodPartFills(part: Part, slot: Slot)
    requires ProblemOf(part).None?
    ensures Fills(part, slot) <==> SlotAt(part) == Some(slot)
  {
  }

  function For(slot: Slot): Part -> bool {
    (part: Part) => SlotAt(part) == Some(slot)
  }

  // The parts for one slot, in order.
  function Only(parts: seq<Part>, slot: Slot): seq<Part> {
    Filter(parts, For(slot))
  }

  lemma InOnly(parts: seq<Part>, slot: Slot, part: Part)
    ensures part in Only(parts, slot) <==> part in parts && SlotAt(part) == Some(slot)
  {
    InFilter(parts, For(slot), part);
  }

  function PayloadIn(slot: Slot, part: Part): Option<Payload> {
    if PayloadOf(slot, part).Ok? then Some(PayloadOf(slot, part).value) else None
  }

  lemma {:induction false} LastIsLastOfOnly(parts: seq<Part>, slot: Slot)
    requires AllGood(parts)
    ensures var only := Only(parts, slot);
            LastFor(parts, slot) == if only == [] then None else PayloadIn(slot, only[|only| - 1])
    decreases |parts|
  {
    if parts != [] {
      var last, rest := parts[|parts| - 1], parts[..|parts| - 1];
      GoodPartFills(last, slot);
      LastIsLastOfOnly(rest, slot);
      if SlotAt(last) == Some(slot) {
        assert Only(parts, slot) == Only(rest, slot) + [last];
      } else {
        assert Only(parts, slot) == Only(rest, slot);
      }
    }
  }

  // The two bodies hold the same parts for every slot, in the same order; parts for different slots
  // and parts nobody asked for may be anywhere.
  ghost predicate SameBySlot(x: seq<Part>, y: seq<Part>) {
    (forall slot :: Only(x, slot) == Only(y, slot)) && (BrokenPart in x <==> BrokenPart in y)
  }

  lemma ProblemIsShared(x: seq<Part>, y: seq<Part>, part: Part)
    requires SameBySlot(x, y) && part in x && ProblemOf(part).Some?
    ensures part in y
  {
    if part.Part? {
      var slot := SlotOf(part.name).value;
      assert Only(x, slot) == Only(y, slot);
      InOnly(x, slot, part);
      InOnly(y, slot, part);
    }
  }

  lemma GoodBySlot(x: seq<Part>, y: seq<Part>)
    requires SameBySlot(x, y) && AllGood(y)
    ensures AllGood(x)
  {
    forall i | 0 <= i < |x|
      ensures ProblemOf(x[i]).None?
    {
      if ProblemOf(x[i]).Some? {
        ProblemIsShared(x, y, x[i]);
        assert false;
      }
    }
  }

  // The error is what is wrong with some part that both bodies hold.
  ghost predicate IsSharedProblem(x: seq<Part>, y: seq<Part>, e: FormError) {
    exists part :: part in x && part in y && ProblemOf(part) == Some(e)
  }

  lemma ErrorIsShared(x: seq<Part>, y: seq<Part>, e: FormError)
    requires SameBySlot(x, y) && IsOutcome(x, Err(e))
    ensures IsSharedProblem(x, y, e)
  {
    var i :| 0 <= i < |x| && AllGood(x[..i]) && ProblemOf(x[i]) == Some(e);
    ProblemIsShared(x, y, x[i]);
  }

  lemma SameForm(x: seq<Part>, y: seq<Part>, f: Form, g: Form)
    requires SameBySlot(x, y) && IsOutcome(x, Ok(f)) && IsOutcome(y, Ok(g))
    ensures f == g
  {
    forall slot
      ensures Get(f, slot) == Get(g, slot)
    {
      assert Only(x, slot) == Only(y, slot);
      LastIsLastOfOnly(x, slot);
      LastIsLastOfOnly(y, slot);
    }
    FormIsItsSlots(f, g);
  }

  // Reordering that keeps the order within each slot changes neither success nor the form. When both
  // bodies fail, each error is what is wrong with some part of both.
  lemma ReorderingKeepsOutcome(x: seq<Part>, y: seq<Part>, r: Result<Form, FormError>, q: Result<Form, FormError>)
    requires SameBySlot(x, y) && IsOutcome(x, r) && IsOutcome(y, q)
    ensures r.Ok? <==> q.Ok?
    ensures r.Ok? ==> r == q
    ensures r.Err? ==> IsSharedProblem(x, y, r.error) && IsSharedProblem(x, y, q.error)
  {
    if r.Ok? {
      GoodBySlot(y, x);
    } else {
      ErrorIsShared(x, y, r.error);
    }
    if q.Ok? {
      GoodBySlot(x, y);
    } else {
      ErrorIsShared(y, x, q.error);
    }
    if r.Ok? && q.Ok? {
      SameForm(x, y, r.value, q.value);
    }
  }

  // The same parts, and those for each slot in the same order.
  ghost predicate IsReordering(x: seq<Part>, y: seq<Part>) {
    multiset(x) == multiset(y) && forall slot :: Only(x, slot) == Only(y, slot)
  }

  // Two parts for different slots may be swapped.
  lemma SwapIsReordering(a: Part, b: Part)
    requires SlotAt(a) != SlotAt(b)
    ensures IsReordering([] + [a] + [b], [] + [b] + [a])
  {
    forall slot
      ensures Only([] + [a] + [b], slot) == Only([] + [b] + [a], slot)
    {
      FilterGrows([] + [a], b, For(slot));
      FilterGrows([], a, For(slot));
      FilterGrows([] + [b], a, For(slot));
      FilterGrows([], b, For(slot));
    }
  }

  // The two errors need not be the same one.
  lemma ReorderingCanChangeError() returns (x: seq<Part>, y: seq<Part>)
    ensures IsReordering(x, y)
    ensures IsOutcome(x, Err(NotABool("locked"))) && IsOutcome(y, Err(NotABool("bot")))
    ensures NotABool("locked") != NotABool("bot")
  {
    var locked, bot := Part("locked", None, Some("x")), Part("bot", None, Some("y"));
    x, y := [] + [locked] + [bot], [] + [bot] + [locked];
    SwapIsReordering(locked, bot);
    assert ProblemOf(locked) == Some(NotABool("locked")) && ProblemOf(bot) == Some(NotABool("bot"));
    assert x[..0] == [] && x[0] == locked;
    assert y[..0] == [] && y[0] == bot;
  }

  // ---------- When reordering keeps the error ----------

  lemma ReorderingIsSameBySlot(x: seq<Part>, y: seq<Part>)
    requires IsReordering(x, y)
    ensures SameBySlot(x, y)
  {
    assert BrokenPart in x <==> BrokenPart in multiset(x);
    assert BrokenPart in y <==> BrokenPart in multiset(y);
  }

  // The parts for one slot may stand in front.
  lemma SlotInFront(x: seq<Part>, slot: Slot)
    ensures IsReordering(x, InFront(x, For(slot)))
  {
    forall other
      ensures Only(x, other) == Only(InFront(x, For(slot)), other)
    {
      FilterOfInFront(x, For(slot), For(other));
    }
    InFrontPermutes(x, For(slot));
  }

  function IsBroken(): Part -> bool {
    (part: Part) => part.BrokenPart?
  }

  // So may the broken parts.
  lemma BrokenInFront(x: seq<Part>)
    ensures IsReordering(x, InFront(x, IsBroken()))
  {
    forall slot
      ensures Only(x, slot) == Only(InFront(x, IsBroken()), slot)
    {
      FilterOfInFront(x, IsBroken(), For(slot));
    }
    InFrontPermutes(x, IsBroken());
  }

  // What comes after a failing part does not matter.
  lemma {:induction false} FailsWithPrefix(a: seq<Part>, b: seq<Part>, e: FormError)
    requires IsOutcome(a, Err(e))
    ensures IsOutcome(a + b, Err(e))
  {
    var i :| 0 <= i < |a| && AllGood(a[..i]) && ProblemOf(a[i]) == Some(e);
    assert (a + b)[..i] == a[..i] && (a + b)[i] == a[i];
  }

  lemma BrokenFails(x: seq<Part>)
    requires BrokenPart in x
    ensures IsOutcome(Filter(x, IsBroken()), Err(Multipart))
  {
    var broken := Filter(x, IsBroken());
    InFilter(x, IsBroken(), BrokenPart);
    InFilter(x, IsBroken(), broken[0]);
    assert broken[..0] == [] && broken[0] == BrokenPart;
  }

  lemma {:induction false} HasFirstProblem(parts: seq<Part>) returns (e: FormError)
    requires !AllGood(parts)
    ensures IsOutcome(parts, Err(e))
    decreases |parts|
  {
    var rest, last := parts[..|parts| - 1], parts[|parts| - 1];
    assert parts == rest + [last];
    if AllGood(rest) {
      e := ProblemOf(last).value;
    } else {
      e := HasFirstProblem(rest);
      FailsWithPrefix(rest, [last], e);
    }
  }

  // The error that the parts for some slot report by themselves, or that of a broken part.
  ghost predicate Leads(x: seq<Part>, e: FormError) {
    || (exists slot :: IsOutcome(Only(x, slot), Err(e)))
    || (BrokenPart in x && e == Multipart)
  }

  ghost predicate OneError(x: seq<Part>) {
    forall d, e :: Leads(x, d) && Leads(x, e) ==> d == e
  }

  lemma LeadingIsShared(x: seq<Part>, y: seq<Part>, e: FormError)
    requires SameBySlot(x, y) && Leads(x, e)
    ensures Leads(y, e)
  {
    if slot :| IsOutcome(Only(x, slot), Err(e)) {
      assert Only(x, slot) == Only(y, slot);
    }
  }

  // A failing part after good ones is the first failing part for its slot.
  lemma {:induction false} FailsInSlot(good: seq<Part>, part: Part, rest: seq<Part>, slot: Slot, e: FormError)
    requires AllGood(good) && ProblemOf(part) == Some(e) && SlotAt(part) == Some(slot)
    ensures IsOutcome(Only(good + ([part] + rest), slot), Err(e))
  {
    var only := Only(good, slot);
    FilterJoins(good, [part] + rest, For(slot));
    FilterJoins([part], rest, For(slot));
    FilterGrows([], part, For(slot));
    assert [] + [part] == [part];
    GoodOnly(good, slot);
    var all := only + ([part] + Only(rest, slot));
    assert all[..|only|] == only && all[|only|] == part;
  }

  lemma {:induction false} GoodOnly(parts: seq<Part>, slot: Slot)
    requires AllGood(parts)
    ensures AllGood(Only(parts, slot))
  {
    var only := Only(parts, slot);
    forall i | 0 <= i < |only|
      ensures ProblemOf(only[i]) == None
    {
      InOnly(parts, slot, only[i]);
    }
  }

  // The error of any order leads.
  lemma {:induction false} ErrorLeads(x: seq<Part>, e: FormError)
    requires IsOutcome(x, Err(e))
    ensures Leads(x, e)
  {
    var i :| 0 <= i < |x| && AllGood(x[..i]) && ProblemOf(x[i]) == Some(e);
    var part := x[i];
    if part.BrokenPart? {
      assert part in x;
    } else {
      PartsAround(x, i);
      FailsInSlot(x[..i], part, x[i + 1..], SlotOf(part.name).value, e);
    }
  }

  // Every leading error is reported by some order.
  lemma LeadingIsReported(x: seq<Part>, e: FormError) returns (y: seq<Part>)
    requires Leads(x, e)
    ensures IsReordering(x, y) && IsOutcome(y, Err(e))
  {
    if slot :| IsOutcome(Only(x, slot), Err(e)) {
      y := InFront(x, For(slot));
      SlotInFront(x, slot);
      FailsWithPrefix(Only(x, slot), Filter(x, Not(For(slot))), e);
    } else {
      y := InFront(x, IsBroken());
      BrokenInFront(x);
      BrokenFails(x);
      FailsWithPrefix(Filter(x, IsBroken()), Filter(x, Not(IsBroken())), e);
    }
  }

  // Every order of the body has its outcome; so has every body with the same parts for each slot.
  ghost predicate OrdersKeepOutcome(x: seq<Part>) {
    forall y, r, q :: IsReordering(x, y) && IsOutcome(x, r) && IsOutcome(y, q) ==> r == q
  }

  ghost predicate SlotsKeepOutcome(x: seq<Part>) {
    forall y, r, q :: SameBySlot(x, y) && IsOutcome(x, r) && IsOutcome(y, q) ==> r == q
  }

  lemma SameOutcome(x: seq<Part>, y: seq<Part>, r: Result<Form, FormError>, q: Result<Form, FormError>)
    requires OneError(x) && SameBySlot(x, y) && IsOutcome(x, r) && IsOutcome(y, q)
    ensures r == q
  {
    ReorderingKeepsOutcome(x, y, r, q);
    if r.Err? {
      ErrorLeads(x, r.error);
      ErrorLeads(y, q.error);
      LeadingIsShared(y, x, q.error);
    }
  }

  lemma FailureIsShared(x: seq<Part>, y: seq<Part>, e: FormError)
    requires SameBySlot(x, y) && IsOutcome(y, Err(e))
    ensures !AllGood(x)
  {
    var i :| 0 <= i < |y| && AllGood(y[..i]) && ProblemOf(y[i]) == Some(e);
    ProblemIsShared(y, x, y[i]);
    var k :| 0 <= k < |x| && x[k] == y[i];
  }

  lemma LeadingErrorsAgree(x: seq<Part>, d: FormError, e: FormError)
    requires OrdersKeepOutcome(x) && Leads(x, d) && Leads(x, e)
    ensures d == e
  {
    var y := LeadingIsReported(x, d);
    var z := LeadingIsReported(x, e);
    ReorderingIsSameBySlot(x, y);
    FailureIsShared(x, y, d);
    var problem := HasFirstProblem(x);
    var first: Result<Form, FormError> := Err(problem);
    assert IsReordering(x, y) && IsOutcome(x, first) && IsOutcome(y, Err(d));
    assert IsReordering(x, z) && IsOutcome(x, first) && IsOutcome(z, Err(e));
  }

  lemma OneErrorKeepsOutcome(x: seq<Part>)
    requires OneError(x)
    ensures SlotsKeepOutcome(x)
  {
    forall y, r, q | SameBySlot(x, y) && IsOutcome(x, r) && IsOutcome(y, q)
      ensures r == q
    {
      SameOutcome(x, y, r, q);
    }
  }

  lemma KeptOutcomeIsOneError(x: seq<Part>)
    requires OrdersKeepOutcome(x)
    ensures OneError(x)
  {
    forall d, e | Leads(x, d) && Leads(x, e)
      ensures d == e
    {
      LeadingErrorsAgree(x, d, e);
    }
  }

  lemma SlotsKeepThenOrdersKeep(x: seq<Part>)
    requires SlotsKeepOutcome(x)
    ensures OrdersKeepOutcome(x)
  {
    forall y, r, q | IsReordering(x, y) && IsOutcome(x, r) && IsOutcome(y, q)
      ensures r == q
    {
      ReorderingIsSameBySlot(x, y);
    }
  }

  // Every reordering that keeps the order within each slot keeps the outcome exactly if the slots
  // whose parts fail, and any broken part, report one and the same error.
  lemma ReorderingKeepsOutcomeExactly(x: seq<Part>)
    ensures OrdersKeepOutcome(x) <==> OneError(x)
    ensures SlotsKeepOutcome(x) <==> OneError(x)
  {
    if OrdersKeepOutcome(x) {
      KeptOutcomeIsOneError(x);
    }
    if OneError(x) {
      OneErrorKeepsOutcome(x);
    }
    if SlotsKeepOutcome(x) {
      SlotsKeepThenOrdersKeep(x);
    }
  }

  // ---------- The profile fields that come out ----------

  predicate IsSmallest(i: nat, indices: set<nat>) {
    i in indices && forall j :: j in indices ==> i <= j
  }

  lemma {:induction false} SmallestExists(indices: set<nat>)
    requires indices != {}
    ensures exists i :: IsSmallest(i, indices)
    decreases |indices|
  {
    var x :| x in indices;
    var others := indices - {x};
    assert forall j :: j in indices ==> j == x || j in others;
    if others == {} {
      assert IsSmallest(x, indices);
    } else {
      SmallestExists(others);
      var m :| IsSmallest(m, others);
      assert IsSmallest(if m <= x then m else x, indices);
    }
  }

  function Smallest(indices: set<nat>): (i: nat)
    requires indices != {}
    ensures IsSmallest(i, indices)
  {
    SmallestExists(indices);
    var i :| i in indices && IsSmallest(i, indices);
    i
  }

  // The order in which an ordered map is walked.
  function SortedIndices(indices: set<nat>): seq<nat>
    decreases |indices|
  {
    if indices == {} then [] else [Smallest(indices)] + SortedIndices(indices - {Smallest(indices)})
  }

  lemma {:induction false} SortedIndicesAscend(indices: set<nat>)
    ensures var s := SortedIndices(indices);
            && (forall i :: i in s <==> i in indices)
            && (forall k, l :: 0 <= k < l < |s| ==> s[k] < s[l])
    decreases |indices|
  {
    if indices != {} {
      var rest := indices - {Smallest(indices)};
      SortedIndicesAscend(rest);
      forall k | 0 <= k < |SortedIndices(rest)|
        ensures Smallest(indices) < SortedIndices(rest)[k]
      {
        assert SortedIndices(rest)[k] in SortedIndices(rest);
      }
    }
  }

  datatype FieldInput = FieldInput(name: string, value: string)

  function OrEmpty(text: Option<string>): string {
    if text.Some? then text.value else ""
  }

  function InputAt(fields: map<nat, Halves>, i: nat): FieldInput {
    FieldInput(OrEmpty(HalvesAt(fields, i).0), OrEmpty(HalvesAt(fields, i).1))
  }

  function BuildFieldsAttributes(fields: map<nat, Halves>): Option<seq<FieldInput>> {
    if fields == map[] then None else
    var indices := SortedIndices(fields.Keys);
    Some(seq(|indices|, k requires 0 <= k < |indices| => InputAt(fields, indices[k])))
  }

  // Some part of the body is for that slot.
  ghost predicate Asks(parts: seq<Part>, slot: Slot) {
    exists part :: part in parts && SlotAt(part) == Some(slot)
  }

  // Some part of the body names that index.
  ghost predicate Names(parts: seq<Part>, i: nat) {
    Asks(parts, Half(i, NameHalf)) || Asks(parts, Half(i, ValueHalf))
  }

  function LastText(parts: seq<Part>, i: nat, kind: Kind): string {
    match LastFor(parts, Half(i, kind))
    case Some(Text(t)) => t
    case _ => ""
  }

  lemma AskedIsOnly(parts: seq<Part>, slot: Slot)
    ensures Asks(parts, slot) <==> Only(parts, slot) != []
  {
    var only := Only(parts, slot);
    if only != [] {
      InOnly(parts, slot, only[0]);
    }
    if part :| part in parts && SlotAt(part) == Some(slot) {
      InOnly(parts, slot, part);
    }
  }

  lemma {:induction false} GoodPartHasPayload(parts: seq<Part>, part: Part, slot: Slot)
    requires AllGood(parts) && part in Only(parts, slot)
    ensures PayloadIn(slot, part).Some?
  {
    InOnly(parts, slot, part);
    GoodPartFills(part, slot);
  }

  lemma {:induction false} NamedIsHeld(parts: seq<Part>, slot: Slot)
    requires AllGood(parts)
    ensures LastFor(parts, slot).Some? <==> Asks(parts, slot)
  {
    var only := Only(parts, slot);
    LastIsLastOfOnly(parts, slot);
    AskedIsOnly(parts, slot);
    if only != [] {
      GoodPartHasPayload(parts, only[|only| - 1], slot);
    }
  }

  lemma HalvesAreLast(parts: seq<Part>, form: Form, i: nat)
    requires HoldsLast(form, parts)
    ensures InputAt(form.fields, i) == FieldInput(LastText(parts, i, NameHalf), LastText(parts, i, ValueHalf))
    ensures i in form.fields <==> LastFor(parts, Half(i, NameHalf)).Some? || LastFor(parts, Half(i, ValueHalf)).Some?
  {
    assert Get(form, Half(i, NameHalf)) == LastFor(parts, Half(i, NameHalf));
    assert Get(form, Half(i, ValueHalf)) == LastFor(parts, Half(i, ValueHalf));
  }

  lemma NamesIsEitherHalf(parts: seq<Part>, i: nat)
    requires AllGood(parts)
    ensures Names(parts, i) <==> LastFor(parts, Half(i, NameHalf)).Some? || LastFor(parts, Half(i, ValueHalf)).Some?
  {
    NamedIsHeld(parts, Half(i, NameHalf));
    NamedIsHeld(parts, Half(i, ValueHalf));
  }

  lemma IndexIsNamed(parts: seq<Part>, form: Form, i: nat)
    requires AllGood(parts) && HoldsLast(form, parts)
    ensures i in form.fields <==> Names(parts, i)
  {
    HalvesAreLast(parts, form, i);
    NamesIsEitherHalf(parts, i);
  }

  // The fields that come out stand in ascending order of the indices the parts name, one for each
  // index; each half is the last text sent for it, or empty; and none come out exactly if none were named.
  ghost predicate AreFieldsOf(indices: seq<nat>, out: seq<FieldInput>, parts: seq<Part>) {
    && |indices| == |out|
    && (forall k, l :: 0 <= k < l < |indices| ==> indices[k] < indices[l])
    && (forall i :: i in indices <==> Names(parts, i))
    && (forall k :: 0 <= k < |out| ==>
          out[k] == FieldInput(LastText(parts, indices[k], NameHalf), LastText(parts, indices[k], ValueHalf)))
  }

  lemma SortedFieldsAreFields(parts: seq<Part>, form: Form, out: seq<FieldInput>)
    requires AllGood(parts) && HoldsLast(form, parts) && BuildFieldsAttributes(form.fields) == Some(out)
    ensures AreFieldsOf(SortedIndices(form.fields.Keys), out, parts)
  {
    var indices := SortedIndices(form.fields.Keys);
    SortedIndicesAscend(form.fields.Keys);
    forall i: nat
      ensures i in indices <==> Names(parts, i)
    {
      IndexIsNamed(parts, form, i);
    }
    forall k | 0 <= k < |out|
      ensures out[k] == FieldInput(LastText(parts, indices[k], NameHalf), LastText(parts, indices[k], ValueHalf))
    {
      HalvesAreLast(parts, form, indices[k]);
    }
  }

  lemma FieldsComeOutInOrder(parts: seq<Part>, form: Form)
    requires IsOutcome(parts, Ok(form))
    ensures match BuildFieldsAttributes(form.fields)
            case None => forall i :: !Names(parts, i)
            case Some(out) => out != [] && exists indices :: AreFieldsOf(indices, out, parts)
  {
    if form.fields == map[] {
      forall i: nat
        ensures !Names(parts, i)
      {
        IndexIsNamed(parts, form, i);
      }
    } else {
      var indices := SortedIndices(form.fields.Keys);
      SortedIndicesAscend(form.fields.Keys);
      var out := BuildFieldsAttributes(form.fields).value;
      var i :| i in form.fields;
      assert i in indices;
      SortedFieldsAreFields(parts, form, out);
    }
  }
}
