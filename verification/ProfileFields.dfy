/** Profile fields and their stored JSON form (`fields_to_json` and `fields_from_json` of
  src/accounts/profile_repository.rs and src/accounts/remote_repository.rs, which are the same).
 */
module ProfileFields {
  import opened Wrappers
  import opened Json
  import Decimal

  // An instant, in microseconds since the epoch: the resolution of a stored column.
  type Instant = int

  const SECOND: int := 1_000_000

  datatype Field = Field(name: string, value: string, verifiedAt: Option<Instant>)

  // The second an instant falls into.
  function UnixSeconds(t: Instant): int {
    t / SECOND
  }

  // The whole number in a JSON number's text.
  function IntOf(text: string): Option<int> {
    if text != "" && text[0] == '-' then
      if text[1..] != "" && Decimal.AllDigits(text[1..]) then
        var magnitude: int := Decimal.Value(text[1..]);
        Some(-magnitude)
      else None
    else if text != "" && Decimal.AllDigits(text) then Some(Decimal.Value(text)) else None
  }

  function StoredTime(f: Field): Json {
    if f.verifiedAt.Some? then Num(Decimal.PrintInt(UnixSeconds(f.verifiedAt.value))) else Null
  }

  function FieldToJson(f: Field): Json {
    Obj(map["name" := Str(f.name), "value" := Str(f.value), "verified_at" := StoredTime(f)])
  }

  function FieldsToJson(fields: seq<Field>): Json {
    Arr(seq(|fields|, i requires 0 <= i < |fields| => FieldToJson(fields[i])))
  }

  function StringAt(t: Json, key: string): Option<string> {
    match Child(t, Key(key))
    case Some(Str(s)) => Some(s)
    case _ => None
  }

  function InstantAt(t: Json, key: string): Option<Instant> {
    match Child(t, Key(key))
    case Some(Num(text)) =>
      (match IntOf(text)
       case Some(n) => Some(n * SECOND)
       case None => None)
    case _ => None
  }

  // A stored field; none if the program panics on it.
  function FieldFromJson(t: Json): Option<Field> {
    match (StringAt(t, "name"), StringAt(t, "value"))
    case (Some(name), Some(value)) => Some(Field(name, value, InstantAt(t, "verified_at")))
    case _ => None
  }

  function FieldsFromItems(items: seq<Json>): Option<seq<Field>> {
    if items == [] then Some([]) else
    match (FieldFromJson(items[0]), FieldsFromItems(items[1..]))
    case (Some(first), Some(rest)) => Some([first] + rest)
    case _ => None
  }

  function FieldsFromJson(t: Json): Option<seq<Field>> {
    if t.Arr? then FieldsFromItems(t.items) else None
  }

  // The field with its verification time cut to the second.
  function CutField(f: Field): Field {
    f.(verifiedAt := if f.verifiedAt.Some? then Some(UnixSeconds(f.verifiedAt.value) * SECOND) else None)
  }

  function Cut(fields: seq<Field>): seq<Field> {
    seq(|fields|, i requires 0 <= i < |fields| => CutField(fields[i]))
  }

  lemma IntReadsBack(n: int)
    ensures IntOf(Decimal.PrintInt(n)) == Some(n)
  {
    if n < 0 {
      assert Decimal.PrintInt(n)[1..] == Decimal.Print(-n);
      Decimal.ValueOfPrint(-n);
    } else {
      Decimal.ValueOfPrint(n);
    }
  }

  lemma {:induction false} StoredChildren(f: Field, t: Json)
    requires t == FieldToJson(f)
    ensures Child(t, Key("name")) == Some(Str(f.name)) && Child(t, Key("value")) == Some(Str(f.value))
    ensures Child(t, Key("verified_at")) == Some(StoredTime(f))
  {
  }

  lemma {:induction false} TimeReadsBack(f: Field, t: Json)
    requires Child(t, Key("verified_at")) == Some(StoredTime(f))
    ensures InstantAt(t, "verified_at") == CutField(f).verifiedAt
  {
    if f.verifiedAt.Some? {
      IntReadsBack(UnixSeconds(f.verifiedAt.value));
    }
  }

  lemma {:induction false} FieldReadsBack(f: Field)
    ensures FieldFromJson(FieldToJson(f)) == Some(CutField(f))
  {
    var t := FieldToJson(f);
    StoredChildren(f, t);
    TimeReadsBack(f, t);
  }

  // Stored fields read back in order, with `verified_at` cut to whole seconds and nothing else changed.
  lemma {:induction false} FieldsReadBack(fields: seq<Field>)
    ensures FieldsFromJson(FieldsToJson(fields)) == Some(Cut(fields))
    decreases |fields|
  {
    var items := FieldsToJson(fields).items;
    if fields == [] {
      assert items == [] && Cut(fields) == [];
    } else {
      FieldReadsBack(fields[0]);
      FieldsReadBack(fields[1..]);
      assert items[0] == FieldToJson(fields[0]);
      assert items[1..] == FieldsToJson(fields[1..]).items;
      assert FieldsFromItems(items) == Some([CutField(fields[0])] + Cut(fields[1..]));
      assert Cut(fields) == [CutField(fields[0])] + Cut(fields[1..]);
    }
  }

  // The cut loses less than a second, and a second cut loses nothing.
  lemma CutLosesLessThanASecond(f: Field)
    requires f.verifiedAt.Some?
    ensures 0 <= f.verifiedAt.value - CutField(f).verifiedAt.value < SECOND
    ensures CutField(CutField(f)) == CutField(f)
  {
  }
}
