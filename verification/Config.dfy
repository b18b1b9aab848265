/** Loading the start-up configuration (src/config.rs): a file and the environment are merged field by
  field, every problem is collected, and only a faultless set of fields becomes a configuration.
 */
module Config {
  import opened Wrappers
  import opened HexKey
  import opened Sequences
  import Decimal

  const ENV_PREFIX := "KAWASEMI_"

  // A value of the file. Floating-point numbers and dates are kept as their text.
  datatype Toml =
    | TomlString(text: string)
    | TomlInteger(number: int)
    | TomlFloat(digits: string)
    | TomlBoolean(flag: bool)
    | TomlDatetime(moment: string)
    | TomlArray(items: seq<Toml>)
    | TomlTable(entries: map<string, Toml>)

  datatype Issue =
    | Missing(field: string)
    | Malformed(field: string, reason: string)

  // The parsed file and the environment.
  datatype Source = Source(toml: map<string, Toml>, env: map<string, string>)

  // ---------- One field ----------

  function EnvChar(c: char): char {
    if c == '.' then '_'
    else if 'a' <= c <= 'z' then (c as int - 'a' as int + 'A' as int) as char
    else c
  }

  function EnvChars(path: string): string {
    if path == "" then "" else [EnvChar(path[0])] + EnvChars(path[1..])
  }

  function ToEnvKey(path: string): string {
    ENV_PREFIX + EnvChars(path)
  }

  // The dotted name of a field.
  function Name(section: string, key: string): string {
    section + "." + key
  }

  // What stands at the end of a path of keys.
  function TomlAt(t: Toml, segments: seq<string>): Option<Toml>
    decreases |segments|
  {
    if segments == [] then Some(t)
    else if t.TomlTable? && segments[0] in t.entries then TomlAt(t.entries[segments[0]], segments[1..])
    else None
  }

  function TypeName(t: Toml): string {
    match t
    case TomlString(_) => "string"
    case TomlInteger(_) => "integer"
    case TomlFloat(_) => "float"
    case TomlBoolean(_) => "boolean"
    case TomlDatetime(_) => "datetime"
    case TomlArray(_) => "array"
    case TomlTable(_) => "table"
  }

  // A scalar as text; other values cannot stand for a field.
  function ScalarText(t: Toml): Result<Option<string>, string> {
    match t
    case TomlString(s) => Ok(Some(s))
    case TomlInteger(n) => Ok(Some(Decimal.PrintInt(n)))
    case TomlFloat(s) => Ok(Some(s))
    case TomlBoolean(b) => Ok(Some(if b then "true" else "false"))
    case _ => Err("unsupported TOML value type: " + TypeName(t))
  }

  function InFile(toml: map<string, Toml>, section: string, key: string): Result<Option<string>, string> {
    match TomlAt(TomlTable(toml), [section, key])
    case Some(t) => ScalarText(t)
    case None => Ok(None)
  }

  // The raw text of a field: the environment's, or else the file's.
  function Resolved(source: Source, section: string, key: string): Result<Option<string>, string> {
    var envKey := ToEnvKey(Name(section, key));
    if envKey in source.env then Ok(Some(source.env[envKey])) else InFile(source.toml, section, key)
  }

  // The file's value at `section.key`.
  function At(toml: map<string, Toml>, section: string, key: string): Option<Toml> {
    if section in toml && toml[section].TomlTable? && key in toml[section].entries
    then Some(toml[section].entries[key]) else None
  }

  lemma OneSegment(t: Toml, key: string)
    ensures TomlAt(t, [key]) == if t.TomlTable? && key in t.entries then Some(t.entries[key]) else None
  {
    assert [key][1..] == [];
  }

  lemma TwoSegments(t: Toml, section: string, key: string)
    ensures TomlAt(t, [section, key]) == if t.TomlTable? then At(t.entries, section, key) else None
  {
    assert [section, key][1..] == [key];
    if t.TomlTable? && section in t.entries {
      OneSegment(t.entries[section], key);
    }
  }

  lemma InFileAt(toml: map<string, Toml>, section: string, key: string)
    ensures InFile(toml, section, key) ==
            match At(toml, section, key) { case Some(t) => ScalarText(t) case None => Ok(None) }
  {
    TwoSegments(TomlTable(toml), section, key);
  }

  // The variable of a field: the prefix, then its name with letters in upper case and `_` for the dots.
  ghost predicate IsVariable(v: string, name: string) {
    && |v| == 9 + |name|
    && v[..9] == "KAWASEMI_"
    && forall i :: 0 <= i < |name| ==> IsVariableChar(v[9 + i], name[i])
  }

  ghost predicate IsVariableChar(c: char, n: char) {
    if n == '.' then c == '_'
    else if 'a' <= n <= 'z' then 'A' <= c <= 'Z' && c as int - 'A' as int == n as int - 'a' as int
    else c == n
  }

  lemma {:induction false} EnvCharsLength(path: string)
    ensures |EnvChars(path)| == |path|
    decreases |path|
  {
    if path != "" {
      EnvCharsLength(path[1..]);
    }
  }

  lemma {:induction false} EnvCharsAt(path: string, i: nat)
    requires i < |path|
    ensures |EnvChars(path)| == |path| && EnvChars(path)[i] == EnvChar(path[i])
    decreases |path|
  {
    EnvCharsLength(path);
    if i > 0 {
      EnvCharsAt(path[1..], i - 1);
    }
  }

  lemma VariableCharIsUnique(c: char, n: char)
    ensures IsVariableChar(c, n) <==> c == EnvChar(n)
  {
  }

  // Every name has one variable.
  lemma VariableExactly(v: string, name: string)
    ensures IsVariable(v, name) <==> v == ToEnvKey(name)
  {
    EnvCharsLength(name);
    forall i | 0 <= i < |name|
      ensures IsVariableChar(EnvChars(name)[i], name[i])
    {
      EnvCharsAt(name, i);
      VariableCharIsUnique(EnvChars(name)[i], name[i]);
    }
    assert ToEnvKey(name)[..9] == "KAWASEMI_";
    if IsVariable(v, name) {
      var tail := v[9..];
      forall i | 0 <= i < |name|
        ensures tail[i] == EnvChars(name)[i]
      {
        VariableCharIsUnique(v[9 + i], name[i]);
        VariableCharIsUnique(EnvChars(name)[i], name[i]);
      }
      assert v == v[..9] + tail && tail == EnvChars(name);
    }
  }

  // What a value of the file says: a string its text, a boolean `true` or `false`, an integer its
  // decimal text, a float its text; other values are refused by their kind, and nothing says nothing.
  ghost predicate IsFileReading(r: Result<Option<string>, string>, value: Option<Toml>) {
    match value
    case None => r == Ok(None)
    case Some(TomlString(text)) => r == Ok(Some(text))
    case Some(TomlBoolean(flag)) => r == Ok(Some(if flag then "true" else "false"))
    case Some(TomlInteger(n)) => r == Ok(Some(if n < 0 then "-" + Decimal.Print(-n) else Decimal.Print(n)))
    case Some(TomlFloat(digits)) => r == Ok(Some(digits))
    case Some(TomlDatetime(_)) => r == Err("unsupported TOML value type: datetime")
    case Some(TomlArray(_)) => r == Err("unsupported TOML value type: array")
    case Some(TomlTable(_)) => r == Err("unsupported TOML value type: table")
  }

  // What the environment says, if the variable is set, and otherwise what the file says.
  ghost predicate IsReading(r: Result<Option<string>, string>, source: Source, section: string, key: string) {
    forall v :: IsVariable(v, section + "." + key) ==>
      if v in source.env then r == Ok(Some(source.env[v])) else IsFileReading(r, At(source.toml, section, key))
  }

  lemma FileReadingExactly(r: Result<Option<string>, string>, toml: map<string, Toml>, section: string, key: string)
    ensures IsFileReading(r, At(toml, section, key)) <==> r == InFile(toml, section, key)
  {
    InFileAt(toml, section, key);
    match At(toml, section, key)
    case Some(t) => KindIsRefused(t);
    case None =>
  }

  lemma KindIsRefused(t: Toml)
    ensures t.TomlDatetime? ==> ScalarText(t) == Err("unsupported TOML value type: datetime")
    ensures t.TomlArray? ==> ScalarText(t) == Err("unsupported TOML value type: array")
    ensures t.TomlTable? ==> ScalarText(t) == Err("unsupported TOML value type: table")
  {
    assert "unsupported TOML value type: " + "datetime" == "unsupported TOML value type: datetime";
    assert "unsupported TOML value type: " + "array" == "unsupported TOML value type: array";
    assert "unsupported TOML value type: " + "table" == "unsupported TOML value type: table";
  }

  // A field has one reading.
  lemma ReadingExactly(r: Result<Option<string>, string>, source: Source, section: string, key: string)
    ensures IsReading(r, source, section, key) <==> r == Resolved(source, section, key)
  {
    var envKey := ToEnvKey(section + "." + key);
    VariableExactly(envKey, section + "." + key);
    FileReadingExactly(r, source.toml, section, key);
    if r == Resolved(source, section, key) {
      forall v | IsVariable(v, section + "." + key)
        ensures v == envKey
      {
        VariableExactly(v, section + "." + key);
      }
    }
  }

  // The resolution as the program runs it: the file is walked segment by segment.
  method Get(source: Source, section: string, key: string) returns (r: Result<Option<string>, string>)
    ensures r == Resolved(source, section, key)
    ensures IsReading(r, source, section, key)
  {
    ReadingExactly(Resolved(source, section, key), source, section, key);
    var envKey := ToEnvKey(Name(section, key));
    if envKey in source.env {
      return Ok(Some(source.env[envKey]));
    }
    var current := TomlTable(source.toml);
    var segments := [section, key];
    for i := 0 to |segments|
      invariant TomlAt(current, segments[i..]) == TomlAt(TomlTable(source.toml), segments)
    {
      assert segments[i..][0] == segments[i] && segments[i..][1..] == segments[i + 1..];
      if !current.TomlTable? || segments[i] !in current.entries {
        return Ok(None);
      }
      current := current.entries[segments[i]];
    }
    r := ScalarText(current);
  }

  // A check that turns text into a value or refuses it with a reason.
  type Check<T> = string -> Result<T, string>

  function Complaints<T>(check: Check<T>): string -> Option<string> {
    (raw: string) => match check(raw) case Ok(_) => None case Err(reason) => Some(reason)
  }

  // A field of the configuration; without a fallback it is required.
  datatype Field<T> = Field(section: string, key: string, fallback: Option<T>, check: Check<T>)

  // What a field demands, whatever the type of its value: its place in a section, whether it is
  // required, and why a text is refused.
  datatype Spec = Spec(section: string, key: string, isRequired: bool, complaint: string -> Option<string>)

  function SpecOf<T>(f: Field<T>): Spec {
    Spec(f.section, f.key, f.fallback.None?, Complaints(f.check))
  }

  // What is wrong with a field.
  function ProblemOf(source: Source, spec: Spec): Option<Issue> {
    var field := Name(spec.section, spec.key);
    match Resolved(source, spec.section, spec.key)
    case Ok(Some(raw)) =>
      (match spec.complaint(raw)
       case Some(reason) => Some(Malformed(field, reason))
       case None => None)
    case Ok(None) => if spec.isRequired then Some(Missing(field)) else None
    case Err(reason) => Some(Malformed(field, reason))
  }

  // The value of a field.
  function ValueOf<T>(source: Source, f: Field<T>): Option<T> {
    match Resolved(source, f.section, f.key)
    case Ok(Some(raw)) =>
      (match f.check(raw)
       case Ok(v) => Some(v)
       case Err(_) => None)
    case Ok(None) => f.fallback
    case Err(_) => None
  }

  // A field has a value exactly when nothing is wrong with it.
  lemma ValueUnlessProblem<T>(source: Source, f: Field<T>)
    ensures ValueOf(source, f).Some? <==> ProblemOf(source, SpecOf(f)).None?
  {
  }

  // The value of a field and what is wrong with it, by its reading.
  lemma FieldExactly<T>(source: Source, f: Field<T>, r: Result<Option<string>, string>)
    requires IsReading(r, source, f.section, f.key)
    ensures var name := f.section + "." + f.key;
            var value, problem := ValueOf(source, f), ProblemOf(source, SpecOf(f));
            match r
            case Ok(None) => value == f.fallback && problem == if f.fallback == None then Some(Missing(name)) else None
            case Ok(Some(raw)) =>
              (match f.check(raw)
               case Ok(v) => value == Some(v) && problem == None
               case Err(reason) => value == None && problem == Some(Malformed(name, reason)))
            case Err(reason) => value == None && problem == Some(Malformed(name, reason))
  {
    ReadingExactly(r, source, f.section, f.key);
  }

  // ---------- All fields ----------

  // What is wrong with each field, in reading order.
  function Problems(source: Source, specs: seq<Spec>): seq<Option<Issue>> {
    seq(|specs|, i requires 0 <= i < |specs| => ProblemOf(source, specs[i]))
  }

  // One issue for each bad field, in reading order.
  function IssuesOf(source: Source, specs: seq<Spec>): seq<Issue> {
    Present(Problems(source, specs))
  }

  lemma IssuesGrow(source: Source, specs: seq<Spec>, spec: Spec)
    ensures IssuesOf(source, specs + [spec]) ==
            IssuesOf(source, specs) + (match ProblemOf(source, spec) case Some(issue) => [issue] case None => [])
  {
    assert Problems(source, specs + [spec]) == Problems(source, specs) + [ProblemOf(source, spec)];
    PresentGrows(Problems(source, specs), ProblemOf(source, spec));
  }

  // A text that the check takes is the value; one that it refuses, or a value of the file that stands
  // for no text, becomes an issue under the dotted name.
  ghost predicate IsChecked<T>(value: Option<T>, after: seq<Issue>, before: seq<Issue>, f: Field<T>,
                               r: Result<Option<string>, string>)
    requires r != Ok(None)
  {
    var name := f.section + "." + f.key;
    match r
    case Ok(raw) =>
      (match f.check(raw.value)
       case Ok(v) => value == Some(v) && after == before
       case Err(reason) => value == None && after == before + [Malformed(name, reason)])
    case Err(reason) => value == None && after == before + [Malformed(name, reason)]
  }

  // The list of issues that every field appends to.
  class Reader {
    const source: Source
    var issues: seq<Issue>
    ghost var read: seq<Spec>

    ghost predicate Valid()
      reads this
    {
      issues == IssuesOf(source, read)
    }

    constructor (source: Source)
      ensures Valid() && this.source == source && issues == [] && read == []
    {
      this.source := source;
      issues, read := [], [];
    }

    method Required<T>(f: Field<T>) returns (value: Option<T>)
      requires Valid() && f.fallback.None?
      modifies this
      ensures Valid() && read == old(read) + [SpecOf(f)]
      ensures value == ValueOf(source, f)
      ensures |issues| == |old(issues)| + if value.None? then 1 else 0
      ensures forall r :: IsReading(r, source, f.section, f.key) ==>
        match r
        case Ok(None) => value == None && issues == old(issues) + [Missing(f.section + "." + f.key)]
        case _ => IsChecked(value, issues, old(issues), f, r)
    {
      forall r | IsReading(r, source, f.section, f.key)
        ensures r == Resolved(source, f.section, f.key)
      {
        ReadingExactly(r, source, f.section, f.key);
      }
      IssuesGrow(source, read, SpecOf(f));
      read := read + [SpecOf(f)];
      var field := Name(f.section, f.key);
      var raw := Get(source, f.section, f.key);
      match raw {
        case Ok(Some(text)) =>
          match f.check(text) {
            case Ok(v) => value := Some(v);
            case Err(reason) =>
              issues := issues + [Malformed(field, reason)];
              value := None;
          }
        case Ok(None) =>
          issues := issues + [Missing(field)];
          value := None;
        case Err(reason) =>
          issues := issues + [Malformed(field, reason)];
          value := None;
      }
    }

    method Optional<T>(f: Field<T>) returns (value: Option<T>)
      requires Valid() && f.fallback.Some?
      modifies this
      ensures Valid() && read == old(read) + [SpecOf(f)]
      ensures value == ValueOf(source, f)
      ensures |issues| == |old(issues)| + if value.None? then 1 else 0
      ensures forall r :: IsReading(r, source, f.section, f.key) ==>
        match r
        case Ok(None) => value == f.fallback && issues == old(issues)
        case _ => IsChecked(value, issues, old(issues), f, r)
    {
      forall r | IsReading(r, source, f.section, f.key)
        ensures r == Resolved(source, f.section, f.key)
      {
        ReadingExactly(r, source, f.section, f.key);
      }
      IssuesGrow(source, read, SpecOf(f));
      read := read + [SpecOf(f)];
      var field := Name(f.section, f.key);
      var raw := Get(source, f.section, f.key);
      match raw {
        case Ok(Some(text)) =>
          match f.check(text) {
            case Ok(v) => value := Some(v);
            case Err(reason) =>
              issues := issues + [Malformed(field, reason)];
              value := None;
          }
        case Ok(None) => value := f.fallback;
        case Err(reason) =>
          issues := issues + [Malformed(field, reason)];
          value := None;
      }
    }
  }

  // ---------- The fields ----------

  datatype LogLevel = Trace | Debug | Info | Warn | Error

  // The checks of the single fields; they may be any functions.
  datatype Checks = Checks(
    domain: Check<string>,
    address: Check<string>,
    seconds: Check<nat>,
    databaseUrl: Check<string>,
    u32: Check<nat>,
    key: Check<seq<Byte>>,
    ownerPassword: Check<string>,
    boolean: Check<bool>,
    storageRoot: Check<string>,
    uploadSize: Check<nat>,
    dimension: Check<nat>,
    formats: Check<seq<string>>,
    concurrency: Check<nat>,
    level: Check<LogLevel>)

  function Domain(c: Checks): Field<string> { Field("server", "domain", None, c.domain) }
  function BindAddr(c: Checks): Field<string> { Field("server", "bind_addr", Some("0.0.0.0:3000"), c.address) }
  function ShutdownGrace(c: Checks): Field<nat> { Field("server", "shutdown_grace_secs", Some(30), c.seconds) }
  function DatabaseUrl(c: Checks): Field<string> { Field("database", "url", None, c.databaseUrl) }
  function MaxConnections(c: Checks): Field<nat> { Field("database", "max_connections", Some(10), c.u32) }
  function AcquireTimeout(c: Checks): Field<nat> { Field("database", "acquire_timeout_secs", Some(5), c.seconds) }
  function Kek(c: Checks): Field<seq<Byte>> { Field("actor", "kek", None, c.key) }
  function OwnerPassword(c: Checks): Field<string> { Field("owner", "password", None, c.ownerPassword) }
  function TokenHashKey(c: Checks): Field<seq<Byte>> { Field("oauth", "token_hash_key", None, c.key) }
  function SecureMode(c: Checks): Field<bool> { Field("federation", "secure_mode", Some(false), c.boolean) }
  function PublicKeyCacheTtl(c: Checks): Field<nat> {
    Field("federation", "public_key_cache_ttl", Some(24 * 60 * 60), c.seconds)
  }
  function RetentionDays(c: Checks): Field<nat> {
    Field("federation", "received_activity_retention_days", Some(14), c.u32)
  }
  function StorageRoot(c: Checks): Field<string> {
    Field("media", "storage_root", Some("media_storage"), c.storageRoot)
  }
  function MaxUploadSize(c: Checks): Field<nat> {
    Field("media", "max_upload_size_bytes", Some(10 * 1024 * 1024), c.uploadSize)
  }
  function ThumbnailWidth(c: Checks): Field<nat> { Field("media", "thumbnail_target_width", Some(400), c.dimension) }
  function ThumbnailHeight(c: Checks): Field<nat> { Field("media", "thumbnail_target_height", Some(400), c.dimension) }
  function SupportedFormats(c: Checks): Field<seq<string>> {
    Field("media", "supported_formats", Some(["image/jpeg", "image/png", "image/gif", "image/webp"]), c.formats)
  }
  function WorkerConcurrency(c: Checks): Field<nat> { Field("media", "worker_concurrency", Some(2), c.concurrency) }
  function MaxRetryAttempts(c: Checks): Field<nat> { Field("media", "max_retry_attempts", Some(5), c.u32) }
  function LeaseDuration(c: Checks): Field<nat> { Field("media", "lease_duration_secs", Some(5 * 60), c.seconds) }
  function MaxContentChars(c: Checks): Field<nat> { Field("statuses", "max_content_chars", Some(500), c.u32) }
  function PollMaxOptions(c: Checks): Field<nat> { Field("statuses", "poll_max_options", Some(4), c.u32) }
  function PollMinExpiration(c: Checks): Field<nat> {
    Field("statuses", "poll_min_expiration_secs", Some(5 * 60), c.seconds)
  }
  function IdempotencyDays(c: Checks): Field<nat> {
    Field("statuses", "idempotency_key_retention_days", Some(7), c.u32)
  }
  function Level(c: Checks): Field<LogLevel> { Field("log", "level", Some(Info), c.level) }
  function SqlDiagnostic(c: Checks): Field<bool> { Field("log", "sql_diagnostic", Some(false), c.boolean) }

  const NOTHING := Source(map[], map[])

  lemma NothingIsRead<T>(f: Field<T>)
    ensures ValueOf(NOTHING, f) == f.fallback
    ensures ProblemOf(NOTHING, SpecOf(f)) ==
            if f.fallback == None then Some(Missing(f.section + "." + f.key)) else None
  {
    ReadingExactly(Ok(None), NOTHING, f.section, f.key);
    InFileAt(map[], f.section, f.key);
    FieldExactly(NOTHING, f, Ok(None));
  }

  // Without a file and variables, five fields are missing.
  lemma RequiredFields(c: Checks)
    ensures ProblemOf(NOTHING, SpecOf(Domain(c))) == Some(Missing("server" + "." + "domain"))
    ensures ProblemOf(NOTHING, SpecOf(DatabaseUrl(c))) == Some(Missing("database" + "." + "url"))
    ensures ProblemOf(NOTHING, SpecOf(Kek(c))) == Some(Missing("actor" + "." + "kek"))
    ensures ProblemOf(NOTHING, SpecOf(OwnerPassword(c))) == Some(Missing("owner" + "." + "password"))
    ensures ProblemOf(NOTHING, SpecOf(TokenHashKey(c))) == Some(Missing("oauth" + "." + "token_hash_key"))
  {
    NothingIsRead(Domain(c));
    NothingIsRead(DatabaseUrl(c));
    NothingIsRead(Kek(c));
    NothingIsRead(OwnerPassword(c));
    NothingIsRead(TokenHashKey(c));
  }

  // The others have their defaults.
  lemma Defaults(c: Checks)
    ensures ValueOf(NOTHING, BindAddr(c)) == Some("0.0.0.0:3000") && ValueOf(NOTHING, ShutdownGrace(c)) == Some(30)
    ensures ValueOf(NOTHING, MaxConnections(c)) == Some(10) && ValueOf(NOTHING, AcquireTimeout(c)) == Some(5)
    ensures ValueOf(NOTHING, SecureMode(c)) == Some(false) && ValueOf(NOTHING, PublicKeyCacheTtl(c)) == Some(86400)
    ensures ValueOf(NOTHING, RetentionDays(c)) == Some(14) && ValueOf(NOTHING, StorageRoot(c)) == Some("media_storage")
    ensures ValueOf(NOTHING, MaxUploadSize(c)) == Some(10485760)
    ensures ValueOf(NOTHING, ThumbnailWidth(c)) == Some(400) && ValueOf(NOTHING, ThumbnailHeight(c)) == Some(400)
    ensures ValueOf(NOTHING, SupportedFormats(c)) == Some(["image/jpeg", "image/png", "image/gif", "image/webp"])
    ensures ValueOf(NOTHING, WorkerConcurrency(c)) == Some(2) && ValueOf(NOTHING, MaxRetryAttempts(c)) == Some(5)
    ensures ValueOf(NOTHING, LeaseDuration(c)) == Some(300) && ValueOf(NOTHING, MaxContentChars(c)) == Some(500)
    ensures ValueOf(NOTHING, PollMaxOptions(c)) == Some(4) && ValueOf(NOTHING, PollMinExpiration(c)) == Some(300)
    ensures ValueOf(NOTHING, IdempotencyDays(c)) == Some(7) && ValueOf(NOTHING, Level(c)) == Some(Info)
    ensures ValueOf(NOTHING, SqlDiagnostic(c)) == Some(false)
  {
    NothingIsRead(BindAddr(c));
    NothingIsRead(ShutdownGrace(c));
    NothingIsRead(MaxConnections(c));
    NothingIsRead(AcquireTimeout(c));
    NothingIsRead(SecureMode(c));
    NothingIsRead(PublicKeyCacheTtl(c));
    NothingIsRead(RetentionDays(c));
    NothingIsRead(StorageRoot(c));
    NothingIsRead(MaxUploadSize(c));
    NothingIsRead(ThumbnailWidth(c));
    NothingIsRead(ThumbnailHeight(c));
    NothingIsRead(SupportedFormats(c));
    NothingIsRead(WorkerConcurrency(c));
    NothingIsRead(MaxRetryAttempts(c));
    NothingIsRead(LeaseDuration(c));
    NothingIsRead(MaxContentChars(c));
    NothingIsRead(PollMaxOptions(c));
    NothingIsRead(PollMinExpiration(c));
    NothingIsRead(IdempotencyDays(c));
    NothingIsRead(Level(c));
    NothingIsRead(SqlDiagnostic(c));
  }

  // ---------- The sections ----------

  // Each section appends its fields in reading order to those before, says what its part of the
  // configuration is, and reads every field even after one has failed.

  datatype ServerConfig = ServerConfig(domain: string, bindAddr: string, shutdownGrace: nat)

  function ServerSpecs(before: seq<Spec>, c: Checks): seq<Spec> {
    before
    + [SpecOf(Domain(c))] + [SpecOf(BindAddr(c))] + [SpecOf(ShutdownGrace(c))]
  }

  ghost predicate IsServerConfig(x: ServerConfig, source: Source, c: Checks) {
    && ValueOf(source, Domain(c)) == Some(x.domain)
    && ValueOf(source, BindAddr(c)) == Some(x.bindAddr)
    && ValueOf(source, ShutdownGrace(c)) == Some(x.shutdownGrace)
  }

  method ReadServer(reader: Reader, c: Checks) returns (x: Option<ServerConfig>)
    requires reader.Valid()
    modifies reader
    ensures reader.Valid() && reader.read == ServerSpecs(old(reader.read), c)
    ensures |reader.issues| >= |old(reader.issues)| && (x.Some? <==> |reader.issues| == |old(reader.issues)|)
    ensures x.Some? ==> IsServerConfig(x.value, reader.source, c)
  {
    var before := |reader.issues|;
    var domain := reader.Required(Domain(c));
    var bindAddr := reader.Optional(BindAddr(c));
    var shutdownGrace := reader.Optional(ShutdownGrace(c));
    if |reader.issues| > before {
      return None;
    }
    x := Some(ServerConfig(domain.value, bindAddr.value, shutdownGrace.value));
  }

  datatype DatabaseConfig = DatabaseConfig(url: string, maxConnections: nat, acquireTimeout: nat)

  function DatabaseSpecs(before: seq<Spec>, c: Checks): seq<Spec> {
    before
    + [SpecOf(DatabaseUrl(c))] + [SpecOf(MaxConnections(c))] + [SpecOf(AcquireTimeout(c))]
  }

  ghost predicate IsDatabaseConfig(x: DatabaseConfig, source: Source, c: Checks) {
    && ValueOf(source, DatabaseUrl(c)) == Some(x.url)
    && ValueOf(source, MaxConnections(c)) == Some(x.maxConnections)
    && ValueOf(source, AcquireTimeout(c)) == Some(x.acquireTimeout)
  }

  method ReadDatabase(reader: Reader, c: Checks) returns (x: Option<DatabaseConfig>)
    requires reader.Valid()
    modifies reader
    ensures reader.Valid() && reader.read == DatabaseSpecs(old(reader.read), c)
    ensures |reader.issues| >= |old(reader.issues)| && (x.Some? <==> |reader.issues| == |old(reader.issues)|)
    ensures x.Some? ==> IsDatabaseConfig(x.value, reader.source, c)
  {
    var before := |reader.issues|;
    var url := reader.Required(DatabaseUrl(c));
    var maxConnections := reader.Optional(MaxConnections(c));
    var acquireTimeout := reader.Optional(AcquireTimeout(c));
    if |reader.issues| > before {
      return None;
    }
    x := Some(DatabaseConfig(url.value, maxConnections.value, acquireTimeout.value));
  }

  datatype SecretsConfig = SecretsConfig(kek: seq<Byte>, ownerPassword: string, tokenHashKey: seq<Byte>)

  function SecretsSpecs(before: seq<Spec>, c: Checks): seq<Spec> {
    before
    + [SpecOf(Kek(c))] + [SpecOf(OwnerPassword(c))] + [SpecOf(TokenHashKey(c))]
  }

  ghost predicate IsSecretsConfig(x: SecretsConfig, source: Source, c: Checks) {
    && ValueOf(source, Kek(c)) == Some(x.kek)
    && ValueOf(source, OwnerPassword(c)) == Some(x.ownerPassword)
    && ValueOf(source, TokenHashKey(c)) == Some(x.tokenHashKey)
  }

  method ReadSecrets(reader: Reader, c: Checks) returns (x: Option<SecretsConfig>)
    requires reader.Valid()
    modifies reader
    ensures reader.Valid() && reader.read == SecretsSpecs(old(reader.read), c)
    ensures |reader.issues| >= |old(reader.issues)| && (x.Some? <==> |reader.issues| == |old(reader.issues)|)
    ensures x.Some? ==> IsSecretsConfig(x.value, reader.source, c)
  {
    var before := |reader.issues|;
    var kek := reader.Required(Kek(c));
    var ownerPassword := reader.Required(OwnerPassword(c));
    var tokenHashKey := reader.Required(TokenHashKey(c));
    if |reader.issues| > before {
      return None;
    }
    x := Some(SecretsConfig(kek.value, ownerPassword.value, tokenHashKey.value));
  }

  datatype FederationConfig = FederationConfig(secureMode: bool, publicKeyCacheTtl: nat, retentionDays: nat)

  function FederationSpecs(before: seq<Spec>, c: Checks): seq<Spec> {
    before
    + [SpecOf(SecureMode(c))] + [SpecOf(PublicKeyCacheTtl(c))] + [SpecOf(RetentionDays(c))]
  }

  ghost predicate IsFederationConfig(x: FederationConfig, source: Source, c: Checks) {
    && ValueOf(source, SecureMode(c)) == Some(x.secureMode)
    && ValueOf(source, PublicKeyCacheTtl(c)) == Some(x.publicKeyCacheTtl)
    && ValueOf(source, RetentionDays(c)) == Some(x.retentionDays)
  }

  method ReadFederation(reader: Reader, c: Checks) returns (x: Option<FederationConfig>)
    requires reader.Valid()
    modifies reader
    ensures reader.Valid() && reader.read == FederationSpecs(old(reader.read), c)
    ensures |reader.issues| >= |old(reader.issues)| && (x.Some? <==> |reader.issues| == |old(reader.issues)|)
    ensures x.Some? ==> IsFederationConfig(x.value, reader.source, c)
  {
    var before := |reader.issues|;
    var secureMode := reader.Optional(SecureMode(c));
    var publicKeyCacheTtl := reader.Optional(PublicKeyCacheTtl(c));
    var retentionDays := reader.Optional(RetentionDays(c));
    if |reader.issues| > before {
      return None;
    }
    x := Some(FederationConfig(secureMode.value, publicKeyCacheTtl.value, retentionDays.value));
  }

  datatype MediaConfig = MediaConfig(
    storageRoot: string,
    maxUploadSize: nat,
    thumbnailWidth: nat,
    thumbnailHeight: nat,
    supportedFormats: seq<string>,
    workerConcurrency: nat,
    maxRetryAttempts: nat,
    leaseDuration: nat)

  function MediaFileSpecs(before: seq<Spec>, c: Checks): seq<Spec> {
    before
    + [SpecOf(StorageRoot(c))] + [SpecOf(MaxUploadSize(c))] + [SpecOf(ThumbnailWidth(c))]
    + [SpecOf(ThumbnailHeight(c))]
  }

  function MediaWorkSpecs(before: seq<Spec>, c: Checks): seq<Spec> {
    before
    + [SpecOf(SupportedFormats(c))] + [SpecOf(WorkerConcurrency(c))] + [SpecOf(MaxRetryAttempts(c))]
    + [SpecOf(LeaseDuration(c))]
  }

  function MediaSpecs(before: seq<Spec>, c: Checks): seq<Spec> {
    MediaWorkSpecs(MediaFileSpecs(before, c), c)
  }

  ghost predicate IsMediaFiles(x: MediaConfig, source: Source, c: Checks) {
    && ValueOf(source, StorageRoot(c)) == Some(x.storageRoot)
    && ValueOf(source, MaxUploadSize(c)) == Some(x.maxUploadSize)
    && ValueOf(source, ThumbnailWidth(c)) == Some(x.thumbnailWidth)
    && ValueOf(source, ThumbnailHeight(c)) == Some(x.thumbnailHeight)
  }

  ghost predicate IsMediaWork(x: MediaConfig, source: Source, c: Checks) {
    && ValueOf(source, SupportedFormats(c)) == Some(x.supportedFormats)
    && ValueOf(source, WorkerConcurrency(c)) == Some(x.workerConcurrency)
    && ValueOf(source, MaxRetryAttempts(c)) == Some(x.maxRetryAttempts)
    && ValueOf(source, LeaseDuration(c)) == Some(x.leaseDuration)
  }

  ghost predicate IsMediaConfig(x: MediaConfig, source: Source, c: Checks) {
    IsMediaFiles(x, source, c) && IsMediaWork(x, source, c)
  }

  method ReadMedia(reader: Reader, c: Checks) returns (x: Option<MediaConfig>)
    requires reader.Valid()
    modifies reader
    ensures reader.Valid() && reader.read == MediaSpecs(old(reader.read), c)
    ensures |reader.issues| >= |old(reader.issues)| && (x.Some? <==> |reader.issues| == |old(reader.issues)|)
    ensures x.Some? ==> IsMediaConfig(x.value, reader.source, c)
  {
    var before := |reader.issues|;
    var storageRoot := reader.Optional(StorageRoot(c));
    var maxUploadSize := reader.Optional(MaxUploadSize(c));
    var thumbnailWidth := reader.Optional(ThumbnailWidth(c));
    var thumbnailHeight := reader.Optional(ThumbnailHeight(c));
    var supportedFormats := reader.Optional(SupportedFormats(c));
    var workerConcurrency := reader.Optional(WorkerConcurrency(c));
    var maxRetryAttempts := reader.Optional(MaxRetryAttempts(c));
    var leaseDuration := reader.Optional(LeaseDuration(c));
    if |reader.issues| > before {
      return None;
    }
    x := Some(MediaConfig(
      storageRoot.value, maxUploadSize.value, thumbnailWidth.value, thumbnailHeight.value,
      supportedFormats.value, workerConcurrency.value, maxRetryAttempts.value, leaseDuration.value));
  }

  datatype StatusesConfig = StatusesConfig(
    maxContentChars: nat,
    pollMaxOptions: nat,
    pollMinExpiration: nat,
    idempotencyDays: nat)

  function StatusesSpecs(before: seq<Spec>, c: Checks): seq<Spec> {
    before
    + [SpecOf(MaxContentChars(c))] + [SpecOf(PollMaxOptions(c))] + [SpecOf(PollMinExpiration(c))]
    + [SpecOf(IdempotencyDays(c))]
  }

  ghost predicate IsStatusesConfig(x: StatusesConfig, source: Source, c: Checks) {
    && ValueOf(source, MaxContentChars(c)) == Some(x.maxContentChars)
    && ValueOf(source, PollMaxOptions(c)) == Some(x.pollMaxOptions)
    && ValueOf(source, PollMinExpiration(c)) == Some(x.pollMinExpiration)
    && ValueOf(source, IdempotencyDays(c)) == Some(x.idempotencyDays)
  }

  method ReadStatuses(reader: Reader, c: Checks) returns (x: Option<StatusesConfig>)
    requires reader.Valid()
    modifies reader
    ensures reader.Valid() && reader.read == StatusesSpecs(old(reader.read), c)
    ensures |reader.issues| >= |old(reader.issues)| && (x.Some? <==> |reader.issues| == |old(reader.issues)|)
    ensures x.Some? ==> IsStatusesConfig(x.value, reader.source, c)
  {
    var before := |reader.issues|;
    var maxContentChars := reader.Optional(MaxContentChars(c));
    var pollMaxOptions := reader.Optional(PollMaxOptions(c));
    var pollMinExpiration := reader.Optional(PollMinExpiration(c));
    var idempotencyDays := reader.Optional(IdempotencyDays(c));
    if |reader.issues| > before {
      return None;
    }
    x := Some(StatusesConfig(
      maxContentChars.value, pollMaxOptions.value,
      pollMinExpiration.value, idempotencyDays.value));
  }

  datatype LogConfig = LogConfig(level: LogLevel, sqlDiagnostic: bool)

  function LogSpecs(before: seq<Spec>, c: Checks): seq<Spec> {
    before
    + [SpecOf(Level(c))] + [SpecOf(SqlDiagnostic(c))]
  }

  ghost predicate IsLogConfig(x: LogConfig, source: Source, c: Checks) {
    && ValueOf(source, Level(c)) == Some(x.level)
    && ValueOf(source, SqlDiagnostic(c)) == Some(x.sqlDiagnostic)
  }

  method ReadLog(reader: Reader, c: Checks) returns (x: Option<LogConfig>)
    requires reader.Valid()
    modifies reader
    ensures reader.Valid() && reader.read == LogSpecs(old(reader.read), c)
    ensures |reader.issues| >= |old(reader.issues)| && (x.Some? <==> |reader.issues| == |old(reader.issues)|)
    ensures x.Some? ==> IsLogConfig(x.value, reader.source, c)
  {
    var before := |reader.issues|;
    var level := reader.Optional(Level(c));
    var sqlDiagnostic := reader.Optional(SqlDiagnostic(c));
    if |reader.issues| > before {
      return None;
    }
    x := Some(LogConfig(level.value, sqlDiagnostic.value));
  }

  // ---------- Loading ----------

  datatype AppConfig = AppConfig(
    server: ServerConfig,
    database: DatabaseConfig,
    secrets: SecretsConfig,
    federation: FederationConfig,
    media: MediaConfig,
    statuses: StatusesConfig,
    log: LogConfig)

  // All fields in reading order.
  function Specs(c: Checks): seq<Spec> {
    var network := DatabaseSpecs(ServerSpecs([], c), c);
    LogSpecs(StatusesSpecs(MediaSpecs(FederationSpecs(SecretsSpecs(network, c), c), c), c), c)
  }

  // Every part of the configuration is the value of its field.
  ghost predicate IsConfig(config: AppConfig, source: Source, c: Checks) {
    && IsServerConfig(config.server, source, c)
    && IsDatabaseConfig(config.database, source, c)
    && IsSecretsConfig(config.secrets, source, c)
    && IsFederationConfig(config.federation, source, c)
    && IsMediaConfig(config.media, source, c)
    && IsStatusesConfig(config.statuses, source, c)
    && IsLogConfig(config.log, source, c)
  }

  // The document: the text's table, the reason why the text is not TOML, or no file at all.
  datatype Document = NoFile | Unparsed(reason: string) | File(toml: map<string, Toml>)

  function TableOf(document: Document): map<string, Toml> {
    if document.File? then document.toml else map[]
  }

  // Loading succeeds exactly when no field raises an issue, and then every part of the configuration
  // is its field's value; otherwise the error lists the issues of all bad fields in reading order.
  method LoadConfigFrom(document: Document, env: map<string, string>, c: Checks)
    returns (r: Result<AppConfig, seq<Issue>>)
    ensures var source := Source(TableOf(document), env);
            if document.Unparsed? then
              r == Err([Malformed("<config file>", "could not parse TOML: " + document.reason)])
            else if IssuesOf(source, Specs(c)) == [] then r.Ok? && IsConfig(r.value, source, c)
            else r == Err(IssuesOf(source, Specs(c)))
  {
    if document.Unparsed? {
      return Err([Malformed("<config file>", "could not parse TOML: " + document.reason)]);
    }
    var reader := new Reader(Source(TableOf(document), env));
    var server := ReadServer(reader, c);
    var database := ReadDatabase(reader, c);
    var secrets := ReadSecrets(reader, c);
    var federation := ReadFederation(reader, c);
    var media := ReadMedia(reader, c);
    var statuses := ReadStatuses(reader, c);
    var log := ReadLog(reader, c);
    if reader.issues != [] {
      return Err(reader.issues);
    }
    r := Ok(AppConfig(
      server.value, database.value, secrets.value, federation.value,
      media.value, statuses.value, log.value));
  }

  // ---------- What a configuration depends on ----------

  // The issues name fields in reading order; a field is named exactly if something is wrong with it.
  ghost predicate AreIssuesOf(issues: seq<Issue>, at: seq<nat>, source: Source, specs: seq<Spec>) {
    ArePresentAt(issues, at, Problems(source, specs))
  }

  lemma IssuesNameBadFields(source: Source, specs: seq<Spec>) returns (at: seq<nat>)
    ensures AreIssuesOf(IssuesOf(source, specs), at, source, specs)
  {
    at := PresentStandAt(Problems(source, specs));
  }

  function SetAt(toml: map<string, Toml>, section: string, key: string, v: Toml): map<string, Toml> {
    var entries := if section in toml && toml[section].TomlTable? then toml[section].entries else map[];
    toml[section := TomlTable(entries[key := v])]
  }

  // The file with every field's variable written over it.
  function Overlay(source: Source, specs: seq<Spec>): map<string, Toml>
    decreases |specs|
  {
    if specs == [] then source.toml else
    var last := specs[|specs| - 1];
    var rest := Overlay(source, specs[..|specs| - 1]);
    var envKey := ToEnvKey(Name(last.section, last.key));
    if envKey in source.env then SetAt(rest, last.section, last.key, TomlString(source.env[envKey])) else rest
  }

  function Overlaid(source: Source, specs: seq<Spec>): Source {
    Source(Overlay(source, specs), map[])
  }

  ghost predicate HasField(specs: seq<Spec>, section: string, key: string) {
    exists i :: 0 <= i < |specs| && specs[i].section == section && specs[i].key == key
  }

  lemma SetAtReads(toml: map<string, Toml>, section: string, key: string, v: Toml, s: string, k: string)
    ensures At(SetAt(toml, section, key, v), s, k) == if s == section && k == key then Some(v) else At(toml, s, k)
  {
  }

  lemma HasFieldGrows(specs: seq<Spec>, last: Spec, section: string, key: string)
    ensures HasField(specs + [last], section, key)
            <==> HasField(specs, section, key) || (last.section == section && last.key == key)
  {
    var grown := specs + [last];
    assert grown[|specs|] == last;
    if HasField(specs, section, key) {
      var i :| 0 <= i < |specs| && specs[i].section == section && specs[i].key == key;
      assert grown[i] == specs[i];
    }
  }

  lemma {:induction false} OverlayAt(source: Source, specs: seq<Spec>, section: string, key: string)
    ensures var envKey := ToEnvKey(Name(section, key));
            At(Overlay(source, specs), section, key) ==
              if HasField(specs, section, key) && envKey in source.env then Some(TomlString(source.env[envKey]))
              else At(source.toml, section, key)
    decreases |specs|
  {
    if specs != [] {
      var last, rest := specs[|specs| - 1], specs[..|specs| - 1];
      OverlayAt(source, rest, section, key);
      assert specs == rest + [last];
      HasFieldGrows(rest, last, section, key);
      var envKey := ToEnvKey(Name(last.section, last.key));
      if envKey in source.env {
        SetAtReads(Overlay(source, rest), last.section, last.key, TomlString(source.env[envKey]), section, key);
      }
    }
  }

  // The overlaid file alone says of a field what the file and the environment say together.
  lemma OverlayResolves(source: Source, specs: seq<Spec>, section: string, key: string)
    requires HasField(specs, section, key)
    ensures Resolved(Overlaid(source, specs), section, key) == Resolved(source, section, key)
  {
    OverlayAt(source, specs, section, key);
    InFileAt(source.toml, section, key);
    InFileAt(Overlay(source, specs), section, key);
  }

  ghost predicate SameText(a: Source, b: Source, section: string, key: string) {
    Resolved(a, section, key) == Resolved(b, section, key)
  }

  // The two sources say the same of every field listed.
  ghost predicate SameTexts(a: Source, b: Source, specs: seq<Spec>) {
    forall i :: 0 <= i < |specs| ==> SameText(a, b, specs[i].section, specs[i].key)
  }

  lemma SameProblem(a: Source, b: Source, spec: Spec)
    requires SameText(a, b, spec.section, spec.key)
    ensures ProblemOf(a, spec) == ProblemOf(b, spec)
  {
  }

  lemma SameIssues(a: Source, b: Source, specs: seq<Spec>)
    requires SameTexts(a, b, specs)
    ensures IssuesOf(a, specs) == IssuesOf(b, specs)
  {
    forall i | 0 <= i < |specs|
      ensures ProblemOf(a, specs[i]) == ProblemOf(b, specs[i])
    {
      SameProblem(a, b, specs[i]);
    }
    assert Problems(a, specs) == Problems(b, specs);
  }

  lemma OverlaySaysTheSame(source: Source, specs: seq<Spec>)
    ensures SameTexts(source, Overlaid(source, specs), specs)
  {
    forall i | 0 <= i < |specs|
      ensures SameText(source, Overlaid(source, specs), specs[i].section, specs[i].key)
    {
      assert HasField(specs, specs[i].section, specs[i].key);
      OverlayResolves(source, specs, specs[i].section, specs[i].key);
    }
  }

  // What is said of the last field is the same, and so is its value.
  lemma SameField<T>(a: Source, b: Source, before: seq<Spec>, f: Field<T>)
    requires SameTexts(a, b, before + [SpecOf(f)])
    ensures SameTexts(a, b, before) && ValueOf(a, f) == ValueOf(b, f)
  {
    var specs, n := before + [SpecOf(f)], |before|;
    assert specs[n] == SpecOf(f) && SameText(a, b, f.section, f.key);
    assert forall i :: 0 <= i < n ==> specs[i] == before[i];
  }

  lemma SameServer(a: Source, b: Source, before: seq<Spec>, c: Checks, x: ServerConfig)
    requires SameTexts(a, b, ServerSpecs(before, c))
    ensures SameTexts(a, b, before)
    ensures IsServerConfig(x, a, c) <==> IsServerConfig(x, b, c)
  {
    var one := before + [SpecOf(Domain(c))];
    var two := one + [SpecOf(BindAddr(c))];
    SameField(a, b, two, ShutdownGrace(c));
    SameField(a, b, one, BindAddr(c));
    SameField(a, b, before, Domain(c));
  }

  lemma SameDatabase(a: Source, b: Source, before: seq<Spec>, c: Checks, x: DatabaseConfig)
    requires SameTexts(a, b, DatabaseSpecs(before, c))
    ensures SameTexts(a, b, before)
    ensures IsDatabaseConfig(x, a, c) <==> IsDatabaseConfig(x, b, c)
  {
    var one := before + [SpecOf(DatabaseUrl(c))];
    var two := one + [SpecOf(MaxConnections(c))];
    SameField(a, b, two, AcquireTimeout(c));
    SameField(a, b, one, MaxConnections(c));
    SameField(a, b, before, DatabaseUrl(c));
  }

  lemma SameSecrets(a: Source, b: Source, before: seq<Spec>, c: Checks, x: SecretsConfig)
    requires SameTexts(a, b, SecretsSpecs(before, c))
    ensures SameTexts(a, b, before)
    ensures IsSecretsConfig(x, a, c) <==> IsSecretsConfig(x, b, c)
  {
    var one := before + [SpecOf(Kek(c))];
    var two := one + [SpecOf(OwnerPassword(c))];
    SameField(a, b, two, TokenHashKey(c));
    SameField(a, b, one, OwnerPassword(c));
    SameField(a, b, before, Kek(c));
  }

  lemma SameFederation(a: Source, b: Source, before: seq<Spec>, c: Checks, x: FederationConfig)
    requires SameTexts(a, b, FederationSpecs(before, c))
    ensures SameTexts(a, b, before)
    ensures IsFederationConfig(x, a, c) <==> IsFederationConfig(x, b, c)
  {
    var one := before + [SpecOf(SecureMode(c))];
    var two := one + [SpecOf(PublicKeyCacheTtl(c))];
    SameField(a, b, two, RetentionDays(c));
    SameField(a, b, one, PublicKeyCacheTtl(c));
    SameField(a, b, before, SecureMode(c));
  }

  lemma SameMediaFiles(a: Source, b: Source, before: seq<Spec>, c: Checks, x: MediaConfig)
    requires SameTexts(a, b, MediaFileSpecs(before, c))
    ensures SameTexts(a, b, before)
    ensures IsMediaFiles(x, a, c) <==> IsMediaFiles(x, b, c)
  {
    var one := before + [SpecOf(StorageRoot(c))];
    var two := one + [SpecOf(MaxUploadSize(c))];
    var three := two + [SpecOf(ThumbnailWidth(c))];
    SameField(a, b, three, ThumbnailHeight(c));
    SameField(a, b, two, ThumbnailWidth(c));
    SameField(a, b, one, MaxUploadSize(c));
    SameField(a, b, before, StorageRoot(c));
  }

  lemma SameMediaWork(a: Source, b: Source, before: seq<Spec>, c: Checks, x: MediaConfig)
    requires SameTexts(a, b, MediaWorkSpecs(before, c))
    ensures SameTexts(a, b, before)
    ensures IsMediaWork(x, a, c) <==> IsMediaWork(x, b, c)
  {
    var one := before + [SpecOf(SupportedFormats(c))];
    var two := one + [SpecOf(WorkerConcurrency(c))];
    var three := two + [SpecOf(MaxRetryAttempts(c))];
    SameField(a, b, three, LeaseDuration(c));
    SameField(a, b, two, MaxRetryAttempts(c));
    SameField(a, b, one, WorkerConcurrency(c));
    SameField(a, b, before, SupportedFormats(c));
  }

  lemma SameMedia(a: Source, b: Source, before: seq<Spec>, c: Checks, x: MediaConfig)
    requires SameTexts(a, b, MediaSpecs(before, c))
    ensures SameTexts(a, b, before)
    ensures IsMediaConfig(x, a, c) <==> IsMediaConfig(x, b, c)
  {
    SameMediaWork(a, b, MediaFileSpecs(before, c), c, x);
    SameMediaFiles(a, b, before, c, x);
  }

  lemma SameStatuses(a: Source, b: Source, before: seq<Spec>, c: Checks, x: StatusesConfig)
    requires SameTexts(a, b, StatusesSpecs(before, c))
    ensures SameTexts(a, b, before)
    ensures IsStatusesConfig(x, a, c) <==> IsStatusesConfig(x, b, c)
  {
    var one := before + [SpecOf(MaxContentChars(c))];
    var two := one + [SpecOf(PollMaxOptions(c))];
    var three := two + [SpecOf(PollMinExpiration(c))];
    SameField(a, b, three, IdempotencyDays(c));
    SameField(a, b, two, PollMinExpiration(c));
    SameField(a, b, one, PollMaxOptions(c));
    SameField(a, b, before, MaxContentChars(c));
  }

  lemma SameLog(a: Source, b: Source, before: seq<Spec>, c: Checks, x: LogConfig)
    requires SameTexts(a, b, LogSpecs(before, c))
    ensures SameTexts(a, b, before)
    ensures IsLogConfig(x, a, c) <==> IsLogConfig(x, b, c)
  {
    var one := before + [SpecOf(Level(c))];
    SameField(a, b, one, SqlDiagnostic(c));
    SameField(a, b, before, Level(c));
  }

  lemma SameConfig(a: Source, b: Source, c: Checks, x: AppConfig)
    requires SameTexts(a, b, Specs(c))
    ensures IsConfig(x, a, c) <==> IsConfig(x, b, c)
  {
    var server := ServerSpecs([], c);
    var database := DatabaseSpecs(server, c);
    var secrets := SecretsSpecs(database, c);
    var federation := FederationSpecs(secrets, c);
    var media := MediaSpecs(federation, c);
    var statuses := StatusesSpecs(media, c);
    SameLog(a, b, statuses, c, x.log);
    SameStatuses(a, b, media, c, x.statuses);
    SameMedia(a, b, federation, c, x.media);
    SameFederation(a, b, secrets, c, x.federation);
    SameSecrets(a, b, database, c, x.secrets);
    SameDatabase(a, b, server, c, x.database);
    SameServer(a, b, [], c, x.server);
  }

  // Loading gives what loading the overlaid file without any environment gives: the same issues, and
  // the same configuration. So a value in the file that a variable shadows never matters.
  lemma LoadingIsLoadingTheOverlay(source: Source, c: Checks, x: AppConfig)
    ensures IssuesOf(source, Specs(c)) == IssuesOf(Overlaid(source, Specs(c)), Specs(c))
    ensures IsConfig(x, source, c) <==> IsConfig(x, Overlaid(source, Specs(c)), c)
  {
    OverlaySaysTheSame(source, Specs(c));
    SameIssues(source, Overlaid(source, Specs(c)), Specs(c));
    SameConfig(source, Overlaid(source, Specs(c)), c, x);
  }

  // ---------- The names of the fields ----------

  function EnvKeyOf(spec: Spec): string {
    ToEnvKey(Name(spec.section, spec.key))
  }

  // Which field a variable belongs to, told by the length of its name and two characters of it.
  function FieldOf(length: nat, first: char, seventh: char): nat {
    match length
    case 13 => 0
    case 16 => 1
    case 26 => if seventh == '_' then 2 else 20
    case 12 => 3
    case 24 => if first == 'D' then 4 else if seventh == 'W' then 17 else 18
    case 29 => if first == 'D' then 5 else 15
    case 9 => if first == 'A' then 6 else 24
    case 14 => 7
    case 20 => 8
    case 22 => 9
    case 31 => 10
    case 43 => 11
    case 18 => if first == 'M' then 12 else 25
    case 27 => 13
    case 28 => 14
    case 23 => 16
    case 25 => if first == 'M' then 19 else 21
    case 33 => 22
    case 39 => 23
    case _ => 26
  }

  ghost predicate IsAt(spec: Spec, i: nat) {
    var envKey := EnvKeyOf(spec);
    && |envKey| > |ENV_PREFIX| + 6
    && FieldOf(|envKey| - |ENV_PREFIX|, envKey[|ENV_PREFIX|], envKey[|ENV_PREFIX| + 6]) == i
  }

  // Every variable tells its own field.
  ghost predicate AreTold(specs: seq<Spec>) {
    forall i :: 0 <= i < |specs| ==> IsAt(specs[i], i)
  }

  lemma ToldByName(spec: Spec, length: nat, first: char, seventh: char, i: nat)
    requires var name := Name(spec.section, spec.key);
             |name| == length > 6 && name[0] == first && name[6] == seventh
    requires FieldOf(length, EnvChar(first), EnvChar(seventh)) == i
    ensures IsAt(spec, i)
  {
    var name := Name(spec.section, spec.key);
    EnvCharsAt(name, 0);
    EnvCharsAt(name, 6);
    assert EnvKeyOf(spec)[|ENV_PREFIX|] == EnvChar(first);
    assert EnvKeyOf(spec)[|ENV_PREFIX| + 6] == EnvChar(seventh);
  }

  lemma {:induction false} ToldNext(before: seq<Spec>, spec: Spec, length: nat, first: char, seventh: char)
    requires AreTold(before)
    requires var name := Name(spec.section, spec.key);
             |name| == length > 6 && name[0] == first && name[6] == seventh
    requires FieldOf(length, EnvChar(first), EnvChar(seventh)) == |before|
    ensures AreTold(before + [spec])
  {
    ToldByName(spec, length, first, seventh, |before|);
  }

  lemma ToldServer(before: seq<Spec>, c: Checks)
    requires AreTold(before) && |before| == 0
    ensures AreTold(ServerSpecs(before, c)) && |ServerSpecs(before, c)| == 3
  {
    ToldNext(before, SpecOf(Domain(c)), 13, 's', '.');
    var one := before + [SpecOf(Domain(c))];
    ToldNext(one, SpecOf(BindAddr(c)), 16, 's', '.');
    var two := one + [SpecOf(BindAddr(c))];
    ToldNext(two, SpecOf(ShutdownGrace(c)), 26, 's', '.');
  }

  lemma ToldDatabase(before: seq<Spec>, c: Checks)
    requires AreTold(before) && |before| == 3
    ensures AreTold(DatabaseSpecs(before, c)) && |DatabaseSpecs(before, c)| == 6
  {
    ToldNext(before, SpecOf(DatabaseUrl(c)), 12, 'd', 's');
    var one := before + [SpecOf(DatabaseUrl(c))];
    ToldNext(one, SpecOf(MaxConnections(c)), 24, 'd', 's');
    var two := one + [SpecOf(MaxConnections(c))];
    ToldNext(two, SpecOf(AcquireTimeout(c)), 29, 'd', 's');
  }

  lemma ToldSecrets(before: seq<Spec>, c: Checks)
    requires AreTold(before) && |before| == 6
    ensures AreTold(SecretsSpecs(before, c)) && |SecretsSpecs(before, c)| == 9
  {
    ToldNext(before, SpecOf(Kek(c)), 9, 'a', 'k');
    var one := before + [SpecOf(Kek(c))];
    ToldNext(one, SpecOf(OwnerPassword(c)), 14, 'o', 'p');
    var two := one + [SpecOf(OwnerPassword(c))];
    ToldNext(two, SpecOf(TokenHashKey(c)), 20, 'o', 't');
  }

  lemma ToldFederation(before: seq<Spec>, c: Checks)
    requires AreTold(before) && |before| == 9
    ensures AreTold(FederationSpecs(before, c)) && |FederationSpecs(before, c)| == 12
  {
    ToldNext(before, SpecOf(SecureMode(c)), 22, 'f', 't');
    var one := before + [SpecOf(SecureMode(c))];
    ToldNext(one, SpecOf(PublicKeyCacheTtl(c)), 31, 'f', 't');
    var two := one + [SpecOf(PublicKeyCacheTtl(c))];
    ToldNext(two, SpecOf(RetentionDays(c)), 43, 'f', 't');
  }

  lemma ToldMediaFile(before: seq<Spec>, c: Checks)
    requires AreTold(before) && |before| == 12
    ensures AreTold(MediaFileSpecs(before, c)) && |MediaFileSpecs(before, c)| == 16
  {
    ToldNext(before, SpecOf(StorageRoot(c)), 18, 'm', 's');
    var one := before + [SpecOf(StorageRoot(c))];
    ToldNext(one, SpecOf(MaxUploadSize(c)), 27, 'm', 'm');
    var two := one + [SpecOf(MaxUploadSize(c))];
    ToldNext(two, SpecOf(ThumbnailWidth(c)), 28, 'm', 't');
    var three := two + [SpecOf(ThumbnailWidth(c))];
    ToldNext(three, SpecOf(ThumbnailHeight(c)), 29, 'm', 't');
  }

  lemma ToldMediaWork(before: seq<Spec>, c: Checks)
    requires AreTold(before) && |before| == 16
    ensures AreTold(MediaWorkSpecs(before, c)) && |MediaWorkSpecs(before, c)| == 20
  {
    ToldNext(before, SpecOf(SupportedFormats(c)), 23, 'm', 's');
    var one := before + [SpecOf(SupportedFormats(c))];
    ToldNext(one, SpecOf(WorkerConcurrency(c)), 24, 'm', 'w');
    var two := one + [SpecOf(WorkerConcurrency(c))];
    ToldNext(two, SpecOf(MaxRetryAttempts(c)), 24, 'm', 'm');
    var three := two + [SpecOf(MaxRetryAttempts(c))];
    ToldNext(three, SpecOf(LeaseDuration(c)), 25, 'm', 'l');
  }

  lemma ToldStatuses(before: seq<Spec>, c: Checks)
    requires AreTold(before) && |before| == 20
    ensures AreTold(StatusesSpecs(before, c)) && |StatusesSpecs(before, c)| == 24
  {
    ToldNext(before, SpecOf(MaxContentChars(c)), 26, 's', 'e');
    var one := before + [SpecOf(MaxContentChars(c))];
    ToldNext(one, SpecOf(PollMaxOptions(c)), 25, 's', 'e');
    var two := one + [SpecOf(PollMaxOptions(c))];
    ToldNext(two, SpecOf(PollMinExpiration(c)), 33, 's', 'e');
    var three := two + [SpecOf(PollMinExpiration(c))];
    ToldNext(three, SpecOf(IdempotencyDays(c)), 39, 's', 'e');
  }

  lemma ToldLog(before: seq<Spec>, c: Checks)
    requires AreTold(before) && |before| == 24
    ensures AreTold(LogSpecs(before, c)) && |LogSpecs(before, c)| == 26
  {
    ToldNext(before, SpecOf(Level(c)), 9, 'l', 'v');
    var one := before + [SpecOf(Level(c))];
    ToldNext(one, SpecOf(SqlDiagnostic(c)), 18, 'l', 'l');
  }

  lemma AllAreTold(c: Checks)
    ensures AreTold(Specs(c)) && |Specs(c)| == 26
  {
    var server := ServerSpecs([], c);
    var database := DatabaseSpecs(server, c);
    var secrets := SecretsSpecs(database, c);
    var federation := FederationSpecs(secrets, c);
    var files := MediaFileSpecs(federation, c);
    var media := MediaSpecs(federation, c);
    ToldServer([], c);
    ToldDatabase(server, c);
    ToldSecrets(database, c);
    ToldFederation(secrets, c);
    ToldMediaFile(federation, c);
    ToldMediaWork(files, c);
    ToldStatuses(media, c);
    ToldLog(StatusesSpecs(media, c), c);
  }

  // The 26 fields have different variables, so different names too: no variable sets two fields.
  lemma FieldsHaveOwnVariables(c: Checks, i: nat, j: nat)
    requires i < j < |Specs(c)|
    ensures EnvKeyOf(Specs(c)[i]) != EnvKeyOf(Specs(c)[j])
    ensures Name(Specs(c)[i].section, Specs(c)[i].key) != Name(Specs(c)[j].section, Specs(c)[j].key)
  {
    AllAreTold(c);
    assert IsAt(Specs(c)[i], i) && IsAt(Specs(c)[j], j);
  }

  // So no two issues of one loading name the same field.
  lemma IssuesNameDifferentFields(source: Source, c: Checks, j: nat, k: nat)
    requires j < k < |IssuesOf(source, Specs(c))|
    ensures var issues := IssuesOf(source, Specs(c)); issues[j].field != issues[k].field
  {
    var at := IssuesNameBadFields(source, Specs(c));
    var problems := Problems(source, Specs(c));
    assert problems[at[j]] == Some(IssuesOf(source, Specs(c))[j]);
    assert problems[at[k]] == Some(IssuesOf(source, Specs(c))[k]);
    FieldsHaveOwnVariables(c, at[j], at[k]);
  }

  // ---------- Keys ----------

  // The check of the two key fields: the reasons may be worded in any way.
  ghost predicate ReadsKeys(check: Check<seq<Byte>>) {
    forall raw :: if KeyOf(raw).Ok? then check(raw) == Ok(KeyOf(raw).value) else check(raw).Err?
  }

  // With that check, the keys of a loaded configuration are the ones their texts stand for.
  lemma LoadedKeysAreRead(x: SecretsConfig, source: Source, c: Checks)
    requires ReadsKeys(c.key) && IsSecretsConfig(x, source, c)
    ensures |x.kek| == 32 && |x.tokenHashKey| == 32
    ensures exists raw :: Resolved(source, "actor", "kek") == Ok(Some(raw)) && KeyOf(raw) == Ok(x.kek)
    ensures exists raw ::
              Resolved(source, "oauth", "token_hash_key") == Ok(Some(raw)) && KeyOf(raw) == Ok(x.tokenHashKey)
  {
    RequiredKeyIsRead(source, Kek(c), x.kek);
    RequiredKeyIsRead(source, TokenHashKey(c), x.tokenHashKey);
  }

  lemma RequiredKeyIsRead(source: Source, f: Field<seq<Byte>>, key: seq<Byte>)
    requires ReadsKeys(f.check) && f.fallback.None? && ValueOf(source, f) == Some(key)
    ensures |key| == 32
    ensures exists raw :: Resolved(source, f.section, f.key) == Ok(Some(raw)) && KeyOf(raw) == Ok(key)
  {
    var raw := Resolved(source, f.section, f.key).value.value;
    assert f.check(raw) == Ok(key) && KeyOf(raw) == Ok(key);
  }
}
