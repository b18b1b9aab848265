/** The cache of remote accounts: the table (src/accounts/remote_repository.rs) and the calls that
  look up, judge, fetch and upsert over it (src/accounts/remote_fetcher.rs).

  Each SQL statement is one atomic step. What the database, the network, the id source and the
  clock answer is an input of the step that asks.
 */
module RemoteCache {
  import opened Wrappers
  import opened Json
  import opened ProfileFields
  import opened ActorDocument
  import opened Arithmetic
  import opened Strings

  datatype Error = Database | Network | NotFound | BadDocument(problem: Problem)

  type Rows = seq<RemoteAccount>

  // ---------- The table ----------

  // The position of the row with that URI, or the number of rows.
  function IndexOf(rows: Rows, uri: string): (i: nat)
    ensures i <= |rows|
    ensures i < |rows| ==> rows[i].actorUri == uri
    ensures forall j :: 0 <= j < i ==> rows[j].actorUri != uri
    decreases |rows|
  {
    if rows == [] || rows[0].actorUri == uri then 0 else 1 + IndexOf(rows[1..], uri)
  }

  function IndexOfId(rows: Rows, id: int): (i: nat)
    ensures i <= |rows|
    ensures i < |rows| ==> rows[i].id == id
    ensures forall j :: 0 <= j < i ==> rows[j].id != id
    decreases |rows|
  {
    if rows == [] || rows[0].id == id then 0 else 1 + IndexOfId(rows[1..], id)
  }

  function FindByUri(rows: Rows, uri: string): Option<RemoteAccount> {
    var i := IndexOf(rows, uri);
    if i < |rows| then Some(rows[i]) else None
  }

  function FindById(rows: Rows, id: int): Option<RemoteAccount> {
    var i := IndexOfId(rows, id);
    if i < |rows| then Some(rows[i]) else None
  }

  // What one upsert leaves and returns: a row with the URI is overwritten except for its id; a new
  // row is refused if its id is taken.
  function Upserted(rows: Rows, account: RemoteAccount): (Rows, Result<RemoteAccount, Error>) {
    var stored := account.(fields := Cut(account.fields));
    var i := IndexOf(rows, account.actorUri);
    if i < |rows| then
      var row := stored.(id := rows[i].id);
      (rows[i := row], Ok(row))
    else if FindById(rows, account.id).Some? then (rows, Err(Database))
    else (rows + [stored], Ok(stored))
  }

  // The table's two constraints.
  ghost predicate WellFormed(rows: Rows) {
    && (forall i, j :: 0 <= i < j < |rows| ==> rows[i].actorUri != rows[j].actorUri)
    && (forall i, j :: 0 <= i < j < |rows| ==> rows[i].id != rows[j].id)
  }

  // The row with that URI has that id.
  ghost predicate HasId(rows: Rows, uri: string, id: int) {
    FindByUri(rows, uri).Some? && FindByUri(rows, uri).value.id == id
  }

  lemma FoundByUri(rows: Rows, i: nat)
    requires WellFormed(rows) && i < |rows|
    ensures FindByUri(rows, rows[i].actorUri) == Some(rows[i])
    ensures FindById(rows, rows[i].id) == Some(rows[i])
  {
    var j, k := IndexOf(rows, rows[i].actorUri), IndexOfId(rows, rows[i].id);
    assert j <= i && k <= i;
  }

  // The two lookups agree.
  lemma LookupsAgree(rows: Rows, a: RemoteAccount)
    requires WellFormed(rows)
    ensures FindByUri(rows, a.actorUri) == Some(a) <==> FindById(rows, a.id) == Some(a)
    ensures FindByUri(rows, a.actorUri) == Some(a) <==> a in rows
  {
    if a in rows {
      var i :| 0 <= i < |rows| && rows[i] == a;
      FoundByUri(rows, i);
    }
  }

  // An upsert keeps both constraints, ...
  lemma UpsertKeepsConstraints(rows: Rows, account: RemoteAccount)
    requires WellFormed(rows)
    ensures WellFormed(Upserted(rows, account).0)
  {
    var i := IndexOf(rows, account.actorUri);
    var after := Upserted(rows, account).0;
    if i < |rows| {
      assert forall j :: 0 <= j < |rows| ==> after[j].id == rows[j].id && after[j].actorUri == rows[j].actorUri;
    }
  }

  // ... touches no other URI and no id that was there, ...
  lemma UpsertKeepsOthers(rows: Rows, account: RemoteAccount, uri: string)
    ensures var after := Upserted(rows, account).0;
            if uri != account.actorUri then FindByUri(after, uri) == FindByUri(rows, uri)
            else FindByUri(rows, uri).Some? ==> HasId(after, uri, FindByUri(rows, uri).value.id)
  {
    var after := Upserted(rows, account).0;
    var i, j := IndexOf(rows, uri), IndexOf(after, uri);
    assert |after| >= |rows|;
    assert forall k :: 0 <= k < |rows| ==> after[k].actorUri == rows[k].actorUri;
    if i < |rows| {
      SameIndex(after, uri, i, j);
    } else if j < |after| {
      assert after[j].actorUri == uri;
    }
  }

  lemma SameIndex(rows: Rows, uri: string, i: nat, j: nat)
    requires i < |rows| && rows[i].actorUri == uri && (forall k :: 0 <= k < i ==> rows[k].actorUri != uri)
    requires j == IndexOf(rows, uri)
    ensures i == j
  {
    var found := rows[i].actorUri == uri;
  }

  // ... and, when it succeeds, stores the account under the id it returns.
  lemma UpsertStores(rows: Rows, account: RemoteAccount)
    ensures var after, r := Upserted(rows, account).0, Upserted(rows, account).1;
            && (r.Err? <==> FindByUri(rows, account.actorUri).None? && FindById(rows, account.id).Some?)
            && (r.Err? ==> after == rows)
            && (r.Ok? ==> r.value == account.(id := r.value.id, fields := Cut(account.fields)))
            && (r.Ok? ==> FindByUri(after, account.actorUri) == Some(r.value))
            && (r.Ok? ==> r.value.id == if FindByUri(rows, account.actorUri).Some?
                                        then FindByUri(rows, account.actorUri).value.id else account.id)
  {
    var after := Upserted(rows, account).0;
    var i := IndexOf(rows, account.actorUri);
    if i < |rows| || FindById(rows, account.id).None? {
      SameIndex(after, account.actorUri, i, IndexOf(after, account.actorUri));
    }
  }

  predicate IsStale(fetchedAt: Instant, now: Instant, ttl: int) {
    now > fetchedAt && now - fetchedAt >= ttl
  }

  // ---------- One call ----------

  // What the network answers.
  datatype Fetched = Unreachable | Answer(success: bool, body: Option<Json>)

  // How far a call has come.
  datatype Phase =
    | Idle
    | Begun(uri: string)
    | LookedUp(uri: string, cached: Option<RemoteAccount>)
    | Missed(uri: string)
    | Received(uri: string, document: Parsed)
    | Minted(uri: string, document: Parsed, id: int)
    | Ready(uri: string, account: RemoteAccount)
    | Done(uri: string, result: Result<RemoteAccount, Error>, reading: Instant)

  // What happens to a call next, with what it is told from outside.
  datatype Event =
    | Begin(target: string)
    | Lookup(answered: bool)
    | Judge(now: Instant)
    | Fetch(fetched: Fetched)
    | Mint(id: int)
    | Stamp(at: Instant)
    | Upsert(answered: bool)

  // The parsed document of an answer.
  function Read(fetched: Fetched): Result<Parsed, Error> {
    if fetched.Unreachable? then Err(Network)
    else if !fetched.success then Err(NotFound)
    else match ParseActivity(fetched.body)
         case Ok(document) => Ok(document)
         case Err(problem) => Err(BadDocument(problem))
  }

  // The step of one call. An event that does not fit its phase changes nothing.
  function Move(rows: Rows, ttl: int, phase: Phase, event: Event): (Rows, Phase) {
    match (phase, event)
    case (Idle, Begin(uri)) => (rows, Begun(uri))
    case (Begun(uri), Lookup(answered)) =>
      (rows, if answered then LookedUp(uri, FindByUri(rows, uri)) else Done(uri, Err(Database), 0))
    case (LookedUp(uri, cached), Judge(now)) =>
      var current := cached.Some? && !IsStale(cached.value.fetchedAt, now, ttl);
      (rows, if current then Done(uri, Ok(cached.value), now) else Missed(uri))
    case (Missed(uri), Fetch(fetched)) =>
      (rows, match Read(fetched) { case Ok(document) => Received(uri, document) case Err(e) => Done(uri, Err(e), 0) })
    case (Received(uri, document), Mint(id)) => (rows, Minted(uri, document, id))
    case (Minted(uri, document, id), Stamp(at)) =>
      (rows, match NormalizeActorDocument(uri, document, id, at)
             case Ok(account) => Ready(uri, account)
             case Err(problem) => Done(uri, Err(BadDocument(problem)), at))
    case (Ready(uri, account), Upsert(answered)) =>
      if answered then
        var r := Upserted(rows, account);
        (r.0, Done(uri, r.1, account.fetchedAt))
      else (rows, Done(uri, Err(Database), account.fetchedAt))
    case _ => (rows, phase)
  }

  // ---------- Any number of calls ----------

  // The table and the calls in progress, by number.
  datatype World = World(rows: Rows, calls: map<nat, Phase>)

  // The next step of some call.
  datatype Step = Step(call: nat, event: Event)

  function PhaseOf(w: World, call: nat): Phase {
    if call in w.calls then w.calls[call] else Idle
  }

  function Next(w: World, ttl: int, step: Step): World {
    var m := Move(w.rows, ttl, PhaseOf(w, step.call), step.event);
    World(m.0, w.calls[step.call := m.1])
  }

  // An interleaving is any sequence of steps.
  function Run(w: World, ttl: int, steps: seq<Step>): World
    decreases |steps|
  {
    if steps == [] then w else Run(Next(w, ttl, steps[0]), ttl, steps[1..])
  }

  // What is known about a call: what it found or returned is stored under its URI and id.
  ghost predicate PhaseIsSound(rows: Rows, phase: Phase) {
    match phase
    case LookedUp(uri, Some(a)) => a.actorUri == uri && HasId(rows, uri, a.id)
    case Ready(uri, account) => account.actorUri == uri
    case Done(uri, Ok(a), _) => a.actorUri == uri && HasId(rows, uri, a.id)
    case _ => true
  }

  ghost predicate Sound(w: World) {
    WellFormed(w.rows) && forall c :: c in w.calls ==> PhaseIsSound(w.rows, w.calls[c])
  }

  // Every id stays with its URI.
  ghost predicate Keeps(rows: Rows, after: Rows) {
    forall uri, id :: HasId(rows, uri, id) ==> HasId(after, uri, id)
  }

  lemma UpsertKeepsIds(rows: Rows, account: RemoteAccount)
    ensures Keeps(rows, Upserted(rows, account).0)
  {
    forall uri, id | HasId(rows, uri, id)
      ensures HasId(Upserted(rows, account).0, uri, id)
    {
      UpsertKeepsOthers(rows, account, uri);
    }
  }

  lemma MoveKeeps(rows: Rows, ttl: int, phase: Phase, event: Event)
    requires WellFormed(rows) && PhaseIsSound(rows, phase)
    ensures var m := Move(rows, ttl, phase, event);
            WellFormed(m.0) && Keeps(rows, m.0) && PhaseIsSound(m.0, m.1)
  {
    if phase.Ready? && event.Upsert? {
      UpsertKeepsConstraints(rows, phase.account);
      UpsertKeepsIds(rows, phase.account);
      UpsertStores(rows, phase.account);
    } else if phase.Minted? && event.Stamp? {
      if NormalizeActorDocument(phase.uri, phase.document, phase.id, event.at).Ok? {
        NormalizedAccount(phase.uri, phase.document, phase.id, event.at);
      }
    }
  }

  lemma NextKeeps(w: World, ttl: int, step: Step)
    requires Sound(w)
    ensures Sound(Next(w, ttl, step)) && Keeps(w.rows, Next(w, ttl, step).rows)
  {
    var after := Next(w, ttl, step);
    MoveKeeps(w.rows, ttl, PhaseOf(w, step.call), step.event);
    forall c | c in after.calls
      ensures PhaseIsSound(after.rows, after.calls[c])
    {
      if c != step.call {
        assert PhaseIsSound(w.rows, w.calls[c]);
      }
    }
  }

  // Under every interleaving the table keeps its constraints, every id stays with its URI, and what
  // calls found or returned is stored.
  lemma {:induction false} RunKeeps(w: World, ttl: int, steps: seq<Step>)
    requires Sound(w)
    ensures Sound(Run(w, ttl, steps)) && Keeps(w.rows, Run(w, ttl, steps).rows)
    decreases |steps|
  {
    if steps != [] {
      NextKeeps(w, ttl, steps[0]);
      RunKeeps(Next(w, ttl, steps[0]), ttl, steps[1..]);
    }
  }

  // A successful call returns the id that is stored for its URI, by both lookups; so two successful
  // calls for one URI return the same id.
  lemma SuccessReturnsStoredId(w: World, ttl: int, steps: seq<Step>, c: nat, d: nat)
    requires Sound(w)
    ensures var after := Run(w, ttl, steps);
            PhaseOf(after, c).Done? && PhaseOf(after, c).result.Ok? ==>
              var a := PhaseOf(after, c).result.value;
              && a.actorUri == PhaseOf(after, c).uri
              && HasId(after.rows, a.actorUri, a.id)
              && FindById(after.rows, a.id).Some? && FindById(after.rows, a.id).value.actorUri == a.actorUri
              && (PhaseOf(after, d).Done? && PhaseOf(after, d).result.Ok? && PhaseOf(after, d).uri == a.actorUri ==>
                    PhaseOf(after, d).result.value.id == a.id)
  {
    RunKeeps(w, ttl, steps);
    var after := Run(w, ttl, steps);
    if PhaseOf(after, c).Done? && PhaseOf(after, c).result.Ok? {
      assert PhaseIsSound(after.rows, after.calls[c]);
      var a := PhaseOf(after, c).result.value;
      LookupsAgree(after.rows, FindByUri(after.rows, a.actorUri).value);
      if PhaseOf(after, d).Done? {
        assert PhaseIsSound(after.rows, after.calls[d]);
      }
    }
  }

  // ---------- Freshness ----------

  // A successful call returned an account less than `ttl` old by its own last reading of the clock.
  ghost predicate IsFresh(phase: Phase, ttl: int) {
    phase.Done? && phase.result.Ok? ==> phase.reading - phase.result.value.fetchedAt < ttl
  }

  ghost predicate AllFresh(w: World, ttl: int) {
    forall c :: c in w.calls ==> IsFresh(w.calls[c], ttl)
  }

  lemma MoveKeepsFresh(rows: Rows, ttl: int, phase: Phase, event: Event)
    requires ttl > 0 && IsFresh(phase, ttl)
    ensures IsFresh(Move(rows, ttl, phase, event).1, ttl)
  {
    if phase.Ready? && event.Upsert? {
      UpsertStores(rows, phase.account);
    }
  }

  lemma {:induction false} RunKeepsFresh(w: World, ttl: int, steps: seq<Step>)
    requires ttl > 0 && AllFresh(w, ttl)
    ensures AllFresh(Run(w, ttl, steps), ttl)
    decreases |steps|
  {
    if steps != [] {
      MoveKeepsFresh(w.rows, ttl, PhaseOf(w, steps[0].call), steps[0].event);
      RunKeepsFresh(Next(w, ttl, steps[0]), ttl, steps[1..]);
    }
  }

  const START: World := World([], map[])

  // A document every check accepts.
  const DOCUMENT: Json := Obj(map["id" := Str("x"), "type" := Str("Person"), "preferredUsername" := Str("x")])

  // One call on its own, from its first event to its last.
  function CallEvents(uri: string, i: Inputs): seq<Event> {
    [Begin(uri), Lookup(i.lookupAnswered), Judge(i.readAt),
     Fetch(i.fetched), Mint(i.id), Stamp(i.stampAt), Upsert(i.upsertAnswered)]
  }

  // What one call is told from outside.
  datatype Inputs = Inputs(
    lookupAnswered: bool,
    readAt: Instant,
    fetched: Fetched,
    id: int,
    stampAt: Instant,
    upsertAnswered: bool)

  function StepsOf(call: nat, events: seq<Event>): seq<Step> {
    seq(|events|, i requires 0 <= i < |events| => Step(call, events[i]))
  }

  // ---------- Calls one after another ----------

  datatype Outcome = Outcome(rows: Rows, result: Result<RemoteAccount, Error>, fetched: bool)

  // A call that runs without interruption.
  function Resolve(rows: Rows, ttl: int, uri: string, i: Inputs): Outcome {
    if !i.lookupAnswered then Outcome(rows, Err(Database), false) else
    var cached := FindByUri(rows, uri);
    if cached.Some? && !IsStale(cached.value.fetchedAt, i.readAt, ttl) then Outcome(rows, Ok(cached.value), false)
    else FetchAndUpsert(rows, uri, i)
  }

  function FetchAndUpsert(rows: Rows, uri: string, i: Inputs): Outcome {
    match Read(i.fetched)
    case Err(e) => Outcome(rows, Err(e), false)
    case Ok(document) =>
      match NormalizeActorDocument(uri, document, i.id, i.stampAt)
      case Err(problem) => Outcome(rows, Err(BadDocument(problem)), false)
      case Ok(account) =>
        if !i.upsertAnswered then Outcome(rows, Err(Database), false) else
        var r := Upserted(rows, account);
        Outcome(r.0, r.1, r.1.Ok?)
  }

  // The phase and the rows after each event of an uninterrupted call.
  function MoveAll(rows: Rows, ttl: int, phase: Phase, events: seq<Event>): (Rows, Phase)
    decreases |events|
  {
    if events == [] then (rows, phase) else
    var m := Move(rows, ttl, phase, events[0]);
    MoveAll(m.0, ttl, m.1, events[1..])
  }

  lemma MovesOn(rows: Rows, ttl: int, phase: Phase, event: Event, events: seq<Event>)
    ensures var m := Move(rows, ttl, phase, event);
            MoveAll(rows, ttl, phase, [event] + events) == MoveAll(m.0, ttl, m.1, events)
  {
    assert ([event] + events)[1..] == events;
  }

  lemma {:induction false} DoneStays(rows: Rows, ttl: int, phase: Phase, events: seq<Event>)
    requires phase.Done?
    ensures MoveAll(rows, ttl, phase, events) == (rows, phase)
    decreases |events|
  {
    if events != [] {
      DoneStays(rows, ttl, phase, events[1..]);
    }
  }

  lemma UpsertMoves(rows: Rows, ttl: int, uri: string, account: RemoteAccount, i: Inputs)
    ensures var m := MoveAll(rows, ttl, Ready(uri, account), [Upsert(i.upsertAnswered)]);
            && m.1.Done? && m.1.uri == uri && m.1.reading == account.fetchedAt
            && if i.upsertAnswered then m.0 == Upserted(rows, account).0 && m.1.result == Upserted(rows, account).1
               else m.0 == rows && m.1.result == Err(Database)
  {
    MovesOn(rows, ttl, Ready(uri, account), Upsert(i.upsertAnswered), []);
    assert [Upsert(i.upsertAnswered)] + [] == [Upsert(i.upsertAnswered)];
  }

  lemma FetchMoves(rows: Rows, ttl: int, uri: string, i: Inputs)
    ensures var events := [Fetch(i.fetched), Mint(i.id), Stamp(i.stampAt), Upsert(i.upsertAnswered)];
            var m := MoveAll(rows, ttl, Missed(uri), events);
            var o := FetchAndUpsert(rows, uri, i);
            && m.0 == o.rows && m.1.Done? && m.1.uri == uri && m.1.result == o.result
            && (o.result.Ok? ==> o.fetched && m.1.reading == i.stampAt == o.result.value.fetchedAt)
  {
    var e1 := [Mint(i.id), Stamp(i.stampAt), Upsert(i.upsertAnswered)];
    var e2, e3 := [Stamp(i.stampAt), Upsert(i.upsertAnswered)], [Upsert(i.upsertAnswered)];
    assert [Fetch(i.fetched)] + e1 == [Fetch(i.fetched), Mint(i.id), Stamp(i.stampAt), Upsert(i.upsertAnswered)];
    MovesOn(rows, ttl, Missed(uri), Fetch(i.fetched), e1);
    var p1 := Move(rows, ttl, Missed(uri), Fetch(i.fetched)).1;
    if p1.Done? {
      DoneStays(rows, ttl, p1, e1);
    } else {
      var document := p1.document;
      assert [Mint(i.id)] + e2 == e1;
      MovesOn(rows, ttl, p1, Mint(i.id), e2);
      assert [Stamp(i.stampAt)] + e3 == e2;
      MovesOn(rows, ttl, Minted(uri, document, i.id), Stamp(i.stampAt), e3);
      var p3 := Move(rows, ttl, Minted(uri, document, i.id), Stamp(i.stampAt)).1;
      if p3.Done? {
        DoneStays(rows, ttl, p3, e3);
      } else {
        UpsertMoves(rows, ttl, uri, p3.account, i);
        NormalizedAccount(uri, document, i.id, i.stampAt);
        UpsertStores(rows, p3.account);
      }
    }
  }

  // The uninterrupted call is the run of its steps with no other steps between them.
  lemma ResolveIsARun(rows: Rows, ttl: int, uri: string, i: Inputs)
    ensures var m, o := MoveAll(rows, ttl, Idle, CallEvents(uri, i)), Resolve(rows, ttl, uri, i);
            && m.0 == o.rows && m.1.Done? && m.1.uri == uri && m.1.result == o.result
            && (o.result.Ok? ==> m.1.reading == if o.fetched then i.stampAt else i.readAt)
            && (o.fetched ==> o.result.Ok? && o.result.value.fetchedAt == i.stampAt)
  {
    var e3 := [Fetch(i.fetched), Mint(i.id), Stamp(i.stampAt), Upsert(i.upsertAnswered)];
    var e2 := [Judge(i.readAt)] + e3;
    var e1 := [Lookup(i.lookupAnswered)] + e2;
    assert CallEvents(uri, i) == [Begin(uri)] + e1;
    MovesOn(rows, ttl, Idle, Begin(uri), e1);
    MovesOn(rows, ttl, Begun(uri), Lookup(i.lookupAnswered), e2);
    var p2 := Move(rows, ttl, Begun(uri), Lookup(i.lookupAnswered)).1;
    if p2.Done? {
      DoneStays(rows, ttl, p2, e2);
    } else {
      MovesOn(rows, ttl, p2, Judge(i.readAt), e3);
      var p3 := Move(rows, ttl, p2, Judge(i.readAt)).1;
      if p3.Done? {
        DoneStays(rows, ttl, p3, e3);
      } else {
        FetchMoves(rows, ttl, uri, i);
      }
    }
  }

  lemma {:induction false} RunOfOneCall(w: World, ttl: int, call: nat, events: seq<Event>)
    ensures var m, after := MoveAll(w.rows, ttl, PhaseOf(w, call), events), Run(w, ttl, StepsOf(call, events));
            after.rows == m.0 && PhaseOf(after, call) == m.1
    decreases |events|
  {
    var steps := StepsOf(call, events);
    if events != [] {
      assert steps[0] == Step(call, events[0]);
      assert steps[1..] == StepsOf(call, events[1..]);
      RunOfOneCall(Next(w, ttl, steps[0]), ttl, call, events[1..]);
    } else {
      assert steps == [];
    }
  }

  lemma DocumentIsRead()
    ensures Read(Answer(true, Some(DOCUMENT))).Ok?
    ensures NormalizeActorDocument("h", Read(Answer(true, Some(DOCUMENT))).value, 1, 0).Ok?
  {
    DocumentIsAcceptedExactly("h", Some(DOCUMENT), 1, 0);
    assert Until("h", AUTHORITY_STOPS) == "h" by {
      assert "h" + "" == "h";
      UntilOf("h", "", AUTHORITY_STOPS);
    }
  }

  lemma FreshFetch(ttl: int)
    ensures Resolve([], ttl, "h", Inputs(true, 0, Answer(true, Some(DOCUMENT)), 1, 0, true)).fetched
  {
    DocumentIsRead();
    var account := NormalizeActorDocument("h", Read(Answer(true, Some(DOCUMENT))).value, 1, 0).value;
    UpsertStores([], account);
  }

  // With a `ttl` that is not positive, a call can return an account that is already too old.
  lemma StaleSuccess(ttl: int) returns (steps: seq<Step>)
    requires ttl <= 0
    ensures !AllFresh(Run(START, ttl, steps), ttl)
  {
    var i := Inputs(true, 0, Answer(true, Some(DOCUMENT)), 1, 0, true);
    steps := StepsOf(0, CallEvents("h", i));
    RunOfOneCall(START, ttl, 0, CallEvents("h", i));
    ResolveIsARun([], ttl, "h", i);
    FreshFetch(ttl);
    assert !IsFresh(PhaseOf(Run(START, ttl, steps), 0), ttl);
  }

  // Successful calls are fresh in every interleaving exactly when `ttl` is positive.
  lemma SuccessIsFreshExactly(ttl: int)
    ensures (forall steps :: AllFresh(Run(START, ttl, steps), ttl)) <==> ttl > 0
  {
    if ttl > 0 {
      forall steps
        ensures AllFresh(Run(START, ttl, steps), ttl)
      {
        RunKeepsFresh(START, ttl, steps);
      }
    } else {
      var steps := StaleSuccess(ttl);
    }
  }

  // ---------- Failures ----------

  // How many steps of a call change the table during a run.
  function Writes(w: World, ttl: int, steps: seq<Step>, call: nat): nat
    decreases |steps|
  {
    if steps == [] then 0 else
    (if steps[0].call == call && Next(w, ttl, steps[0]).rows != w.rows then 1 else 0)
    + Writes(Next(w, ttl, steps[0]), ttl, steps[1..], call)
  }

  lemma {:induction false} DoneWritesNothing(w: World, ttl: int, steps: seq<Step>, call: nat)
    requires PhaseOf(w, call).Done?
    ensures Writes(w, ttl, steps, call) == 0 && PhaseOf(Run(w, ttl, steps), call) == PhaseOf(w, call)
    decreases |steps|
  {
    if steps != [] {
      DoneWritesNothing(Next(w, ttl, steps[0]), ttl, steps[1..], call);
    }
  }

  // A failed or unfinished call has left the table alone, and a successful one wrote at most once.
  lemma {:induction false} FailureWritesNothing(w: World, ttl: int, steps: seq<Step>, call: nat)
    requires !PhaseOf(w, call).Done?
    ensures var phase := PhaseOf(Run(w, ttl, steps), call);
            Writes(w, ttl, steps, call) <= if phase.Done? && phase.result.Ok? then 1 else 0
    decreases |steps|
  {
    if steps != [] {
      var next := Next(w, ttl, steps[0]);
      if PhaseOf(next, call).Done? {
        DoneWritesNothing(next, ttl, steps[1..], call);
      } else {
        FailureWritesNothing(next, ttl, steps[1..], call);
      }
    }
  }

  // ---------- How often a URI is fetched ----------

  datatype Request = Request(uri: string, inputs: Inputs)

  // Calls one after another under a clock that never goes back, from `from` to `until`.
  ghost predicate InOrder(requests: seq<Request>, from: Instant, until: Instant)
    decreases |requests|
  {
    if requests == [] then from <= until else
    var i := requests[0].inputs;
    from <= i.readAt <= i.stampAt && InOrder(requests[1..], i.stampAt, until)
  }

  // How many of the calls fetch that URI with success.
  function Fetches(rows: Rows, ttl: int, requests: seq<Request>, uri: string): nat
    decreases |requests|
  {
    if requests == [] then 0 else
    var o := Resolve(rows, ttl, requests[0].uri, requests[0].inputs);
    (if requests[0].uri == uri && o.fetched then 1 else 0) + Fetches(o.rows, ttl, requests[1..], uri)
  }

  // The first instant at which the URI can be fetched again.
  function NextFetch(rows: Rows, ttl: int, uri: string, from: Instant): Instant {
    var cached := FindByUri(rows, uri);
    if cached.Some? && cached.value.fetchedAt + ttl > from then cached.value.fetchedAt + ttl else from
  }

  function Bound(first: Instant, until: Instant, ttl: int): int
    requires ttl > 0
  {
    if first > until then 0 else 1 + (until - first) / ttl
  }

  lemma BoundShrinks(first: Instant, later: Instant, until: Instant, ttl: int)
    requires ttl > 0 && first <= later
    ensures 0 <= Bound(later, until, ttl) <= Bound(first, until, ttl)
    ensures later <= until ==> 1 + Bound(later + ttl, until, ttl) <= Bound(first, until, ttl)
  {
    if later <= until {
      DivMonotone(until - later, until - first, ttl);
      DivMonotone(0, until - later, ttl);
      if later + ttl <= until {
        DivMovesBack(until, later, later + ttl, ttl);
      }
    }
  }

  // A fetch comes no earlier than allowed and pushes the next one back by `ttl`.
  lemma FetchPushesBack(rows: Rows, ttl: int, uri: string, i: Inputs, from: Instant)
    requires ttl > 0 && from <= i.readAt <= i.stampAt
    ensures var o := Resolve(rows, ttl, uri, i);
            o.fetched ==>
              && NextFetch(rows, ttl, uri, from) <= i.stampAt
              && NextFetch(o.rows, ttl, uri, i.stampAt) == i.stampAt + ttl
  {
    if Resolve(rows, ttl, uri, i).fetched {
      var document := Read(i.fetched).value;
      NormalizedAccount(uri, document, i.id, i.stampAt);
      UpsertStores(rows, NormalizeActorDocument(uri, document, i.id, i.stampAt).value);
    }
  }

  lemma OtherCallsKeep(rows: Rows, ttl: int, request: Request, uri: string)
    ensures var o := Resolve(rows, ttl, request.uri, request.inputs);
            !(request.uri == uri && o.fetched) ==> FindByUri(o.rows, uri) == FindByUri(rows, uri)
  {
    var i := request.inputs;
    if Read(i.fetched).Ok? {
      var normalized := NormalizeActorDocument(request.uri, Read(i.fetched).value, i.id, i.stampAt);
      if normalized.Ok? {
        NormalizedAccount(request.uri, Read(i.fetched).value, i.id, i.stampAt);
        UpsertStores(rows, normalized.value);
        UpsertKeepsOthers(rows, normalized.value, uri);
      }
    }
  }

  lemma InOrderEnds(requests: seq<Request>, from: Instant, until: Instant)
    requires InOrder(requests, from, until)
    ensures from <= until
    decreases |requests|
  {
    if requests != [] {
      InOrderEnds(requests[1..], requests[0].inputs.stampAt, until);
    }
  }

  // One call uses up what it fetches.
  lemma CallUsesBound(rows: Rows, ttl: int, request: Request, uri: string, from: Instant, until: Instant)
    requires ttl > 0 && from <= request.inputs.readAt <= request.inputs.stampAt <= until
    ensures var o := Resolve(rows, ttl, request.uri, request.inputs);
            (if request.uri == uri && o.fetched then 1 else 0)
            + Bound(NextFetch(o.rows, ttl, uri, request.inputs.stampAt), until, ttl)
            <= Bound(NextFetch(rows, ttl, uri, from), until, ttl)
  {
    var i, first := request.inputs, NextFetch(rows, ttl, uri, from);
    var o := Resolve(rows, ttl, request.uri, i);
    if request.uri == uri && o.fetched {
      FetchPushesBack(rows, ttl, uri, i, from);
      BoundShrinks(first, i.stampAt, until, ttl);
    } else {
      OtherCallsKeep(rows, ttl, request, uri);
      BoundShrinks(first, NextFetch(o.rows, ttl, uri, i.stampAt), until, ttl);
    }
  }

  lemma {:induction false} FetchesWithin(
    rows: Rows, ttl: int, requests: seq<Request>, uri: string, from: Instant, until: Instant)
    requires ttl > 0 && InOrder(requests, from, until)
    ensures Fetches(rows, ttl, requests, uri) <= Bound(NextFetch(rows, ttl, uri, from), until, ttl)
    decreases |requests|
  {
    if requests == [] {
      BoundShrinks(NextFetch(rows, ttl, uri, from), NextFetch(rows, ttl, uri, from), until, ttl);
    } else {
      var i := requests[0].inputs;
      InOrderEnds(requests[1..], i.stampAt, until);
      CallUsesBound(rows, ttl, requests[0], uri, from, until);
      FetchesWithin(Resolve(rows, ttl, requests[0].uri, i).rows, ttl, requests[1..], uri, i.stampAt, until);
    }
  }

  // Over a time span one URI is fetched with success at most once more than `ttl` fits into it.
  lemma FetchesAreBounded(rows: Rows, ttl: int, requests: seq<Request>, uri: string, from: Instant, until: Instant)
    requires ttl > 0 && InOrder(requests, from, until)
    ensures Fetches(rows, ttl, requests, uri) <= 1 + (until - from) / ttl
  {
    FetchesWithin(rows, ttl, requests, uri, from, until);
    InOrderEnds(requests, from, until);
    BoundShrinks(from, NextFetch(rows, ttl, uri, from), until, ttl);
  }

  // ---------- The objects ----------

  // ---------- What a call answers ----------

  ghost predicate HasRowAt(rows: Rows, uri: string, j: nat) {
    j < |rows| && rows[j].actorUri == uri
  }

  // The account of a body is stored over the row with its URI and under the id of that row, or as a
  // new row under a new id; a new id that is taken is refused.
  ghost predicate IsStored(before: Rows, after: Rows, uri: string, i: Inputs, body: Json,
                           r: Result<RemoteAccount, Error>)
  {
    if exists j: nat :: HasRowAt(before, uri, j) then
      && r.Ok? && IsAccountOf(r.value, body, uri, i.stampAt)
      && exists j: nat :: HasRowAt(before, uri, j) && r.value.id == before[j].id && after == before[j := r.value]
    else if exists j: nat :: j < |before| && before[j].id == i.id then
      r == Err(Database) && after == before
    else
      && r.Ok? && IsAccountOf(r.value, body, uri, i.stampAt)
      && r.value.id == i.id && after == before + [r.value]
  }

  // What a fetch leaves and returns, by the answer of the network.
  ghost predicate IsFetched(before: Rows, after: Rows, uri: string, i: Inputs, r: Result<RemoteAccount, Error>) {
    match i.fetched
    case Unreachable => r == Err(Network) && after == before
    case Answer(success, body) =>
      if !success then r == Err(NotFound) && after == before
      else if !IsActor(body, uri) then
        && r.Err? && r.error.BadDocument? && IsRefusal(body, uri, r.error.problem)
        && after == before
      else if !i.upsertAnswered then r == Err(Database) && after == before
      else IsStored(before, after, uri, i, body.value, r)
  }

  // The row with that URI has not reached its age limit.
  ghost predicate IsCurrentAt(rows: Rows, ttl: int, uri: string, now: Instant, j: nat) {
    HasRowAt(rows, uri, j) && (now <= rows[j].fetchedAt || now - rows[j].fetchedAt < ttl)
  }

  // What a call leaves and returns: a current row as it is, and otherwise what a fetch does.
  ghost predicate IsResolved(before: Rows, after: Rows, ttl: int, uri: string, i: Inputs,
                             r: Result<RemoteAccount, Error>)
  {
    if !i.lookupAnswered then r == Err(Database) && after == before
    else if exists j: nat :: IsCurrentAt(before, ttl, uri, i.readAt, j) then
      after == before && exists j: nat :: IsCurrentAt(before, ttl, uri, i.readAt, j) && r == Ok(before[j])
    else IsFetched(before, after, uri, i, r)
  }

  lemma IndexExactly(rows: Rows, uri: string)
    ensures IndexOf(rows, uri) < |rows| ==> HasRowAt(rows, uri, IndexOf(rows, uri))
    ensures IndexOf(rows, uri) == |rows| ==> forall j: nat :: !HasRowAt(rows, uri, j)
    ensures FindByUri(rows, uri) == if IndexOf(rows, uri) < |rows| then Some(rows[IndexOf(rows, uri)]) else None
  {
  }

  lemma {:induction false} UpsertedIsStored(rows: Rows, account: RemoteAccount, uri: string, i: Inputs, body: Json)
    requires account.id == i.id && IsAccountOf(account, body, uri, i.stampAt)
    ensures var r := Upserted(rows, account); IsStored(rows, r.0, uri, i, body, r.1)
  {
    FieldsStayWhole(account, body, uri, i.stampAt);
    IndexExactly(rows, uri);
    var j := IndexOf(rows, uri);
    if j < |rows| {
      var row := account.(id := rows[j].id);
      SameAccount(account, row, body, uri, i.stampAt);
      assert Upserted(rows, account) == (rows[j := row], Ok(row));
    } else {
      var k := IndexOfId(rows, account.id);
      assert Upserted(rows, account) == if k < |rows| then (rows, Err(Database)) else (rows + [account], Ok(account));
    }
  }

  // A body says nothing of the id.
  lemma SameAccount(a: RemoteAccount, b: RemoteAccount, body: Json, uri: string, at: Instant)
    requires IsAccountOf(a, body, uri, at) && b == a.(id := b.id)
    ensures IsAccountOf(b, body, uri, at)
  {
  }

  lemma {:induction false} FetchIsFetched(rows: Rows, uri: string, i: Inputs)
    ensures var o := FetchAndUpsert(rows, uri, i);
            IsFetched(rows, o.rows, uri, i, o.result) && (o.fetched <==> o.result.Ok?)
  {
    if i.fetched.Answer? && i.fetched.success {
      BodyExactly(i.fetched.body, uri, i.id, i.stampAt);
      if IsActor(i.fetched.body, uri) && i.upsertAnswered {
        var account := NormalizeActorDocument(uri, ParseActivity(i.fetched.body).value, i.id, i.stampAt).value;
        UpsertedIsStored(rows, account, uri, i, i.fetched.body.value);
      }
    }
  }

  // The uninterrupted call answers as the network, the database and the clock make it.
  lemma {:induction false} ResolveIsResolved(rows: Rows, ttl: int, uri: string, i: Inputs)
    requires WellFormed(rows)
    ensures var o := Resolve(rows, ttl, uri, i);
            && IsResolved(rows, o.rows, ttl, uri, i, o.result)
            && (o.fetched <==> o.result.Ok? && forall j: nat :: !IsCurrentAt(rows, ttl, uri, i.readAt, j))
  {
    IndexExactly(rows, uri);
    FetchIsFetched(rows, uri, i);
    var j := IndexOf(rows, uri);
    if j < |rows| {
      assert forall k: nat :: HasRowAt(rows, uri, k) ==> k == j;
      assert IsCurrentAt(rows, ttl, uri, i.readAt, j) <==> !IsStale(rows[j].fetchedAt, i.readAt, ttl);
    }
  }


  // The `remote_accounts` table; each method is one SQL statement.
  class RemoteTable {
    var rows: Rows

    constructor ()
      ensures rows == [] && WellFormed(rows)
    {
      rows := [];
    }

    method FindRemoteByUri(uri: string) returns (found: Option<RemoteAccount>)
      ensures found == FindByUri(rows, uri)
      ensures found.Some? ==> found.value in rows && found.value.actorUri == uri
      ensures found.None? ==> forall i :: 0 <= i < |rows| ==> rows[i].actorUri != uri
    {
      found := FindByUri(rows, uri);
    }

    method FindRemoteById(id: int) returns (found: Option<RemoteAccount>)
      ensures found == FindById(rows, id)
      ensures found.Some? ==> found.value in rows && found.value.id == id
      ensures found.None? ==> forall i :: 0 <= i < |rows| ==> rows[i].id != id
    {
      found := FindById(rows, id);
    }

    method UpsertRemote(account: RemoteAccount) returns (r: Result<RemoteAccount, Error>)
      requires WellFormed(rows)
      modifies this
      ensures WellFormed(rows) && Keeps(old(rows), rows)
      ensures (rows, r) == Upserted(old(rows), account)
    {
      UpsertKeepsConstraints(rows, account);
      UpsertKeepsIds(rows, account);
      var stored := account.(fields := Cut(account.fields));
      var i := IndexOf(rows, account.actorUri);
      if i < |rows| {
        var row := stored.(id := rows[i].id);
        rows := rows[i := row];
        r := Ok(row);
      } else {
        var j := IndexOfId(rows, account.id);
        if j < |rows| {
          r := Err(Database);
        } else {
          rows := rows + [stored];
          r := Ok(stored);
        }
      }
    }
  }

  // The fetcher over its table.
  class RemoteAccountFetcher {
    const table: RemoteTable
    const ttl: int

    constructor (table: RemoteTable, ttl: int)
      ensures this.table == table && this.ttl == ttl
    {
      this.table := table;
      this.ttl := ttl;
    }

    method FetchAndStore(uri: string, i: Inputs) returns (r: Result<RemoteAccount, Error>)
      requires WellFormed(table.rows)
      modifies table
      ensures WellFormed(table.rows) && Keeps(old(table.rows), table.rows)
      ensures var o := FetchAndUpsert(old(table.rows), uri, i); table.rows == o.rows && r == o.result
      ensures IsFetched(old(table.rows), table.rows, uri, i, r)
    {
      FetchIsFetched(table.rows, uri, i);
      var document :- Read(i.fetched);
      var normalized := NormalizeActorDocument(uri, document, i.id, i.stampAt);
      if normalized.Err? {
        return Err(BadDocument(normalized.error));
      }
      if !i.upsertAnswered {
        return Err(Database);
      }
      r := table.UpsertRemote(normalized.value);
    }

    // Resolves a URI from the cache while it is fresh, and from the network otherwise.
    method FetchAndNormalize(uri: string, i: Inputs) returns (r: Result<RemoteAccount, Error>)
      requires WellFormed(table.rows)
      modifies table
      ensures WellFormed(table.rows) && Keeps(old(table.rows), table.rows)
      ensures var o := Resolve(old(table.rows), ttl, uri, i); table.rows == o.rows && r == o.result
      ensures IsResolved(old(table.rows), table.rows, ttl, uri, i, r)
      ensures r.Err? ==> table.rows == old(table.rows)
    {
      ResolveIsResolved(table.rows, ttl, uri, i);
      if !i.lookupAnswered {
        return Err(Database);
      }
      var cached := table.FindRemoteByUri(uri);
      if cached.Some? && !IsStale(cached.value.fetchedAt, i.readAt, ttl) {
        return Ok(cached.value);
      }
      r := FetchAndStore(uri, i);
    }
  }
}
