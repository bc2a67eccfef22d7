/**
 * The behaviour of a generated plugin stub against a server: which operations it gets, and what `fetch`,
 * `apply` and `rollback` do, each as a function of the server state.
 */
module Stub {
  import opened Wrappers
  import opened JsonValues
  import opened ClassTable
  import opened Coercion
  import opened AliasTable

  // ----- from an endpoint to a stub -----

  datatype Reversibility = Reversible | Compensable | Irreversible

  datatype Method = GET | POST | PUT | PATCH | DELETE

  /** The response model a typed read binding validates into, and the spelling rules it validates by. */
  datatype Model = Model(lax: Lax, classes: seq<ClassSpec>, root: TypeExpr)

  /** What the spec says about one endpoint and the other operations on its path. */
  datatype Endpoint = Endpoint(
    verb: Method,
    isAppliance: bool,
    pathHasSpace: bool,
    bodyMandatory: bool,
    hasGet: bool,
    getBodyMandatory: bool,
    readModel: Option<Model>,
    hasDelete: bool,
    deleteBodyMandatory: bool)

  datatype Refusal = ReadOnly | SpaceInPath | MandatoryDeleteBody

  /** A stub: scope, whether it was generated from a DELETE, its snapshot read and its compensator. */
  datatype StubSpec = StubSpec(
    isAppliance: bool,
    deletePrimary: bool,
    hasRead: bool,
    readBodyMandatory: bool,
    readModel: Option<Model>,
    hasDelete: bool,
    reversibility: Reversibility)

  /** The ladder stops at compensable, and a paired DELETE alone never climbs it. */
  function ReversibilityFor(verb: Method, hasRead: bool): Reversibility {
    if verb == DELETE || !hasRead then Irreversible else Compensable
  }

  function GenerateStub(e: Endpoint): Result<StubSpec, Refusal> {
    if e.verb == GET then Failure(ReadOnly)
    else if e.pathHasSpace then Failure(SpaceInPath)
    else if e.verb == DELETE && e.bodyMandatory then Failure(MandatoryDeleteBody)
    else
      var pairedDelete := e.verb != DELETE && e.hasDelete && !e.deleteBodyMandatory;
      Success(StubSpec(e.isAppliance, e.verb == DELETE, e.hasGet, e.getBodyMandatory, e.readModel, pairedDelete,
                       ReversibilityFor(e.verb, e.hasGet)))
  }

  /** A write whose pre-change state can be read: what makes a stub compensable. */
  predicate CanSnapshot(e: Endpoint) { e.verb in {POST, PUT, PATCH} && e.hasGet }

  /** A write with a DELETE beside it that demands no body: what can compensate a creation. */
  predicate CanDelete(e: Endpoint) { e.verb in {POST, PUT, PATCH} && e.hasDelete && !e.deleteBodyMandatory }

  /**
   * A stub exists for every write on a path without spaces, except a DELETE that demands a body, and the
   * first of those reasons is the refusal; it has its endpoint's scope, read and read model, and the
   * paired DELETE exactly where that can be called; no stub is ever reversible.
   */
  lemma StubOfEndpoint(e: Endpoint)
    ensures GenerateStub(e).Success? <==>
      e.verb in {POST, PUT, PATCH, DELETE} && !e.pathHasSpace && (e.verb == DELETE ==> !e.bodyMandatory)
    ensures GenerateStub(e).Failure? ==>
      GenerateStub(e).error ==
        if e.verb == GET then ReadOnly else if e.pathHasSpace then SpaceInPath else MandatoryDeleteBody
    ensures GenerateStub(e).Success? ==> var s := GenerateStub(e).value;
      && s.isAppliance == e.isAppliance && s.deletePrimary == (e.verb == DELETE)
      && s.hasRead == e.hasGet && s.readBodyMandatory == e.getBodyMandatory && s.readModel == e.readModel
      && (s.hasDelete <==> CanDelete(e))
      && s.reversibility == if CanSnapshot(e) then Compensable else Irreversible
  {
  }

  // ----- the server -----

  /** One instance: its appliance (empty on the Orchestrator) and its path values. */
  datatype Address = Address(nePk: string, path: seq<string>)

  /** What is live, and what survives a reboot of an appliance. */
  datatype ServerState = ServerState(running: map<Address, Json>, saved: map<Address, Json>)

  function Put(st: ServerState, at: Address, body: Json): ServerState {
    st.(running := st.running[at := body])
  }

  function Remove(st: ServerState, at: Address): ServerState {
    st.(running := st.running - {at})
  }

  /** Persist one appliance: its saved instances become its running ones. */
  function Save(st: ServerState, nePk: string): ServerState {
    st.(saved := (map a | a in st.saved && a.nePk != nePk :: st.saved[a])
               + (map a | a in st.running && a.nePk == nePk :: st.running[a]))
  }

  predicate SavedAgrees(st: ServerState, nePk: string) {
    && (forall a <- st.running :: a.nePk == nePk ==> a in st.saved && st.saved[a] == st.running[a])
    && (forall a <- st.saved :: a.nePk == nePk ==> a in st.running)
  }

  // ----- the stub's methods, as functions of the server state -----

  /** What the world answers: whether the call is accepted, and whether save-changes succeeds. */
  datatype Answers = Answers(accepted: bool, saveSucceeds: bool)

  /** An `ApplyResult`, or an exception that propagates. */
  datatype Outcome = Ok | NotOk | Raised

  datatype Step = Step(state: ServerState, outcome: Outcome)

  /** Objects and lists are state; scalars are not, and become "absent". */
  function AsRaw(j: Json): Option<Json> {
    if j.Obj? || j.Arr? then Some(j) else None
  }

  /** What reading an instance through the binding and dumping it back gives; nothing where validation raises. */
  function ThroughModel(model: Option<Model>, stored: Json): Option<Json> {
    if model.None? || stored.Null? then Some(stored)
    else
      var m := model.value;
      if Validates(m.lax, false, m.classes, m.root, stored) then
          Some(Dump(Load(m.lax, false, m.classes, m.root, stored)))
      else None
  }

  datatype Fetched = Snapshot(value: Option<Json>) | FetchRaised

  /** A 404 is "absent"; every other failure propagates, as does a call short of a mandatory body. */
  function Fetch(s: StubSpec, st: ServerState, at: Address, answers: Answers): Fetched {
    if !s.hasRead then Snapshot(None)
    else if s.readBodyMandatory || !answers.accepted then FetchRaised
    else if at !in st.running then Snapshot(None)
    else
      match ThroughModel(s.readModel, st.running[at])
      case None => FetchRaised
      case Some(raw) => Snapshot(AsRaw(raw))
  }

  /** The save-changes tail every appliance write ends with. */
  function Persist(s: StubSpec, st: ServerState, at: Address, answers: Answers): Step {
    if !s.isAppliance then Step(st, Ok)
    else if answers.saveSucceeds then Step(Save(st, at.nePk), Ok)
    else Step(st, NotOk)
  }

  function WriteStep(s: StubSpec, st: ServerState, at: Address, body: Json, answers: Answers): Step {
    if !answers.accepted then Step(st, Raised)
    else Persist(s, Put(st, at, body), at, answers)
  }

  /** Deleting what is not there is refused by the server, and the refusal propagates. */
  function DeleteStep(s: StubSpec, st: ServerState, at: Address, answers: Answers): Step {
    if !answers.accepted || at !in st.running then Step(st, Raised)
    else Persist(s, Remove(st, at), at, answers)
  }

  function ApplyStep(s: StubSpec, st: ServerState, at: Address, diffEmpty: bool, desired: Option<Json>,
                     answers: Answers): Step {
    if diffEmpty then Step(st, Ok)
    else if s.deletePrimary then
      if desired.Some? then Step(st, NotOk) else DeleteStep(s, st, at, answers)
    else if desired.None? then
      if s.hasDelete then DeleteStep(s, st, at, answers) else Step(st, NotOk)
    else WriteStep(s, st, at, desired.value, answers)
  }

  function RollbackStep(s: StubSpec, st: ServerState, at: Address, snapshot: Option<Json>, answers: Answers): Step {
    if s.reversibility == Irreversible then Step(st, NotOk)
    else if snapshot.None? then
      if s.hasDelete then DeleteStep(s, st, at, answers) else Step(st, NotOk)
    else WriteStep(s, st, at, snapshot.value, answers)
  }

  /**
   * One whole transaction on one instance: snapshot, change, undo.  Nothing is changed without a
   * snapshot, so where fetching raises the state stays as it is.
   */
  function TransactStep(s: StubSpec, st: ServerState, at: Address, diffEmpty: bool, desired: Option<Json>,
                        forward: Answers, back: Answers): Step {
    match Fetch(s, st, at, forward)
    case FetchRaised => Step(st, Raised)
    case Snapshot(snapshot) =>
      RollbackStep(s, ApplyStep(s, st, at, diffEmpty, desired, forward).state, at, snapshot, back)
  }
}
