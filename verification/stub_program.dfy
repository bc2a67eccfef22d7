/** An emitted stub as a class against a mutable server, and a whole transaction through it. */
module StubProgram {
  import opened Wrappers
  import opened JsonValues
  import opened Stub
  import opened Compensation

  class Server {
    var state: ServerState

    constructor (initial: ServerState)
      ensures state == initial
    {
      state := initial;
    }

    method Store(at: Address, body: Json)
      modifies this
      ensures state == Put(old(state), at, body)
    {
      state := state.(running := state.running[at := body]);
    }

    method Discard(at: Address)
      modifies this
      ensures state == Remove(old(state), at)
    {
      state := state.(running := state.running - {at});
    }

    method SaveChanges(nePk: string, answers: Answers) returns (ok: bool)
      modifies this
      ensures ok == answers.saveSucceeds
      ensures state == if ok then Save(old(state), nePk) else old(state)
    {
      ok := answers.saveSucceeds;
      if ok { state := Save(state, nePk); }
    }
  }

  class GeneratedStub {
    const endpoint: Endpoint
    const spec: StubSpec
    const server: Server

    /** The stub is the one generated for its endpoint. */
    ghost predicate Valid() { GenerateStub(endpoint) == Success(spec) }

    constructor (endpoint: Endpoint, server: Server)
      requires GenerateStub(endpoint).Success?
      ensures this.endpoint == endpoint && this.server == server && Valid()
    {
      this.endpoint, this.spec, this.server := endpoint, GenerateStub(endpoint).value, server;
    }

    method FetchState(at: Address, answers: Answers) returns (r: Fetched)
      ensures r == Fetch(spec, server.state, at, answers)
    {
      if !spec.hasRead { return Snapshot(None); }
      if spec.readBodyMandatory || !answers.accepted { return FetchRaised; }
      if at !in server.state.running { return Snapshot(None); }
      var raw := ThroughModel(spec.readModel, server.state.running[at]);
      r := if raw.None? then FetchRaised else Snapshot(AsRaw(raw.value));
    }

    method Write(at: Address, body: Json, answers: Answers) returns (r: Outcome)
      modifies server
      ensures Step(server.state, r) == WriteStep(spec, old(server.state), at, body, answers)
    {
      if !answers.accepted { return Raised; }
      server.Store(at, body);
      r := PersistChanges(at, answers);
    }

    method Delete(at: Address, answers: Answers) returns (r: Outcome)
      modifies server
      ensures Step(server.state, r) == DeleteStep(spec, old(server.state), at, answers)
    {
      if !answers.accepted || at !in server.state.running { return Raised; }
      server.Discard(at);
      r := PersistChanges(at, answers);
    }

    method PersistChanges(at: Address, answers: Answers) returns (r: Outcome)
      modifies server
      ensures Step(server.state, r) == Persist(spec, old(server.state), at, answers)
    {
      if !spec.isAppliance { return Ok; }
      var saved := server.SaveChanges(at.nePk, answers);
      r := if saved then Ok else NotOk;
    }

    method Apply(at: Address, diffEmpty: bool, desired: Option<Json>, answers: Answers) returns (r: Outcome)
      modifies server
      ensures Step(server.state, r) == ApplyStep(spec, old(server.state), at, diffEmpty, desired, answers)
    {
      if diffEmpty { return Ok; }
      if spec.deletePrimary {
        if desired.Some? { return NotOk; }
        r := Delete(at, answers);
        return;
      }
      if desired.None? {
        if !spec.hasDelete { return NotOk; }
        r := Delete(at, answers);
        return;
      }
      r := Write(at, desired.value, answers);
    }

    method Rollback(at: Address, snapshot: Option<Json>, answers: Answers) returns (r: Outcome)
      requires Valid()
      modifies server
      ensures Step(server.state, r) == RollbackStep(spec, old(server.state), at, snapshot, answers)
      ensures !CanSnapshot(endpoint) || (snapshot.None? && !CanDelete(endpoint)) ==>
        r == NotOk && server.state == old(server.state)
    {
      RollbackOutcomeIff(endpoint, spec, server.state, at, snapshot, answers);
      if spec.reversibility == Irreversible { return NotOk; }
      if snapshot.None? {
        if !spec.hasDelete { return NotOk; }
        r := Delete(at, answers);
        return;
      }
      r := Write(at, snapshot.value, answers);
    }

    /**
     * Snapshot, change, undo, in the order the transaction engine calls them.  With every call accepted
     * and every save succeeding the server ends where it began exactly when that could be told before.
     */
    method Transact(at: Address, diffEmpty: bool, desired: Option<Json>, forward: Answers, back: Answers)
      returns (r: Outcome)
      requires Valid()
      modifies server
      ensures Step(server.state, r) == TransactStep(spec, old(server.state), at, diffEmpty, desired, forward, back)
      ensures ValidState(old(server.state)) && forward == back == Answers(true, true) ==>
        (SameState(server.state, old(server.state)) <==>
           Restorable(endpoint, old(server.state), at, diffEmpty, desired))
    {
      hide Fetch, ApplyStep, RollbackStep, SameState, Restorable, GenerateStub, ValidState;
      if ValidState(server.state) {
        TransactionRestoresIff(endpoint, spec, server.state, at, diffEmpty, desired);
      }
      var fetched := FetchState(at, forward);
      if fetched.FetchRaised? { return Raised; }
      var _ := Apply(at, diffEmpty, desired, forward);
      r := Rollback(at, fetched.value, back);
    }
  }
}
