/** When a generated stub's rollback restores the server it changed. */
module Compensation {
  import opened Wrappers
  import opened JsonValues
  import opened ClassTable
  import opened Aliases
  import opened Coercion
  import opened AliasTable
  import opened ModelCounterexamples
  import opened Stub

  /** Two documents that differ in key order at most. */
  predicate SameDocument(a: Json, b: Json) { MarkerOf(a) == MarkerOf(b) }

  predicate SameInstances(a: map<Address, Json>, b: map<Address, Json>) {
    a.Keys == b.Keys && forall k <- a.Keys :: SameDocument(a[k], b[k])
  }

  predicate SameRunning(a: ServerState, b: ServerState) { SameInstances(a.running, b.running) }

  /** A whole state, running and saved. */
  predicate SameState(a: ServerState, b: ServerState) {
    SameRunning(a, b) && SameInstances(a.saved, b.saved)
  }

  /** The stored document is in the read model's own form, so it is validated and dumped as it is. */
  predicate ReplaysVerbatim(model: Option<Model>, stored: Json) {
    model.Some? ==> Native(model.value.lax, model.value.classes, model.value.root, stored)
  }

  predicate IsStructure(j: Json) { j.Obj? || j.Arr? }

  /**
   * What a caller can check before applying: the instance is an object or a list the read model does
   * not distort, or it is absent and a DELETE is paired.
   */
  predicate CanCompensate(e: Endpoint, st: ServerState, at: Address) {
    if at in st.running then IsStructure(st.running[at]) && ReplaysVerbatim(e.readModel, st.running[at])
    else CanDelete(e)
  }

  /** Reading through a model keeps objects objects and lists lists. */
  lemma {:induction false} ThroughKeepsKind(lax: Lax, numbersToStr: bool, cs: seq<ClassSpec>, e: TypeExpr, v: Json)
    ensures var d := Dump(Load(lax, numbersToStr, cs, e, v)); d.Obj? == v.Obj? && d.Arr? == v.Arr?
    decreases |cs|, e
  {
    match e
    case ClassRef(name) =>
      if cs != [] {
        var last, earlier := cs[|cs| - 1], cs[..|cs| - 1];
        if last.name != name {
          ThroughKeepsKind(lax, numbersToStr, earlier, e, v);
        } else if last.RootClass? {
          ThroughKeepsKind(lax, false, earlier, last.rootType, v);
        }
      }
    case _ =>
  }

  lemma ThroughModelKind(model: Option<Model>, stored: Json)
    requires ThroughModel(model, stored).Some?
    ensures AsRaw(ThroughModel(model, stored).value) ==
      if IsStructure(stored) then ThroughModel(model, stored) else None
  {
    hide Load, Dump, Validates;
    if model.Some? { ThroughKeepsKind(model.value.lax, false, model.value.classes, model.value.root, stored); }
  }

  /** The document is read back as it is iff it is in the read model's own form. */
  lemma ThroughModelVerbatim(model: Option<Model>, stored: Json)
    requires ValidJson(stored) && IsStructure(stored)
    ensures ThroughModel(model, stored).Some? && SameDocument(ThroughModel(model, stored).value, stored)
      <==> ReplaysVerbatim(model, stored)
  {
    hide Load, Dump, Validates, Native;
    if model.Some? { LoadDumpIffNative(model.value.lax, false, model.value.classes, model.value.root, stored); }
  }

  /** Every step leaves instances at other addresses alone. */
  lemma StepsAreLocal(s: StubSpec, st: ServerState, at: Address, body: Json, answers: Answers)
    ensures WriteStep(s, st, at, body, answers).state.running - {at} == st.running - {at}
    ensures DeleteStep(s, st, at, answers).state.running - {at} == st.running - {at}
  {
  }

  /** Two maps that agree elsewhere are the same instances exactly when they agree at the address. */
  lemma SameAtOne(a: map<Address, Json>, b: map<Address, Json>, at: Address)
    requires a - {at} == b - {at}
    ensures SameInstances(a, b) <==>
      ((at in a <==> at in b) && (at in a && at in b ==> SameDocument(a[at], b[at])))
  {
    hide SameDocument;
    forall k | k != at ensures k in a <==> k in b {
      assert k in a - {at} <==> k in b - {at};
    }
    forall k | k in a && k in b && k != at ensures a[k] == b[k] {
      assert (a - {at})[k] == (b - {at})[k];
    }
    forall k | k in a && k in b && k != at ensures SameDocument(a[k], b[k]) { SameReflexive(a[k]); }
  }

  lemma SameReflexive(j: Json)
    ensures SameDocument(j, j)
  {
  }

  // ----- the exact condition -----

  /** The read model's validation refuses the document; `null` is not validated. */
  predicate Unreadable(model: Option<Model>, stored: Json) {
    model.Some? && !stored.Null? && !Validates(model.value.lax, false, model.value.classes, model.value.root, stored)
  }

  /** Fetching a snapshot raises: the read demands a body, or validation refuses what the server holds. */
  predicate FetchFails(e: Endpoint, st: ServerState, at: Address) {
    e.hasGet && (e.getBodyMandatory || (at in st.running && Unreadable(e.readModel, st.running[at])))
  }

  /** The change asks for nothing, or for nothing this stub can do here. */
  predicate Idle(e: Endpoint, st: ServerState, at: Address, diffEmpty: bool, desired: Option<Json>) {
    || diffEmpty
    || (e.verb == DELETE && (desired.Some? || at !in st.running))
    || (e.verb != DELETE && desired.None? && !(CanDelete(e) && at in st.running))
  }

  /** The change writes what is already there. */
  predicate Rewrites(e: Endpoint, st: ServerState, at: Address, desired: Option<Json>) {
    e.verb != DELETE && desired.Some? && at in st.running && SameDocument(desired.value, st.running[at])
  }

  /** The rollback has nothing to put back and nothing to delete. */
  predicate LeftAlone(e: Endpoint, st: ServerState, at: Address) {
    !CanSnapshot(e) || (!CanDelete(e) && (at in st.running ==> !IsStructure(st.running[at])))
  }

  /** Neither the change nor the rollback makes a call the server acts on. */
  predicate Untouched(e: Endpoint, st: ServerState, at: Address, diffEmpty: bool, desired: Option<Json>) {
    Idle(e, st, at, diffEmpty, desired) && (LeftAlone(e, st, at) || at !in st.running)
  }

  /** The running state comes back. */
  predicate RunningReturns(e: Endpoint, st: ServerState, at: Address, diffEmpty: bool, desired: Option<Json>) {
    || (CanSnapshot(e) && CanCompensate(e, st, at))
    || ((Idle(e, st, at, diffEmpty, desired) || Rewrites(e, st, at, desired)) && LeftAlone(e, st, at))
  }

  /** The appliance's saved state matches its running state, key order aside. */
  predicate SavedMatches(st: ServerState, nePk: string) {
    SameInstances(OnlyOf(st.running, nePk), OnlyOf(st.saved, nePk))
  }

  /**
   * What a caller can check before a transaction: no snapshot, so no change; or the running state comes
   * back, and on an appliance nothing was pending that the saves on the way would persist.
   */
  predicate Restorable(e: Endpoint, st: ServerState, at: Address, diffEmpty: bool, desired: Option<Json>) {
    || FetchFails(e, st, at)
    || (RunningReturns(e, st, at, diffEmpty, desired)
        && (!e.isAppliance || Untouched(e, st, at, diffEmpty, desired) || SavedMatches(st, at.nePk)))
  }

  /** Every document the server holds repeats no key. */
  predicate ValidState(st: ServerState) { forall a <- st.running :: ValidJson(st.running[a]) }

  /** The stub made for an endpoint, over such a server. */
  ghost predicate Generated(e: Endpoint, s: StubSpec, st: ServerState) {
    GenerateStub(e) == Success(s) && ValidState(st)
  }

  // ----- the running state -----

  lemma ChangeIsLocal(s: StubSpec, st: ServerState, at: Address, diffEmpty: bool, desired: Option<Json>,
          answers: Answers)
    ensures ApplyStep(s, st, at, diffEmpty, desired, answers).state.running - {at} == st.running - {at}
  {
    StepsAreLocal(s, st, at, if desired.Some? then desired.value else Null, answers);
  }

  lemma UndoIsLocal(s: StubSpec, st: ServerState, at: Address, snapshot: Option<Json>, answers: Answers)
    ensures RollbackStep(s, st, at, snapshot, answers).state.running - {at} == st.running - {at}
  {
    StepsAreLocal(s, st, at, if snapshot.Some? then snapshot.value else Null, answers);
  }

  /** What the change leaves running at the instance, every call accepted. */
  lemma ChangeRuns(e: Endpoint, s: StubSpec, st: ServerState, at: Address, diffEmpty: bool, desired: Option<Json>,
                   saves: bool)
    requires GenerateStub(e) == Success(s)
    ensures var r := ApplyStep(s, st, at, diffEmpty, desired, Answers(true, saves)).state;
      && (Idle(e, st, at, diffEmpty, desired) ==> r == st)
      && (!Idle(e, st, at, diffEmpty, desired) ==>
            r.running == if desired.Some? then st.running[at := desired.value] else st.running - {at})
      && (!Idle(e, st, at, diffEmpty, desired) && desired.None? ==> at in st.running)
  {
  }

  /** What the rollback leaves running at the instance, every call accepted. */
  lemma UndoRuns(s: StubSpec, st: ServerState, at: Address, snapshot: Option<Json>, saves: bool)
    requires s.reversibility != Reversible
    ensures var r := RollbackStep(s, st, at, snapshot, Answers(true, saves)).state;
      r.running ==
        if s.reversibility == Irreversible || (snapshot.None? && !s.hasDelete) then st.running
        else if snapshot.None? then st.running - {at}
        else st.running[at := snapshot.value]
  {
    if at !in st.running { assert st.running - {at} == st.running; }
  }

  /** What fetching gives for an instance. */
  lemma FetchGives(e: Endpoint, s: StubSpec, st: ServerState, at: Address, saves: bool)
    requires Generated(e, s, st)
    ensures Fetch(s, st, at, Answers(true, saves)).FetchRaised? <==> FetchFails(e, st, at)
    ensures !FetchFails(e, st, at) && e.hasGet ==>
      var snapshot := Fetch(s, st, at, Answers(true, saves)).value;
      && (snapshot.Some? <==> at in st.running && IsStructure(st.running[at]))
      && (snapshot.Some? ==> (SameDocument(snapshot.value, st.running[at]) <==>
          ReplaysVerbatim(e.readModel, st.running[at])))
  {
    StubOfEndpoint(e);
    if at in st.running { ReadableIff(e.readModel, st.running[at]); }
    hide ThroughModel, ReplaysVerbatim, SameDocument, ValidJson, Unreadable;
    if at in st.running && ThroughModel(s.readModel, st.running[at]).Some? {
      ThroughModelKind(s.readModel, st.running[at]);
      if IsStructure(st.running[at]) { ThroughModelVerbatim(s.readModel, st.running[at]); }
    }
  }

  lemma ReadableIff(model: Option<Model>, stored: Json)
    ensures ThroughModel(model, stored).None? <==> Unreadable(model, stored)
  {
    hide Load, Dump, Validates;
  }

  /** For every save outcome: a transaction that got its snapshot returns the running state exactly here. */
  lemma RunningReturnsIff(e: Endpoint, s: StubSpec, st: ServerState, at: Address, diffEmpty: bool,
                          desired: Option<Json>, saves: bool, savesBack: bool)
    requires Generated(e, s, st) && !FetchFails(e, st, at)
    ensures SameRunning(TransactStep(s, st, at, diffEmpty, desired, Answers(true, saves),
        Answers(true, savesBack)).state, st)
      <==> RunningReturns(e, st, at, diffEmpty, desired)
  {
    StubOfEndpoint(e);
    FetchGives(e, s, st, at, saves);
    ChangeRuns(e, s, st, at, diffEmpty, desired, saves);
    hide SameDocument, ReplaysVerbatim, ThroughModel, Generated, FetchFails, Fetch, ApplyStep, RollbackStep,
      GenerateStub;
    var snapshot := Fetch(s, st, at, Answers(true, saves)).value;
    var applied := ApplyStep(s, st, at, diffEmpty, desired, Answers(true, saves)).state;
    var undone := RollbackStep(s, applied, at, snapshot, Answers(true, savesBack)).state;
    UndoRuns(s, applied, at, snapshot, savesBack);
    ChangeIsLocal(s, st, at, diffEmpty, desired, Answers(true, saves));
    UndoIsLocal(s, applied, at, snapshot, Answers(true, savesBack));
    SameAtOne(undone.running, st.running, at);
    if at in st.running { SameReflexive(st.running[at]); }
  }

  // ----- the saved state -----

  /**
   * On an appliance endpoint, every change and every rollback that reports success leaves the running and
   * the saved state equal; only a change with nothing to do is a success that saves nothing.
   */
  lemma OkMeansPersisted(e: Endpoint, st: ServerState, at: Address, diffEmpty: bool, desired: Option<Json>,
                         snapshot: Option<Json>, answers: Answers)
    requires GenerateStub(e).Success? && e.isAppliance
    ensures var s := GenerateStub(e).value;
      && (ApplyStep(s, st, at, diffEmpty, desired, answers).outcome == Ok && !diffEmpty ==>
            SavedAgrees(ApplyStep(s, st, at, diffEmpty, desired, answers).state, at.nePk))
      && (RollbackStep(s, st, at, snapshot, answers).outcome == Ok ==>
            SavedAgrees(RollbackStep(s, st, at, snapshot, answers).state, at.nePk))
  {
    hide SavedAgrees;
    StubOfEndpoint(e);
    var s := GenerateStub(e).value;
    OkWriteSaves(s, st, at, if desired.Some? then desired.value else Null, answers);
    OkWriteSaves(s, st, at, if snapshot.Some? then snapshot.value else Null, answers);
    hide WriteStep, DeleteStep, GenerateStub;
  }

  lemma OkWriteSaves(s: StubSpec, st: ServerState, at: Address, body: Json, answers: Answers)
    requires s.isAppliance
    ensures WriteStep(s, st, at, body, answers).outcome == Ok ==>
      SavedAgrees(WriteStep(s, st, at, body, answers).state, at.nePk)
    ensures DeleteStep(s, st, at, answers).outcome == Ok ==>
      SavedAgrees(DeleteStep(s, st, at, answers).state, at.nePk)
  {
  }

  /** Saving one appliance leaves every other appliance's saved state alone. */
  lemma SaveIsLocal(st: ServerState, nePk: string, a: Address)
    requires a.nePk != nePk
    ensures a in Save(st, nePk).saved <==> a in st.saved
    ensures a in st.saved ==> Save(st, nePk).saved[a] == st.saved[a]
  {
  }

  function OnlyOf(m: map<Address, Json>, nePk: string): map<Address, Json> {
    map a | a in m && a.nePk == nePk :: m[a]
  }

  function NotOf(m: map<Address, Json>, nePk: string): map<Address, Json> {
    map a | a in m && a.nePk != nePk :: m[a]
  }

  lemma SameByParts(a: map<Address, Json>, b: map<Address, Json>, nePk: string)
    ensures SameInstances(a, b) <==>
      SameInstances(OnlyOf(a, nePk), OnlyOf(b, nePk)) && SameInstances(NotOf(a, nePk), NotOf(b, nePk))
  {
    hide SameDocument;
    var oa, ob, na, nb := OnlyOf(a, nePk), OnlyOf(b, nePk), NotOf(a, nePk), NotOf(b, nePk);
    forall k ensures (k in a <==> k in oa || k in na) && (k in b <==> k in ob || k in nb) {}
    if SameInstances(a, b) {
      assert forall k :: k in oa <==> k in ob;
      assert forall k :: k in na <==> k in nb;
    }
    if SameInstances(oa, ob) && SameInstances(na, nb) {
      forall k ensures k in a <==> k in b {
        assert k in oa.Keys <==> k in ob.Keys;
        assert k in na.Keys <==> k in nb.Keys;
      }
    }
  }

  lemma SameTransitive(a: map<Address, Json>, b: map<Address, Json>, c: map<Address, Json>)
    requires SameInstances(a, b)
    ensures SameInstances(b, c) <==> SameInstances(a, c)
  {
  }

  /** What a step does to the saved state: nothing on other appliances, and a save when it reports ok. */
  predicate SavesOnly(before: ServerState, after: Step, nePk: string) {
    && NotOf(after.state.saved, nePk) == NotOf(before.saved, nePk)
    && (after.outcome == Ok ==> OnlyOf(after.state.saved, nePk) == OnlyOf(after.state.running, nePk))
  }

  lemma StepsSaveOnly(s: StubSpec, st: ServerState, at: Address, body: Json, answers: Answers)
    requires s.isAppliance
    ensures SavesOnly(st, WriteStep(s, st, at, body, answers), at.nePk)
    ensures SavesOnly(st, DeleteStep(s, st, at, answers), at.nePk)
  {
    PersistSavesOnly(s, Put(st, at, body), at, answers);
    PersistSavesOnly(s, Remove(st, at), at, answers);
  }

  lemma PersistSavesOnly(s: StubSpec, st: ServerState, at: Address, answers: Answers)
    requires s.isAppliance
    ensures SavesOnly(st, Persist(s, st, at, answers), at.nePk)
  {
    if answers.saveSucceeds {
      var saved := Save(st, at.nePk).saved;
      assert OnlyOf(saved, at.nePk) == OnlyOf(st.running, at.nePk);
      assert NotOf(saved, at.nePk) == NotOf(st.saved, at.nePk);
    }
  }

  /** The appliance's saved state is its running state. */
  predicate SavedIsRunning(st: ServerState, nePk: string) { OnlyOf(st.saved, nePk) == OnlyOf(st.running, nePk) }

  /** With every save succeeding, a transaction that touches anything leaves the appliance saved. */
  lemma TouchedIsSaved(e: Endpoint, s: StubSpec, st: ServerState, at: Address, diffEmpty: bool,
                       desired: Option<Json>)
    requires Generated(e, s, st) && e.isAppliance && !FetchFails(e, st, at)
    ensures var r := TransactStep(s, st, at, diffEmpty, desired, Answers(true, true), Answers(true, true)).state;
      && NotOf(r.saved, at.nePk) == NotOf(st.saved, at.nePk)
      && (if Untouched(e, st, at, diffEmpty, desired) then r == st else SavedIsRunning(r, at.nePk))
  {
    StubOfEndpoint(e);
    FetchGives(e, s, st, at, true);
    var yes := Answers(true, true);
    var snapshot := Fetch(s, st, at, yes).value;
    var applied := ApplyStep(s, st, at, diffEmpty, desired, yes).state;
    StepsSaveOnly(s, st, at, if desired.Some? then desired.value else Null, yes);
    StepsSaveOnly(s, applied, at, if snapshot.Some? then snapshot.value else Null, yes);
    hide Save, NotOf, OnlyOf, ThroughModel, Put, Remove, Generated, GenerateStub, FetchFails, Fetch, ReplaysVerbatim,
      SameDocument;
  }

  lemma OrchestratorSavesNothing(s: StubSpec, st: ServerState, at: Address, diffEmpty: bool, desired: Option<Json>,
                                 forward: Answers, back: Answers)
    requires !s.isAppliance
    ensures TransactStep(s, st, at, diffEmpty, desired, forward, back).state.saved == st.saved
  {
    hide ThroughModel, Save;
  }

  lemma SameSelf(m: map<Address, Json>)
    ensures SameInstances(m, m)
  {
  }

  // ----- the theorem -----

  /**
   * For every endpoint a stub is generated for, every server state, instance and desired body, with every
   * call accepted and every save succeeding: fetching, changing and rolling back restores the whole server
   * state, running and saved, exactly when it could be told beforehand from the endpoint and the state.
   */
  lemma TransactionRestoresIff(e: Endpoint, s: StubSpec, st: ServerState, at: Address, diffEmpty: bool,
                               desired: Option<Json>)
    requires Generated(e, s, st)
    ensures SameState(TransactStep(s, st, at, diffEmpty, desired, Answers(true, true), Answers(true, true)).state, st)
      <==> Restorable(e, st, at, diffEmpty, desired)
  {
    var yes := Answers(true, true);
    StubOfEndpoint(e);
    FetchGives(e, s, st, at, true);
    SameSelf(st.running);
    SameSelf(st.saved);
    if !FetchFails(e, st, at) {
      var r := TransactStep(s, st, at, diffEmpty, desired, yes, yes).state;
      RunningReturnsIff(e, s, st, at, diffEmpty, desired, true, true);
      OrchestratorSavesNothingHere(s, st, at, diffEmpty, desired);
      if e.isAppliance {
        TouchedIsSaved(e, s, st, at, diffEmpty, desired);
        hide TransactStep, SameInstances, OnlyOf, NotOf, FetchFails, Generated, Untouched, RunningReturns, Fetch,
          GenerateStub;
        SameByParts(r.running, st.running, at.nePk);
        SameByParts(r.saved, st.saved, at.nePk);
        SameSelf(NotOf(st.saved, at.nePk));
        if SameRunning(r, st) {
          SameTransitive(OnlyOf(r.running, at.nePk), OnlyOf(st.running, at.nePk), OnlyOf(st.saved, at.nePk));
        }
      }
    }
  }

  /** An instance that was absent is absent again after a transaction, where a body-free DELETE is paired. */
  lemma AbsentComesBackAbsent(e: Endpoint, s: StubSpec, st: ServerState, at: Address, desired: Json)
    requires Generated(e, s, st) && CanSnapshot(e) && !e.getBodyMandatory && at !in st.running
    ensures at !in TransactStep(s, st, at, false, Some(desired), Answers(true, true), Answers(true, true)).state.running
      <==> CanDelete(e)
  {
    StubOfEndpoint(e);
  }

  lemma OrchestratorSavesNothingHere(s: StubSpec, st: ServerState, at: Address, diffEmpty: bool, desired: Option<Json>)
    ensures !s.isAppliance ==>
      TransactStep(s, st, at, diffEmpty, desired, Answers(true, true), Answers(true, true)).state.saved == st.saved
  {
    hide TransactStep;
    if !s.isAppliance {
      OrchestratorSavesNothing(s, st, at, diffEmpty, desired, Answers(true, true), Answers(true, true));
    }
  }

  // ----- outcomes -----

  /** The change sends a body to the write. */
  predicate SendsWrite(e: Endpoint, diffEmpty: bool, desired: Option<Json>) {
    !diffEmpty && e.verb != DELETE && desired.Some?
  }

  /** The change calls a DELETE, its own or the paired one. */
  predicate SendsDelete(e: Endpoint, diffEmpty: bool, desired: Option<Json>) {
    !diffEmpty && desired.None? && (e.verb == DELETE || CanDelete(e))
  }

  /** The call goes through: it is accepted, and what it deletes is there. */
  predicate Accepted(st: ServerState, at: Address, answers: Answers, deletes: bool) {
    answers.accepted && (deletes ==> at in st.running)
  }

  /**
   * A change raises exactly when its call does not go through, and then it has changed nothing; it reports
   * failure exactly when there is no call for it or an appliance did not persist it.
   */
  lemma ApplyOutcomeIff(e: Endpoint, s: StubSpec, st: ServerState, at: Address, diffEmpty: bool,
                        desired: Option<Json>, answers: Answers)
    requires GenerateStub(e) == Success(s)
    ensures var r := ApplyStep(s, st, at, diffEmpty, desired, answers);
      && (r.outcome == Raised <==>
            || (SendsWrite(e, diffEmpty, desired) && !Accepted(st, at, answers, false))
            || (SendsDelete(e, diffEmpty, desired) && !Accepted(st, at, answers, true)))
      && (r.outcome == Ok <==>
            || diffEmpty
            || (SendsWrite(e, diffEmpty, desired) && Accepted(st, at, answers, false)
                && (e.isAppliance ==> answers.saveSucceeds))
            || (SendsDelete(e, diffEmpty, desired) && Accepted(st, at, answers, true)
                && (e.isAppliance ==> answers.saveSucceeds)))
      && (r.outcome == Raised ==> r.state == st)
  {
    StubOfEndpoint(e);
  }

  /**
   * A rollback raises exactly when its call does not go through; it reports failure without touching
   * anything exactly when the stub is irreversible or there is nothing to put back and no DELETE.
   */
  lemma RollbackOutcomeIff(e: Endpoint, s: StubSpec, st: ServerState, at: Address, snapshot: Option<Json>,
                           answers: Answers)
    requires GenerateStub(e) == Success(s)
    ensures var r, refused := RollbackStep(s, st, at, snapshot, answers),
        !CanSnapshot(e) || (snapshot.None? && !CanDelete(e));
      && (r.outcome == Raised <==> !refused && !Accepted(st, at, answers, snapshot.None?))
      && (r.outcome == Ok <==>
            !refused && Accepted(st, at, answers, snapshot.None?) && (e.isAppliance ==> answers.saveSucceeds))
      && (refused || r.outcome == Raised ==> r.state == st)
      && (refused ==> r.outcome == NotOk)
  {
    StubOfEndpoint(e);
  }

  // ----- what a step leaves behind -----

  /** What an instance's place holds after a write of a body, or after a DELETE. */
  predicate LeavesBehind(before: ServerState, after: ServerState, at: Address, body: Option<Json>) {
    && after.running.Keys == (if body.Some? then before.running.Keys + {at} else before.running.Keys - {at})
    && (forall a <- after.running :: after.running[a] == if a == at then body.value else before.running[a])
  }

  /** One appliance's saved state becomes its running state, or nothing is saved. */
  predicate Persisted(before: ServerState, after: ServerState, nePk: string, saves: bool) {
    if !saves then after.saved == before.saved
    else
      && (forall a <- before.saved :: a.nePk != nePk ==> a in after.saved && after.saved[a] == before.saved[a])
      && (forall a <- after.saved :: a.nePk != nePk ==> a in before.saved)
      && SavedAgrees(after, nePk)
  }

  /**
   * After a change whose call went through, the instance is the body sent, or gone, and every other one is
   * as it was; an appliance whose save succeeds has its own running state saved. Nothing else changes.
   */
  lemma AppliedState(e: Endpoint, s: StubSpec, st: ServerState, at: Address, diffEmpty: bool,
                     desired: Option<Json>, answers: Answers)
    requires GenerateStub(e) == Success(s)
    ensures var r := ApplyStep(s, st, at, diffEmpty, desired, answers).state;
      if (SendsWrite(e, diffEmpty, desired) && Accepted(st, at, answers, false))
        || (SendsDelete(e, diffEmpty, desired) && Accepted(st, at, answers, true))
      then LeavesBehind(st, r, at, desired) && Persisted(st, r, at.nePk, e.isAppliance && answers.saveSucceeds)
      else r == st
  {
    StubOfEndpoint(e);
  }

  /** After a rollback whose call went through, the instance is the snapshot, or gone; likewise. */
  lemma RolledBackState(e: Endpoint, s: StubSpec, st: ServerState, at: Address, snapshot: Option<Json>,
                        answers: Answers)
    requires GenerateStub(e) == Success(s)
    ensures var r := RollbackStep(s, st, at, snapshot, answers).state;
      if CanSnapshot(e) && (snapshot.Some? || CanDelete(e)) && Accepted(st, at, answers, snapshot.None?)
      then LeavesBehind(st, r, at, snapshot) && Persisted(st, r, at.nePk, e.isAppliance && answers.saveSucceeds)
      else r == st
  {
    StubOfEndpoint(e);
  }

  // ----- what is not restored -----

  /** An instance held as a scalar is snapshotted as absent: a rollback that reports success deletes it. */
  lemma ScalarStateIsLost(e: Endpoint, s: StubSpec, st: ServerState, at: Address, desired: Json)
    requires Generated(e, s, st) && CanSnapshot(e) && CanDelete(e) && !FetchFails(e, st, at)
    requires at in st.running && !IsStructure(st.running[at])
    ensures var undone := TransactStep(s, st, at, false, Some(desired), Answers(true, true), Answers(true, true));
      undone.outcome == Ok && at !in undone.state.running && !SameRunning(undone.state, st)
  {
    StubOfEndpoint(e);
    FetchGives(e, s, st, at, true);
    hide Fetch, FetchFails, GenerateStub, Save;
  }

  /** A number where the read model reads a text comes back as text, whatever the transaction was. */
  lemma CoercedStateIsChanged(e: Endpoint, s: StubSpec, st: ServerState, at: Address, diffEmpty: bool,
                              desired: Option<Json>, lax: Lax, pythonName: string, wireName: string)
    requires Generated(e, s, st) && CanSnapshot(e) && !e.getBodyMandatory
    requires e.readModel == Some(Model(lax, TextModel(pythonName, wireName, false), ClassRef("Text")))
    requires at in st.running
    requires st.running[at] == Obj([Member(Alias(TextField(pythonName, wireName, false)), Int(1))])
    ensures !SameState(TransactStep(s, st, at, diffEmpty, desired, Answers(true, true), Answers(true, true)).state, st)
  {
    var cs, v := TextModel(pythonName, wireName, false), st.running[at];
    NumberBecomesText(lax, pythonName, wireName);
    assert ValidJson(v) by { assert ValidJson(Int(1)) && UniqueKeys(v.members); }
    hide TextModel, Validates, Load, Dump, Native, Survives, Generated, SameState, TransactStep, Alias, GenerateStub;
    LoadDumpIffNative(lax, false, cs, ClassRef("Text"), v);
    TransactionRestoresIff(e, s, st, at, diffEmpty, desired);
  }
}
