/** Properties of the orchestrator: how rollback walks the stack, what each
    lifecycle call does when it succeeds, and what is left after it fails. */
module ServiceProperties {
  import opened Wrappers
  import opened Text
  import opened Entities
  import opened Exceptions
  import opened State
  import opened Commands
  import opened ApiService
  import UserManagement
  import Spec2Tool

  // ---- rollback ----

  /** The last command pushed is the last one undone. */
  lemma {:induction false} UndoSequenceLast(cs: seq<Command>, c: Command, w: World)
    ensures UndoSequence(cs + [c], w) == Undo(c, UndoSequence(cs, w))
    decreases |cs|
  {
    if cs == [] {
      assert UndoSequence([c], w) == UndoSequence([], Undo(c, w));
    } else {
      assert (cs + [c])[1..] == cs[1..] + [c];
      UndoSequenceLast(cs[1..], c, Undo(cs[0], w));
    }
  }

  /** Without a failing undo, rollback undoes every pushed command exactly once, in
      the order they completed. */
  lemma RollbackUndoesAll(stack: seq<Command>, w: World, undoFaults: map<nat, Exc>)
    requires forall k | 0 <= k < |stack| :: TargetOk(stack[k]) && k !in undoFaults
    ensures Rollback(stack, w, undoFaults) == Unwind(UndoSequence(stack, w), |stack|, None)
  {
    var u := Rollback(stack, w, undoFaults);
    if u.escaped.Some? {
      assert false;
    }
    assert stack[0..|stack|] == stack;
  }

  /** An undo that throws ends the rollback: the commands below it were undone in
      completion order, it and those above it were not, and its exception is what
      the caller gets in place of the classified one. */
  lemma UndoFailureEscapes(r: Run, undoFaults: map<nat, Exc>, k: nat)
    requires r.failure.Some? && k < |r.stack|
    requires forall j | 0 <= j < k :: TargetOk(r.stack[j]) && j !in undoFaults
    requires TargetOk(r.stack[k]) && UndoCalls(r.stack[k]) && k in undoFaults
    ensures var before := UndoSequence(r.stack[..k], r.world);
      && Rollback(r.stack, r.world, undoFaults) == Unwind(before, k, Some(TryUndo(r.stack[k], before, Some(undoFaults[k])).error))
      && Conclude(r, undoFaults, 0) == Outcome(Failure(TryUndo(r.stack[k], before, Some(undoFaults[k])).error), before)
  {
    var u := Rollback(r.stack, r.world, undoFaults);
    if u.undone < k {
      assert false;
    }
    assert u.undone == k;
    assert r.stack[0..k] == r.stack[..k];
  }

  /** The undos of commands that touch different parts of the world commute. */
  lemma UndoCommute(c1: Command, c2: Command, w: World)
    requires Footprint(c1) != Footprint(c2)
    ensures Undo(c2, Undo(c1, w)) == Undo(c1, Undo(c2, w))
  {
  }

  lemma {:induction false} UndoPast(c: Command, cs: seq<Command>, w: World)
    requires forall i | 0 <= i < |cs| :: Footprint(cs[i]) != Footprint(c)
    ensures UndoSequence(cs, Undo(c, w)) == Undo(c, UndoSequence(cs, w))
    decreases |cs|
  {
    if cs != [] {
      UndoCommute(c, cs[0], w);
      UndoPast(c, cs[1..], Undo(cs[0], w));
    }
  }

  function Reverse(cs: seq<Command>): (r: seq<Command>)
    ensures |r| == |cs|
    ensures forall i | 0 <= i < |cs| :: r[i] == cs[|cs| - 1 - i]
  {
    if cs == [] then [] else Reverse(cs[1..]) + [cs[0]]
  }

  /** When the pushed commands touch pairwise different parts of the world (the
      stacks of failed scripts do: see `SaveRollbackOrderAgrees` and
      `DeleteRollbackOrderAgrees`), undoing them in completion order leaves the
      world that undoing them in reverse order would. */
  lemma {:induction false} ReverseOrderAgrees(cs: seq<Command>, w: World)
    requires forall i, j | 0 <= i < j < |cs| :: Footprint(cs[i]) != Footprint(cs[j])
    ensures UndoSequence(Reverse(cs), w) == UndoSequence(cs, w)
    decreases |cs|
  {
    if cs != [] {
      var rest := cs[1..];
      assert forall i, j | 0 <= i < j < |rest| :: Footprint(rest[i]) != Footprint(rest[j]) by {
        forall i, j | 0 <= i < j < |rest| ensures Footprint(rest[i]) != Footprint(rest[j]) {
          assert rest[i] == cs[i + 1] && rest[j] == cs[j + 1];
        }
      }
      ReverseOrderAgrees(rest, w);
      UndoSequenceLast(Reverse(rest), cs[0], w);
      assert forall i | 0 <= i < |rest| :: Footprint(rest[i]) != Footprint(cs[0]) by {
        forall i | 0 <= i < |rest| ensures Footprint(rest[i]) != Footprint(cs[0]) {
          assert rest[i] == cs[i + 1];
        }
      }
      UndoPast(cs[0], rest, w);
    }
  }

  /** A script that stopped before pushing anything leaves the world as it was and
      reports the classified exception. */
  lemma NothingPushedNothingChanged<T>(r: Run, w: World, undoFaults: map<nat, Exc>, value: T)
    requires r.stack == [] && r.world == w && r.failure.Some?
    ensures Conclude(r, undoFaults, value) == Outcome(Failure(Classify(r.failure.value)), w)
  {
  }

  // ---- saveApi ----

  /** None of the calls `saveApi` makes after the authorization check throws. */
  predicate SaveCallsSucceed(env: Env) {
    StoreSave !in env.faults && OwnerAdd !in env.faults && ConvertSpec !in env.faults && ToolPut !in env.faults
  }

  /** A refused authorization is reported as `ServiceNotAllowed` and changes
      nothing. */
  lemma SaveDeniedChangesNothing(w: World, env: Env, api: Api, user: string, group: Option<string>)
    requires HasText(Some(user))
    requires UserManagement.IsUserAuthorized(w, Some(user), group, env.faults) == Success(false)
    ensures SaveApi(w, env, api, Some(user), group) == Outcome(Failure(ServiceNotAllowed), w)
  {
  }

  /** `saveApi` succeeds exactly when the user may edit, no call throws and the
      spec can be converted. */
  lemma SaveSucceeds(w: World, env: Env, api: Api, user: string, group: Option<string>)
    requires HasText(Some(user))
    ensures SaveApi(w, env, api, Some(user), group).result.Success? <==>
      && UserManagement.IsUserAuthorized(w, Some(user), group, env.faults) == Success(true)
      && SaveCallsSucceed(env)
      && Spec2Tool.Acceptable(api.format, api.fileType, api.spec)
  {
    SaveCommandsComplete(w, env, Stored(api, env), user, group);
  }

  lemma SaveCommandsComplete(w: World, env: Env, stored: Api, user: string, group: Option<string>)
    requires HasText(Some(user))
    ensures SaveCommands(w, env, stored, user, group).failure.None? <==>
      SaveCallsSucceed(env) && Spec2Tool.Acceptable(stored.format, stored.fileType, stored.spec)
  {
  }

  /** A successful `saveApi` stores the api under its new id, gives the ownership
      (id, active) to the user when no group is named and to the group otherwise,
      and registers the converted tool under the same id. */
  lemma SaveEffect(w: World, env: Env, api: Api, user: string, group: Option<string>)
    requires HasText(Some(user))
    requires SaveApi(w, env, api, Some(user), group).result.Success?
    ensures
      var w' := SaveApi(w, env, api, Some(user), group).world;
      var entry := ApiWithActive(env.freshId, true);
      && w'.apis == w.apis[env.freshId := Stored(api, env)]
      && w'.tools == w.tools[env.freshId := env.converted]
      && (!HasText(group) ==> w'.userApis == AddOwned(w.userApis, user, entry) && w'.groupApis == w.groupApis)
      && (HasText(group) ==> w'.groupApis == AddOwned(w.groupApis, group.value, entry) && w'.userApis == w.userApis)
      && w'.users == w.users && w'.groups == w.groups
  {
    var r := SaveScript(w, env, api, user, group);
    assert SaveApi(w, env, api, Some(user), group) == Conclude(r, env.undoFaults, Stored(api, env));
    assert r == SaveCommands(w, env, Stored(api, env), user, group) by {
      SaveSucceeds(w, env, api, user, group);
    }
    SaveCommandsEffect(w, env, Stored(api, env), user, group);
  }

  lemma SaveCommandsEffect(w: World, env: Env, stored: Api, user: string, group: Option<string>)
    requires HasText(Some(user))
    requires SaveCommands(w, env, stored, user, group).failure.None?
    ensures
      var w' := SaveCommands(w, env, stored, user, group).world;
      var entry := ApiWithActive(stored.id, true);
      && w'.apis == w.apis[stored.id := stored]
      && w'.tools == w.tools[stored.id := env.converted]
      && (!HasText(group) ==> w'.userApis == AddOwned(w.userApis, user, entry) && w'.groupApis == w.groupApis)
      && (HasText(group) ==> w'.groupApis == AddOwned(w.groupApis, group.value, entry) && w'.userApis == w.userApis)
      && w'.users == w.users && w'.groups == w.groups
  {
    var c1 := SaveApiToRepository(stored);
    var c2 := GrantOwnership(user, group, stored.id);
    var r1 := Step(Run(w, [], None), c1, FaultOf(env.faults, StoreSave));
    var r2 := Step(r1, c2, FaultOf(env.faults, OwnerAdd));
    assert r1.world == Execute(c1, w).0;
    assert r2.world == Execute(c2, r1.world).0;
    SaveCommandsComplete(w, env, stored, user, group);
  }

  /** When the new id was free and no undo throws, a failed `saveApi` leaves a
      world no client can tell from the one before, and reports a service
      exception. */
  lemma SaveFailureRestores(w: World, env: Env, api: Api, user: string, group: Option<string>)
    requires HasText(Some(user))
    requires env.undoFaults == map[]
    requires env.freshId !in w.apis
    requires !Lists(OwnerListing(w, user, group), env.freshId)
    requires SaveApi(w, env, api, Some(user), group).result.Failure?
    ensures Equivalent(SaveApi(w, env, api, Some(user), group).world, w)
    ensures IsServiceException(SaveApi(w, env, api, Some(user), group).result.error)
  {
    var r := SaveScript(w, env, api, user, group);
    assert SaveApi(w, env, api, Some(user), group) == Conclude(r, env.undoFaults, Stored(api, env));
    SaveScriptStops(w, env, api, user, group);
    RollbackUndoesAll(r.stack, r.world, env.undoFaults);
    SaveUndone(w, env, api, user, group, r.stack, r.world);
  }

  lemma SaveUndone(w: World, env: Env, api: Api, user: string, group: Option<string>, stack: seq<Command>, w': World)
    requires env.freshId !in w.apis
    requires !Lists(OwnerListing(w, user, group), env.freshId)
    requires var c1 := SaveApiToRepository(Stored(api, env));
      var c2 := GrantOwnership(user, group, env.freshId);
      var w1 := Execute(c1, w).0;
      || (stack == [] && w' == w)
      || (stack == [c1] && w' == w1)
      || (stack == [c1, c2] && w' == Execute(c2, w1).0)
    ensures Equivalent(UndoSequence(stack, w'), w)
  {
    var c1 := SaveApiToRepository(Stored(api, env));
    var c2 := GrantOwnership(user, group, env.freshId);
    if stack == [c1] {
      SaveApiToRepositoryRoundTrip(Stored(api, env), w);
      assert UndoSequence([c1], w') == UndoSequence([], Undo(c1, w'));
    } else if stack == [c1, c2] {
      SaveUndoneBoth(w, env, api, user, group);
    }
  }

  lemma SaveUndoneBoth(w: World, env: Env, api: Api, user: string, group: Option<string>)
    requires env.freshId !in w.apis
    requires !Lists(OwnerListing(w, user, group), env.freshId)
    ensures var c1 := SaveApiToRepository(Stored(api, env));
      var c2 := GrantOwnership(user, group, env.freshId);
      Equivalent(UndoSequence([c1, c2], Execute(c2, Execute(c1, w).0).0), w)
  {
    var stored := Stored(api, env);
    var entry := ApiWithActive(env.freshId, true);
    if !HasText(group) {
      StoreThenUserUndone(w, stored, user, entry);
    } else {
      StoreThenGroupUndone(w, stored, group.value, entry);
    }
  }

  lemma StoreThenUserUndone(w: World, stored: Api, user: string, entry: ApiWithActive)
    requires stored.id !in w.apis
    requires !Lists(Listing(w.userApis, user), entry.apiId)
    ensures var c1 := SaveApiToRepository(stored);
      var c2 := AddApiToUser(user, entry);
      Equivalent(UndoSequence([c1, c2], Execute(c2, Execute(c1, w).0).0), w)
  {
    var c1 := SaveApiToRepository(stored);
    var c2 := AddApiToUser(user, entry);
    var w2 := Execute(c2, Execute(c1, w).0).0;
    UndoPair(c1, c2, w2);
    assert Undo(c1, w2).apis == w.apis;
    assert Undo(c1, w2) == Execute(c2, w).0;
    AddApiToUserRoundTrip(user, entry, w);
  }

  lemma StoreThenGroupUndone(w: World, stored: Api, group: string, entry: ApiWithActive)
    requires stored.id !in w.apis
    requires !Lists(Listing(w.groupApis, group), entry.apiId)
    ensures var c1 := SaveApiToRepository(stored);
      var c2 := AddApiToGroup(group, entry);
      Equivalent(UndoSequence([c1, c2], Execute(c2, Execute(c1, w).0).0), w)
  {
    var c1 := SaveApiToRepository(stored);
    var c2 := AddApiToGroup(group, entry);
    var w2 := Execute(c2, Execute(c1, w).0).0;
    UndoPair(c1, c2, w2);
    assert Undo(c1, w2).apis == w.apis;
    assert Undo(c1, w2) == Execute(c2, w).0;
    AddApiToGroupRoundTrip(group, entry, w);
  }

  lemma UndoPair(c1: Command, c2: Command, w: World)
    ensures UndoSequence([c1, c2], w) == Undo(c2, Undo(c1, w))
  {
    assert [c1, c2][1..] == [c2];
    assert UndoSequence([c2], Undo(c1, w)) == UndoSequence([], Undo(c2, Undo(c1, w)));
  }

  /** Where a failed `saveApi` script can stop: before any command, after the
      store command, or after the ownership command (the tool command is the last
      step, so it is never on the stack of a failed run). */
  lemma SaveScriptStops(w: World, env: Env, api: Api, user: string, group: Option<string>)
    requires HasText(Some(user))
    ensures var r := SaveScript(w, env, api, user, group);
      var c1 := SaveApiToRepository(Stored(api, env));
      var c2 := GrantOwnership(user, group, env.freshId);
      var w1 := Execute(c1, w).0;
      r.failure.Some? ==>
        || (r.stack == [] && r.world == w)
        || (r.stack == [c1] && r.world == w1 && TargetOk(c1))
        || (r.stack == [c1, c2] && r.world == Execute(c2, w1).0 && TargetOk(c1) && TargetOk(c2))
  {
  }

  /** The stack a failed `saveApi` rolls back touches pairwise different parts of
      the world, so undoing it in completion order agrees with reverse order. */
  lemma SaveRollbackOrderAgrees(w: World, env: Env, api: Api, user: string, group: Option<string>)
    requires HasText(Some(user))
    ensures var r := SaveScript(w, env, api, user, group);
      r.failure.Some? ==>
        && (forall i, j | 0 <= i < j < |r.stack| :: Footprint(r.stack[i]) != Footprint(r.stack[j]))
        && UndoSequence(Reverse(r.stack), r.world) == UndoSequence(r.stack, r.world)
  {
    var r := SaveScript(w, env, api, user, group);
    SaveScriptStops(w, env, api, user, group);
    if r.failure.Some? {
      assert forall i, j | 0 <= i < j < |r.stack| :: Footprint(r.stack[i]) != Footprint(r.stack[j]);
      ReverseOrderAgrees(r.stack, r.world);
    }
  }

  /** A record saved by `saveApi` is what `fetchApiById` then finds under its id. */
  lemma SaveThenFetch(w: World, env: Env, api: Api, user: string, group: Option<string>)
    requires HasText(Some(user))
    requires SaveApi(w, env, api, Some(user), group).result.Success?
    ensures FetchApiById(SaveApi(w, env, api, Some(user), group).world, env.freshId, None) == Success(Stored(api, env))
  {
    SaveEffect(w, env, api, user, group);
  }

  // ---- updateApi ----

  /** None of the calls `updateApi` makes, the authorization check aside, throws. */
  predicate UpdateCallsSucceed(env: Env) {
    && FindApi !in env.faults && FetchOwned !in env.faults && StoreUpdate !in env.faults
    && ConvertSpec !in env.faults && ToolPut !in env.faults
  }

  /** An id the store does not hold ends in `ServiceError`, not `ServiceNotFound`:
      the `ResponseStatusException` is not an `HttpClientErrorException`. */
  lemma UpdateMissingId(w: World, env: Env, apiId: int, api: Api, user: string, group: Option<string>)
    requires HasText(Some(user))
    requires FindApi !in env.faults && apiId !in w.apis
    ensures UpdateApi(w, env, apiId, api, Some(user), group) == Outcome(Failure(ServiceError), w)
  {
  }

  /** A refused authorization ends in `ServiceError` and changes nothing. */
  lemma UpdateDeniedChangesNothing(w: World, env: Env, apiId: int, api: Api, user: string, group: Option<string>)
    requires HasText(Some(user))
    requires FindApi !in env.faults && apiId in w.apis
    requires UserManagement.IsUserAuthorized(w, Some(user), group, env.faults) == Success(false)
    ensures UpdateApi(w, env, apiId, api, Some(user), group) == Outcome(Failure(ServiceError), w)
  {
  }

  /** Nothing is changed unless the api is in the listing the request acts on. */
  lemma UpdateNeedsOwnership(w: World, env: Env, apiId: int, api: Api, user: string, group: Option<string>)
    requires HasText(Some(user))
    requires !Lists(OwnerListing(w, user, group), apiId)
    ensures UpdateApi(w, env, apiId, api, Some(user), group).world == w
    ensures UpdateApi(w, env, apiId, api, Some(user), group).result.Failure?
  {
  }

  /** `updateApi` succeeds exactly when the record exists, the user may edit, the
      api is in the listing acted on, no call throws and the partial record's spec
      fields can be converted. */
  lemma UpdateSucceeds(w: World, env: Env, apiId: int, api: Api, user: string, group: Option<string>)
    requires HasText(Some(user))
    ensures UpdateApi(w, env, apiId, api, Some(user), group).result.Success? <==>
      && UpdateCallsSucceed(env)
      && apiId in w.apis
      && UserManagement.IsUserAuthorized(w, Some(user), group, env.faults) == Success(true)
      && Lists(OwnerListing(w, user, group), apiId)
      && Spec2Tool.Acceptable(api.format, api.fileType, api.spec)
  {
    var r := UpdateScript(w, env, apiId, api, user, group);
    assert UpdateApi(w, env, apiId, api, Some(user), group).result.Success? <==> r.failure.None?;
    if apiId in w.apis {
      UpdateCommandsComplete(w, env, apiId, api);
    }
  }

  lemma UpdateCommandsComplete(w: World, env: Env, apiId: int, api: Api)
    requires apiId in w.apis
    ensures UpdateCommands(w, env, apiId, api).failure.None? <==>
      && StoreUpdate !in env.faults && ConvertSpec !in env.faults && ToolPut !in env.faults
      && Spec2Tool.Acceptable(api.format, api.fileType, api.spec)
  {
  }

  /** A successful `updateApi` stores the merge of the stored record and the
      partial one, registers the converted tool under the id, and leaves the
      listings alone. */
  lemma UpdateEffect(w: World, env: Env, apiId: int, api: Api, user: string, group: Option<string>)
    requires HasText(Some(user))
    requires StoreConsistent(w.apis)
    requires UpdateApi(w, env, apiId, api, Some(user), group).result.Success?
    ensures apiId in w.apis
    ensures var w' := UpdateApi(w, env, apiId, api, Some(user), group).world;
      && w'.apis == w.apis[apiId := Merge(w.apis[apiId], api)]
      && w'.tools == w.tools[apiId := env.converted]
      && w'.userApis == w.userApis && w'.groupApis == w.groupApis
      && w'.users == w.users && w'.groups == w.groups
  {
    var r := UpdateScript(w, env, apiId, api, user, group);
    assert UpdateApi(w, env, apiId, api, Some(user), group) == Conclude(r, env.undoFaults, api);
    UpdateSucceeds(w, env, apiId, api, user, group);
    assert r == UpdateCommands(w, env, apiId, api);
    UpdateCommandsEffect(w, env, apiId, api);
  }

  lemma UpdateCommandsEffect(w: World, env: Env, apiId: int, api: Api)
    requires StoreConsistent(w.apis)
    requires apiId in w.apis
    requires UpdateCommands(w, env, apiId, api).failure.None?
    ensures var w' := UpdateCommands(w, env, apiId, api).world;
      && w'.apis == w.apis[apiId := Merge(w.apis[apiId], api)]
      && w'.tools == w.tools[apiId := env.converted]
      && w'.userApis == w.userApis && w'.groupApis == w.groupApis
      && w'.users == w.users && w'.groups == w.groups
  {
    UpdateCommandsComplete(w, env, apiId, api);
  }

  /** Where a failed `updateApi` script can stop: before any command, or after the
      store update, which then carries the record it replaced. */
  lemma UpdateScriptStops(w: World, env: Env, apiId: int, api: Api, user: string, group: Option<string>)
    requires HasText(Some(user))
    ensures var r := UpdateScript(w, env, apiId, api, user, group);
      var p := Execute(UpdateApiInRepository(apiId, api, None), w);
      r.failure.Some? ==>
        || (r.stack == [] && r.world == w)
        || (r.stack == [p.1] && r.world == p.0 && TargetOk(p.1))
  {
  }

  /** When no undo throws, a failed `updateApi` leaves the world exactly as it was,
      and reports a service exception. */
  lemma UpdateFailureRestores(w: World, env: Env, apiId: int, api: Api, user: string, group: Option<string>)
    requires HasText(Some(user))
    requires StoreConsistent(w.apis)
    requires env.undoFaults == map[]
    requires UpdateApi(w, env, apiId, api, Some(user), group).result.Failure?
    ensures UpdateApi(w, env, apiId, api, Some(user), group).world == w
    ensures IsServiceException(UpdateApi(w, env, apiId, api, Some(user), group).result.error)
  {
    var r := UpdateScript(w, env, apiId, api, user, group);
    assert UpdateApi(w, env, apiId, api, Some(user), group) == Conclude(r, env.undoFaults, api);
    UpdateScriptStops(w, env, apiId, api, user, group);
    RollbackUndoesAll(r.stack, r.world, env.undoFaults);
    if r.stack != [] {
      UpdateApiInRepositoryRoundTrip(apiId, api, w);
      assert UndoSequence(r.stack, r.world) == UndoSequence([], Undo(r.stack[0], r.world));
    }
  }

  /** After a successful `updateApi`, `fetchApiById` finds the merged record. */
  lemma UpdateThenFetch(w: World, env: Env, apiId: int, api: Api, user: string, group: Option<string>)
    requires HasText(Some(user))
    requires StoreConsistent(w.apis)
    requires UpdateApi(w, env, apiId, api, Some(user), group).result.Success?
    ensures apiId in w.apis
    ensures FetchApiById(UpdateApi(w, env, apiId, api, Some(user), group).world, apiId, None)
      == Success(Merge(w.apis[apiId], api))
  {
    UpdateEffect(w, env, apiId, api, user, group);
  }

  // ---- deleteApiById ----

  /** None of the calls `deleteApiById` makes, the authorization check aside,
      throws; the tool deletion counts only when the registry holds a tool. */
  predicate DeleteCallsSucceed(env: Env, hasTool: bool) {
    && FindApi !in env.faults && FetchOwned !in env.faults && OwnerRemove !in env.faults
    && ToolGet !in env.faults && (hasTool ==> ToolDelete !in env.faults) && StoreDelete !in env.faults
  }

  /** The listing holds at most one distinct record for the api id. */
  predicate SingleEntry(l: seq<ApiWithActive>, id: int) {
    forall e, e' | e in l && e' in l && e.apiId == id && e'.apiId == id :: e == e'
  }

  /** The worlds agree except that the listing acted on may hold its records in
      another order. */
  ghost predicate RestoredAsSets(a: World, b: World, user: string, group: Option<string>) {
    && a.apis == b.apis && a.tools == b.tools && a.users == b.users && a.groups == b.groups
    && (!HasText(group) ==> SameListingsAsSets(a.userApis, b.userApis, user) && a.groupApis == b.groupApis)
    && (HasText(group) ==> SameListingsAsSets(a.groupApis, b.groupApis, group.value) && a.userApis == b.userApis)
  }

  /** An id the store does not hold ends in `ServiceError` and changes nothing. */
  lemma DeleteMissingId(w: World, env: Env, apiId: int, user: string, group: Option<string>)
    requires HasText(Some(user))
    requires FindApi !in env.faults && apiId !in w.apis
    ensures DeleteApiById(w, env, apiId, Some(user), group) == Outcome(Failure(ServiceError), w)
  {
  }

  /** A refused authorization ends in `ServiceError` and changes nothing. */
  lemma DeleteDeniedChangesNothing(w: World, env: Env, apiId: int, user: string, group: Option<string>)
    requires HasText(Some(user))
    requires FindApi !in env.faults && apiId in w.apis
    requires UserManagement.IsUserAuthorized(w, Some(user), group, env.faults) == Success(false)
    ensures DeleteApiById(w, env, apiId, Some(user), group) == Outcome(Failure(ServiceError), w)
  {
  }

  /** Nothing is deleted unless the api is in the listing the request acts on. */
  lemma DeleteNeedsOwnership(w: World, env: Env, apiId: int, user: string, group: Option<string>)
    requires HasText(Some(user))
    requires StoreConsistent(w.apis)
    requires !Lists(OwnerListing(w, user, group), apiId)
    ensures DeleteApiById(w, env, apiId, Some(user), group).world == w
    ensures DeleteApiById(w, env, apiId, Some(user), group).result.Failure?
  {
    DeleteScriptReaches(w, env, apiId, user, group);
  }

  /** The ownership command of a delete: which owner it acts on. */
  predicate Revokes(c: Command) {
    (c.DeleteApiFromUser? || c.DeleteApiFromGroup?) && TargetOk(c)
  }

  lemma DeleteCommandsComplete(w: World, env: Env, apiId: int, api: Api, revoke: Command)
    requires Revokes(revoke)
    ensures DeleteCommands(w, env, apiId, api, revoke).failure.None? <==>
      && OwnerRemove !in env.faults && ToolGet !in env.faults
      && (apiId in w.tools ==> ToolDelete !in env.faults) && StoreDelete !in env.faults
  {
    var r1 := Step(Run(w, [], None), revoke, FaultOf(env.faults, OwnerRemove));
    assert r1.failure.None? ==> r1.world.tools == w.tools;
  }

  /** Where the delete steps can stop: before any command, after the ownership
      command, or after the tool deletion (the store deletion is the last step,
      so it is never on the stack of a failed run). */
  lemma DeleteCommandsStops(w: World, env: Env, apiId: int, api: Api, revoke: Command)
    requires Revokes(revoke)
    ensures var r := DeleteCommands(w, env, apiId, api, revoke);
      var w1 := Execute(revoke, w).0;
      r.failure.Some? ==>
        || (r.stack == [] && r.world == w)
        || (r.stack == [revoke] && r.world == w1)
        || (apiId in w.tools && r.stack == [revoke, DeleteMcpTool(apiId, w.tools[apiId])]
            && r.world == Execute(DeleteMcpTool(apiId, w.tools[apiId]), w1).0)
  {
    var r1 := Step(Run(w, [], None), revoke, FaultOf(env.faults, OwnerRemove));
    assert r1.failure.None? ==> r1.world.tools == w.tools;
  }

  /** The stack a failed run of the delete steps rolls back touches pairwise
      different parts of the world, so undoing it in completion order agrees with
      reverse order. */
  lemma DeleteRollbackOrderAgrees(w: World, env: Env, apiId: int, api: Api, revoke: Command)
    requires Revokes(revoke)
    ensures var r := DeleteCommands(w, env, apiId, api, revoke);
      r.failure.Some? ==>
        && (forall i, j | 0 <= i < j < |r.stack| :: Footprint(r.stack[i]) != Footprint(r.stack[j]))
        && UndoSequence(Reverse(r.stack), r.world) == UndoSequence(r.stack, r.world)
  {
    var r := DeleteCommands(w, env, apiId, api, revoke);
    DeleteCommandsStops(w, env, apiId, api, revoke);
    if r.failure.Some? {
      assert forall i, j | 0 <= i < j < |r.stack| :: Footprint(r.stack[i]) != Footprint(r.stack[j]);
      ReverseOrderAgrees(r.stack, r.world);
    }
  }

  /** The script reaches the delete steps exactly when the record exists, the
      user may edit and the api is in the listing acted on; the ownership command
      then carries the last entry of that listing for the api. */
  lemma DeleteScriptReaches(w: World, env: Env, apiId: int, user: string, group: Option<string>)
    requires HasText(Some(user))
    requires StoreConsistent(w.apis)
    ensures var r := DeleteScript(w, env, apiId, user, group);
      var l := OwnerListing(w, user, group);
      if FindApi !in env.faults && apiId in w.apis
         && UserManagement.IsUserAuthorized(w, Some(user), group, env.faults) == Success(true)
         && FetchOwned !in env.faults && Lists(l, apiId)
      then
        && LastMatch(l, apiId).Some?
        && r == DeleteCommands(w, env, apiId, w.apis[apiId], RevokeOwnership(user, group, LastMatch(l, apiId).value))
      else r.stack == [] && r.world == w && r.failure.Some?
  {
  }

  /** `deleteApiById` succeeds exactly when the record exists, the user may edit,
      the api is in the listing acted on and no call throws. */
  lemma DeleteSucceeds(w: World, env: Env, apiId: int, user: string, group: Option<string>)
    requires HasText(Some(user))
    requires StoreConsistent(w.apis)
    ensures DeleteApiById(w, env, apiId, Some(user), group).result.Success? <==>
      && DeleteCallsSucceed(env, apiId in w.tools)
      && apiId in w.apis
      && UserManagement.IsUserAuthorized(w, Some(user), group, env.faults) == Success(true)
      && Lists(OwnerListing(w, user, group), apiId)
  {
    DeleteScriptReaches(w, env, apiId, user, group);
    var l := OwnerListing(w, user, group);
    if LastMatch(l, apiId).Some? && apiId in w.apis {
      DeleteCommandsComplete(w, env, apiId, w.apis[apiId], RevokeOwnership(user, group, LastMatch(l, apiId).value));
    }
  }

  /** A successful `deleteApiById` removes the record and the tool under the id
      and every entry for the id from the listing acted on. */
  lemma DeleteEffect(w: World, env: Env, apiId: int, user: string, group: Option<string>)
    requires HasText(Some(user))
    requires StoreConsistent(w.apis)
    requires DeleteApiById(w, env, apiId, Some(user), group).result.Success?
    ensures var w' := DeleteApiById(w, env, apiId, Some(user), group).world;
      && w'.apis == w.apis - {apiId}
      && w'.tools == w.tools - {apiId}
      && (!HasText(group) ==> w'.userApis == RemoveOwned(w.userApis, user, apiId) && w'.groupApis == w.groupApis)
      && (HasText(group) ==> w'.groupApis == RemoveOwned(w.groupApis, group.value, apiId) && w'.userApis == w.userApis)
      && w'.users == w.users && w'.groups == w.groups
  {
    DeleteScriptReaches(w, env, apiId, user, group);
    DeleteSucceeds(w, env, apiId, user, group);
    var l := OwnerListing(w, user, group);
    var revoke := RevokeOwnership(user, group, LastMatch(l, apiId).value);
    DeleteCommandsEffect(w, env, apiId, w.apis[apiId], revoke);
  }

  lemma DeleteCommandsEffect(w: World, env: Env, apiId: int, api: Api, revoke: Command)
    requires Revokes(revoke)
    requires DeleteCommands(w, env, apiId, api, revoke).failure.None?
    ensures var w' := DeleteCommands(w, env, apiId, api, revoke).world;
      var w1 := Execute(revoke, w).0;
      && w'.apis == w.apis - {api.id}
      && w'.tools == w.tools - {apiId}
      && w'.userApis == w1.userApis && w'.groupApis == w1.groupApis
      && w'.users == w.users && w'.groups == w.groups
  {
    DeleteCommandsComplete(w, env, apiId, api, revoke);
  }

  /** When the listing acted on holds one record for the api and no undo throws,
      a failed `deleteApiById` restores the store, the registry and the other
      listings exactly, and the listing acted on up to order; it reports a
      service exception. */
  lemma DeleteFailureRestores(w: World, env: Env, apiId: int, user: string, group: Option<string>)
    requires HasText(Some(user))
    requires StoreConsistent(w.apis)
    requires env.undoFaults == map[]
    requires SingleEntry(OwnerListing(w, user, group), apiId)
    requires DeleteApiById(w, env, apiId, Some(user), group).result.Failure?
    ensures RestoredAsSets(DeleteApiById(w, env, apiId, Some(user), group).world, w, user, group)
    ensures IsServiceException(DeleteApiById(w, env, apiId, Some(user), group).result.error)
  {
    var r := DeleteScript(w, env, apiId, user, group);
    assert DeleteApiById(w, env, apiId, Some(user), group) == Conclude(r, env.undoFaults, ());
    DeleteScriptUndone(w, env, apiId, user, group);
    RollbackUndoesAll(r.stack, r.world, env.undoFaults);
  }

  lemma DeleteScriptUndone(w: World, env: Env, apiId: int, user: string, group: Option<string>)
    requires HasText(Some(user))
    requires StoreConsistent(w.apis)
    requires SingleEntry(OwnerListing(w, user, group), apiId)
    ensures var r := DeleteScript(w, env, apiId, user, group);
      r.failure.Some? ==>
        && (forall k | 0 <= k < |r.stack| :: TargetOk(r.stack[k]))
        && RestoredAsSets(UndoSequence(r.stack, r.world), w, user, group)
  {
    var r := DeleteScript(w, env, apiId, user, group);
    DeleteScriptReaches(w, env, apiId, user, group);
    if r.failure.Some? && r.stack != [] {
      var l := OwnerListing(w, user, group);
      var entry := LastMatch(l, apiId).value;
      var revoke := RevokeOwnership(user, group, entry);
      DeleteCommandsStops(w, env, apiId, w.apis[apiId], revoke);
      DeleteCommandsUndone(w, r.stack, r.world, apiId, revoke);
      RevokeUndone(w, user, group, entry);
    }
  }

  /** Undoing what the failed delete steps pushed leaves the world the ownership
      command's own undo would. */
  lemma DeleteCommandsUndone(w: World, stack: seq<Command>, w': World, apiId: int, revoke: Command)
    requires Revokes(revoke)
    requires var w1 := Execute(revoke, w).0;
      || (stack == [revoke] && w' == w1)
      || (apiId in w.tools && stack == [revoke, DeleteMcpTool(apiId, w.tools[apiId])]
          && w' == Execute(DeleteMcpTool(apiId, w.tools[apiId]), w1).0)
    ensures UndoSequence(stack, w') == Undo(revoke, Execute(revoke, w).0)
  {
    if stack == [revoke] {
      assert UndoSequence(stack, w') == UndoSequence([], Undo(revoke, w'));
    } else {
      UndoPair(revoke, stack[1], w');
    }
  }

  /** Revoking the single entry the listing holds for the api and undoing it
      restores the listing up to order. */
  lemma RevokeUndone(w: World, user: string, group: Option<string>, entry: ApiWithActive)
    requires entry in OwnerListing(w, user, group)
    requires SingleEntry(OwnerListing(w, user, group), entry.apiId)
    ensures var c := RevokeOwnership(user, group, entry);
      RestoredAsSets(Undo(c, Execute(c, w).0), w, user, group)
  {
    if !HasText(group) {
      DeleteApiFromUserRoundTrip(user, entry, w);
    } else {
      DeleteApiFromGroupRoundTrip(group.value, entry, w);
    }
  }

  /** After a successful `deleteApiById`, `fetchApiById` reports `ServiceNotFound`. */
  lemma DeleteThenFetch(w: World, env: Env, apiId: int, user: string, group: Option<string>)
    requires HasText(Some(user))
    requires StoreConsistent(w.apis)
    requires DeleteApiById(w, env, apiId, Some(user), group).result.Success?
    ensures FetchApiById(DeleteApiById(w, env, apiId, Some(user), group).world, apiId, None) == Failure(ServiceNotFound)
  {
    DeleteEffect(w, env, apiId, user, group);
  }

  // ---- invoke ----

  /** Once the record is found, every refusal of `invoke` ends in `ServiceError`:
      the `ServiceNotAllowed` it throws for a refused invocation is caught by the
      generic handler of the same try block, and the client layer never lets an
      `HttpClientErrorException` through. */
  lemma InvokeFailureIsServiceError(w: World, faults: map<Call, Exc>, apiId: int, user: Option<string>, group: Option<string>)
    requires FindApi !in faults && apiId in w.apis
    requires InvokeGate(w, faults, apiId, user, group).Failure?
    ensures InvokeGate(w, faults, apiId, user, group).error == ServiceError
  {
    var c := UserManagement.CanInvoke(w, user, group, faults);
    if c.Failure? {
      CanInvokeNeverHttp(w, user, group, faults);
    }
  }

  /** `canInvoke` fails only with the client layer's own exceptions. */
  lemma CanInvokeNeverHttp(w: World, user: Option<string>, group: Option<string>, faults: map<Call, Exc>)
    ensures UserManagement.CanInvoke(w, user, group, faults).Failure? ==>
      IsClientException(UserManagement.CanInvoke(w, user, group, faults).error)
  {
  }

  /** `invoke` reaches the external call exactly when the record exists, the user
      may invoke, and the api is in the listing of the group named, or of the user
      when none is. */
  lemma InvokeAllowed(w: World, faults: map<Call, Exc>, apiId: int, user: Option<string>, group: Option<string>)
    requires FindApi !in faults
    ensures InvokeGate(w, faults, apiId, user, group).Success? <==>
      && apiId in w.apis
      && UserManagement.CanInvoke(w, user, group, faults) == Success(true)
      && FetchOwned !in faults
      && HasText(user) && Lists(OwnerListing(w, user.value, group), apiId)
  {
  }

  /** Whoever may change an api through `updateApi` or `deleteApiById` may also
      invoke it. */
  lemma EditorsMayInvoke(w: World, faults: map<Call, Exc>, apiId: int, user: string, group: Option<string>)
    requires FindApi !in faults && FetchOwned !in faults
    requires apiId in w.apis
    requires UserManagement.IsUserAuthorized(w, Some(user), group, faults) == Success(true)
    requires Lists(OwnerListing(w, user, group), apiId)
    ensures InvokeGate(w, faults, apiId, Some(user), group) == Success(w.apis[apiId])
  {
    UserManagement.AuthorizedImpliesCanInvoke(w, Some(user), group, faults);
    InvokeAllowed(w, faults, apiId, Some(user), group);
  }
}
