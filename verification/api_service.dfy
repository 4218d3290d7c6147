/** The compensating-transaction orchestrator of `ApiServiceImpl`. Each lifecycle
    call runs a fixed script: checks and reads that may throw but change nothing,
    and commands that are pushed onto a stack only after their `execute` returns.
    The first exception stops the script; the stack is then undone from bottom to
    top (the iteration order of `java.util.Stack`, which is completion order), and
    the exception is classified. An exception thrown by an `undo` is not caught: it
    skips the remaining undos and escapes in place of the classified one. */
module ApiService {
  import opened Wrappers
  import opened Text
  import opened Entities
  import opened Exceptions
  import opened State
  import opened Commands
  import UserManagement
  import Spec2Tool
  import ToolRegistry

  /** Everything a request depends on besides the world: the exception each call
      throws, if any; the exception the undo at each stack position throws, if
      any; what the conversion service answers; the id the store generates for a
      new record. */
  datatype Env = Env(
    faults: map<Call, Exc>,
    undoFaults: map<nat, Exc>,
    converted: ToolDefinition,
    freshId: int)

  /** How far a script got: the world, the commands whose `execute` returned (in
      completion order) and the exception that stopped it, if any. */
  datatype Run = Run(world: World, stack: seq<Command>, failure: Option<Exc>)

  /** How far a rollback got: the world, the number of commands undone and the
      exception an `undo` threw, if any. */
  datatype Unwind = Unwind(world: World, undone: nat, escaped: Option<Exc>)

  /** What the caller sees: the value or the exception, and the world after. */
  datatype Outcome<T> = Outcome(result: Result<T, Exc>, world: World)

  /** Runs a command if nothing has failed yet; pushes it only once its `execute`
      has returned, so a command that throws is never undone. */
  function Step(r: Run, c: Command, fault: Option<Exc>): (r': Run)
    ensures r.failure.Some? ==> r' == r
    ensures r.failure.None? && r'.failure.None? ==>
      r'.stack == r.stack + [Execute(c, r.world).1] && r'.world == Execute(c, r.world).0
    ensures r'.failure.Some? && r.failure.None? ==> r'.stack == r.stack && r'.world == r.world
    ensures r.failure.None? ==> (r'.failure.None? <==> TargetOk(c) && fault.None?)
  {
    if r.failure.Some? then r
    else
      match TryExecute(c, r.world, fault)
      case Failure(e) => r.(failure := Some(e))
      case Success((w, c')) => Run(w, r.stack + [c'], None)
  }

  /** A script that stopped before any command ran. */
  function Stopped(w: World, e: Exc): Run {
    Run(w, [], Some(e))
  }

  /** The undos of `cs` applied first to last, none of them failing. */
  function UndoSequence(cs: seq<Command>, w: World): World
    decreases |cs|
  {
    if cs == [] then w else UndoSequence(cs[1..], Undo(cs[0], w))
  }

  /** `rollback`: iterates the stack from position `i` upwards, undoing each
      command; the first `undo` that throws ends the loop. */
  function RollbackFrom(stack: seq<Command>, i: nat, w: World, undoFaults: map<nat, Exc>): (u: Unwind)
    requires i <= |stack|
    ensures i <= u.undone <= |stack|
    ensures u.escaped.None? <==> u.undone == |stack|
    ensures u.world == UndoSequence(stack[i..u.undone], w)
    ensures u.escaped.Some? ==>
      TryUndo(stack[u.undone], u.world, FaultOf(undoFaults, u.undone)) == Failure(u.escaped.value)
    ensures forall k | i <= k < u.undone ::
      TargetOk(stack[k]) && (k !in undoFaults || !UndoCalls(stack[k]))
    decreases |stack| - i
  {
    if i == |stack| then
      assert stack[i..i] == [];
      Unwind(w, i, None)
    else
      match TryUndo(stack[i], w, FaultOf(undoFaults, i))
      case Failure(e) =>
        assert stack[i..i] == [];
        Unwind(w, i, Some(e))
      case Success(w') =>
        var u := RollbackFrom(stack, i + 1, w', undoFaults);
        assert stack[i..u.undone][1..] == stack[i + 1..u.undone];
        u
  }

  function Rollback(stack: seq<Command>, w: World, undoFaults: map<nat, Exc>): Unwind {
    RollbackFrom(stack, 0, w, undoFaults)
  }

  /** The catch blocks: `HttpClientErrorException` with 403 becomes
      `ServiceNotAllowed`, with 404 `ServiceNotFound`, with any other status
      `ServiceError`; every other exception, the client layer's included, becomes
      `ServiceError`. */
  function Classify(e: Exc): (r: Exc)
    ensures IsServiceException(r)
    ensures r == ServiceNotAllowed <==> e == HttpClientError(FORBIDDEN)
    ensures r == ServiceNotFound <==> e == HttpClientError(NOT_FOUND)
  {
    match e
    case HttpClientError(status) =>
      if status == FORBIDDEN then ServiceNotAllowed
      else if status == NOT_FOUND then ServiceNotFound
      else ServiceError
    case _ => ServiceError
  }

  /** `handleFailure` followed by the classification, or the value on success. */
  function Conclude<T>(r: Run, undoFaults: map<nat, Exc>, value: T): (o: Outcome<T>)
    ensures r.failure.None? ==> o == Outcome(Success(value), r.world)
    ensures r.failure.Some? ==> o.result.Failure?
    ensures r.failure.Some? && Rollback(r.stack, r.world, undoFaults).escaped.None? ==>
      o == Outcome(Failure(Classify(r.failure.value)), UndoSequence(r.stack, r.world))
  {
    if r.failure.None? then Outcome(Success(value), r.world)
    else
      var u := Rollback(r.stack, r.world, undoFaults);
      assert r.stack[0..|r.stack|] == r.stack;
      if u.escaped.Some? then Outcome(Failure(u.escaped.value), u.world)
      else Outcome(Failure(Classify(r.failure.value)), u.world)
  }

  /** `apiRepository.findById`: the stored record, or the fault injected for it. */
  function FindById(w: World, apiId: int, fault: Option<Exc>): (r: Result<Option<Api>, Exc>)
    ensures r.Failure? <==> fault.Some?
    ensures r.Success? ==> r.value == Find(w.apis, apiId)
  {
    if fault.Some? then Failure(fault.value) else Success(Find(w.apis, apiId))
  }

  /** The record saved by `saveApi`: the caller's api with the id the store
      generates for it, which the same object carries afterwards. */
  function Stored(api: Api, env: Env): Api {
    api.(id := env.freshId)
  }

  /** The listing a request with this user and group acts on: the group's when a
      group is named, the user's otherwise. */
  function OwnerListing(w: World, user: string, group: Option<string>): seq<ApiWithActive> {
    if HasText(group) then Listing(w.groupApis, group.value) else Listing(w.userApis, user)
  }

  /** The ownership command `saveApi` runs: to the user when no group is named,
      to the group otherwise. */
  function GrantOwnership(user: string, group: Option<string>, id: int): (c: Command)
    ensures !HasText(group) ==> c == AddApiToUser(user, ApiWithActive(id, true))
    ensures HasText(group) ==> c == AddApiToGroup(group.value, ApiWithActive(id, true))
  {
    if !HasText(group) then AddApiToUser(user, ApiWithActive(id, true))
    else AddApiToGroup(group.value, ApiWithActive(id, true))
  }

  /** The try block of `saveApi`. */
  function SaveScript(w: World, env: Env, api: Api, user: string, group: Option<string>): (r: Run)
    ensures r.stack == [] ==> r.world == w
  {
    match UserManagement.IsUserAuthorized(w, Some(user), group, env.faults)
    case Failure(e) => Stopped(w, e)
    case Success(authorized) =>
      if !authorized then Stopped(w, HttpClientError(FORBIDDEN))
      else SaveCommands(w, env, Stored(api, env), user, group)
  }

  /** The steps of `saveApi` after the authorization check: store the record,
      grant ownership, convert the spec, register the tool. */
  function SaveCommands(w: World, env: Env, stored: Api, user: string, group: Option<string>): (r: Run)
    ensures r.stack == [] ==> r.world == w
  {
    var r1 := Step(Run(w, [], None), SaveApiToRepository(stored), FaultOf(env.faults, StoreSave));
    var r2 := Step(r1, GrantOwnership(user, group, stored.id), FaultOf(env.faults, OwnerAdd));
    if r2.failure.Some? then r2
    else
      match Spec2Tool.ConvertSpec2Tool(stored.format, stored.fileType, stored.spec,
                                       FaultOf(env.faults, ConvertSpec), env.converted)
      case Failure(e) => r2.(failure := Some(e))
      case Success(definition) =>
        Step(r2, AddOrUpdateMcpTool(definition, stored.id), FaultOf(env.faults, ToolPut))
  }

  /** `saveApi(api, user, group)`. */
  function SaveApi(w: World, env: Env, api: Api, user: Option<string>, group: Option<string>): (o: Outcome<Api>)
    ensures !HasText(user) ==> o == Outcome(Failure(ServiceError), w)
    ensures o.result.Success? ==> o.result.value == Stored(api, env)
  {
    if !HasText(user) then Outcome(Failure(ServiceError), w)
    else Conclude(SaveScript(w, env, api, user.value, group), env.undoFaults, Stored(api, env))
  }

  /** The try block of `updateApi`. */
  function UpdateScript(w: World, env: Env, apiId: int, api: Api, user: string, group: Option<string>): (r: Run)
    ensures r.stack == [] ==> r.world == w
  {
    match FindById(w, apiId, FaultOf(env.faults, FindApi))
    case Failure(e) => Stopped(w, e)
    case Success(found) =>
      if found.None? then Stopped(w, ResponseStatus(NOT_FOUND))
      else
        match UserManagement.IsUserAuthorized(w, Some(user), group, env.faults)
        case Failure(e) => Stopped(w, e)
        case Success(authorized) =>
          if !authorized then Stopped(w, ResponseStatus(FORBIDDEN))
          else
            match UserManagement.OwnedListing(w, user, group, FaultOf(env.faults, FetchOwned))
            case Failure(e) => Stopped(w, e)
            case Success(listing) =>
              if !Lists(listing, apiId) then Stopped(w, ResponseStatus(NOT_FOUND))
              else UpdateCommands(w, env, apiId, api)
  }

  /** The steps of `updateApi` after its checks: merge into the stored record,
      convert the spec of the partial record the caller passed (not the merged
      one), register the tool. */
  function UpdateCommands(w: World, env: Env, apiId: int, api: Api): (r: Run)
    ensures r.stack == [] ==> r.world == w
  {
    var r1 := Step(Run(w, [], None), UpdateApiInRepository(apiId, api, None), FaultOf(env.faults, StoreUpdate));
    if r1.failure.Some? then r1
    else
      match Spec2Tool.ConvertSpec2Tool(api.format, api.fileType, api.spec,
                                       FaultOf(env.faults, ConvertSpec), env.converted)
      case Failure(e) => r1.(failure := Some(e))
      case Success(definition) =>
        Step(r1, AddOrUpdateMcpTool(definition, apiId), FaultOf(env.faults, ToolPut))
  }

  /** `updateApi(apiId, api, user, group)`: on success it returns the partial
      record it was given. */
  function UpdateApi(w: World, env: Env, apiId: int, api: Api, user: Option<string>, group: Option<string>): (o: Outcome<Api>)
    ensures !HasText(user) ==> o == Outcome(Failure(ServiceError), w)
    ensures o.result.Success? ==> o.result.value == api
  {
    if !HasText(user) then Outcome(Failure(ServiceError), w)
    else Conclude(UpdateScript(w, env, apiId, api, user.value, group), env.undoFaults, api)
  }

  /** The loop of `deleteApiById` that keeps the last entry for `id`. */
  function LastMatch(l: seq<ApiWithActive>, id: int): (r: Option<ApiWithActive>)
    ensures r.Some? <==> Lists(l, id)
    ensures r.Some? ==> exists i | 0 <= i < |l| ::
      l[i] == r.value && l[i].apiId == id && forall j | i < j < |l| :: l[j].apiId != id
    decreases |l|
  {
    if l == [] then None
    else
      var rest := LastMatch(l[1..], id);
      if rest.Some? then
        var i :| 0 <= i < |l[1..]| && l[1..][i] == rest.value && l[1..][i].apiId == id
          && forall j | i < j < |l[1..]| :: l[1..][j].apiId != id;
        assert l[i + 1] == rest.value && forall j | i + 1 < j < |l| :: l[j] == l[1..][j - 1];
        rest
      else if l[0].apiId == id then
        assert forall j | 0 < j < |l| :: l[j] == l[1..][j - 1];
        Some(l[0])
      else
        assert !Lists(l, id) by {
          forall i | 0 <= i < |l| ensures l[i].apiId != id {
            if i > 0 { assert l[i] == l[1..][i - 1]; }
          }
        }
        None
  }

  /** The ownership command `deleteApiById` runs. */
  function RevokeOwnership(user: string, group: Option<string>, entry: ApiWithActive): (c: Command)
    ensures !HasText(group) ==> c == DeleteApiFromUser(user, entry)
    ensures HasText(group) ==> c == DeleteApiFromGroup(group.value, entry)
  {
    if !HasText(group) then DeleteApiFromUser(user, entry) else DeleteApiFromGroup(group.value, entry)
  }

  /** The try block of `deleteApiById`. */
  function DeleteScript(w: World, env: Env, apiId: int, user: string, group: Option<string>): (r: Run)
    ensures r.stack == [] ==> r.world == w
  {
    match FindById(w, apiId, FaultOf(env.faults, FindApi))
    case Failure(e) => Stopped(w, e)
    case Success(found) =>
      if found.None? then Stopped(w, ResponseStatus(NOT_FOUND))
      else
        match UserManagement.IsUserAuthorized(w, Some(user), group, env.faults)
        case Failure(e) => Stopped(w, e)
        case Success(authorized) =>
          if !authorized then Stopped(w, ResponseStatus(FORBIDDEN))
          else
            match UserManagement.OwnedListing(w, user, group, FaultOf(env.faults, FetchOwned))
            case Failure(e) => Stopped(w, e)
            case Success(listing) =>
              var backup := LastMatch(listing, found.value.id);
              if backup.None? then Stopped(w, ResponseStatus(NOT_FOUND))
              else DeleteCommands(w, env, apiId, found.value, RevokeOwnership(user, group, backup.value))
  }

  /** The steps of `deleteApiById` after its checks: ownership first, then the
      tool if the registry has one, then the stored record. */
  function DeleteCommands(w: World, env: Env, apiId: int, api: Api, revoke: Command): (r: Run)
    ensures r.stack == [] ==> r.world == w
  {
    var r1 := Step(Run(w, [], None), revoke, FaultOf(env.faults, OwnerRemove));
    if r1.failure.Some? then r1
    else
      match ToolRegistry.GetToolWithId(r1.world, apiId, FaultOf(env.faults, ToolGet))
      case Failure(e) => r1.(failure := Some(e))
      case Success(tool) =>
        var r2 := if tool.Some? then Step(r1, DeleteMcpTool(apiId, tool.value), FaultOf(env.faults, ToolDelete)) else r1;
        Step(r2, DeleteApiFromRepository(api), FaultOf(env.faults, StoreDelete))
  }

  /** `deleteApiById(apiId, user, group)`. */
  function DeleteApiById(w: World, env: Env, apiId: int, user: Option<string>, group: Option<string>): (o: Outcome<()>)
    ensures !HasText(user) ==> o == Outcome(Failure(ServiceError), w)
  {
    if !HasText(user) then Outcome(Failure(ServiceError), w)
    else Conclude(DeleteScript(w, env, apiId, user.value, group), env.undoFaults, ())
  }

  /** `fetchApiById(apiId)`. */
  function FetchApiById(w: World, apiId: int, fault: Option<Exc>): (r: Result<Api, Exc>)
    ensures fault.None? ==> (r.Success? <==> apiId in w.apis)
    ensures r.Success? ==> apiId in w.apis && r.value == w.apis[apiId]
    ensures fault.None? && apiId !in w.apis ==> r == Failure(ServiceNotFound)
  {
    match FindById(w, apiId, fault)
    case Failure(e) => Failure(e)
    case Success(found) =>
      if found.None? then Failure(ServiceNotFound) else Success(found.value)
  }

  /** The checks `invoke` makes before calling the external API: the record must
      exist (checked outside the try block), the user may invoke, and the api is
      in the user's or group's listing. A refusal of `canInvoke` is thrown inside
      the try block and ends as `ServiceError`. */
  function InvokeGate(w: World, faults: map<Call, Exc>, apiId: int, user: Option<string>, group: Option<string>): (r: Result<Api, Exc>)
    ensures r.Success? ==> apiId in w.apis && r.value == w.apis[apiId]
    ensures FaultOf(faults, FindApi).None? && apiId !in w.apis ==> r == Failure(ServiceNotFound)
    ensures FaultOf(faults, FindApi).None? && r.Failure? ==> IsServiceException(r.error)
  {
    match FindById(w, apiId, FaultOf(faults, FindApi))
    case Failure(e) => Failure(e)
    case Success(found) =>
      if found.None? then Failure(ServiceNotFound)
      else
        match InvokeChecks(w, faults, apiId, user, group)
        case Some(e) => Failure(Classify(e))
        case None => Success(found.value)
  }

  /** The try block of `invoke`: the exception it throws, if any. */
  function InvokeChecks(w: World, faults: map<Call, Exc>, apiId: int, user: Option<string>, group: Option<string>): Option<Exc> {
    match UserManagement.CanInvoke(w, user, group, faults)
    case Failure(e) => Some(e)
    case Success(allowed) =>
      if !allowed then Some(ServiceNotAllowed)
      else
        var listing :=
          if HasText(user) then UserManagement.OwnedListing(w, user.value, group, FaultOf(faults, FetchOwned))
          else Success([]);
        match listing
        case Failure(e) => Some(e)
        case Success(l) => if Lists(l, apiId) then None else Some(ResponseStatus(NOT_FOUND))
  }
}
