/** The ownership service client: the authorization decisions, the guards on
    blank targets and the mapping of remote failures. Each remote call either
    throws the fault injected for it (mapped by the client's catch blocks, which
    are the `ClientExceptionHandler` table), or answers from the world. The
    service answers 404 for a user or group it does not know. */
module UserManagement {
  import opened Wrappers
  import opened Text
  import opened Entities
  import opened Exceptions
  import opened State

  /** `doesUserExist`: returns true or throws; it never returns false. */
  function DoesUserExist(w: World, user: string, fault: Option<Exc>): (r: Result<bool, Exc>)
    ensures r.Success? ==> r.value
    ensures fault.None? ==> (r.Success? <==> user in w.users)
  {
    if fault.Some? then Failure(ClientHandle(fault.value))
    else if user in w.users then Success(true)
    else Failure(ClientHandle(HttpClientError(NOT_FOUND)))
  }

  /** `doesGroupExist`: returns true or throws; it never returns false. */
  function DoesGroupExist(w: World, group: string, fault: Option<Exc>): (r: Result<bool, Exc>)
    ensures r.Success? ==> r.value
    ensures fault.None? ==> (r.Success? <==> group in w.groups)
  {
    if fault.Some? then Failure(ClientHandle(fault.value))
    else if group in w.groups then Success(true)
    else Failure(ClientHandle(HttpClientError(NOT_FOUND)))
  }

  /** The member list of `group` (the `/groups/{group}/users` call). */
  function GroupMembers(w: World, group: string, fault: Option<Exc>): (r: Result<seq<UserWithRole>, Exc>)
    ensures r.Failure? ==> IsClientException(r.error)
    ensures r.Success? <==> fault.None? && group in w.groups
    ensures r.Success? ==> r.value == w.groups[group]
    ensures fault.None? && group !in w.groups ==> r == Failure(ClientNotFound)
  {
    if fault.Some? then Failure(ClientHandle(fault.value))
    else if group in w.groups then Success(w.groups[group])
    else Failure(ClientHandle(HttpClientError(NOT_FOUND)))
  }

  predicate EditsApis(m: UserWithRole, user: string) {
    m.username == Some(user) && (m.groupRole == Some("Editor") || m.groupRole == Some("Admin"))
  }

  predicate IsMember(m: UserWithRole, user: string) {
    m.username == Some(user)
  }

  /** The scan of `isUserAuthorized`: stops at the first member named `user`
      whose role is exactly "Editor" or "Admin". */
  function ScanForEditor(members: seq<UserWithRole>, user: string): (found: bool)
    ensures found <==> exists i | 0 <= i < |members| :: EditsApis(members[i], user)
    decreases |members|
  {
    if members == [] then false
    else if EditsApis(members[0], user) then true
    else
      var found := ScanForEditor(members[1..], user);
      assert found ==> exists i | 0 <= i < |members| :: EditsApis(members[i], user) by {
        if found {
          var i :| 0 <= i < |members[1..]| && EditsApis(members[1..][i], user);
          assert members[1..][i] == members[i + 1];
        }
      }
      assert (exists i | 0 <= i < |members| :: EditsApis(members[i], user)) ==> found by {
        if exists i | 0 <= i < |members| :: EditsApis(members[i], user) {
          var i :| 0 <= i < |members| && EditsApis(members[i], user);
          assert i != 0;
          assert members[1..][i - 1] == members[i];
        }
      }
      found
  }

  /** The scan of `canInvoke`: stops at the first member named `user`, whatever
      the role. */
  function ScanForMember(members: seq<UserWithRole>, user: string): (found: bool)
    ensures found <==> exists i | 0 <= i < |members| :: IsMember(members[i], user)
    decreases |members|
  {
    if members == [] then false
    else if IsMember(members[0], user) then true
    else
      var found := ScanForMember(members[1..], user);
      assert found ==> exists i | 0 <= i < |members| :: IsMember(members[i], user) by {
        if found {
          var i :| 0 <= i < |members[1..]| && IsMember(members[1..][i], user);
          assert members[1..][i] == members[i + 1];
        }
      }
      assert (exists i | 0 <= i < |members| :: IsMember(members[i], user)) ==> found by {
        if exists i | 0 <= i < |members| :: IsMember(members[i], user) {
          var i :| 0 <= i < |members| && IsMember(members[i], user);
          assert i != 0;
          assert members[1..][i - 1] == members[i];
        }
      }
      found
  }

  /** `isUserAuthorized(user, group)`. */
  function IsUserAuthorized(w: World, user: Option<string>, group: Option<string>, faults: map<Call, Exc>): (r: Result<bool, Exc>)
    ensures !HasText(user) ==> r == Failure(ClientError)
  {
    if !HasText(user) then Failure(ClientError)
    else match DoesUserExist(w, user.value, FaultOf(faults, CheckUser))
      case Failure(e) => Failure(e)
      case Success(exists_) =>
        if !exists_ then Failure(ClientNotFound)
        else if !HasText(group) then Success(true)
        else match DoesGroupExist(w, group.value, FaultOf(faults, CheckGroup))
          case Failure(e) => Failure(e)
          case Success(groupExists) =>
            if !groupExists then Failure(ClientNotFound)
            else match GroupMembers(w, group.value, FaultOf(faults, FetchMembers))
              case Failure(e) => Failure(e)
              case Success(members) => Success(ScanForEditor(members, user.value))
  }

  /** `canInvoke(user, group)`. Its `HttpClientErrorException(404)` branch for a
      missing group is kept, though `doesGroupExist` never returns false. */
  function CanInvoke(w: World, user: Option<string>, group: Option<string>, faults: map<Call, Exc>): (r: Result<bool, Exc>)
    ensures !HasText(user) ==> r == Failure(ClientError)
  {
    if !HasText(user) then Failure(ClientError)
    else match DoesUserExist(w, user.value, FaultOf(faults, CheckUser))
      case Failure(e) => Failure(e)
      case Success(exists_) =>
        if !exists_ then Failure(ClientNotFound)
        else if !HasText(group) then Success(true)
        else match DoesGroupExist(w, group.value, FaultOf(faults, CheckGroup))
          case Failure(e) => Failure(e)
          case Success(groupExists) =>
            if !groupExists then Failure(HttpClientError(NOT_FOUND))
            else match GroupMembers(w, group.value, FaultOf(faults, FetchMembers))
              case Failure(e) => Failure(e)
              case Success(members) => Success(ScanForMember(members, user.value))
  }

  /** With a group named, authorization holds exactly when the user is listed in
      it with role "Editor" or "Admin"; without one, as soon as the user exists. */
  lemma AuthorizationDecision(w: World, user: string, group: Option<string>)
    requires HasText(Some(user)) && user in w.users
    ensures !HasText(group) ==> IsUserAuthorized(w, Some(user), group, map[]) == Success(true)
    ensures HasText(group) && group.value in w.groups ==>
      IsUserAuthorized(w, Some(user), group, map[]) ==
        Success(exists i | 0 <= i < |w.groups[group.value]| :: EditsApis(w.groups[group.value][i], user))
    ensures HasText(group) && group.value !in w.groups ==>
      IsUserAuthorized(w, Some(user), group, map[]) == Failure(ClientNotFound)
  {
  }

  /** With a group named, invoking is allowed exactly when the user is listed in it,
      whatever the role. */
  lemma InvokeDecision(w: World, user: string, group: Option<string>)
    requires HasText(Some(user)) && user in w.users
    ensures !HasText(group) ==> CanInvoke(w, Some(user), group, map[]) == Success(true)
    ensures HasText(group) && group.value in w.groups ==>
      CanInvoke(w, Some(user), group, map[]) ==
        Success(exists i | 0 <= i < |w.groups[group.value]| :: IsMember(w.groups[group.value][i], user))
  {
  }

  /** Whoever may change a group's APIs may also invoke them: on the same world and
      the same faults, `isUserAuthorized` answering true implies `canInvoke` does. */
  lemma AuthorizedImpliesCanInvoke(w: World, user: Option<string>, group: Option<string>, faults: map<Call, Exc>)
    requires IsUserAuthorized(w, user, group, faults) == Success(true)
    ensures CanInvoke(w, user, group, faults) == Success(true)
  {
    if HasText(user) && HasText(group) {
      var members := w.groups[group.value];
      var i :| 0 <= i < |members| && EditsApis(members[i], user.value);
      assert IsMember(members[i], user.value);
    }
  }

  /** A missing group surfaces as `ClientNotFound` from both checks: the
      `HttpClientErrorException(404)` that `canInvoke` means to raise is never
      reached, because `doesGroupExist` throws before returning false. */
  lemma MissingGroupIsClientNotFound(w: World, user: string, group: string)
    requires HasText(Some(user)) && user in w.users
    requires HasText(Some(group)) && group !in w.groups
    ensures IsUserAuthorized(w, Some(user), Some(group), map[]) == Failure(ClientNotFound)
    ensures CanInvoke(w, Some(user), Some(group), map[]) == Failure(ClientNotFound)
  {
  }

  /** `getApisOfUser` / `getApisOfGroup`: the listing of the group when one is
      named, of the user otherwise. */
  function OwnedListing(w: World, user: string, group: Option<string>, fault: Option<Exc>): (r: Result<seq<ApiWithActive>, Exc>)
    ensures fault.Some? <==> r.Failure?
    ensures r.Failure? ==> IsClientException(r.error)
    ensures r.Success? && HasText(group) ==> r.value == Listing(w.groupApis, group.value)
    ensures r.Success? && !HasText(group) ==> r.value == Listing(w.userApis, user)
  {
    if fault.Some? then Failure(ClientHandle(fault.value))
    else if !HasText(group) then Success(Listing(w.userApis, user))
    else Success(Listing(w.groupApis, group.value))
  }

  /** The guard shared by `addApiToGroup`, `addApiToUser`, `deleteApiFromGroup`
      and `deleteApiFromUser`: a blank target is rejected before any remote call. */
  function TargetGuard(target: string, message: string): (r: Option<Exc>)
    ensures r.Some? <==> !HasText(Some(target))
    ensures r.Some? ==> r.value == IllegalArgument(message)
  {
    if !HasText(Some(target)) then Some(IllegalArgument(message)) else None
  }

  /** `addApiToUser(user, entry)`. */
  function AddApiToUser(w: World, user: string, entry: ApiWithActive, fault: Option<Exc>): (r: Result<World, Exc>)
    ensures !HasText(Some(user)) ==> r == Failure(IllegalArgument("User cannot be empty"))
    ensures r.Success? <==> HasText(Some(user)) && fault.None?
    ensures r.Success? ==> r.value == w.(userApis := AddOwned(w.userApis, user, entry))
  {
    match TargetGuard(user, "User cannot be empty")
    case Some(e) => Failure(e)
    case None =>
      if fault.Some? then Failure(ClientHandle(fault.value))
      else Success(w.(userApis := AddOwned(w.userApis, user, entry)))
  }

  /** `addApiToGroup(group, entry)`. */
  function AddApiToGroup(w: World, group: string, entry: ApiWithActive, fault: Option<Exc>): (r: Result<World, Exc>)
    ensures !HasText(Some(group)) ==> r == Failure(IllegalArgument("Group cannot be empty"))
    ensures r.Success? <==> HasText(Some(group)) && fault.None?
    ensures r.Success? ==> r.value == w.(groupApis := AddOwned(w.groupApis, group, entry))
  {
    match TargetGuard(group, "Group cannot be empty")
    case Some(e) => Failure(e)
    case None =>
      if fault.Some? then Failure(ClientHandle(fault.value))
      else Success(w.(groupApis := AddOwned(w.groupApis, group, entry)))
  }

  /** `deleteApiFromUser(user, apiId)`. */
  function DeleteApiFromUser(w: World, user: string, apiId: int, fault: Option<Exc>): (r: Result<World, Exc>)
    ensures !HasText(Some(user)) ==> r == Failure(IllegalArgument("User cannot be empty"))
    ensures r.Success? <==> HasText(Some(user)) && fault.None?
    ensures r.Success? ==> r.value == w.(userApis := RemoveOwned(w.userApis, user, apiId))
  {
    match TargetGuard(user, "User cannot be empty")
    case Some(e) => Failure(e)
    case None =>
      if fault.Some? then Failure(ClientHandle(fault.value))
      else Success(w.(userApis := RemoveOwned(w.userApis, user, apiId)))
  }

  /** `deleteApiFromGroup(group, apiId)`. */
  function DeleteApiFromGroup(w: World, group: string, apiId: int, fault: Option<Exc>): (r: Result<World, Exc>)
    ensures !HasText(Some(group)) ==> r == Failure(IllegalArgument("Group cannot be empty"))
    ensures r.Success? <==> HasText(Some(group)) && fault.None?
    ensures r.Success? ==> r.value == w.(groupApis := RemoveOwned(w.groupApis, group, apiId))
  {
    match TargetGuard(group, "Group cannot be empty")
    case Some(e) => Failure(e)
    case None =>
      if fault.Some? then Failure(ClientHandle(fault.value))
      else Success(w.(groupApis := RemoveOwned(w.groupApis, group, apiId)))
  }
}
