/** The nine reversible commands, one constructor each. `Execute` and `Undo` are
    the state transformers a successful call performs; `TryExecute` and `TryUndo`
    add what can go wrong: the client's guard on a blank target and the fault
    injected for the remote or storage call. Only `UpdateApiInRepository` changes
    while executing: it captures the stored record as its backup. */
module Commands {
  import opened Wrappers
  import opened Text
  import opened Entities
  import opened Exceptions
  import opened State
  import UserManagement
  import ToolRegistry

  datatype Command =
    | SaveApiToRepository(api: Api)
    | UpdateApiInRepository(apiId: int, newApi: Api, backup: Option<Api>)
    | DeleteApiFromRepository(api: Api)
    | AddApiToUser(user: string, entry: ApiWithActive)
    | DeleteApiFromUser(user: string, entry: ApiWithActive)
    | AddApiToGroup(group: string, entry: ApiWithActive)
    | DeleteApiFromGroup(group: string, entry: ApiWithActive)
    | AddOrUpdateMcpTool(definition: ToolDefinition, toolId: int)
    | DeleteMcpTool(toolId: int, definition: ToolDefinition)

  /** `updateIfNotBlank`: the new value when it has text, the old one otherwise. */
  function IfNotBlank(newValue: Option<string>, current: Option<string>): (r: Option<string>)
    ensures HasText(newValue) ==> r == newValue
    ensures !HasText(newValue) ==> r == current
  {
    if HasText(newValue) then newValue else current
  }

  /** `updateIfNotNull`: the new value when it is not null, even if blank. */
  function IfNotNull(newValue: Option<string>, current: Option<string>): (r: Option<string>)
    ensures newValue.Some? ==> r == newValue
    ensures newValue.None? ==> r == current
  {
    if newValue.Some? then newValue else current
  }

  /** The field-by-field merge of `UpdateApiInRepositoryCommand.execute`: five
      fields are taken from the partial record only when it has text for them, the
      spec whenever it is not null, and the id and file type are never taken. */
  function Merge(stored: Api, partial: Api): (r: Api)
    ensures r.id == stored.id && r.fileType == stored.fileType
    ensures HasText(partial.name) ==> r.name == partial.name
    ensures !HasText(partial.name) ==> r.name == stored.name
    ensures HasText(partial.description) ==> r.description == partial.description
    ensures !HasText(partial.description) ==> r.description == stored.description
    ensures HasText(partial.version) ==> r.version == partial.version
    ensures !HasText(partial.version) ==> r.version == stored.version
    ensures HasText(partial.format) ==> r.format == partial.format
    ensures !HasText(partial.format) ==> r.format == stored.format
    ensures partial.spec.Some? ==> r.spec == partial.spec
    ensures partial.spec.None? ==> r.spec == stored.spec
    ensures HasText(partial.token) ==> r.token == partial.token
    ensures !HasText(partial.token) ==> r.token == stored.token
  {
    stored.(
      name := IfNotBlank(partial.name, stored.name),
      description := IfNotBlank(partial.description, stored.description),
      version := IfNotBlank(partial.version, stored.version),
      format := IfNotBlank(partial.format, stored.format),
      spec := IfNotNull(partial.spec, stored.spec),
      token := IfNotBlank(partial.token, stored.token))
  }

  /** Applying the same partial update twice gives the record applying it once
      gives. */
  lemma MergeIdempotent(stored: Api, partial: Api)
    ensures Merge(Merge(stored, partial), partial) == Merge(stored, partial)
  {
  }

  /** A partial record with every field null changes nothing. */
  lemma MergeEmptyIsIdentity(stored: Api, id: int, fileType: Option<string>)
    ensures Merge(stored, Api(id, None, None, None, None, fileType, None, None)) == stored
  {
  }

  /** What a successful `execute()` does to the world, and the command as it is
      afterwards (pushed onto the stack). */
  function Execute(c: Command, w: World): (World, Command) {
    match c
    case SaveApiToRepository(api) => (w.(apis := Save(w.apis, api)), c)
    case UpdateApiInRepository(apiId, newApi, _) =>
      (match Find(w.apis, apiId)
       case None => (w, c)
       case Some(stored) =>
         (w.(apis := Save(w.apis, Merge(stored, newApi))), c.(backup := Some(stored))))
    case DeleteApiFromRepository(api) => (w.(apis := Delete(w.apis, api)), c)
    case AddApiToUser(user, entry) => (w.(userApis := AddOwned(w.userApis, user, entry)), c)
    case DeleteApiFromUser(user, entry) => (w.(userApis := RemoveOwned(w.userApis, user, entry.apiId)), c)
    case AddApiToGroup(group, entry) => (w.(groupApis := AddOwned(w.groupApis, group, entry)), c)
    case DeleteApiFromGroup(group, entry) => (w.(groupApis := RemoveOwned(w.groupApis, group, entry.apiId)), c)
    case AddOrUpdateMcpTool(definition, toolId) => (w.(tools := w.tools[toolId := definition]), c)
    case DeleteMcpTool(toolId, _) => (w.(tools := w.tools - {toolId}), c)
  }

  /** What a successful `undo()` does to the world. */
  function Undo(c: Command, w: World): World {
    match c
    case SaveApiToRepository(api) => w.(apis := Delete(w.apis, api))
    case UpdateApiInRepository(_, _, backup) =>
      if backup.Some? then w.(apis := Save(w.apis, backup.value)) else w
    case DeleteApiFromRepository(api) => w.(apis := Save(w.apis, api))
    case AddApiToUser(user, entry) => w.(userApis := RemoveOwned(w.userApis, user, entry.apiId))
    case DeleteApiFromUser(user, entry) => w.(userApis := AddOwned(w.userApis, user, entry))
    case AddApiToGroup(group, entry) => w.(groupApis := RemoveOwned(w.groupApis, group, entry.apiId))
    case DeleteApiFromGroup(group, entry) => w.(groupApis := AddOwned(w.groupApis, group, entry))
    case AddOrUpdateMcpTool(_, toolId) => w.(tools := w.tools - {toolId})
    case DeleteMcpTool(toolId, definition) => w.(tools := w.tools[toolId := definition])
  }

  /** The user or group a command names has text, so the client's guard lets it
      through. Repository and registry commands have no such guard. */
  predicate TargetOk(c: Command) {
    match c
    case AddApiToUser(user, _) => HasText(Some(user))
    case DeleteApiFromUser(user, _) => HasText(Some(user))
    case AddApiToGroup(group, _) => HasText(Some(group))
    case DeleteApiFromGroup(group, _) => HasText(Some(group))
    case _ => true
  }

  /** `undo()` of an update whose `execute()` found no record makes no call. */
  predicate UndoCalls(c: Command) {
    !(c.UpdateApiInRepository? && c.backup.None?)
  }

  /** `execute()` with the fault injected for its call. Repository failures pass
      through unchanged; client failures arrive mapped by the client. */
  function TryExecute(c: Command, w: World, fault: Option<Exc>): (r: Result<(World, Command), Exc>)
    ensures r.Success? <==> TargetOk(c) && fault.None?
    ensures r.Success? ==> r.value == Execute(c, w)
    ensures r.Failure? && TargetOk(c) && (c.AddOrUpdateMcpTool? || c.DeleteMcpTool?) ==> IsClientException(r.error)
  {
    match c
    case AddApiToUser(user, entry) =>
      (match UserManagement.AddApiToUser(w, user, entry, fault)
       case Failure(e) => Failure(e)
       case Success(w') => Success((w', c)))
    case DeleteApiFromUser(user, entry) =>
      (match UserManagement.DeleteApiFromUser(w, user, entry.apiId, fault)
       case Failure(e) => Failure(e)
       case Success(w') => Success((w', c)))
    case AddApiToGroup(group, entry) =>
      (match UserManagement.AddApiToGroup(w, group, entry, fault)
       case Failure(e) => Failure(e)
       case Success(w') => Success((w', c)))
    case DeleteApiFromGroup(group, entry) =>
      (match UserManagement.DeleteApiFromGroup(w, group, entry.apiId, fault)
       case Failure(e) => Failure(e)
       case Success(w') => Success((w', c)))
    case AddOrUpdateMcpTool(definition, toolId) =>
      (match ToolRegistry.AddOrUpdateTool(w, toolId, definition, fault)
       case Failure(e) => Failure(e)
       case Success(w') => Success((w', c)))
    case DeleteMcpTool(toolId, _) =>
      (match ToolRegistry.DeleteTool(w, toolId, fault)
       case Failure(e) => Failure(e)
       case Success(w') => Success((w', c)))
    case _ =>
      if fault.Some? then Failure(fault.value) else Success(Execute(c, w))
  }

  /** `undo()` with the fault injected for its call. */
  function TryUndo(c: Command, w: World, fault: Option<Exc>): (r: Result<World, Exc>)
    ensures r.Success? <==> TargetOk(c) && (fault.None? || !UndoCalls(c))
    ensures r.Success? ==> r.value == Undo(c, w)
  {
    match c
    case AddApiToUser(user, entry) => UserManagement.DeleteApiFromUser(w, user, entry.apiId, fault)
    case DeleteApiFromUser(user, entry) => UserManagement.AddApiToUser(w, user, entry, fault)
    case AddApiToGroup(group, entry) => UserManagement.DeleteApiFromGroup(w, group, entry.apiId, fault)
    case DeleteApiFromGroup(group, entry) => UserManagement.AddApiToGroup(w, group, entry, fault)
    case AddOrUpdateMcpTool(_, toolId) => ToolRegistry.DeleteTool(w, toolId, fault)
    case DeleteMcpTool(toolId, definition) => ToolRegistry.AddOrUpdateTool(w, toolId, definition, fault)
    case UpdateApiInRepository(_, _, backup) =>
      if backup.None? then Success(w)
      else if fault.Some? then Failure(fault.value)
      else Success(Undo(c, w))
    case _ =>
      if fault.Some? then Failure(fault.value) else Success(Undo(c, w))
  }

  /** The part of the world a command touches. */
  datatype Part = Store | UserListings | GroupListings | Registry

  function Footprint(c: Command): Part {
    match c
    case SaveApiToRepository(_) => Store
    case UpdateApiInRepository(_, _, _) => Store
    case DeleteApiFromRepository(_) => Store
    case AddApiToUser(_, _) => UserListings
    case DeleteApiFromUser(_, _) => UserListings
    case AddApiToGroup(_, _) => GroupListings
    case DeleteApiFromGroup(_, _) => GroupListings
    case AddOrUpdateMcpTool(_, _) => Registry
    case DeleteMcpTool(_, _) => Registry
  }

  /** `a` and `b` agree on everything but `p`. */
  predicate AgreeOutside(a: World, b: World, p: Part) {
    && (p != Store ==> a.apis == b.apis)
    && (p != UserListings ==> a.userApis == b.userApis)
    && (p != GroupListings ==> a.groupApis == b.groupApis)
    && (p != Registry ==> a.tools == b.tools)
    && a.users == b.users && a.groups == b.groups
  }

  /** Every command's execute and undo change only its own part of the world. */
  lemma Frame(c: Command, w: World)
    ensures AgreeOutside(Execute(c, w).0, w, Footprint(c))
    ensures AgreeOutside(Undo(c, w), w, Footprint(c))
  {
  }

  // ---- SaveApiToRepositoryCommand ----

  /** `execute` stores the api under its id and `undo` deletes that id; no other
      record is touched by either. */
  lemma SaveApiToRepositoryEffect(api: Api, w: World)
    ensures var w1 := Execute(SaveApiToRepository(api), w).0;
      && api.id in w1.apis && w1.apis[api.id] == api
      && api.id !in Undo(SaveApiToRepository(api), w1).apis
      && forall k | k != api.id ::
           (k in w1.apis <==> k in w.apis) && (k in w1.apis ==> w1.apis[k] == w.apis[k])
           && (k in Undo(SaveApiToRepository(api), w1).apis <==> k in w.apis)
  {
  }

  /** Saving an api whose id was free and undoing it restores the store. */
  lemma SaveApiToRepositoryRoundTrip(api: Api, w: World)
    requires api.id !in w.apis
    ensures var p := Execute(SaveApiToRepository(api), w); Undo(p.1, p.0) == w
  {
    var p := Execute(SaveApiToRepository(api), w);
    assert Undo(p.1, p.0).apis == w.apis;
  }

  // ---- DeleteApiFromRepositoryCommand ----

  /** `execute` removes the captured api's id and `undo` saves the captured api
      back; no other record is touched by either. */
  lemma DeleteApiFromRepositoryEffect(api: Api, w: World)
    ensures var w1 := Execute(DeleteApiFromRepository(api), w).0;
      && api.id !in w1.apis
      && var w2 := Undo(DeleteApiFromRepository(api), w1);
      && api.id in w2.apis && w2.apis[api.id] == api
      && forall k | k != api.id ::
           (k in w2.apis <==> k in w.apis) && (k in w2.apis ==> w2.apis[k] == w.apis[k])
  {
  }

  /** Deleting the record the store holds and undoing it restores the store. */
  lemma DeleteApiFromRepositoryRoundTrip(api: Api, w: World)
    requires api.id in w.apis && w.apis[api.id] == api
    ensures var p := Execute(DeleteApiFromRepository(api), w); Undo(p.1, p.0) == w
  {
    var p := Execute(DeleteApiFromRepository(api), w);
    assert Undo(p.1, p.0).apis == w.apis;
  }

  // ---- UpdateApiInRepositoryCommand ----

  /** When the id is stored, the backup is the record as it was before any field
      changed, and the merged record replaces it. */
  lemma UpdateApiInRepositoryBackup(apiId: int, newApi: Api, backup: Option<Api>, w: World)
    requires apiId in w.apis
    requires w.apis[apiId].id == apiId
    ensures var p := Execute(UpdateApiInRepository(apiId, newApi, backup), w);
      && p.1.backup == Some(w.apis[apiId])
      && p.0.apis == w.apis[apiId := Merge(w.apis[apiId], newApi)]
  {
  }

  /** When the id is absent, `execute` changes nothing and the following `undo`
      changes nothing either. */
  lemma UpdateApiInRepositoryAbsent(apiId: int, newApi: Api, w: World)
    requires apiId !in w.apis
    ensures var p := Execute(UpdateApiInRepository(apiId, newApi, None), w);
      && p.0 == w && p.1.backup.None? && Undo(p.1, p.0) == w
      && TryUndo(p.1, p.0, Some(Unexpected)) == Success(w)
  {
  }

  /** `execute` then `undo` restores the exact pre-update record. */
  lemma UpdateApiInRepositoryRoundTrip(apiId: int, newApi: Api, w: World)
    requires apiId in w.apis ==> w.apis[apiId].id == apiId
    ensures var p := Execute(UpdateApiInRepository(apiId, newApi, None), w); Undo(p.1, p.0) == w
  {
    var p := Execute(UpdateApiInRepository(apiId, newApi, None), w);
    if apiId in w.apis {
      assert Undo(p.1, p.0).apis == w.apis;
    }
  }

  /** Executing the same update twice stores what executing it once stores. */
  lemma UpdateApiInRepositoryIdempotent(apiId: int, newApi: Api, w: World)
    requires apiId in w.apis ==> w.apis[apiId].id == apiId
    ensures var once := Execute(UpdateApiInRepository(apiId, newApi, None), w).0;
      Execute(UpdateApiInRepository(apiId, newApi, None), once).0 == once
  {
    if apiId in w.apis {
      MergeIdempotent(w.apis[apiId], newApi);
    }
  }

  // ---- ownership listings ----

  lemma AppendThenRemove(m: map<string, seq<ApiWithActive>>, owner: string, entry: ApiWithActive)
    requires !Lists(Listing(m, owner), entry.apiId)
    ensures SameListings(RemoveOwned(AddOwned(m, owner, entry), owner, entry.apiId), m)
  {
    var l := Listing(m, owner);
    WithoutAppend(l, [entry], entry.apiId);
    WithoutAbsent(l, entry.apiId);
    assert Without([entry], entry.apiId) == [];
  }

  lemma RemoveThenAppend(m: map<string, seq<ApiWithActive>>, owner: string, entry: ApiWithActive)
    requires entry in Listing(m, owner)
    requires forall e | e in Listing(m, owner) && e.apiId == entry.apiId :: e == entry
    ensures SameListingsAsSets(AddOwned(RemoveOwned(m, owner, entry.apiId), owner, entry), m, owner)
  {
    var l := Listing(m, owner);
    var after := Listing(AddOwned(RemoveOwned(m, owner, entry.apiId), owner, entry), owner);
    assert after == Without(l, entry.apiId) + [entry];
    assert Elements(after) == Elements(l) by {
      forall e | e in Elements(l) ensures e in Elements(after) {
        if e.apiId != entry.apiId {
          assert e in Without(l, entry.apiId);
        }
      }
    }
  }

  /** `execute` appends the record to the user's listing and `undo` removes the
      user's entries for its api id; other users and all groups are untouched. */
  lemma AddApiToUserEffect(user: string, entry: ApiWithActive, w: World)
    ensures var w1 := Execute(AddApiToUser(user, entry), w).0;
      && Listing(w1.userApis, user) == Listing(w.userApis, user) + [entry]
      && !Lists(Listing(Undo(AddApiToUser(user, entry), w1).userApis, user), entry.apiId)
      && (forall k | k != user :: Listing(w1.userApis, k) == Listing(w.userApis, k))
      && w1.groupApis == w.groupApis
  {
    var w1 := Execute(AddApiToUser(user, entry), w).0;
    WithoutLists(Listing(w1.userApis, user), entry.apiId);
  }

  /** Adding an api the user did not list and undoing it restores the listings. */
  lemma AddApiToUserRoundTrip(user: string, entry: ApiWithActive, w: World)
    requires !Lists(Listing(w.userApis, user), entry.apiId)
    ensures var p := Execute(AddApiToUser(user, entry), w);
      Equivalent(Undo(p.1, p.0), w)
  {
    AppendThenRemove(w.userApis, user, entry);
  }

  /** `execute` drops the user's entries for the api id and `undo` appends the
      captured record, active flag included; other users and all groups are
      untouched. */
  lemma DeleteApiFromUserEffect(user: string, entry: ApiWithActive, w: World)
    ensures var w1 := Execute(DeleteApiFromUser(user, entry), w).0;
      && !Lists(Listing(w1.userApis, user), entry.apiId)
      && Listing(Undo(DeleteApiFromUser(user, entry), w1).userApis, user) == Listing(w1.userApis, user) + [entry]
      && (forall k | k != user :: Listing(w1.userApis, k) == Listing(w.userApis, k))
      && w1.groupApis == w.groupApis
  {
    WithoutLists(Listing(w.userApis, user), entry.apiId);
  }

  /** When the captured record is the user's entry for its api id, deleting and
      undoing restores the user's listing as a set. */
  lemma DeleteApiFromUserRoundTrip(user: string, entry: ApiWithActive, w: World)
    requires entry in Listing(w.userApis, user)
    requires forall e | e in Listing(w.userApis, user) && e.apiId == entry.apiId :: e == entry
    ensures var p := Execute(DeleteApiFromUser(user, entry), w); var w2 := Undo(p.1, p.0);
      SameListingsAsSets(w2.userApis, w.userApis, user) && w2.groupApis == w.groupApis
      && w2.apis == w.apis && w2.tools == w.tools
  {
    RemoveThenAppend(w.userApis, user, entry);
  }

  /** `execute` appends the record to the group's listing and `undo` removes the
      group's entries for its api id; other groups and all users are untouched. */
  lemma AddApiToGroupEffect(group: string, entry: ApiWithActive, w: World)
    ensures var w1 := Execute(AddApiToGroup(group, entry), w).0;
      && Listing(w1.groupApis, group) == Listing(w.groupApis, group) + [entry]
      && !Lists(Listing(Undo(AddApiToGroup(group, entry), w1).groupApis, group), entry.apiId)
      && (forall k | k != group :: Listing(w1.groupApis, k) == Listing(w.groupApis, k))
      && w1.userApis == w.userApis
  {
    var w1 := Execute(AddApiToGroup(group, entry), w).0;
    WithoutLists(Listing(w1.groupApis, group), entry.apiId);
  }

  /** Adding an api the group did not list and undoing it restores the listings. */
  lemma AddApiToGroupRoundTrip(group: string, entry: ApiWithActive, w: World)
    requires !Lists(Listing(w.groupApis, group), entry.apiId)
    ensures var p := Execute(AddApiToGroup(group, entry), w);
      Equivalent(Undo(p.1, p.0), w)
  {
    AppendThenRemove(w.groupApis, group, entry);
  }

  /** `execute` drops the group's entries for the api id and `undo` appends the
      captured record, active flag included; other groups and all users are
      untouched. */
  lemma DeleteApiFromGroupEffect(group: string, entry: ApiWithActive, w: World)
    ensures var w1 := Execute(DeleteApiFromGroup(group, entry), w).0;
      && !Lists(Listing(w1.groupApis, group), entry.apiId)
      && Listing(Undo(DeleteApiFromGroup(group, entry), w1).groupApis, group) == Listing(w1.groupApis, group) + [entry]
      && (forall k | k != group :: Listing(w1.groupApis, k) == Listing(w.groupApis, k))
      && w1.userApis == w.userApis
  {
    WithoutLists(Listing(w.groupApis, group), entry.apiId);
  }

  /** When the captured record is the group's entry for its api id, deleting and
      undoing restores the group's listing as a set. */
  lemma DeleteApiFromGroupRoundTrip(group: string, entry: ApiWithActive, w: World)
    requires entry in Listing(w.groupApis, group)
    requires forall e | e in Listing(w.groupApis, group) && e.apiId == entry.apiId :: e == entry
    ensures var p := Execute(DeleteApiFromGroup(group, entry), w); var w2 := Undo(p.1, p.0);
      SameListingsAsSets(w2.groupApis, w.groupApis, group) && w2.userApis == w.userApis
      && w2.apis == w.apis && w2.tools == w.tools
  {
    RemoveThenAppend(w.groupApis, group, entry);
  }

  // ---- tool registry ----

  /** `execute` upserts the definition under the id; `undo` deletes whatever is
      there, so a definition that existed before is not restored. Other ids are
      untouched. */
  lemma AddOrUpdateMcpToolEffect(definition: ToolDefinition, toolId: int, w: World)
    ensures var p := Execute(AddOrUpdateMcpTool(definition, toolId), w); var w2 := Undo(p.1, p.0);
      && toolId in p.0.tools && p.0.tools[toolId] == definition
      && toolId !in w2.tools
      && forall k | k != toolId ::
           (k in w2.tools <==> k in w.tools) && (k in w2.tools ==> w2.tools[k] == w.tools[k])
  {
  }

  /** Upserting under a free id and undoing restores the registry; under an
      occupied id the previous definition is lost. */
  lemma AddOrUpdateMcpToolRoundTrip(definition: ToolDefinition, toolId: int, w: World)
    ensures var p := Execute(AddOrUpdateMcpTool(definition, toolId), w);
      (Undo(p.1, p.0) == w <==> toolId !in w.tools)
  {
    var p := Execute(AddOrUpdateMcpTool(definition, toolId), w);
    if toolId !in w.tools {
      assert Undo(p.1, p.0).tools == w.tools;
    } else {
      assert toolId !in Undo(p.1, p.0).tools;
    }
  }

  /** `execute` deletes the tool under the id and `undo` upserts the captured
      definition there again; other ids are untouched. */
  lemma DeleteMcpToolEffect(toolId: int, definition: ToolDefinition, w: World)
    ensures var p := Execute(DeleteMcpTool(toolId, definition), w); var w2 := Undo(p.1, p.0);
      && toolId !in p.0.tools
      && toolId in w2.tools && w2.tools[toolId] == definition
      && forall k | k != toolId ::
           (k in w2.tools <==> k in w.tools) && (k in w2.tools ==> w2.tools[k] == w.tools[k])
  {
  }

  /** Deleting the definition the registry holds and undoing restores it. */
  lemma DeleteMcpToolRoundTrip(toolId: int, definition: ToolDefinition, w: World)
    requires toolId in w.tools && w.tools[toolId] == definition
    ensures var p := Execute(DeleteMcpTool(toolId, definition), w); Undo(p.1, p.0) == w
  {
    var p := Execute(DeleteMcpTool(toolId, definition), w);
    assert Undo(p.1, p.0).tools == w.tools;
  }
}
