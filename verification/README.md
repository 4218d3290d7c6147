# ApiManagement core in Dafny

This project models the core of the ApiManagement service. The service stores API descriptions, records which user or group owns each API, and registers MCP tools generated from their specifications. Three public operations change the world: `saveApi`, `updateApi` and `deleteApiById`. Each one runs a sequence of reversible commands. If any step throws, the commands already completed are undone (rolled back) and the exception is translated into a service exception. A fourth operation, `invoke`, checks that a user may call an API before the outbound HTTP request is made. That request is built by `ExternalApiClient`.

The model is purely functional:

- **`World`** holds the state. It has the API repository (a map from id to `Api`), the user and group ownership listings, the MCP tool registry, and the directory of known users and groups.
- **`Env`** holds the environment. It has the id the repository assigns to a new API, the remote calls that throw (`faults`, keyed by call), and the rollback positions whose `undo` throws (`undoFaults`). Every remote failure, clock or network effect is one of these parameters.

Modules:

- `Wrappers`: `Option` and `Result`.
- `Text`: `StringUtils.hasText` over `Character.isWhitespace`, `String.replace`, split and join.
- `Entities`: the records `Api`, `ApiWithActive`, `UserWithRole`, `ToolDefinition` and `InvokeQuery`.
- `Exceptions`: the exception kinds, `ClientExceptionHandler` and `ServiceExceptionHandler`.
- `State`: the world, the repository operations and the ownership listings.
- `UserManagement`: the `UserManagementClient` decisions (`isUserAuthorized`, `canInvoke`) and its guarded remote calls.
- `Spec2Tool`: the local validation of `Spec2ToolClient.convertSpec2Tool`.
- `ToolRegistry`: the `McpManagementClient` calls.
- `Commands`: the nine reversible commands, with `execute`/`undo` and their footprints.
- `UrlEncoding`: `URLEncoder.encode` with UTF-8, and a decoder used to state the round trip.
- `ExternalApi`: `formatPath`, the bearer header, the method map and the request that `sendRequest` builds.
- `ApiService`: the orchestration of `ApiServiceImpl`, including the command stack, `rollback`, `handleFailure` and the exception translation.
- `ServiceProperties`: the all-inputs lemmas about the service:
  - a success happens exactly when its calls succeed;
  - what a success changes;
  - a failure restores the world;
  - save, update and delete each relate to fetch;
  - the invoke gate.

Behaviours of the code worth noting:

- `rollback` iterates a `java.util.Stack` from bottom to top, so commands are undone in the order they completed. `ServiceProperties.ReverseOrderAgrees` shows that both orders give the same world when the commands touch different parts of it. `ServiceProperties.SaveRollbackOrderAgrees` and `ServiceProperties.DeleteRollbackOrderAgrees` show that this holds for the stack of a failed save and of a failed delete. A failed update has at most one command on its stack (`ServiceProperties.UpdateScriptStops`).
- `URLEncoder` writes a space as `+`.
- `updateApi` converts the *partial* api it was given into a tool definition; the merged record is only stored.
- `ApiServiceImpl` never calls `ServiceExceptionHandler`. Every client exception therefore becomes `ServiceError`. An authorization refusal in update or delete is a `ResponseStatusException` and also becomes `ServiceError`. Only save's `HttpClientErrorException(403)` becomes `ServiceNotAllowed`.
- `doesUserExist` and `doesGroupExist` return true or throw. So `canInvoke`'s `HttpClientErrorException(404)` branch can never run, and a missing group yields `ClientNotFoundException` there, as it does in `isUserAuthorized`.

## Model

All paths are under `src/main/java/de/thm/apimanagement/`.

| member | source | states |
|---|---|---|
| ApiService.Step | src/main/java/de/thm/apimanagement/service/ApiServiceImpl.java:66-69 | a command is pushed only after its execute succeeds; execute succeeds exactly when the client guard passes and no fault is injected; a failing step leaves the stack and the world as they were; after a failure no further step runs |
| ApiService.RollbackFrom | src/main/java/de/thm/apimanagement/service/ApiServiceImpl.java:318-323 | undo runs over the stack from the bottom up; the first undo that throws stops the loop and its exception escapes; the world is the prefix of the stack undone in that order |
| ApiService.Classify | src/main/java/de/thm/apimanagement/service/ApiServiceImpl.java:98-108 | every caught exception becomes a service exception; ServiceNotAllowed exactly for HttpClientErrorException(403), ServiceNotFound exactly for HttpClientErrorException(404), ServiceError otherwise |
| ApiService.Conclude | src/main/java/de/thm/apimanagement/service/ApiServiceImpl.java:325-329 | a run without failure returns its value and world; a failed run always ends in an exception, and when no undo throws the caller sees the classified exception and the world with the whole stack undone |
| ApiService.FindById | src/main/java/de/thm/apimanagement/service/ApiServiceImpl.java:125-128 | the lookup fails only through an injected repository fault; otherwise it returns the stored record when the id is present and nothing when it is not |
| ApiService.GrantOwnership | src/main/java/de/thm/apimanagement/service/ApiServiceImpl.java:71-84 | the new api is granted to the user when the group is blank and to the group otherwise, marked active |
| ApiService.SaveScript | src/main/java/de/thm/apimanagement/service/ApiServiceImpl.java:58-96 | if the save stops before any command completes, the world is unchanged |
| ApiService.SaveCommands | src/main/java/de/thm/apimanagement/service/ApiServiceImpl.java:66-96 | the store, ownership, conversion and tool steps leave the world unchanged when none completed |
| ApiService.SaveApi | src/main/java/de/thm/apimanagement/service/ApiServiceImpl.java:50-112 | a blank user fails with ServiceError before anything changes; a successful save returns the api carrying the id the repository gave it |
| ApiService.UpdateScript | src/main/java/de/thm/apimanagement/service/ApiServiceImpl.java:123-167 | if the update stops in its checks or before its first command completes, the world is unchanged |
| ApiService.UpdateCommands | src/main/java/de/thm/apimanagement/service/ApiServiceImpl.java:152-167 | the repository update and tool steps leave the world unchanged when none completed |
| ApiService.UpdateApi | src/main/java/de/thm/apimanagement/service/ApiServiceImpl.java:114-183 | a blank user fails with ServiceError before anything changes; a successful update returns the partial api it was given, not the merged record |
| ApiService.LastMatch | src/main/java/de/thm/apimanagement/service/ApiServiceImpl.java:213-220 | an entry is found exactly when the listing names the id, and it is the last such entry in the listing |
| ApiService.RevokeOwnership | src/main/java/de/thm/apimanagement/service/ApiServiceImpl.java:222-234 | ownership is revoked from the user when the group is blank and from the group otherwise, keeping the found entry as backup |
| ApiService.DeleteScript | src/main/java/de/thm/apimanagement/service/ApiServiceImpl.java:194-250 | if the delete stops in its checks or before its first command completes, the world is unchanged |
| ApiService.DeleteCommands | src/main/java/de/thm/apimanagement/service/ApiServiceImpl.java:222-250 | the revoke, tool and repository steps leave the world unchanged when none completed |
| ApiService.DeleteApiById | src/main/java/de/thm/apimanagement/service/ApiServiceImpl.java:185-265 | a blank user fails with ServiceError before anything changes |
| ApiService.FetchApiById | src/main/java/de/thm/apimanagement/service/ApiServiceImpl.java:272-277 | without a repository fault, the fetch succeeds exactly when the id is stored and returns that record; a missing id is ServiceNotFound |
| ApiService.InvokeGate | src/main/java/de/thm/apimanagement/service/ApiServiceImpl.java:280-313 | invoke proceeds only with the stored record; a missing api is ServiceNotFound; every later refusal or client failure surfaces as a service exception |
| ApiService.UndoSequence | src/main/java/de/thm/apimanagement/service/ApiServiceImpl.java:318-323 | the undos of a stack applied from the bottom up when none throws; ServiceProperties.UndoSequenceLast and ServiceProperties.ReverseOrderAgrees relate it to the reverse order |
| ApiService.Rollback | src/main/java/de/thm/apimanagement/service/ApiServiceImpl.java:318-323 | `rollback` over the whole stack, starting at its bottom; what it does is stated by ApiService.RollbackFrom and ServiceProperties.RollbackUndoesAll |
| ApiService.InvokeChecks | src/main/java/de/thm/apimanagement/service/ApiServiceImpl.java:285-304 | the try block of invoke: canInvoke, then the ServiceNotAllowed refusal, then the owner's listing, read only when the user has text, then ResponseStatus(404) when the listing does not name the api; ServiceProperties.InvokeAllowed states when it lets the call through |
| ServiceProperties.UndoSequenceLast | src/main/java/de/thm/apimanagement/service/ApiServiceImpl.java:318-323 | undoing a stack with one more command on top undoes that command last |
| ServiceProperties.RollbackUndoesAll | src/main/java/de/thm/apimanagement/service/ApiServiceImpl.java:318-323 | when no undo throws, rollback undoes every command and nothing escapes |
| ServiceProperties.UndoFailureEscapes | src/main/java/de/thm/apimanagement/service/ApiServiceImpl.java:318-329 | an undo that throws at position k stops the rollback with only the commands below k undone, and its own exception reaches the caller unclassified, replacing the original failure |
| ServiceProperties.UndoCommute | src/main/java/de/thm/apimanagement/service/ApiServiceImpl.java:318-323 | undoing two commands with different footprints gives the same world in either order |
| ServiceProperties.ReverseOrderAgrees | src/main/java/de/thm/apimanagement/service/ApiServiceImpl.java:318-323 | for commands with pairwise distinct footprints, undoing in completion order equals undoing in reverse order |
| ServiceProperties.NothingPushedNothingChanged | src/main/java/de/thm/apimanagement/service/ApiServiceImpl.java:98-108 | a failure before any command completed returns the classified exception and the original world |
| ServiceProperties.SaveDeniedChangesNothing | src/main/java/de/thm/apimanagement/service/ApiServiceImpl.java:60-63 | a user who may not edit gets ServiceNotAllowed and the world is untouched |
| ServiceProperties.SaveSucceeds | src/main/java/de/thm/apimanagement/service/ApiServiceImpl.java:58-96 | save succeeds exactly when the user is authorized, every call it makes succeeds and the spec passes the conversion checks |
| ServiceProperties.SaveCommandsComplete | src/main/java/de/thm/apimanagement/service/ApiServiceImpl.java:66-96 | the command steps of save complete exactly when their calls succeed and the spec is acceptable |
| ServiceProperties.SaveEffect | src/main/java/de/thm/apimanagement/service/ApiServiceImpl.java:66-96 | after a successful save the repository holds the new record, the tool is registered under its id, the owner's listing gains the active entry, and nothing else changed |
| ServiceProperties.SaveCommandsEffect | src/main/java/de/thm/apimanagement/service/ApiServiceImpl.java:66-96 | the same effect, stated for the command steps alone |
| ServiceProperties.SaveFailureRestores | src/main/java/de/thm/apimanagement/service/ApiServiceImpl.java:98-108 | a failed save whose undos all succeed leaves a world equivalent to the original and ends in a service exception |
| ServiceProperties.SaveScriptStops | src/main/java/de/thm/apimanagement/service/ApiServiceImpl.java:66-96 | a failed save stops with nothing, the store command, or the store and ownership commands on the stack, and the world is exactly the effect of those |
| ServiceProperties.SaveRollbackOrderAgrees | src/main/java/de/thm/apimanagement/service/ApiServiceImpl.java:98-108 | the stack a failed save rolls back has commands with pairwise different footprints, so undoing it bottom-up gives the same world as undoing it top-down |
| ServiceProperties.SaveThenFetch | src/main/java/de/thm/apimanagement/service/ApiServiceImpl.java:272-277 | after a successful save, fetching the new id returns the saved record |
| ServiceProperties.UpdateMissingId | src/main/java/de/thm/apimanagement/service/ApiServiceImpl.java:125-128 | updating an id that is not stored fails with ServiceError and changes nothing |
| ServiceProperties.UpdateDeniedChangesNothing | src/main/java/de/thm/apimanagement/service/ApiServiceImpl.java:131-134 | a user who may not edit gets ServiceError, not ServiceNotAllowed, and the world is untouched |
| ServiceProperties.UpdateNeedsOwnership | src/main/java/de/thm/apimanagement/service/ApiServiceImpl.java:137-149 | an api missing from the owner's listing cannot be updated and nothing changes |
| ServiceProperties.UpdateSucceeds | src/main/java/de/thm/apimanagement/service/ApiServiceImpl.java:123-167 | update succeeds exactly when the api exists, the user is authorized and owns it, every call succeeds and the partial spec is acceptable |
| ServiceProperties.UpdateCommandsComplete | src/main/java/de/thm/apimanagement/service/ApiServiceImpl.java:152-167 | the update steps complete exactly when the repository update, conversion and tool calls succeed and the partial spec is acceptable |
| ServiceProperties.UpdateEffect | src/main/java/de/thm/apimanagement/service/ApiServiceImpl.java:152-167 | after a successful update the record is the merge of the stored one with the partial api, the tool under the id is replaced, and the listings are unchanged |
| ServiceProperties.UpdateCommandsEffect | src/main/java/de/thm/apimanagement/service/ApiServiceImpl.java:152-167 | the same effect, stated for the command steps alone |
| ServiceProperties.UpdateScriptStops | src/main/java/de/thm/apimanagement/service/ApiServiceImpl.java:152-167 | a failed update stops with nothing or the repository update on the stack, and the world is exactly the effect of those |
| ServiceProperties.UpdateFailureRestores | src/main/java/de/thm/apimanagement/service/ApiServiceImpl.java:169-179 | a failed update whose undos all succeed leaves the world exactly as it was and ends in a service exception |
| ServiceProperties.UpdateThenFetch | src/main/java/de/thm/apimanagement/service/ApiServiceImpl.java:272-277 | after a successful update, fetching the id returns the merged record |
| ServiceProperties.DeleteMissingId | src/main/java/de/thm/apimanagement/service/ApiServiceImpl.java:196-197 | deleting an id that is not stored fails with ServiceError and changes nothing |
| ServiceProperties.DeleteDeniedChangesNothing | src/main/java/de/thm/apimanagement/service/ApiServiceImpl.java:200-203 | a user who may not edit gets ServiceError and the world is untouched |
| ServiceProperties.DeleteNeedsOwnership | src/main/java/de/thm/apimanagement/service/ApiServiceImpl.java:206-220 | an api missing from the owner's listing cannot be deleted and nothing changes |
| ServiceProperties.DeleteScriptReaches | src/main/java/de/thm/apimanagement/service/ApiServiceImpl.java:194-234 | when the checks pass, the delete runs its commands with the last matching listing entry as backup; otherwise it stops with nothing pushed |
| ServiceProperties.DeleteSucceeds | src/main/java/de/thm/apimanagement/service/ApiServiceImpl.java:194-250 | delete succeeds exactly when the api exists, the user is authorized and owns it, and every revoke, tool and repository call succeeds |
| ServiceProperties.DeleteCommandsComplete | src/main/java/de/thm/apimanagement/service/ApiServiceImpl.java:222-250 | the delete steps complete exactly when the revoke, tool lookup, tool delete (if a tool exists) and repository delete succeed |
| ServiceProperties.DeleteCommandsStops | src/main/java/de/thm/apimanagement/service/ApiServiceImpl.java:222-250 | a failed delete stops with nothing, the revoke, or the revoke and the tool deletion on the stack, never the repository delete, and the world is exactly the effect of those |
| ServiceProperties.DeleteRollbackOrderAgrees | src/main/java/de/thm/apimanagement/service/ApiServiceImpl.java:252-262 | the stack a failed delete rolls back has commands with pairwise different footprints, so undoing it bottom-up gives the same world as undoing it top-down |
| ServiceProperties.DeleteEffect | src/main/java/de/thm/apimanagement/service/ApiServiceImpl.java:222-250 | after a successful delete the record and its tool are gone, the owner's listing no longer names the id, and nothing else changed |
| ServiceProperties.DeleteCommandsEffect | src/main/java/de/thm/apimanagement/service/ApiServiceImpl.java:222-250 | the same effect, stated for the command steps alone |
| ServiceProperties.DeleteFailureRestores | src/main/java/de/thm/apimanagement/service/ApiServiceImpl.java:252-262 | a failed delete whose undos all succeed restores the repository and tools exactly and the owner's listing as a set, and ends in a service exception |
| ServiceProperties.RevokeUndone | src/main/java/de/thm/apimanagement/commands/DeleteApiFromUserCommand.java:17-25 | revoking an owner's single entry and then undoing re-adds the same entry, so the listing is the same set |
| ServiceProperties.DeleteThenFetch | src/main/java/de/thm/apimanagement/service/ApiServiceImpl.java:272-277 | after a successful delete, fetching the id is ServiceNotFound |
| ServiceProperties.InvokeFailureIsServiceError | src/main/java/de/thm/apimanagement/service/ApiServiceImpl.java:285-313 | once the api is found, every refusal, including canInvoke's ServiceNotAllowed, surfaces as ServiceError |
| ServiceProperties.CanInvokeNeverHttp | src/main/java/de/thm/apimanagement/client/UserManagementClient.java:109-159 | canInvoke only ever fails with a client exception, never an HttpClientErrorException |
| ServiceProperties.InvokeAllowed | src/main/java/de/thm/apimanagement/service/ApiServiceImpl.java:282-304 | invoke passes its gate exactly when the api is stored, canInvoke is true, the owner's listing can be read and names the api |
| ServiceProperties.EditorsMayInvoke | src/main/java/de/thm/apimanagement/service/ApiServiceImpl.java:287-304 | a user allowed to edit an owned, stored api may also invoke it |
| Commands.Execute | src/main/java/de/thm/apimanagement/commands/UpdateApiInRepositoryCommand.java:21-37 | the world after each of the nine commands' `execute` succeeds: the update's body cited here, and the one-line `execute` at line 18 of each other command file (line 16 in `SaveApiToRepositoryCommand` and `DeleteApiFromRepositoryCommand`); the per-command Effect lemmas, Commands.Frame and Commands.UpdateApiInRepositoryBackup state what it changes |
| Commands.Undo | src/main/java/de/thm/apimanagement/commands/UpdateApiInRepositoryCommand.java:39-44 | the world after each command's `undo` succeeds: the update's body cited here, and the one-line `undo` at line 23 of each other command file (line 21 in the two repository commands); the per-command RoundTrip lemmas state that it reverses Commands.Execute |
| Commands.IfNotBlank | src/main/java/de/thm/apimanagement/commands/UpdateApiInRepositoryCommand.java:46-51 | a new value replaces the current one only when it has non-whitespace text |
| Commands.IfNotNull | src/main/java/de/thm/apimanagement/commands/UpdateApiInRepositoryCommand.java:53-58 | a new value replaces the current one whenever it is present |
| Commands.Merge | src/main/java/de/thm/apimanagement/commands/UpdateApiInRepositoryCommand.java:27-33 | name, description, version, format and token follow the partial api when it has text; spec follows it when present; id and file type are kept |
| Commands.MergeIdempotent | src/main/java/de/thm/apimanagement/commands/UpdateApiInRepositoryCommand.java:28-33 | applying the same partial api twice equals applying it once |
| Commands.MergeEmptyIsIdentity | src/main/java/de/thm/apimanagement/commands/UpdateApiInRepositoryCommand.java:28-33 | a partial api with no fields set leaves the stored record unchanged |
| Commands.TryExecute | src/main/java/de/thm/apimanagement/client/UserManagementClient.java:206-237 | execute succeeds exactly when the client's blank-target guard passes and no fault is injected, and then has the command's effect; tool calls fail with client exceptions |
| Commands.TryUndo | src/main/java/de/thm/apimanagement/commands/UpdateApiInRepositoryCommand.java:39-44 | undo succeeds exactly when the guard passes and either no fault is injected or the undo makes no call (an update without backup) |
| Commands.Frame | src/main/java/de/thm/apimanagement/commands/AddApiToUserCommand.java:17-25 | for all nine commands, not only the one cited: execute and undo change only the command's own footprint, which is the repository, the user listings, the group listings or the tool registry |
| Commands.SaveApiToRepositoryEffect | src/main/java/de/thm/apimanagement/commands/SaveApiToRepositoryCommand.java:15-18 | execute stores the api under its id and undo deletes that id; no other record is touched |
| Commands.SaveApiToRepositoryRoundTrip | src/main/java/de/thm/apimanagement/commands/SaveApiToRepositoryCommand.java:15-23 | saving a new id and undoing gives back the original world |
| Commands.DeleteApiFromRepositoryEffect | src/main/java/de/thm/apimanagement/commands/DeleteApiFromRepositoryCommand.java:15-18 | execute removes the api's id and undo saves the captured api back; no other record is touched |
| Commands.DeleteApiFromRepositoryRoundTrip | src/main/java/de/thm/apimanagement/commands/DeleteApiFromRepositoryCommand.java:15-23 | deleting a stored record and undoing gives back the original world |
| Commands.UpdateApiInRepositoryBackup | src/main/java/de/thm/apimanagement/commands/UpdateApiInRepositoryCommand.java:22-36 | for a stored id, execute keeps the old record as backup and stores the merge |
| Commands.UpdateApiInRepositoryAbsent | src/main/java/de/thm/apimanagement/commands/UpdateApiInRepositoryCommand.java:22-44 | for an absent id, execute changes nothing and keeps no backup, and undo makes no call, so it succeeds even when the repository would throw |
| Commands.UpdateApiInRepositoryRoundTrip | src/main/java/de/thm/apimanagement/commands/UpdateApiInRepositoryCommand.java:21-44 | update followed by undo gives back the original world |
| Commands.UpdateApiInRepositoryIdempotent | src/main/java/de/thm/apimanagement/commands/UpdateApiInRepositoryCommand.java:27-35 | running the same update twice stores the same record as running it once |
| Commands.AddApiToUserEffect | src/main/java/de/thm/apimanagement/commands/AddApiToUserCommand.java:17-20 | execute appends the entry to the user's listing |
| Commands.AddApiToUserRoundTrip | src/main/java/de/thm/apimanagement/commands/AddApiToUserCommand.java:17-25 | adding an id the user did not list and undoing gives back the same listings |
| Commands.DeleteApiFromUserEffect | src/main/java/de/thm/apimanagement/commands/DeleteApiFromUserCommand.java:17-20 | execute drops every entry with the id from the user's listing |
| Commands.DeleteApiFromUserRoundTrip | src/main/java/de/thm/apimanagement/commands/DeleteApiFromUserCommand.java:17-25 | removing the user's single entry and undoing gives back the same set of entries |
| Commands.AddApiToGroupEffect | src/main/java/de/thm/apimanagement/commands/AddApiToGroupCommand.java:17-20 | execute appends the entry to the group's listing |
| Commands.AddApiToGroupRoundTrip | src/main/java/de/thm/apimanagement/commands/AddApiToGroupCommand.java:17-25 | adding an id the group did not list and undoing gives back the same listings |
| Commands.DeleteApiFromGroupEffect | src/main/java/de/thm/apimanagement/commands/DeleteApiFromGroupCommand.java:17-20 | execute drops every entry with the id from the group's listing |
| Commands.DeleteApiFromGroupRoundTrip | src/main/java/de/thm/apimanagement/commands/DeleteApiFromGroupCommand.java:17-25 | removing the group's single entry and undoing gives back the same set of entries |
| Commands.AddOrUpdateMcpToolEffect | src/main/java/de/thm/apimanagement/commands/AddOrUpdateMcpToolCommand.java:17-25 | execute registers the definition under the id; undo removes the tool under the id |
| Commands.AddOrUpdateMcpToolRoundTrip | src/main/java/de/thm/apimanagement/commands/AddOrUpdateMcpToolCommand.java:17-25 | register then undo gives back the original world exactly when no tool was registered under the id before, since undo deletes rather than restores |
| Commands.DeleteMcpToolEffect | src/main/java/de/thm/apimanagement/commands/DeleteMcpToolCommand.java:17-25 | execute removes the tool; undo registers the backed-up definition again |
| Commands.DeleteMcpToolRoundTrip | src/main/java/de/thm/apimanagement/commands/DeleteMcpToolCommand.java:17-25 | deleting a registered tool with its own definition as backup and undoing gives back the original world |
| State.Find | src/main/java/de/thm/apimanagement/service/ApiServiceImpl.java:274 | `findById` returns a record exactly when the id is stored, and it is the stored one |
| State.Save | src/main/java/de/thm/apimanagement/commands/SaveApiToRepositoryCommand.java:17 | `save` stores the record under its own id, replacing any earlier one, and every other id keeps its record |
| State.Delete | src/main/java/de/thm/apimanagement/commands/DeleteApiFromRepositoryCommand.java:17 | `delete` removes the api's id, an absent id being no error, and every other id keeps its record |
| Exceptions.ClientHandle | src/main/java/de/thm/apimanagement/client/exceptions/ClientExceptionHandler.java:25-42 | every exception becomes a client exception: authentication for OAuth2 or 401, not-found exactly for 404, client error for everything else |
| Exceptions.ServiceHandle | src/main/java/de/thm/apimanagement/service/exceptions/ServiceExceptionHandler.java:20-30 | every exception becomes a service exception: not-found exactly for client not-found, not-allowed exactly for client authentication, error otherwise |
| Exceptions.ComposedHandlers | src/main/java/de/thm/apimanagement/service/exceptions/ServiceExceptionHandler.java:20-30 | the two handlers composed map 404 to not-found, 401 and OAuth2 to not-allowed, and 403 to error |
| UserManagement.DoesUserExist | src/main/java/de/thm/apimanagement/client/UserManagementClient.java:378-402 | the check never answers false; it succeeds exactly for known users and throws otherwise |
| UserManagement.DoesGroupExist | src/main/java/de/thm/apimanagement/client/UserManagementClient.java:404-428 | the check never answers false; it succeeds exactly for known groups and throws otherwise |
| UserManagement.GroupMembers | src/main/java/de/thm/apimanagement/client/UserManagementClient.java:64-84 | the `/groups/{group}/users` call: without a fault, succeeds exactly for a known group and returns its members; an unknown group is ClientNotFound; every failure is a client exception |
| UserManagement.ScanForEditor | src/main/java/de/thm/apimanagement/client/UserManagementClient.java:89-99 | true exactly when some member has the user's name and the Editor or Admin role |
| UserManagement.ScanForMember | src/main/java/de/thm/apimanagement/client/UserManagementClient.java:150-158 | true exactly when some member has the user's name, whatever the role |
| UserManagement.IsUserAuthorized | src/main/java/de/thm/apimanagement/client/UserManagementClient.java:48-51 | a blank user fails with a client error |
| UserManagement.CanInvoke | src/main/java/de/thm/apimanagement/client/UserManagementClient.java:109-112 | a blank user fails with a client error |
| UserManagement.AuthorizationDecision | src/main/java/de/thm/apimanagement/client/UserManagementClient.java:48-100 | for a known user: no group means authorized; a known group means authorized exactly when the user edits in it; an unknown group is client not-found |
| UserManagement.InvokeDecision | src/main/java/de/thm/apimanagement/client/UserManagementClient.java:109-159 | for a known user: no group means allowed; a known group means allowed exactly when the user is a member |
| UserManagement.AuthorizedImpliesCanInvoke | src/main/java/de/thm/apimanagement/client/UserManagementClient.java:150-158 | whoever may edit may also invoke, under the same faults |
| UserManagement.MissingGroupIsClientNotFound | src/main/java/de/thm/apimanagement/client/UserManagementClient.java:114-120 | an unknown group makes both checks fail with client not-found; the HttpClientErrorException branch is never taken |
| UserManagement.OwnedListing | src/main/java/de/thm/apimanagement/service/ApiServiceImpl.java:137-142 | the group's listing when the group has text, the user's otherwise; a failure is a client exception |
| UserManagement.TargetGuard | src/main/java/de/thm/apimanagement/client/UserManagementClient.java:167-170 | an IllegalArgumentException with the given message exactly when the target is blank |
| UserManagement.AddApiToUser | src/main/java/de/thm/apimanagement/client/UserManagementClient.java:206-237 | a blank user is rejected; otherwise without a fault the entry is appended to the user's listing |
| UserManagement.AddApiToGroup | src/main/java/de/thm/apimanagement/client/UserManagementClient.java:167-198 | a blank group is rejected; otherwise without a fault the entry is appended to the group's listing |
| UserManagement.DeleteApiFromUser | src/main/java/de/thm/apimanagement/client/UserManagementClient.java:282-310 | a blank user is rejected; otherwise without a fault every entry with the id leaves the user's listing |
| UserManagement.DeleteApiFromGroup | src/main/java/de/thm/apimanagement/client/UserManagementClient.java:245-274 | a blank group is rejected; otherwise without a fault every entry with the id leaves the group's listing |
| Spec2Tool.ConvertSpec2Tool | src/main/java/de/thm/apimanagement/client/Spec2ToolClient.java:47-67 | blank inputs, then an unsupported file type, then an unsupported format are rejected in that order; an acceptable spec yields the remote definition or a client exception |
| Spec2Tool.LocalChecksFirst | src/main/java/de/thm/apimanagement/client/Spec2ToolClient.java:48-54 | an unacceptable spec is rejected with IllegalArgumentException whatever the remote service would do |
| Spec2Tool.CaseSensitive | src/main/java/de/thm/apimanagement/client/Spec2ToolClient.java:24-25 | the allowed file types and formats are matched exactly: "yaml" and "openapi" are refused |
| ToolRegistry.GetToolWithId | src/main/java/de/thm/apimanagement/client/McpManagementClient.java:43-65 | without a fault, returns the registered definition exactly when one exists; failures are client exceptions |
| ToolRegistry.AddOrUpdateTool | src/main/java/de/thm/apimanagement/client/McpManagementClient.java:73-97 | without a fault, the definition is registered under the id, replacing any earlier one |
| ToolRegistry.DeleteTool | src/main/java/de/thm/apimanagement/client/McpManagementClient.java:104-126 | without a fault, the tool under the id is removed |
| Text.ReplaceAbsent | src/main/java/de/thm/apimanagement/client/ExternalApiClient.java:62 | replacing a target that does not occur leaves the string unchanged |
| Text.ReplacePrefix | src/main/java/de/thm/apimanagement/client/ExternalApiClient.java:62 | a prefix in which no occurrence of the target starts is copied unchanged, and replacement continues on the rest |
| Text.ReplaceFirst | src/main/java/de/thm/apimanagement/client/ExternalApiClient.java:62 | when no occurrence starts inside the prefix, the first occurrence after it is replaced and scanning resumes after that occurrence |
| Text.NoEarlyOccurrence | src/main/java/de/thm/apimanagement/client/ExternalApiClient.java:62 | for a target whose first character does not recur in it, a prefix without the target has no occurrence starting in it, even with the target right after it |
| Text.ReplaceEvery | src/main/java/de/thm/apimanagement/client/ExternalApiClient.java:62 | for such a target, joining pieces that lack the target with the target and then replacing it by v equals joining the pieces with v: every occurrence is replaced and nothing else changes |
| Text.Replace | src/main/java/de/thm/apimanagement/client/ExternalApiClient.java:62 | `String.replace` with a literal target; Text.ReplaceAbsent and Text.ReplaceEvery state which occurrences it replaces |
| Text.HasText | src/main/java/de/thm/apimanagement/client/Spec2ToolClient.java:48 | `StringUtils.hasText`: the value is present and holds a character that is not whitespace; it is the guard behind every blank-input rejection row above |
| Text.IsWhitespace | src/main/java/de/thm/apimanagement/commands/UpdateApiInRepositoryCommand.java:48 | the characters `Character.isWhitespace` accepts, on which `isBlank` and Commands.IfNotBlank rest |
| ExternalApi.SubstituteUnmapped | src/main/java/de/thm/apimanagement/client/ExternalApiClient.java:61-63 | a path that contains none of the placeholders is left unchanged |
| ExternalApi.NoPlaceholders | src/main/java/de/thm/apimanagement/client/ExternalApiClient.java:61-63 | a path without '<' is left unchanged whatever the path parameters |
| ExternalApi.Substitute | src/main/java/de/thm/apimanagement/client/ExternalApiClient.java:61-63 | the path parameters applied in iteration order, each replacing its placeholder; the lemmas below state the result |
| ExternalApi.PlaceholderNonOverlapping | src/main/java/de/thm/apimanagement/client/ExternalApiClient.java:62 | the placeholder of a name without '<' starts with its only '<', so two of its occurrences never overlap |
| ExternalApi.EveryOccurrenceReplaced | src/main/java/de/thm/apimanagement/client/ExternalApiClient.java:61-63 | for a name without '<', every occurrence of its placeholder is replaced by the value, whatever other placeholders the rest of the path holds |
| ExternalApi.OtherPlaceholderAbsent | src/main/java/de/thm/apimanagement/client/ExternalApiClient.java:61-63 | text whose only '<' opens a placeholder of a different name does not contain this name's placeholder |
| ExternalApi.TwoPlaceholdersFilled | src/main/java/de/thm/apimanagement/client/ExternalApiClient.java:61-63 | a path with placeholders of two different names, such as `/users/<id>/posts/<pid>`, gets both values in place when the values and the literal text hold no '<' |
| ExternalApi.Pair | src/main/java/de/thm/apimanagement/client/ExternalApiClient.java:69-70 | an encoded key=value pair contains no '&' and no '?' |
| ExternalApi.QueryString | src/main/java/de/thm/apimanagement/client/ExternalApiClient.java:67-72 | the joined query contains no '?' |
| ExternalApi.FormatPath | src/main/java/de/thm/apimanagement/client/ExternalApiClient.java:59-75 | with no request parameters the result is the substituted path; otherwise it is that path, '?', and the encoded query |
| ExternalApi.QueryRoundTrip | src/main/java/de/thm/apimanagement/client/ExternalApiClient.java:67-72 | splitting the query on '&' and '=' and decoding gives back the request parameters in order |
| ExternalApi.FormatPathRoundTrip | src/main/java/de/thm/apimanagement/client/ExternalApiClient.java:59-75 | cutting the formatted path at its last '?' yields the substituted path and a query that parses back to the parameters |
| ExternalApi.SeparatorCount | src/main/java/de/thm/apimanagement/client/ExternalApiClient.java:67-72 | a query of n pairs has exactly n-1 '&' separators |
| ExternalApi.PlainPathUnchanged | src/main/java/de/thm/apimanagement/client/ExternalApiClient.java:59-75 | a path without placeholders and without request parameters is returned unchanged |
| ExternalApi.HeadersAsWritten | src/main/java/de/thm/apimanagement/client/ExternalApiClient.java:87-95 | a token with text and a null header map throw NullPointerException; without a token the headers are the given map or empty |
| ExternalApi.Headers | src/main/java/de/thm/apimanagement/client/ExternalApiClient.java:91-95 | a token with text sets Authorization to "Bearer " followed by the token; every other header is kept as given |
| ExternalApi.HeadersAgree | src/main/java/de/thm/apimanagement/client/ExternalApiClient.java:87-95 | whenever the code as written does not throw, it produces the corrected headers |
| ExternalApi.NullHeaderWithToken | src/main/java/de/thm/apimanagement/client/ExternalApiClient.java:94 | token "t" with no header map throws, where the corrected version sends only the bearer header |
| ExternalApi.MapMethod | src/main/java/de/thm/apimanagement/client/ExternalApiClient.java:97-103 | the five request types map to HTTP methods other than HEAD, OPTIONS and TRACE |
| ExternalApi.MethodRoundTrip | src/main/java/de/thm/apimanagement/client/ExternalApiClient.java:97-103 | the method map has an inverse on its range, and HEAD, OPTIONS and TRACE are outside that range |
| ExternalApi.MapMethodInjective | src/main/java/de/thm/apimanagement/client/ExternalApiClient.java:97-103 | distinct request types map to distinct methods |
| ExternalApi.UriCarriesQuery | src/main/java/de/thm/apimanagement/client/ExternalApiClient.java:86-89 | a non-empty request parameter map ends up as a query that parses back to it |
| ExternalApi.SendRequestAsWritten | src/main/java/de/thm/apimanagement/client/ExternalApiClient.java:84-109 | the request cannot be built exactly when a token has text and the header map is null; otherwise it is the corrected request |
| ExternalApi.BuildRequest | src/main/java/de/thm/apimanagement/client/ExternalApiClient.java:84-109 | the request uses the mapped method, the formatted path, the bearer header when a token has text, and the query's body |
| UrlEncoding.Utf8 | src/main/java/de/thm/apimanagement/client/ExternalApiClient.java:69-70 | a character becomes one to four bytes with the UTF-8 lead and continuation ranges; ASCII is one byte |
| UrlEncoding.EncodeChar | src/main/java/de/thm/apimanagement/client/ExternalApiClient.java:69-70 | every character encodes to at least one character from the unreserved set, '+' or '%' |
| UrlEncoding.Encode | src/main/java/de/thm/apimanagement/client/ExternalApiClient.java:69-70 | the encoding is at least as long as the input and uses only unreserved characters, '+' and '%' |
| UrlEncoding.EncodedHasNoSeparators | src/main/java/de/thm/apimanagement/client/ExternalApiClient.java:69-70 | an encoded string contains no '&', '=', '?', '#', space or '<' |
| UrlEncoding.EncodeUnreserved | src/main/java/de/thm/apimanagement/client/ExternalApiClient.java:69-70 | a string of unreserved characters is encoded as itself |
| UrlEncoding.DecodeEncode | src/main/java/de/thm/apimanagement/client/ExternalApiClient.java:69-70 | decoding the encoding gives back the original string |
| UrlEncoding.EncodeInjective | src/main/java/de/thm/apimanagement/client/ExternalApiClient.java:69-70 | distinct strings have distinct encodings |

## Left out

- HTTP transport, `TokenProvider`, OAuth2 and `SecurityConfig` are left out. A remote call is a parameter: a fault in `Env.faults` or its absence.
- `McpManagementClient` is modelled as a map from api id to tool definition. Its REST paths and serialisation are left out.
- invoke's final `externalApiClient.invoke(query)` is left out, along with its response handling. The model stops at the gate (`ApiService.InvokeGate`) and at the request `sendRequest` builds (`ExternalApi.BuildRequest`).
- `fetchApiList`, the controllers, the `ApiService` interface and `JsonToMapConverter` are left out. They hold no logic of the core.
- Logging is left out, including the bearer token written to the log.
- JPA id generation is modelled as `Env.freshId`, so every saved api receives that id. Saving an api whose id already exists, which JPA treats as an update, is not modelled.
- Concurrency between requests is left out. Each operation is one atomic function of the world.
- Null values in an `InvokeQuery` are not modelled beyond the header map, because pairs of strings cannot hold null. In the code, a null value in the path parameter map throws NullPointerException in `String.replace` (ExternalApiClient.java:62), and a null value in the request parameter map throws in `URLEncoder.encode` (lines 69-70).
- A null `requestPath` is not modelled. With path parameters, `replace` on it throws NullPointerException. Without them, line 68 concatenates the text "null" before the query, or `formatPath` returns null. A null `requestType` throws NullPointerException in the `switch` at line 97.
- ToolRegistry.GetToolWithId: takes an id with no registered tool to be answered with an empty body, giving no definition. If the registry instead answers 404, McpManagementClient.java:58 throws ClientNotFoundException, and deleting an api that has no tool fails with ServiceError after the revoke is undone. The model represents that answer only as an injected fault on the tool lookup.
- Query and path parameters are modelled as sequences of pairs in a fixed order. `HashMap` iteration order is unspecified in Java and is not modelled.
- `UrlEncoding.Utf8` maps a character to its Unicode scalar value. Lone UTF-16 surrogates, which Java's encoder replaces with '?', are not modelled.
- The request body is opaque text.
- `UpdateApiInRepositoryCommand` calls a copy constructor `new Api(apiDb)` that the entity does not declare. The model takes it as a field-by-field copy.
- ServiceProperties.DeleteFailureRestores: states restoration of the owner's listing as a set of entries, and only when the listing holds a single entry for the id. Under the listing semantics assumed below, undo re-appends the entry at the end, so the order can change. With duplicate entries, the delete removes all of them but undo re-adds only one.
- ServiceProperties.SaveFailureRestores: states restoration up to listing equivalence, and assumes the fresh id was neither stored nor listed beforehand. Under the listing semantics assumed below, undo removes by id, which would otherwise also remove an older entry.
- The remote user-management service's listing semantics are assumed, because the client only sends `POST …/apis` and `DELETE …/apis/{apiId}` (UserManagementClient.java:166-310) and what the service does with them is outside this code. The model assumes that a POST appends the entry to the owner's listing, that a DELETE by id removes every entry with that id, and that an owner never written to lists nothing. The Add and Delete RoundTrip lemmas of `Commands`, `ServiceProperties.RevokeUndone`, `ServiceProperties.SaveFailureRestores` and `ServiceProperties.DeleteFailureRestores` rest on this assumption.
- UserManagement.AddApiToUser: the appended entry is the assumed effect of the remote POST; the code itself only checks the target and sends the request.
- UserManagement.AddApiToGroup: the appended entry is the assumed effect of the remote POST; the code itself only checks the target and sends the request.
- UserManagement.DeleteApiFromUser: removing every entry with the id is the assumed effect of the remote DELETE; the code itself only checks the target and sends the request.
- UserManagement.DeleteApiFromGroup: removing every entry with the id is the assumed effect of the remote DELETE; the code itself only checks the target and sends the request.
- Commands.DeleteApiFromRepositoryRoundTrip: assumes that `save` in undo puts the deleted record back under its own id. `Api.id` is generated (entity/Api.java:15-17), and JPA merges a detached record whose row is gone: depending on the Hibernate version it inserts it under a new id or throws. `deleteApiById` never runs this undo, because the repository delete is its last step, so no service property depends on it.
- Commands.DeleteApiFromRepositoryEffect: its undo half rests on the same assumption that `save` restores the record under its old id.
- ServiceProperties.UndoFailureEscapes: the model stops the rollback at the first undo that throws, as the Java loop does. The commands above it stay done, and no stronger restoration property holds there.

## Findings

| source | as written | input that shows it | evidently intended | confidence | as-written member | corrected member |
|---|---|---|---|---|---|---|
| src/main/java/de/thm/apimanagement/client/ExternalApiClient.java:94 | the bearer header is put into `query.getHeader()`, which is null when the query has no headers, although line 87 already substitutes an empty map for that case | token "t" and an `InvokeQuery` whose header map is null: a NullPointerException instead of a request | add the bearer header to the local `headers` map (a mutable copy), so a query without headers is sent with only the Authorization header | not executed | ExternalApi.HeadersAsWritten | ExternalApi.Headers |
