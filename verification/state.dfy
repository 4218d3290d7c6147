/** The abstract world one request acts on: the local API store, the ownership
    service's per-user and per-group listings and its directory of users and
    groups, and the tool registry. */
module State {
  import opened Wrappers
  import opened Entities

  datatype World = World(
    apis: map<int, Api>,
    userApis: map<string, seq<ApiWithActive>>,
    groupApis: map<string, seq<ApiWithActive>>,
    tools: map<int, ToolDefinition>,
    users: set<string>,
    groups: map<string, seq<UserWithRole>>)

  /** Every stored record sits under its own id. */
  predicate StoreConsistent(apis: map<int, Api>) {
    forall k | k in apis :: apis[k].id == k
  }

  /** `findById`: the record stored under `id`, if any. */
  function Find(apis: map<int, Api>, id: int): (r: Option<Api>)
    ensures r.Some? <==> id in apis
    ensures r.Some? ==> r.value == apis[id]
  {
    if id in apis then Some(apis[id]) else None
  }

  /** `save(api)`: inserts or replaces the record under the api's id. */
  function Save(apis: map<int, Api>, api: Api): (r: map<int, Api>)
    ensures api.id in r && r[api.id] == api
    ensures forall k | k != api.id :: (k in r <==> k in apis) && (k in r ==> r[k] == apis[k])
  {
    apis[api.id := api]
  }

  /** `delete(api)`: removes the record under the api's id; absent is not an error. */
  function Delete(apis: map<int, Api>, api: Api): (r: map<int, Api>)
    ensures api.id !in r
    ensures forall k | k != api.id :: (k in r <==> k in apis) && (k in r ==> r[k] == apis[k])
  {
    apis - {api.id}
  }

  /** The ownership listing of a user or group; one never written to is empty. */
  function Listing(m: map<string, seq<ApiWithActive>>, owner: string): seq<ApiWithActive> {
    if owner in m then m[owner] else []
  }

  /** The entries of `l` whose api id is not `id`, in order. */
  function Without(l: seq<ApiWithActive>, id: int): (r: seq<ApiWithActive>)
    ensures forall e :: e in r <==> e in l && e.apiId != id
    ensures |r| <= |l|
  {
    if l == [] then []
    else (if l[0].apiId == id then [] else [l[0]]) + Without(l[1..], id)
  }

  /** Adding an ownership record appends it to the owner's listing. */
  function AddOwned(m: map<string, seq<ApiWithActive>>, owner: string, e: ApiWithActive): map<string, seq<ApiWithActive>> {
    m[owner := Listing(m, owner) + [e]]
  }

  /** Removing an api id drops every entry for it from the owner's listing. */
  function RemoveOwned(m: map<string, seq<ApiWithActive>>, owner: string, id: int): map<string, seq<ApiWithActive>> {
    m[owner := Without(Listing(m, owner), id)]
  }

  function Elements(l: seq<ApiWithActive>): set<ApiWithActive> {
    set e | e in l
  }

  predicate Lists(l: seq<ApiWithActive>, id: int) {
    exists i | 0 <= i < |l| :: l[i].apiId == id
  }

  /** Two listing maps that show every owner the same listing. */
  ghost predicate SameListings(a: map<string, seq<ApiWithActive>>, b: map<string, seq<ApiWithActive>>) {
    forall k :: Listing(a, k) == Listing(b, k)
  }

  /** Two listing maps that agree on every owner but `owner`, whose listings hold
      the same records, perhaps in another order. */
  ghost predicate SameListingsAsSets(a: map<string, seq<ApiWithActive>>, b: map<string, seq<ApiWithActive>>, owner: string) {
    && (forall k | k != owner :: Listing(a, k) == Listing(b, k))
    && Elements(Listing(a, owner)) == Elements(Listing(b, owner))
  }

  /** Worlds no client can tell apart. */
  ghost predicate Equivalent(a: World, b: World) {
    && a.apis == b.apis
    && SameListings(a.userApis, b.userApis)
    && SameListings(a.groupApis, b.groupApis)
    && a.tools == b.tools
    && a.users == b.users
    && a.groups == b.groups
  }

  lemma {:induction false} WithoutAbsent(l: seq<ApiWithActive>, id: int)
    requires !Lists(l, id)
    ensures Without(l, id) == l
    decreases |l|
  {
    if l != [] {
      assert l[0].apiId != id;
      assert !Lists(l[1..], id) by {
        forall i | 0 <= i < |l[1..]| ensures l[1..][i].apiId != id {
          assert l[1..][i] == l[i + 1];
        }
      }
      WithoutAbsent(l[1..], id);
      assert l == [l[0]] + l[1..];
    }
  }

  lemma {:induction false} WithoutAppend(a: seq<ApiWithActive>, b: seq<ApiWithActive>, id: int)
    ensures Without(a + b, id) == Without(a, id) + Without(b, id)
    decreases |a|
  {
    if a == [] {
      assert a + b == b;
    } else {
      assert (a + b)[0] == a[0];
      assert (a + b)[1..] == a[1..] + b;
      WithoutAppend(a[1..], b, id);
    }
  }

  lemma WithoutLists(l: seq<ApiWithActive>, id: int)
    ensures !Lists(Without(l, id), id)
  {
    var r := Without(l, id);
    forall i | 0 <= i < |r| ensures r[i].apiId != id {
      assert r[i] in r;
    }
  }
}
