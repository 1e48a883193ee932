/** The store node service: which stores a personnel listing covers, which
    stores a caller may see, and the one-time loading of the store index. */
module StoreNodeService {
  import opened Wrappers
  import opened Errors
  import opened ObjectIds
  import opened Entities
  import opened StoreTree
  import opened UserRepo
  import opened UserOrder

  /** The store ids handed to the user repository: the target alone, or the
      target followed by every store below it. The index is consulted only in
      the second case. */
  function PersonnelScope(state: State, storeId: string, includeChildNodes: bool): (r: Result<seq<string>, Error>)
    ensures !includeChildNodes ==> r == Success([storeId])
    ensures includeChildNodes && state.None? ==> r == GetInstance(state).PropagateFailure()
    ensures includeChildNodes && state.Some? ==>
              && r.Success? && |r.value| > 0 && r.value[0] == storeId
              && Distinct(r.value)
              && forall k :: k in r.value <==>
                   k == storeId || (k in state.value.ancestry && storeId in state.value.ancestry[k])
  {
    if !includeChildNodes then Success([storeId])
    else
      var tree :- GetInstance(state);
      var scope := [storeId] + GetDescendants(tree, storeId);
      assert forall k :: k in scope <==> k == storeId || k in GetDescendants(tree, storeId);
      Success(scope)
  }

  function ToDtos(users: seq<User>): (dtos: seq<UserDto>)
    ensures |dtos| == |users|
    ensures forall i :: 0 <= i < |users| ==> dtos[i] == ToDto(users[i])
  {
    seq(|users|, i requires 0 <= i < |users| => ToDto(users[i]))
  }

  /** `StoreNodeService.getPersonnel`: the repository page over the scope,
      one record per user, in the repository's order. */
  function GetPersonnel(state: State, docs: seq<UserDoc>, storeId: string, t: PersonnelType,
                        includeChildNodes: bool, limit: nat, offset: nat): (r: Result<seq<UserDto>, Error>)
    ensures PersonnelScope(state, storeId, includeChildNodes).Failure? ==>
              r == PersonnelScope(state, storeId, includeChildNodes).PropagateFailure()
    ensures PersonnelScope(state, storeId, includeChildNodes).Success? ==>
              var page := GetByStoreIdsPaged(docs, PersonnelScope(state, storeId, includeChildNodes).value, t, limit, offset);
              && (r.Success? <==> page.Success?)
              && (page.Failure? ==> r.error == page.error)
              && (page.Success? ==> r.value == ToDtos(page.value))
    ensures r.Success? ==> |r.value| <= Min(limit, MaxPageSize)
  {
    var scope :- PersonnelScope(state, storeId, includeChildNodes);
    var users :- GetByStoreIdsPaged(docs, scope, t, limit, offset);
    Success(ToDtos(users))
  }

  /** Every listed person holds the requested role (unless every role was
      asked for) and is assigned to the target store or, with child stores
      included, to a store whose ancestry lists the target. */
  lemma PersonnelWithinScope(state: State, docs: seq<UserDoc>, storeId: string, t: PersonnelType,
                             includeChildNodes: bool, limit: nat, offset: nat, d: UserDto)
    requires GetPersonnel(state, docs, storeId, t, includeChildNodes, limit, offset).Success?
    requires d in GetPersonnel(state, docs, storeId, t, includeChildNodes, limit, offset).value
    ensures t != All ==> Some(d.role) == RoleFilter(t)
    ensures || CreateFromHexString(storeId) == Some(d.storeId)
            || (&& includeChildNodes && state.Some?
                && exists k :: k in state.value.ancestry && storeId in state.value.ancestry[k]
                               && CreateFromHexString(k) == Some(d.storeId))
  {
    var scope := PersonnelScope(state, storeId, includeChildNodes).value;
    var users := GetByStoreIdsPaged(docs, scope, t, limit, offset).value;
    var dtos := ToDtos(users);
    var i :| 0 <= i < |dtos| && dtos[i] == d;
    var u := users[i];
    assert u in users;
    var k :| 0 <= k < |scope| && CreateFromHexString(scope[k]) == Some(u.storeId);
    ScopeMember(state, storeId, includeChildNodes, scope[k]);
  }

  /** A scope entry is the target or, with child stores included, a store
      whose ancestry lists the target. */
  lemma ScopeMember(state: State, storeId: string, includeChildNodes: bool, x: string)
    requires PersonnelScope(state, storeId, includeChildNodes).Success?
    requires x in PersonnelScope(state, storeId, includeChildNodes).value
    ensures || x == storeId
            || (includeChildNodes && state.Some? && x in state.value.ancestry && storeId in state.value.ancestry[x])
  {
  }

  /** `StoreNodeService.getUserStores`: the ids of the caller's store and of
      every store below it, which the store repository is asked for. The
      repository lookup itself is not part of this model. */
  function GetUserStores(state: State, storeId: string): (r: Result<seq<string>, Error>)
    ensures state.None? ==> r == GetInstance(state).PropagateFailure()
    ensures state.Some? ==>
              && r.Success? && |r.value| > 0 && r.value[0] == storeId && Distinct(r.value)
              && forall k :: k in r.value <==>
                   k == storeId || (k in state.value.ancestry && storeId in state.value.ancestry[k])
  {
    PersonnelScope(state, storeId, true)
  }

  const NoStoreNodes: Error := RuntimeError("No store nodes found")

  /** `StoreNodeService.initializeStoreTree` over the fetched node list: an
      empty list is refused and leaves the state alone; otherwise the index is
      built from every fetched node. */
  function InitializeStoreTree(state: State, fetched: seq<StoreNode>): (r: (State, Result<Unit, Error>))
    ensures |fetched| == 0 ==> r == (state, Failure(NoStoreNodes))
    ensures |fetched| > 0 && state.Some? ==> r == (state, Failure(Raise(BadRequest, "Store tree already initialized")))
    ensures |fetched| > 0 && state.None? ==> r.1 == Success(Unit) && r.0.Some? && Indexes(r.0.value, fetched)
  {
    if |fetched| == 0 then (state, Failure(NoStoreNodes))
    else
      var (next, result) := Initialize(state, fetched);
      if result.Failure? then (next, Failure(result.error)) else (next, Success(Unit))
  }

  /** After a successful load the index can be fetched and answers for every
      fetched node; the listing scope of a fetched store then starts with it
      and covers exactly the stores that list it as an ancestor. */
  lemma LoadThenScope(fetched: seq<StoreNode>, j: int)
    requires 0 <= j < |fetched| && FirstSeen(fetched, j)
    ensures var (state, result) := InitializeStoreTree(None, fetched);
            && result.Success?
            && GetInstance(state).Success?
            && var scope := PersonnelScope(state, fetched[j].id, true).value;
               && scope[0] == fetched[j].id
               && forall k :: k in scope ==> k == fetched[j].id || fetched[j].id in state.value.ancestry[k]
  {
  }

  /** A listing without child stores never consults the index, so it works
      the same whether or not the index was loaded. */
  lemma OwnStoreListingIgnoresIndex(state: State, docs: seq<UserDoc>, storeId: string, t: PersonnelType, limit: nat, offset: nat)
    ensures GetPersonnel(state, docs, storeId, t, false, limit, offset) == GetPersonnel(None, docs, storeId, t, false, limit, offset)
  {
  }

  /** Including child stores never makes a page shorter: the listing covers
      more stores, and the same window of a longer listing holds at least as
      many people. */
  lemma IncludeChildNodesNeverShrinks(tree: Tree, docs: seq<UserDoc>, storeId: string, t: PersonnelType,
                                      limit: nat, offset: nat)
    requires UniqueUsernames(docs)
    requires GetPersonnel(Some(tree), docs, storeId, t, false, limit, offset).Success?
    requires GetPersonnel(Some(tree), docs, storeId, t, true, limit, offset).Success?
    ensures |GetPersonnel(Some(tree), docs, storeId, t, false, limit, offset).value|
            <= |GetPersonnel(Some(tree), docs, storeId, t, true, limit, offset).value|
  {
    var own := [storeId];
    var all := PersonnelScope(Some(tree), storeId, true).value;
    PagedIsWindow(docs, own, t, limit, offset);
    PagedIsWindow(docs, all, t, limit, offset);
    var ownIds := ParseAll(own).value;
    var allIds := ParseAll(all).value;
    assert ownIds == [allIds[0]];
    WiderScopeLongerListing(docs, ownIds, allIds, t);
  }
}
