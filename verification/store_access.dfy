/** The store access middleware: a request may touch a store only when the
    caller's own store is that store or one of its ancestors. */
module StoreAccess {
  import opened Wrappers
  import opened Errors
  import opened ObjectIds
  import opened StoreTree
  import opened Entities

  /** JavaScript truthiness of a request field that may be absent: absent and
      the empty string are both falsy. */
  predicate Truthy(s: Option<string>) {
    s.Some? && s.value != ""
  }

  /** `req.params.storeId || req.body.storeId`. */
  function TargetStoreId(paramStoreId: Option<string>, bodyStoreId: Option<string>): (r: Option<string>)
    ensures Truthy(paramStoreId) ==> r == paramStoreId
    ensures !Truthy(paramStoreId) ==> r == bodyStoreId
  {
    if Truthy(paramStoreId) then paramStoreId else bodyStoreId
  }

  const NoStoreIds: Error := Raise(BadRequest, "No store ids provided")
  const NoAccess: Error := Raise(ForbiddenAccess, "User does not have access to the requested store")

  /** The subtree decision on two well-formed ids, after the conversion to
      object ids and back to strings. */
  predicate Allowed(t: Tree, userStoreId: string, targetStoreId: string)
    requires IsHexId(userStoreId) && IsHexId(targetStoreId)
  {
    IsInSubtree(t, CreateFromHexString(userStoreId).value, CreateFromHexString(targetStoreId).value)
  }

  /** `StoreAccessMiddleware.verifyAccess`: `Success(Unit)` is the call to
      `next()` with no error, so the request goes on unchanged. */
  function VerifyAccess(state: State, paramStoreId: Option<string>, bodyStoreId: Option<string>,
                        userStoreId: Option<string>): (r: Result<Unit, Error>)
    ensures var target := TargetStoreId(paramStoreId, bodyStoreId);
            !Truthy(target) || !Truthy(userStoreId) ==> r == Failure(NoStoreIds)
    ensures var target := TargetStoreId(paramStoreId, bodyStoreId);
            (Truthy(target) && Truthy(userStoreId) && (!IsHexId(target.value) || !IsHexId(userStoreId.value)))
              ==> r == Failure(MalformedIdError)
    ensures var target := TargetStoreId(paramStoreId, bodyStoreId);
            r.Success? <==>
              && Truthy(target) && Truthy(userStoreId)
              && IsHexId(target.value) && IsHexId(userStoreId.value)
              && state.Some? && Allowed(state.value, userStoreId.value, target.value)
    ensures var target := TargetStoreId(paramStoreId, bodyStoreId);
            (&& Truthy(target) && Truthy(userStoreId) && IsHexId(target.value) && IsHexId(userStoreId.value)
             && state.Some? && !Allowed(state.value, userStoreId.value, target.value))
              ==> r == Failure(NoAccess)
    ensures var target := TargetStoreId(paramStoreId, bodyStoreId);
            (&& Truthy(target) && Truthy(userStoreId) && IsHexId(target.value) && IsHexId(userStoreId.value)
             && state.None?)
              ==> r == Failure(NotInitialized)
  {
    var target := TargetStoreId(paramStoreId, bodyStoreId);
    if !Truthy(target) || !Truthy(userStoreId) then Failure(NoStoreIds)
    else
      var targetId :- CreateFromHexString(target.value).ToResult(MalformedIdError);
      var rootId :- CreateFromHexString(userStoreId.value).ToResult(MalformedIdError);
      var tree :- GetInstance(state);
      if IsInSubtree(tree, rootId, targetId) then Success(Unit) else Failure(NoAccess)
  }

  /** A target the index does not know is always refused. */
  lemma UnknownTargetDenied(state: State, paramStoreId: Option<string>, bodyStoreId: Option<string>,
                            userStoreId: Option<string>)
    requires var target := TargetStoreId(paramStoreId, bodyStoreId);
             && target.Some? && IsHexId(target.value)
             && state.Some? && CreateFromHexString(target.value).value !in state.value.ancestry
    ensures VerifyAccess(state, paramStoreId, bodyStoreId, userStoreId).Failure?
  {
  }

  /** A caller may always reach its own store, once the index has been built
      from a node list that lists that store. */
  lemma OwnStoreAllowed(nodes: seq<StoreNode>, storeId: string, bodyStoreId: Option<string>)
    requires IsCanonical(storeId) && storeId in Ids(nodes)
    ensures VerifyAccess(Some(BuildAncestryIndex(nodes)), Some(storeId), bodyStoreId, Some(storeId)) == Success(Unit)
  {
    CanonicalRoundTrip(storeId);
    BuiltSubtreeReflexive(nodes, storeId);
  }

  /** A caller whose store a node lists as an ancestor may reach that node. */
  lemma AncestorAllowed(nodes: seq<StoreNode>, j: int, userStoreId: string)
    requires 0 <= j < |nodes| && FirstSeen(nodes, j)
    requires IsCanonical(userStoreId) && IsCanonical(nodes[j].id)
    requires userStoreId in nodes[j].ancestorIds
    ensures VerifyAccess(Some(BuildAncestryIndex(nodes)), Some(nodes[j].id), None, Some(userStoreId)) == Success(Unit)
  {
    CanonicalRoundTrip(userStoreId);
    CanonicalRoundTrip(nodes[j].id);
    ListedAncestorCovers(nodes, j, userStoreId);
  }
}
