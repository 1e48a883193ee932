/** `GET /:storeId/personnel` as the router chains it: token check, (schema
    validation), store access check, then the controller, which builds the
    request object and asks the service for the page. */
module PersonnelRoute {
  import opened Wrappers
  import opened Errors
  import opened ObjectIds
  import opened Entities
  import opened StoreTree
  import opened TokenValidation
  import opened StoreAccess
  import opened PersonnelRequest
  import opened StoreNodeService

  /** The route handler chain. A GET request has no body, so the access check
      only sees the route parameter. */
  function GetPersonnelRoute(state: State, docs: seq<UserDoc>, authorization: Option<string>,
                             verify: string -> Result<TokenPayload, Error>,
                             storeIdParam: string, query: PersonnelQuery): (r: Result<seq<UserDto>, Error>)
    ensures VerifyToken(authorization, verify).Failure? ==> r == VerifyToken(authorization, verify).PropagateFailure()
    ensures r.Success? ==>
              && VerifyToken(authorization, verify).Success?
              && var caller := VerifyToken(authorization, verify).value;
                 && VerifyAccess(state, Some(storeIdParam), None, Some(caller.storeId)) == Success(Unit)
                 && NewGetPersonnelRequest(caller, storeIdParam, query).Success?
    ensures VerifyToken(authorization, verify).Success? ==>
              var caller := VerifyToken(authorization, verify).value;
              var access := VerifyAccess(state, Some(storeIdParam), None, Some(caller.storeId));
              access.Failure? ==> r == Failure(access.error)
    ensures VerifyToken(authorization, verify).Success? ==>
              var caller := VerifyToken(authorization, verify).value;
              var request := NewGetPersonnelRequest(caller, storeIdParam, query);
              (&& VerifyAccess(state, Some(storeIdParam), None, Some(caller.storeId)).Success?
               && request.Failure?) ==> r == Failure(request.error)
    ensures VerifyToken(authorization, verify).Success? ==>
              var caller := VerifyToken(authorization, verify).value;
              var request := NewGetPersonnelRequest(caller, storeIdParam, query);
              (&& VerifyAccess(state, Some(storeIdParam), None, Some(caller.storeId)).Success?
               && request.Success?) ==>
                r == GetPersonnel(state, docs, storeIdParam, request.value.personnelType,
                                  request.value.includeChildNodes, request.value.limit, request.value.offset)
  {
    var caller :- VerifyToken(authorization, verify);
    var _ :- VerifyAccess(state, Some(storeIdParam), None, Some(caller.storeId));
    var request :- NewGetPersonnelRequest(caller, storeIdParam, query);
    GetPersonnel(state, docs, request.targetStoreId, request.personnelType, request.includeChildNodes,
                 request.limit, request.offset)
  }

  /** The access check runs before the requested type is looked at: an
      employee asking for managers of a store outside their subtree is told
      the store is forbidden, and only inside it that managers are not
      theirs to list. */
  lemma AccessCheckedBeforeVisibility(state: State, docs: seq<UserDoc>, authorization: Option<string>,
                                      verify: string -> Result<TokenPayload, Error>,
                                      storeIdParam: string, query: PersonnelQuery)
    requires VerifyToken(authorization, verify).Success?
    requires VerifyToken(authorization, verify).value.role != ManagerRole
    requires query.requestedType == Some(ManagerRole)
    ensures var caller := VerifyToken(authorization, verify).value;
            var access := VerifyAccess(state, Some(storeIdParam), None, Some(caller.storeId));
            && (access.Failure? ==> GetPersonnelRoute(state, docs, authorization, verify, storeIdParam, query) == Failure(access.error))
            && (access.Success? ==> GetPersonnelRoute(state, docs, authorization, verify, storeIdParam, query) == Failure(ManagerListingRefused))
  {
  }

  /** Whatever they ask for, callers without the manager role get back
      employees only. */
  lemma NonManagersSeeEmployeesOnly(state: State, docs: seq<UserDoc>, authorization: Option<string>,
                                    verify: string -> Result<TokenPayload, Error>,
                                    storeIdParam: string, query: PersonnelQuery)
    requires VerifyToken(authorization, verify).Success?
    requires VerifyToken(authorization, verify).value.role != ManagerRole
    requires GetPersonnelRoute(state, docs, authorization, verify, storeIdParam, query).Success?
    ensures forall d :: d in GetPersonnelRoute(state, docs, authorization, verify, storeIdParam, query).value ==>
              d.role == EmployeeRole
  {
    var caller := VerifyToken(authorization, verify).value;
    var request := NewGetPersonnelRequest(caller, storeIdParam, query).value;
    NonManagerSeesEmployeesOnly(query.requestedType, caller.role);
    forall d | d in GetPersonnelRoute(state, docs, authorization, verify, storeIdParam, query).value
      ensures d.role == EmployeeRole
    {
      PersonnelWithinScope(state, docs, storeIdParam, request.personnelType, request.includeChildNodes,
                           request.limit, request.offset, d);
    }
  }

  /** Everyone listed works in the requested store or, when child stores are
      included, in a store whose ancestry lists it; and the caller's store
      covers the requested store. */
  lemma ListedPersonnelInCallerSubtree(state: State, docs: seq<UserDoc>, authorization: Option<string>,
                                       verify: string -> Result<TokenPayload, Error>,
                                       storeIdParam: string, query: PersonnelQuery, d: UserDto)
    requires GetPersonnelRoute(state, docs, authorization, verify, storeIdParam, query).Success?
    requires d in GetPersonnelRoute(state, docs, authorization, verify, storeIdParam, query).value
    ensures var caller := VerifyToken(authorization, verify).value;
            && state.Some? && IsHexId(storeIdParam) && IsHexId(caller.storeId)
            && Allowed(state.value, caller.storeId, storeIdParam)
            && (|| CreateFromHexString(storeIdParam) == Some(d.storeId)
                || exists k :: k in state.value.ancestry && storeIdParam in state.value.ancestry[k]
                               && CreateFromHexString(k) == Some(d.storeId))
  {
    var caller := VerifyToken(authorization, verify).value;
    var request := NewGetPersonnelRequest(caller, storeIdParam, query).value;
    PersonnelWithinScope(state, docs, storeIdParam, request.personnelType, request.includeChildNodes,
                         request.limit, request.offset, d);
  }
}
