/** The personnel listing request: which store, which roles, whether to
    include the stores below it, and which page. */
module PersonnelRequest {
  import opened Wrappers
  import opened Errors
  import opened Entities

  /** The query string as the route receives it. `limit` and `offset` are the
      numbers the query carries. */
  datatype PersonnelQuery = PersonnelQuery(
    requestedType: Option<string>,
    includeChildNodes: Option<string>,
    limit: nat,
    offset: nat)

  datatype GetPersonnelRequest = GetPersonnelRequest(
    caller: Identity,
    targetStoreId: string,
    personnelType: PersonnelType,
    includeChildNodes: bool,
    limit: nat,
    offset: nat)

  const ManagerListingRefused: Error := Raise(UnauthorizedAccess, "You are not authorized to get manager personnel")

  /** The `switch` on the requested type: asking for managers needs the
      manager role; any value other than `manager` and `employee` (absent,
      `all` or anything else) falls to the default, which depends only on the
      caller's role. */
  function ResolveType(requested: Option<string>, userRole: string): (r: Result<PersonnelType, Error>)
    ensures requested == Some(ManagerRole) && userRole != ManagerRole ==> r == Failure(ManagerListingRefused)
    ensures requested == Some(ManagerRole) && userRole == ManagerRole ==> r == Success(Manager)
    ensures requested == Some(EmployeeRole) ==> r == Success(Employee)
    ensures requested != Some(ManagerRole) && requested != Some(EmployeeRole) ==>
              r == Success(if userRole == ManagerRole then All else Employee)
  {
    match requested
    case Some("manager") =>
      if userRole != ManagerRole then Failure(ManagerListingRefused) else Success(Manager)
    case Some("employee") => Success(Employee)
    case _ => Success(if userRole == ManagerRole then All else Employee)
  }

  /** `includeChildNodes === 'true'`: only that exact string turns it on. */
  function IncludeChildNodes(query: Option<string>): (b: bool)
    ensures b <==> query.Some? && query.value == "true"
  {
    match query
    case Some("true") => true
    case _ => false
  }

  /** The constructor of `GetPersonnelRequest`: the only way it fails is the
      manager listing refused to a non-manager. */
  function NewGetPersonnelRequest(caller: Identity, storeIdParam: string, query: PersonnelQuery): (r: Result<GetPersonnelRequest, Error>)
    ensures r.Failure? <==> query.requestedType == Some(ManagerRole) && caller.role != ManagerRole
    ensures r.Failure? ==> r.error == ManagerListingRefused
    ensures r.Success? ==>
              && r.value.caller == caller
              && r.value.targetStoreId == storeIdParam
              && (r.value.includeChildNodes <==> query.includeChildNodes == Some("true"))
              && r.value.limit == query.limit && r.value.offset == query.offset
              && Success(r.value.personnelType) == ResolveType(query.requestedType, caller.role)
  {
    var t :- ResolveType(query.requestedType, caller.role);
    Success(GetPersonnelRequest(caller, storeIdParam, t, IncludeChildNodes(query.includeChildNodes), query.limit, query.offset))
  }

  /** A caller without the manager role only ever lists employees. */
  lemma NonManagerSeesEmployeesOnly(requested: Option<string>, userRole: string)
    requires userRole != ManagerRole
    ensures ResolveType(requested, userRole).Success? ==> ResolveType(requested, userRole).value == Employee
  {
  }

  /** Only a manager can obtain a listing that includes managers. */
  lemma ManagersVisibleOnlyToManagers(requested: Option<string>, userRole: string)
    requires ResolveType(requested, userRole).Success?
    requires RoleFilter(ResolveType(requested, userRole).value) != Some(EmployeeRole)
    ensures userRole == ManagerRole
  {
  }

  /** Asking for `all` is the same as asking for nothing. */
  lemma AllIsDefault(userRole: string)
    ensures ResolveType(Some("all"), userRole) == ResolveType(None, userRole)
  {
  }
}
