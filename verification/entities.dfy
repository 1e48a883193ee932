/** The records the core reads and returns: store nodes, users as stored and
    as returned, the personnel visibility type and the caller identity. */
module Entities {
  import opened Wrappers

  /** One node of the store hierarchy, as loaded from the database: `parentId`
      is the direct parent (absent for a top-level node) and `ancestorIds` is
      meant to be the chain of ancestors from the top down to the parent. */
  datatype StoreNode = StoreNode(
    id: string,
    displayName: string,
    kind: string,
    parentId: Option<string>,
    ancestorIds: seq<string>)

  /** A user document as stored; `password` holds the salted hash and is
      never part of a returned user. */
  datatype UserDoc = UserDoc(
    username: string,
    password: string,
    name: string,
    role: string,
    storeId: string)

  /** The user entity built from a document. */
  datatype User = User(username: string, name: string, role: string, storeId: string)

  /** The user record sent back to clients. */
  datatype UserDto = UserDto(username: string, name: string, role: string, storeId: string)

  function ToUser(doc: UserDoc): (u: User)
    ensures u.username == doc.username && u.name == doc.name
    ensures u.role == doc.role && u.storeId == doc.storeId
  {
    User(doc.username, doc.name, doc.role, doc.storeId)
  }

  function ToDto(u: User): (d: UserDto)
    ensures d.username == u.username && d.name == u.name
    ensures d.role == u.role && d.storeId == u.storeId
  {
    UserDto(u.username, u.name, u.role, u.storeId)
  }

  /** What a client receives for a stored document is the document's four
      public fields; the password hash plays no part in it. */
  lemma ReturnedRecordOmitsPassword(doc: UserDoc, password: string)
    ensures ToDto(ToUser(doc.(password := password))) == ToDto(ToUser(doc))
    ensures var d := ToDto(ToUser(doc));
            d.username == doc.username && d.name == doc.name
            && d.role == doc.role && d.storeId == doc.storeId
  {
  }

  const ManagerRole: string := "manager"
  const EmployeeRole: string := "employee"

  /** Which personnel a listing shows: one role or every role. */
  datatype PersonnelType = Manager | Employee | All

  /** The role value a personnel type filters on; `All` filters on none. */
  function RoleFilter(t: PersonnelType): (r: Option<string>)
    ensures r.None? <==> t == All
    ensures t == Manager ==> r == Some(ManagerRole)
    ensures t == Employee ==> r == Some(EmployeeRole)
  {
    match t
    case Manager => Some(ManagerRole)
    case Employee => Some(EmployeeRole)
    case All => None
  }

  /** The caller's claims as the token middleware forwards them in the
      `username`, `store_id` and `user_role` request headers. */
  datatype Identity = Identity(username: string, storeId: string, role: string)
}
