/** The user repository over an abstract collection of stored documents: the
    paged personnel query, login and creation. */
module UserRepo {
  import opened Wrappers
  import opened Errors
  import opened Strings
  import opened ObjectIds
  import opened Entities
  import opened UserOrder

  /** The hard cap the query puts on a page. */
  const MaxPageSize: nat := 1000

  /** What the database answers to a `$limit` stage of zero. */
  const NonPositiveLimit: Error := RuntimeError("the limit must be positive")

  function Min(a: nat, b: nat): (m: nat)
    ensures m <= a && m <= b && (m == a || m == b)
  {
    if a <= b then a else b
  }

  /** `storeIds.map(createFromHexString)`: the first malformed id aborts the
      whole conversion. */
  function ParseAll(ids: seq<string>): (r: Option<seq<string>>)
    ensures r.Some? <==> forall i :: 0 <= i < |ids| ==> IsHexId(ids[i])
    ensures r.Some? ==> |r.value| == |ids|
    ensures r.Some? ==> forall i :: 0 <= i < |ids| ==> CreateFromHexString(ids[i]) == Some(r.value[i])
  {
    if |ids| == 0 then Some([])
    else
      var head :- CreateFromHexString(ids[0]);
      var tail :- ParseAll(ids[1..]);
      assert forall i :: 1 <= i < |ids| ==> ids[i] == ids[1..][i - 1];
      Some([head] + tail)
  }

  /** The `$match` filter: the document's store is one of the ids and, unless
      every role is wanted, its role is the one asked for. */
  predicate Matches(d: UserDoc, storeIds: set<string>, t: PersonnelType) {
    d.storeId in storeIds && (t == All || Some(d.role) == RoleFilter(t))
  }

  function FilterDocs(docs: seq<UserDoc>, storeIds: set<string>, t: PersonnelType): (r: seq<UserDoc>)
    ensures forall d :: d in r <==> d in docs && Matches(d, storeIds, t)
    ensures |r| <= |docs|
    ensures UniqueUsernames(docs) ==> UniqueUsernames(r)
  {
    if |docs| == 0 then []
    else
      var rest := FilterDocs(docs[1..], storeIds, t);
      assert docs == [docs[0]] + docs[1..];
      UniqueCons(docs[0], docs[1..]);
      if Matches(docs[0], storeIds, t) then
        UniqueCons(docs[0], rest);
        [docs[0]] + rest
      else rest
  }

  /** `$skip: offset` followed by `$limit: count`. */
  function Window<T>(s: seq<T>, offset: nat, count: nat): (r: seq<T>)
    ensures |r| == if offset >= |s| then 0 else Min(count, |s| - offset)
    ensures forall i :: 0 <= i < |r| ==> r[i] == s[offset + i]
  {
    if offset >= |s| then [] else s[offset..offset + Min(count, |s| - offset)]
  }

  function ToUsers(docs: seq<UserDoc>): (users: seq<User>)
    ensures |users| == |docs|
    ensures forall i :: 0 <= i < |docs| ==> users[i] == ToUser(docs[i])
  {
    seq(|docs|, i requires 0 <= i < |docs| => ToUser(docs[i]))
  }

  /** `UserRepository.getByStoreIdsPaged`: the users of the given stores (and
      role), in username order, from position `offset`, at most
      `min(limit, 1000)` of them. */
  function GetByStoreIdsPaged(docs: seq<UserDoc>, storeIds: seq<string>, t: PersonnelType,
                              limit: nat, offset: nat): (r: Result<seq<User>, Error>)
    ensures (exists i :: 0 <= i < |storeIds| && !IsHexId(storeIds[i])) ==> r == Failure(MalformedIdError)
    ensures (forall i :: 0 <= i < |storeIds| ==> IsHexId(storeIds[i])) && limit == 0 ==> r == Failure(NonPositiveLimit)
    ensures r.Success? <==> limit > 0 && forall i :: 0 <= i < |storeIds| ==> IsHexId(storeIds[i])
    ensures r.Success? ==> |r.value| <= Min(limit, MaxPageSize)
    ensures r.Success? ==> forall i, j :: 0 <= i < j < |r.value| ==> LexLe(r.value[i].username, r.value[j].username)
    ensures r.Success? ==> forall u :: u in r.value ==>
              && (exists d :: d in docs && u == ToUser(d))
              && (exists k :: 0 <= k < |storeIds| && CreateFromHexString(storeIds[k]) == Some(u.storeId))
              && (t != All ==> Some(u.role) == RoleFilter(t))
  {
    var ids :- ParseAll(storeIds).ToResult(MalformedIdError);
    if limit == 0 then Failure(NonPositiveLimit)
    else
      var matched := FilterDocs(docs, (set k | k in ids), t);
      var sorted := SortByUsername(matched);
      var page := Window(sorted, offset, Min(limit, MaxPageSize));
      assert forall u :: u in ToUsers(page) ==> exists d :: d in matched && u == ToUser(d) by {
        forall u | u in ToUsers(page) ensures exists d :: d in matched && u == ToUser(d) {
          var i :| 0 <= i < |page| && ToUsers(page)[i] == u;
          assert page[i] == sorted[offset + i];
          assert page[i] in sorted;
        }
      }
      Success(ToUsers(page))
  }

  /** A sequence with unique usernames holds each of its elements once. */
  lemma {:induction false} CountsOfUnique(s: seq<UserDoc>)
    requires UniqueUsernames(s)
    ensures forall x :: multiset(s)[x] == if x in s then 1 else 0
  {
    if |s| > 0 {
      assert s == [s[0]] + s[1..];
      UniqueCons(s[0], s[1..]);
      CountsOfUnique(s[1..]);
    }
  }

  /** Two duplicate-free listings with the same members are arrangements of
      each other. */
  lemma SameMembersSameMultiset(a: seq<UserDoc>, b: seq<UserDoc>)
    requires UniqueUsernames(a) && UniqueUsernames(b)
    requires forall x :: x in a <==> x in b
    ensures multiset(a) == multiset(b)
  {
    CountsOfUnique(a);
    CountsOfUnique(b);
  }

  /** The matching documents in username order, before paging. */
  function Listing(docs: seq<UserDoc>, ids: seq<string>, t: PersonnelType): seq<UserDoc> {
    SortByUsername(FilterDocs(docs, (set k | k in ids), t))
  }

  /** A successful page is a window of the listing. */
  lemma PagedIsWindow(docs: seq<UserDoc>, storeIds: seq<string>, t: PersonnelType, limit: nat, offset: nat)
    requires GetByStoreIdsPaged(docs, storeIds, t, limit, offset).Success?
    ensures ParseAll(storeIds).Some?
    ensures GetByStoreIdsPaged(docs, storeIds, t, limit, offset).value
              == ToUsers(Window(Listing(docs, ParseAll(storeIds).value, t), offset, Min(limit, MaxPageSize)))
  {
  }

  /** The converted ids name the same stores as the ids given. */
  lemma ParsedIdSet(storeIds: seq<string>, storeId: string)
    requires ParseAll(storeIds).Some?
    ensures storeId in ParseAll(storeIds).value <==>
              exists k :: 0 <= k < |storeIds| && CreateFromHexString(storeIds[k]) == Some(storeId)
  {
    var ids := ParseAll(storeIds).value;
    if storeId in ids {
      var j :| 0 <= j < |ids| && ids[j] == storeId;
      assert CreateFromHexString(storeIds[j]) == Some(storeId);
    }
  }

  /** The reference definition of a page: take the matching documents listed
      once each in username order, however obtained, and cut the window. */
  lemma PageIsWindow(docs: seq<UserDoc>, storeIds: seq<string>, t: PersonnelType,
                     limit: nat, offset: nat, listing: seq<UserDoc>)
    requires UniqueUsernames(docs)
    requires GetByStoreIdsPaged(docs, storeIds, t, limit, offset).Success?
    requires SortedByUsername(listing) && UniqueUsernames(listing)
    requires forall d :: d in listing <==>
               && d in docs
               && (exists k :: 0 <= k < |storeIds| && CreateFromHexString(storeIds[k]) == Some(d.storeId))
               && (t == All || Some(d.role) == RoleFilter(t))
    ensures GetByStoreIdsPaged(docs, storeIds, t, limit, offset).value
              == ToUsers(Window(listing, offset, Min(limit, MaxPageSize)))
  {
    PagedIsWindow(docs, storeIds, t, limit, offset);
    var ids := ParseAll(storeIds).value;
    var matched := FilterDocs(docs, (set k | k in ids), t);
    forall d ensures d in listing <==> d in matched {
      ParsedIdSet(storeIds, d.storeId);
    }
    var sorted := SortByUsername(matched);
    SameMembersSameMultiset(listing, sorted);
    SortedArrangementUnique(listing, sorted);
  }

  /** Consecutive pages of the same size never repeat a user. */
  lemma ConsecutivePagesDisjoint(docs: seq<UserDoc>, storeIds: seq<string>, t: PersonnelType,
                                 size: nat, offset: nat)
    requires UniqueUsernames(docs)
    requires 1 <= size
    requires GetByStoreIdsPaged(docs, storeIds, t, size, offset).Success?
    ensures forall u :: u in GetByStoreIdsPaged(docs, storeIds, t, size, offset).value ==>
              u !in GetByStoreIdsPaged(docs, storeIds, t, size, offset + size).value
  {
    PagedIsWindow(docs, storeIds, t, size, offset);
    PagedIsWindow(docs, storeIds, t, size, offset + size);
    var sorted := Listing(docs, ParseAll(storeIds).value, t);
    var first := GetByStoreIdsPaged(docs, storeIds, t, size, offset).value;
    var second := GetByStoreIdsPaged(docs, storeIds, t, size, offset + size).value;
    forall u | u in first ensures u !in second {
      var i :| 0 <= i < |first| && first[i] == u;
      assert u.username == sorted[offset + i].username;
      forall j | 0 <= j < |second| ensures second[j] != u {
        assert second[j].username == sorted[offset + size + j].username;
      }
    }
  }

  lemma ToUsersConcat(a: seq<UserDoc>, b: seq<UserDoc>)
    ensures ToUsers(a + b) == ToUsers(a) + ToUsers(b)
  {
  }

  /** Two windows of one size read back to back form the window of twice
      that size. */
  lemma WindowsTile<T>(s: seq<T>, offset: nat, size: nat)
    ensures Window(s, offset, size) + Window(s, offset + size, size) == Window(s, offset, 2 * size)
  {
    var a, b, c := Window(s, offset, size), Window(s, offset + size, size), Window(s, offset, 2 * size);
    assert |a + b| == |c|;
    forall i | 0 <= i < |c| ensures (a + b)[i] == c[i] {
      if i >= |a| {
        assert (a + b)[i] == b[i - |a|];
      }
    }
  }

  /** Two pages of one size read back to back are the page of twice that
      size, while the cap allows it. */
  lemma PagesTile(docs: seq<UserDoc>, storeIds: seq<string>, t: PersonnelType, size: nat, offset: nat)
    requires 1 <= size && 2 * size <= MaxPageSize
    requires GetByStoreIdsPaged(docs, storeIds, t, size, offset).Success?
    ensures GetByStoreIdsPaged(docs, storeIds, t, size, offset).value
              + GetByStoreIdsPaged(docs, storeIds, t, size, offset + size).value
            == GetByStoreIdsPaged(docs, storeIds, t, 2 * size, offset).value
  {
    PagedIsWindow(docs, storeIds, t, size, offset);
    PagedIsWindow(docs, storeIds, t, size, offset + size);
    PagedIsWindow(docs, storeIds, t, 2 * size, offset);
    var sorted := Listing(docs, ParseAll(storeIds).value, t);
    WindowsTile(sorted, offset, size);
    ToUsersConcat(Window(sorted, offset, size), Window(sorted, offset + size, size));
  }

  /** Listing every role includes every employee and every manager listing
      of the same stores. */
  lemma AllIncludesEachRole(docs: seq<UserDoc>, storeIds: set<string>, t: PersonnelType)
    ensures forall d :: d in FilterDocs(docs, storeIds, t) ==> d in FilterDocs(docs, storeIds, All)
  {
  }

  /** Widening the store set never loses a user. */
  lemma WiderScopeListsMore(docs: seq<UserDoc>, narrow: set<string>, wide: set<string>, t: PersonnelType)
    requires narrow <= wide
    ensures forall d :: d in FilterDocs(docs, narrow, t) ==> d in FilterDocs(docs, wide, t)
  {
  }

  /** A duplicate-free listing whose members all appear in another
      duplicate-free listing is no longer than it. */
  lemma UniqueSubsetShorter(a: seq<UserDoc>, b: seq<UserDoc>)
    requires UniqueUsernames(a) && UniqueUsernames(b)
    requires forall x :: x in a ==> x in b
    ensures |a| <= |b|
  {
    CountsOfUnique(a);
    CountsOfUnique(b);
    assert multiset(a) <= multiset(b);
    assert multiset(b) == multiset(a) + (multiset(b) - multiset(a));
    assert |multiset(b)| == |multiset(a)| + |multiset(b) - multiset(a)|;
  }

  /** Over more stores the listing is at least as long. */
  lemma WiderScopeLongerListing(docs: seq<UserDoc>, narrow: seq<string>, wide: seq<string>, t: PersonnelType)
    requires UniqueUsernames(docs)
    requires forall k :: k in narrow ==> k in wide
    ensures |Listing(docs, narrow, t)| <= |Listing(docs, wide, t)|
  {
    var a := FilterDocs(docs, (set k | k in narrow), t);
    var b := FilterDocs(docs, (set k | k in wide), t);
    UniqueSubsetShorter(a, b);
    assert |Listing(docs, narrow, t)| == |multiset(a)|;
    assert |Listing(docs, wide, t)| == |multiset(b)|;
  }

  // Login

  const UserNotFound: Error := Raise(UnauthorizedAccess, "User not found")
  const InvalidCredentials: Error := Raise(UnauthorizedAccess, "Invalid credentials")

  /** `findOne({ username })`: the first stored document with that name. */
  function FindByUsername(docs: seq<UserDoc>, username: string): (r: Option<UserDoc>)
    ensures r.None? <==> forall d :: d in docs ==> d.username != username
    ensures r.Some? ==> r.value in docs && r.value.username == username
  {
    if |docs| == 0 then None
    else if docs[0].username == username then Some(docs[0])
    else
      assert docs == [docs[0]] + docs[1..];
      FindByUsername(docs[1..], username)
  }

  /** `UserRepository.login`. `verifyPassword(stored, candidate)` stands for
      the salted hash comparison on the stored password. */
  function Login(docs: seq<UserDoc>, username: string, candidate: string,
                 verifyPassword: (string, string) -> bool): (r: Result<User, Error>)
    ensures (forall d :: d in docs ==> d.username != username) ==> r == Failure(UserNotFound)
    ensures r.Success? ==> exists d :: d in docs && d.username == username
                                       && verifyPassword(d.password, candidate) && r.value == ToUser(d)
    ensures r.Failure? ==> r.error == UserNotFound || r.error == InvalidCredentials
  {
    var found := FindByUsername(docs, username);
    if found.None? then Failure(UserNotFound)
    else if !verifyPassword(found.value.password, candidate) then Failure(InvalidCredentials)
    else Success(ToUser(found.value))
  }

  /** Under unique usernames, login succeeds exactly for the stored user's
      password, and every other attempt on an existing name is refused as
      invalid credentials. */
  lemma LoginDecision(docs: seq<UserDoc>, d: UserDoc, candidate: string, verifyPassword: (string, string) -> bool)
    requires UniqueUsernames(docs) && d in docs
    ensures verifyPassword(d.password, candidate) ==> Login(docs, d.username, candidate, verifyPassword) == Success(ToUser(d))
    ensures !verifyPassword(d.password, candidate) ==> Login(docs, d.username, candidate, verifyPassword) == Failure(InvalidCredentials)
  {
    var found := FindByUsername(docs, d.username).value;
    var i :| 0 <= i < |docs| && docs[i] == d;
    var j :| 0 <= j < |docs| && docs[j] == found;
  }

  // Creation

  /** The attributes a new user is created from; `password` is the plain
      text, which the storage layer hashes before saving. */
  datatype CreateUserAttributes = CreateUserAttributes(
    username: string, password: string, name: string, role: string, storeId: string)

  const DuplicateUsernameMessage: string := "Username must be unique!"
  const DuplicateUsername: Error := Raise(BadRequest, DuplicateUsernameMessage)

  /** `UserRepository.create`. `insert` stands for the storage layer's create,
      which either returns the saved document or fails. */
  function Create(attrs: CreateUserAttributes, insert: CreateUserAttributes -> Result<UserDoc, Error>): (r: Result<User, Error>)
    ensures insert(attrs).Success? ==> r == Success(ToUser(insert(attrs).value))
    ensures (insert(attrs).Failure? && Contains(insert(attrs).error.message, DuplicateUsernameMessage))
              ==> r == Failure(DuplicateUsername)
    ensures (insert(attrs).Failure? && !Contains(insert(attrs).error.message, DuplicateUsernameMessage))
              ==> r == Failure(insert(attrs).error)
  {
    match insert(attrs)
    case Success(doc) => Success(ToUser(doc))
    case Failure(e) =>
      if Contains(e.message, DuplicateUsernameMessage) then Failure(DuplicateUsername) else Failure(e)
  }

  /** Creation fails with a bad request exactly when the storage layer reports
      the duplicate or itself failed with a bad request; no other failure
      changes kind. */
  lemma CreateErrorMapping(attrs: CreateUserAttributes, insert: CreateUserAttributes -> Result<UserDoc, Error>)
    requires insert(attrs).Failure?
    ensures Create(attrs, insert).Failure?
    ensures Create(attrs, insert).error.DomainError? && Create(attrs, insert).error.kind == BadRequest
            <==> Contains(insert(attrs).error.message, DuplicateUsernameMessage)
                 || (insert(attrs).error.DomainError? && insert(attrs).error.kind == BadRequest)
  {
  }
}
