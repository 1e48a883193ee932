/** Ordering users by username, as the database's `$sort: { username: 1 }`
    stage does: an insertion sort on stored documents under the binary order
    on strings. */
module UserOrder {
  import opened Strings
  import opened Entities

  predicate SortedByUsername(s: seq<UserDoc>) {
    forall i, j :: 0 <= i < j < |s| ==> LexLe(s[i].username, s[j].username)
  }

  /** No two positions hold the same username, as the unique index on
      `username` guarantees for the user collection. */
  predicate UniqueUsernames(s: seq<UserDoc>) {
    forall i, j :: 0 <= i < j < |s| ==> s[i].username != s[j].username
  }

  /** `d` placed before the first document whose username it does not
      exceed. */
  function Insert(d: UserDoc, s: seq<UserDoc>): (r: seq<UserDoc>)
    requires SortedByUsername(s)
    ensures SortedByUsername(r)
    ensures multiset(r) == multiset(s) + multiset{d}
    ensures forall x :: x in r <==> x == d || x in s
    ensures UniqueUsernames(s) && (forall x :: x in s ==> x.username != d.username) ==> UniqueUsernames(r)
  {
    if |s| == 0 then [d]
    else if LexLe(d.username, s[0].username) then
      InsertFront(d, s);
      UniqueCons(d, s);
      [d] + s
    else
      var rest := Insert(d, s[1..]);
      assert s == [s[0]] + s[1..];
      LexLeTotal(d.username, s[0].username);
      InsertBehind(s[0], d, s[1..], rest);
      UniqueCons(s[0], rest);
      UniqueCons(s[0], s[1..]);
      [s[0]] + rest
  }

  /** A head whose username the rest does not hold keeps usernames unique;
      and a head that some element repeats, or a rest that repeats one,
      does not. */
  lemma UniqueCons(h: UserDoc, rest: seq<UserDoc>)
    ensures UniqueUsernames([h] + rest) <==>
              UniqueUsernames(rest) && forall x :: x in rest ==> x.username != h.username
  {
    var s := [h] + rest;
    if UniqueUsernames(s) {
      forall i, j | 0 <= i < j < |rest| ensures rest[i].username != rest[j].username {
        assert s[i + 1] == rest[i] && s[j + 1] == rest[j];
      }
      forall x | x in rest ensures x.username != h.username {
        var k :| 0 <= k < |rest| && rest[k] == x;
        assert s[0] == h && s[k + 1] == x;
      }
    }
  }

  /** A document no greater than the head of a sorted sequence can lead it. */
  lemma InsertFront(d: UserDoc, s: seq<UserDoc>)
    requires SortedByUsername(s) && |s| > 0 && LexLe(d.username, s[0].username)
    ensures SortedByUsername([d] + s)
  {
    forall i, j | 0 <= i < j < |[d] + s|
      ensures LexLe(([d] + s)[i].username, ([d] + s)[j].username)
    {
      if i == 0 && j > 1 {
        LexLeTransitive(d.username, s[0].username, s[j - 1].username);
      }
    }
  }

  /** The head stays in front when the rest, holding only greater documents,
      is sorted. */
  lemma InsertBehind(head: UserDoc, d: UserDoc, tail: seq<UserDoc>, rest: seq<UserDoc>)
    requires SortedByUsername([head] + tail) && SortedByUsername(rest)
    requires LexLe(head.username, d.username)
    requires forall x :: x in rest ==> x == d || x in tail
    ensures SortedByUsername([head] + rest)
  {
    forall i, j | 0 <= i < j < |[head] + rest|
      ensures LexLe(([head] + rest)[i].username, ([head] + rest)[j].username)
    {
      var x := rest[j - 1];
      assert ([head] + rest)[j] == x;
      if i == 0 {
        assert x in rest;
        if x != d {
          var k :| 0 <= k < |tail| && tail[k] == x;
          assert ([head] + tail)[0] == head && ([head] + tail)[k + 1] == x;
        }
      } else {
        assert ([head] + rest)[i] == rest[i - 1];
      }
    }
  }

  /** The documents in username order. */
  function SortByUsername(s: seq<UserDoc>): (r: seq<UserDoc>)
    ensures SortedByUsername(r)
    ensures multiset(r) == multiset(s)
    ensures forall x :: x in r <==> x in s
    ensures UniqueUsernames(s) ==> UniqueUsernames(r)
  {
    if |s| == 0 then []
    else
      assert s == [s[0]] + s[1..];
      var rest := SortByUsername(s[1..]);
      assert UniqueUsernames(s) ==> forall x :: x in rest ==> x.username != s[0].username;
      Insert(s[0], rest)
  }

  /** With unique usernames there is only one username order: two sorted
      arrangements of the same documents are the same sequence. */
  lemma {:induction false} SortedArrangementUnique(s: seq<UserDoc>, t: seq<UserDoc>)
    requires SortedByUsername(s) && SortedByUsername(t) && UniqueUsernames(s)
    requires multiset(s) == multiset(t)
    ensures s == t
  {
    if |s| == 0 {
      assert |t| == |multiset(t)| == 0;
    } else {
      SortedHeadsAgree(s, t);
      TailKeepsOrder(s);
      TailKeepsOrder(t);
      SortedArrangementUnique(s[1..], t[1..]);
      assert s == [s[0]] + s[1..] && t == [t[0]] + t[1..];
    }
  }

  /** Dropping the head keeps order and uniqueness and removes one copy of
      the head. */
  lemma TailKeepsOrder(s: seq<UserDoc>)
    requires |s| > 0
    ensures SortedByUsername(s) ==> SortedByUsername(s[1..])
    ensures UniqueUsernames(s) ==> UniqueUsernames(s[1..])
    ensures multiset(s[1..]) == multiset(s) - multiset{s[0]}
  {
    assert s == [s[0]] + s[1..];
  }

  /** Both arrangements start with the document of least username. */
  lemma SortedHeadsAgree(s: seq<UserDoc>, t: seq<UserDoc>)
    requires SortedByUsername(s) && SortedByUsername(t) && UniqueUsernames(s)
    requires multiset(s) == multiset(t) && |s| > 0
    ensures |t| > 0 && s[0] == t[0]
  {
    assert s[0] in multiset(t);
    var k :| 0 <= k < |t| && t[k] == s[0];
    assert t[0] in multiset(s);
    var m :| 0 <= m < |s| && s[m] == t[0];
    if m > 0 && k > 0 {
      assert LexLe(s[0].username, s[m].username);
      assert LexLe(t[0].username, t[k].username);
      LexLeAntisymmetric(s[0].username, s[m].username);
    }
  }
}
