/** The user records of the users screen and the two list patches the
    screen applies after a successful mutation: removal by `id` (the
    `filter` of `handleDeleteUser`) and replacement by `id` (the `map` of
    `handleUpdateUser`). */
module UserList {
  import opened Values

  datatype Address = Address(
    street: string,
    neighborhood: string,
    zipcode: string,
    number: string,
    complement: string,
    city: string,
    state: string)

  /** A user as the server returns it; `id` is assigned by the server. */
  datatype User = User(
    id: string,
    name: string,
    email: string,
    password: string,
    phone: Option<string>,
    role: string,
    address: Option<Address>)

  /** `a` can be obtained from `b` by deleting elements: `a` keeps the
      relative order of what it takes from `b`. */
  ghost predicate IsSubsequence(a: seq<User>, b: seq<User>)
    decreases |b|
  {
    |a| == 0 || (|b| > 0 && ((a[0] == b[0] && IsSubsequence(a[1..], b[1..])) || IsSubsequence(a, b[1..])))
  }

  // ---------------------------------------------------------------------------
  // Removal by id
  // ---------------------------------------------------------------------------

  /** Keeps exactly the users whose `id` differs from `userId`. */
  function RemoveById(users: seq<User>, userId: string): (r: seq<User>)
    ensures |r| <= |users|
    ensures forall u :: u in r <==> u in users && u.id != userId
    decreases |users|
  {
    if |users| == 0 then []
    else if users[0].id == userId then RemoveById(users[1..], userId)
    else [users[0]] + RemoveById(users[1..], userId)
  }

  /** Every user keeps its multiplicity unless its id matches, in which case
      all its copies are gone. */
  lemma {:induction false} RemoveByIdCounts(users: seq<User>, userId: string)
    ensures forall u :: multiset(RemoveById(users, userId))[u] ==
                        if u.id == userId then 0 else multiset(users)[u]
    decreases |users|
  {
    if |users| > 0 {
      RemoveByIdCounts(users[1..], userId);
      assert users == [users[0]] + users[1..];
      assert multiset(users) == multiset([users[0]]) + multiset(users[1..]);
      if users[0].id != userId {
        var r := RemoveById(users, userId);
        assert r == [users[0]] + RemoveById(users[1..], userId);
        assert multiset(r) == multiset([users[0]]) + multiset(RemoveById(users[1..], userId));
      }
    }
  }

  /** The users that survive keep their relative order. */
  lemma {:induction false} RemoveByIdKeepsOrder(users: seq<User>, userId: string)
    ensures IsSubsequence(RemoveById(users, userId), users)
    decreases |users|
  {
    if |users| > 0 {
      RemoveByIdKeepsOrder(users[1..], userId);
      var r := RemoveById(users, userId);
      if users[0].id != userId {
        assert r[0] == users[0] && r[1..] == RemoveById(users[1..], userId);
      }
    }
  }

  /** Removal works piecewise: filtering a concatenation is concatenating
      the filtered parts. With the one-element cases this pins the result
      down completely: it is exactly the filter. */
  lemma {:induction false} RemoveByIdAppend(a: seq<User>, b: seq<User>, userId: string)
    ensures RemoveById(a + b, userId) == RemoveById(a, userId) + RemoveById(b, userId)
    decreases |a|
  {
    if |a| > 0 {
      assert (a + b)[1..] == a[1..] + b;
      RemoveByIdAppend(a[1..], b, userId);
    } else {
      assert a + b == b;
    }
  }

  /** Removal changes nothing exactly when no user carries the id. */
  lemma {:induction false} RemoveByIdUnchanged(users: seq<User>, userId: string)
    ensures RemoveById(users, userId) == users <==> forall u :: u in users ==> u.id != userId
    decreases |users|
  {
    if |users| > 0 {
      RemoveByIdUnchanged(users[1..], userId);
      if forall u :: u in users ==> u.id != userId {
        assert users[0] in users;
        assert forall u :: u in users[1..] ==> u in users;
      }
    }
  }

  /** Removing twice is removing once. */
  lemma RemoveByIdIdempotent(users: seq<User>, userId: string)
    ensures RemoveById(RemoveById(users, userId), userId) == RemoveById(users, userId)
  {
    RemoveByIdUnchanged(RemoveById(users, userId), userId);
  }

  // ---------------------------------------------------------------------------
  // Replacement by id
  // ---------------------------------------------------------------------------

  /** Puts `updated` at every position whose user has `updated`'s id and
      leaves every other position as it was. */
  function ReplaceById(users: seq<User>, updated: User): (r: seq<User>)
    ensures |r| == |users|
    ensures forall i :: 0 <= i < |users| ==>
              r[i] == if users[i].id == updated.id then updated else users[i]
    decreases |users|
  {
    if |users| == 0 then []
    else [if users[0].id == updated.id then updated else users[0]] + ReplaceById(users[1..], updated)
  }

  /** Every id sits where it sat before: replacement never reorders, adds or
      drops a user, it only swaps values. */
  lemma ReplaceByIdKeepsIds(users: seq<User>, updated: User)
    ensures forall i :: 0 <= i < |users| ==> ReplaceById(users, updated)[i].id == users[i].id
  {
  }

  /** `updated` is in the result exactly when it was already there or some
      user carried its id; every user with that id is now `updated`. */
  lemma ReplaceByIdMembership(users: seq<User>, updated: User)
    ensures updated in ReplaceById(users, updated) <==>
            updated in users || exists u :: u in users && u.id == updated.id
    ensures forall u :: u in ReplaceById(users, updated) && u.id == updated.id ==> u == updated
    ensures forall u :: u in ReplaceById(users, updated) && u.id != updated.id ==> u in users
  {
    var r := ReplaceById(users, updated);
    if exists u :: u in users && u.id == updated.id {
      var u :| u in users && u.id == updated.id;
      var i :| 0 <= i < |users| && users[i] == u;
      assert r[i] == updated;
    }
    if updated in users {
      var i :| 0 <= i < |users| && users[i] == updated;
      assert r[i] == updated;
    }
  }

  /** Replacement changes nothing exactly when every user carrying the id is
      already equal to `updated`. */
  lemma ReplaceByIdUnchanged(users: seq<User>, updated: User)
    ensures ReplaceById(users, updated) == users <==>
            forall u :: u in users && u.id == updated.id ==> u == updated
  {
    var r := ReplaceById(users, updated);
    if r == users {
      forall u | u in users && u.id == updated.id
        ensures u == updated
      {
        var i :| 0 <= i < |users| && users[i] == u;
        assert r[i] == updated;
      }
    }
  }

  /** Replacing twice with the same user is replacing once. */
  lemma ReplaceByIdIdempotent(users: seq<User>, updated: User)
    ensures ReplaceById(ReplaceById(users, updated), updated) == ReplaceById(users, updated)
  {
    ReplaceByIdMembership(users, updated);
    ReplaceByIdUnchanged(ReplaceById(users, updated), updated);
  }

  /** Replacement works piecewise over a concatenation. */
  lemma ReplaceByIdAppend(a: seq<User>, b: seq<User>, updated: User)
    ensures ReplaceById(a + b, updated) == ReplaceById(a, updated) + ReplaceById(b, updated)
  {
  }
}
