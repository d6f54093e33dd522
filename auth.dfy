/** The approval flow of backend/controllers/authController.js over the user
    collection: registration leaves a user pending, any approved user can
    approve or remove a pending one, and login approves an unapproved user as
    a side effect. Password hashing and comparison are parameters: the hash
    the registration stores, and whether the password matched. */
module Auth {
  import opened Common
  import opened Js
  import opened Responses
  import opened UserModel

  /** The outcome of `bcrypt.compare(password, user.password)`: the password
      matches the stored hash, it does not, or the call rejects because the
      password is missing or not a string. */
  datatype PasswordCheck = Matches | Mismatch | CompareThrows

  function IdIs(id: nat): User -> bool
  {
    (u: User) => u.id == id
  }

  /** `findOne({ email })`: the `lowercase` setter also runs on the query
      value, so the lookup is by the lower-cased e-mail. */
  function EmailIs(email: string): User -> bool
  {
    (u: User) => u.email == ToLower(email)
  }

  /** `approved: false` matches only a stored `false`, not a missing field. */
  predicate IsPending(u: User)
  {
    u.approved == Some(false)
  }

  /** The user as `.select("-password")` returns it: without the hash. */
  function Public(u: User): User
  {
    u.(password := "")
  }

  /** The sort key of `sort({ createdAt: -1 })`. */
  function NewestFirst(u: User): int
  {
    -u.createdAt
  }

  /** The sort key of `sort({ approvedAt: -1 })` among users that have an
      approval time. */
  function LatestApproval(u: User): int
  {
    if u.approvedAt.Some? then -u.approvedAt.value else 0
  }

  predicate ApprovedTimed(u: User)
  {
    IsApproved(u) && u.approvedAt.Some?
  }

  predicate ApprovedUntimed(u: User)
  {
    IsApproved(u) && u.approvedAt.None?
  }

  /** `getPendingUsers`: the pending users without their hashes, one entry
      per pending user, newest registration first. */
  function Pending(users: seq<User>): (r: seq<User>)
    ensures |r| == Count(users, IsPending)
    ensures forall i :: 0 <= i < |r| ==> From(r[i], users, IsPending, Public)
    ensures forall j :: 0 <= j < |users| && IsPending(users[j]) ==> Public(users[j]) in r
    ensures SortedBy(r, NewestFirst)
  {
    SortedImages(users, IsPending, Public, NewestFirst);
    SortBy(MapFilter(users, IsPending, Public), NewestFirst)
  }

  /** Splitting a count by a second predicate. */
  lemma {:induction false} CountApproved(users: seq<User>)
    ensures Count(users, ApprovedTimed) + Count(users, ApprovedUntimed) == Count(users, IsApproved)
  {
    if |users| > 0 {
      CountApproved(users[1..]);
    }
  }

  /** The timed and the untimed approved users together are the approved
      users. */
  lemma ApprovedParts(timed: seq<User>, untimed: seq<User>, users: seq<User>)
    requires forall i :: 0 <= i < |timed| ==> From(timed[i], users, ApprovedTimed, Public)
    requires forall i :: 0 <= i < |untimed| ==> From(untimed[i], users, ApprovedUntimed, Public)
    requires forall j :: 0 <= j < |users| && ApprovedTimed(users[j]) ==> Public(users[j]) in timed
    requires forall j :: 0 <= j < |users| && ApprovedUntimed(users[j]) ==> Public(users[j]) in untimed
    ensures forall i :: 0 <= i < |timed + untimed| ==> From((timed + untimed)[i], users, IsApproved, Public)
    ensures forall j :: 0 <= j < |users| && IsApproved(users[j]) ==> Public(users[j]) in timed + untimed
  {
    var r := timed + untimed;
    ConcatIndex(timed, untimed);
    forall i | 0 <= i < |r|
      ensures From(r[i], users, IsApproved, Public)
    {
      if i < |timed| {
        assert From(timed[i], users, ApprovedTimed, Public);
        var j :| 0 <= j < |users| && ApprovedTimed(users[j]) && timed[i] == Public(users[j]);
      } else {
        assert From(untimed[i - |timed|], users, ApprovedUntimed, Public);
        var j :| 0 <= j < |users| && ApprovedUntimed(users[j]) && untimed[i - |timed|] == Public(users[j]);
      }
    }
  }

  /** The timed users, sorted, ahead of the untimed ones: approval times
      descend and the missing ones come last. */
  lemma ApprovedOrder(timed: seq<User>, untimed: seq<User>, users: seq<User>)
    requires SortedBy(timed, LatestApproval)
    requires forall i :: 0 <= i < |timed| ==> From(timed[i], users, ApprovedTimed, Public)
    requires forall i :: 0 <= i < |untimed| ==> From(untimed[i], users, ApprovedUntimed, Public)
    ensures var r := timed + untimed;
      forall i, j :: 0 <= i < j < |r| && r[j].approvedAt.Some? ==>
        r[i].approvedAt.Some? && r[i].approvedAt.value >= r[j].approvedAt.value
  {
    var r := timed + untimed;
    ConcatIndex(timed, untimed);
    forall i | 0 <= i < |timed|
      ensures r[i].approvedAt.Some?
    {
      assert From(timed[i], users, ApprovedTimed, Public);
    }
    forall j | |timed| <= j < |r|
      ensures r[j].approvedAt.None?
    {
      assert From(untimed[j - |timed|], users, ApprovedUntimed, Public);
    }
    forall i, j | 0 <= i < j < |timed|
      ensures r[i].approvedAt.value >= r[j].approvedAt.value
    {
      assert LatestApproval(timed[i]) <= LatestApproval(timed[j]);
    }
  }

  /** `getApprovedUsers`: the approved users without their hashes, one entry
      per approved user, the most recent approval first; users approved
      without an approval time (by logging in) sort as nulls do, after all
      the others. */
  function Approved(users: seq<User>): (r: seq<User>)
    ensures |r| == Count(users, IsApproved)
    ensures forall i :: 0 <= i < |r| ==> From(r[i], users, IsApproved, Public)
    ensures forall j :: 0 <= j < |users| && IsApproved(users[j]) ==> Public(users[j]) in r
    ensures forall i, j :: 0 <= i < j < |r| && r[j].approvedAt.Some? ==>
      r[i].approvedAt.Some? && r[i].approvedAt.value >= r[j].approvedAt.value
  {
    ApprovedCount(users);
    ApprovedMembers(users);
    ApprovedSorted(users);
    SortBy(MapFilter(users, ApprovedTimed, Public), LatestApproval) + MapFilter(users, ApprovedUntimed, Public)
  }

  lemma ApprovedCount(users: seq<User>)
    ensures |SortBy(MapFilter(users, ApprovedTimed, Public), LatestApproval) + MapFilter(users, ApprovedUntimed, Public)|
      == Count(users, IsApproved)
  {
    SortedImages(users, ApprovedTimed, Public, LatestApproval);
    MapFilterCount(users, ApprovedUntimed, Public);
    CountApproved(users);
  }

  lemma ApprovedMembers(users: seq<User>)
    ensures var r := SortBy(MapFilter(users, ApprovedTimed, Public), LatestApproval) + MapFilter(users, ApprovedUntimed, Public);
      && (forall i :: 0 <= i < |r| ==> From(r[i], users, IsApproved, Public))
      && (forall j :: 0 <= j < |users| && IsApproved(users[j]) ==> Public(users[j]) in r)
  {
    var timed := SortBy(MapFilter(users, ApprovedTimed, Public), LatestApproval);
    SortedImages(users, ApprovedTimed, Public, LatestApproval);
    ApprovedParts(timed, MapFilter(users, ApprovedUntimed, Public), users);
  }

  lemma ApprovedSorted(users: seq<User>)
    ensures var r := SortBy(MapFilter(users, ApprovedTimed, Public), LatestApproval) + MapFilter(users, ApprovedUntimed, Public);
      forall i, j :: 0 <= i < j < |r| && r[j].approvedAt.Some? ==>
        r[i].approvedAt.Some? && r[i].approvedAt.value >= r[j].approvedAt.value
  {
    var timed := SortBy(MapFilter(users, ApprovedTimed, Public), LatestApproval);
    SortedImages(users, ApprovedTimed, Public, LatestApproval);
    ApprovedOrder(timed, MapFilter(users, ApprovedUntimed, Public), users);
  }

  ghost predicate DistinctIds(users: seq<User>)
  {
    forall i, j :: 0 <= i < j < |users| ==> users[i].id != users[j].id
  }

  /** No entry of a listing carries the id of a user the listing does not
      select, when that id is unique. */
  lemma AbsentFrom(r: seq<User>, users: seq<User>, p: User -> bool, id: nat)
    requires forall i :: 0 <= i < |r| ==> From(r[i], users, p, Public)
    requires forall j :: 0 <= j < |users| && users[j].id == id ==> !p(users[j])
    ensures forall i :: 0 <= i < |r| ==> r[i].id != id
  {
    forall i | 0 <= i < |r|
      ensures r[i].id != id
    {
      assert From(r[i], users, p, Public);
      var j :| 0 <= j < |users| && p(users[j]) && r[i] == Public(users[j]);
    }
  }

  /** A registered user, under a fresh id, is listed as pending and not as
      approved. */
  lemma RegisteredIsPending(users: seq<User>, u: User)
    requires forall i :: 0 <= i < |users| ==> users[i].id != u.id
    requires u.approved == Some(false)
    ensures Public(u) in Pending(users + [u])
    ensures forall x :: x in Approved(users + [u]) ==> x.id != u.id
  {
    var after := users + [u];
    assert after[|users|] == u;
    AbsentFrom(Approved(after), after, IsApproved, u.id);
  }

  /** Storing an approved version of user `k`, by `approveUser` or by a
      login, moves it from the pending listing to the approved one. */
  lemma ApprovalMovesUser(users: seq<User>, k: nat, u: User)
    requires DistinctIds(users) && k < |users|
    requires u.id == users[k].id && IsApproved(u)
    ensures Public(u) in Approved(users[k := u])
    ensures forall x :: x in Pending(users[k := u]) ==> x.id != u.id
  {
    var after := users[k := u];
    assert after[k] == u;
    AbsentFrom(Pending(after), after, IsPending, u.id);
  }

  /** After a rejection no user has that id, so rejecting or approving it
      again answers 404, and neither listing shows it. */
  lemma RejectedIsGone(users: seq<User>, k: nat)
    requires DistinctIds(users) && k < |users|
    ensures var after := users[..k] + users[k + 1..];
      && FindFirst(after, IdIs(users[k].id)).None?
      && (forall x :: x in Pending(after) ==> x.id != users[k].id)
      && (forall x :: x in Approved(after) ==> x.id != users[k].id)
  {
    var after := users[..k] + users[k + 1..];
    forall j | 0 <= j < |after|
      ensures after[j].id != users[k].id
    {
      if j < k {
        assert after[j] == users[j];
      } else {
        assert after[j] == users[j + 1];
      }
    }
    AbsentFrom(Pending(after), after, IsPending, users[k].id);
    AbsentFrom(Approved(after), after, IsApproved, users[k].id);
  }

  /** What every handler keeps: ids below the counter and distinct, e-mails
      distinct, and every stored user with its required fields. */
  ghost predicate UsersValid(users: seq<User>, nextId: nat)
  {
    && (forall i :: 0 <= i < |users| ==> users[i].id < nextId)
    && DistinctIds(users)
    && (forall i, j :: 0 <= i < j < |users| ==> users[i].email != users[j].email)
    && (forall i :: 0 <= i < |users| ==> users[i].name != "" && users[i].email != "" && users[i].password != "")
  }

  /** Deleting one user keeps the table valid. */
  lemma RemoveKeepsValid(users: seq<User>, nextId: nat, k: nat)
    requires UsersValid(users, nextId) && k < |users|
    ensures UsersValid(users[..k] + users[k + 1..], nextId)
  {
    var after := users[..k] + users[k + 1..];
    assert forall j :: 0 <= j < |after| ==> after[j] == users[if j < k then j else j + 1];
  }

  /** `approver && approver.approved`: the acting user exists and is
      approved. */
  predicate MayApprove(users: seq<User>, approverId: nat)
  {
    match FindFirst(users, IdIs(approverId))
    case None => false
    case Some(k) => IsApproved(users[k])
  }

  class UserTable {
    var users: seq<User>
    var nextId: nat

    ghost predicate Valid()
      reads this
    {
      UsersValid(users, nextId)
    }

    constructor ()
      ensures Valid() && users == [] && nextId == 0
    {
      users := [];
      nextId := 0;
    }

    /** `register`: 400 when a user with that e-mail exists; otherwise the
        new user is created pending, or the create throws and the handler
        answers 500. */
    method Register(name: string, email: string, hashed: string, now: int) returns (r: Result<User>)
      requires Valid()
      modifies this
      ensures Valid()
      ensures FindFirst(old(users), EmailIs(email)).Some? ==>
        r == Err(BadRequest("User already exists")) && users == old(users) && nextId == old(nextId)
      ensures FindFirst(old(users), EmailIs(email)).None? ==>
        var u := NewUser(old(nextId), name, email, hashed, now);
        if UserViolation(u, old(users)).Some? then
          r == Err(SaveFailed(500, UserViolation(u, old(users)).value)) && users == old(users) && nextId == old(nextId)
        else
          r == Ok(u) && users == old(users) + [u] && nextId == old(nextId) + 1
    {
      var found := FindFirst(users, EmailIs(email));
      if found.Some? {
        return Err(BadRequest("User already exists"));
      }
      var u := NewUser(nextId, name, email, hashed, now);
      var v := UserViolation(u, users);
      if v.Some? {
        return Err(SaveFailed(500, v.value));
      }
      users := users + [u];
      nextId := nextId + 1;
      return Ok(u);
    }

    /** `login`: 404 for an unknown e-mail; a user not yet approved is
        approved and saved before the password is compared, so even a
        refused login, or one whose comparison throws, leaves the user
        approved. */
    method Login(email: string, check: PasswordCheck, now: int) returns (r: Result<User>)
      requires Valid()
      modifies this
      ensures Valid() && nextId == old(nextId)
      ensures match FindFirst(old(users), EmailIs(email))
        case None => r == Err(NotFound("User not found")) && users == old(users)
        case Some(k) =>
          var u := old(users)[k];
          var u' := if IsApproved(u) then u else u.(approved := Some(true), updatedAt := now);
          && users == old(users)[k := u']
          && r == match check
                  case Matches => Ok(u')
                  case Mismatch => Err(InvalidCredentials)
                  case CompareThrows => Err(IllegalArguments)
    {
      var found := FindFirst(users, EmailIs(email));
      if found.None? {
        return Err(NotFound("User not found"));
      }
      var k := found.value;
      var u := users[k];
      if !IsApproved(u) {
        u := u.(approved := Some(true), updatedAt := now);
        users := users[k := u];
      }
      match check
      case Matches => r := Ok(u);
      case Mismatch => r := Err(InvalidCredentials);
      case CompareThrows => r := Err(IllegalArguments);
    }

    /** `approveUser`: 403 unless the acting user is approved, 404 for an
        unknown target, 400 for a target already approved; otherwise the
        target records its approval, the approver and the time. */
    method ApproveUser(approverId: nat, userId: nat, now: int) returns (r: Result<User>)
      requires Valid()
      modifies this
      ensures Valid() && nextId == old(nextId)
      ensures !MayApprove(old(users), approverId) ==>
        r == Err(Forbidden("You are not authorized to approve users")) && users == old(users)
      ensures MayApprove(old(users), approverId) ==>
        match FindFirst(old(users), IdIs(userId))
        case None => r == Err(NotFound("User not found")) && users == old(users)
        case Some(k) =>
          var u := old(users)[k];
          if IsApproved(u) then
            r == Err(BadRequest("User is already approved")) && users == old(users)
          else
            var u' := u.(approved := Some(true), approvedBy := Some(approverId), approvedAt := Some(now), updatedAt := now);
            r == Ok(u') && users == old(users)[k := u']
    {
      var approver := FindFirst(users, IdIs(approverId));
      if approver.None? || !IsApproved(users[approver.value]) {
        return Err(Forbidden("You are not authorized to approve users"));
      }
      var found := FindFirst(users, IdIs(userId));
      if found.None? {
        return Err(NotFound("User not found"));
      }
      var k := found.value;
      if IsApproved(users[k]) {
        return Err(BadRequest("User is already approved"));
      }
      var u := users[k].(approved := Some(true), approvedBy := Some(approverId), approvedAt := Some(now), updatedAt := now);
      users := users[k := u];
      return Ok(u);
    }

    /** `rejectUser`: 403 unless the acting user is approved; otherwise the
        target is deleted whatever its approval state, or 404 when no user
        has that id. */
    method RejectUser(approverId: nat, userId: nat) returns (r: Result<User>)
      requires Valid()
      modifies this
      ensures Valid() && nextId == old(nextId)
      ensures !MayApprove(old(users), approverId) ==>
        r == Err(Forbidden("You are not authorized to reject users")) && users == old(users)
      ensures MayApprove(old(users), approverId) ==>
        match FindFirst(old(users), IdIs(userId))
        case None => r == Err(NotFound("User not found")) && users == old(users)
        case Some(k) => r == Ok(old(users)[k]) && users == old(users)[..k] + old(users)[k + 1..]
    {
      var approver := FindFirst(users, IdIs(approverId));
      if approver.None? || !IsApproved(users[approver.value]) {
        return Err(Forbidden("You are not authorized to reject users"));
      }
      var found := FindFirst(users, IdIs(userId));
      if found.None? {
        return Err(NotFound("User not found"));
      }
      var k := found.value;
      var u := users[k];
      RemoveKeepsValid(users, nextId, k);
      users := users[..k] + users[k + 1..];
      return Ok(u);
    }
  }
}
