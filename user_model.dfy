/** The user document (backend/models/User.js): the trimmed name, the unique
    lower-cased e-mail and the approval fields with their defaults. */
module UserModel {
  import opened Common
  import opened Js
  import opened Responses

  /** `approved` is `None` for a legacy document in which the field is
      undefined or null; `approvedBy` holds the approver's id. */
  datatype User = User(
    id: nat,
    name: string,
    email: string,
    password: string,
    approved: Option<bool>,
    approvedBy: Option<nat>,
    approvedAt: Option<int>,
    createdAt: int,
    updatedAt: int)

  /** `User.create({ name, email, password, approved: false })`: the schema
      trims the name and lower-cases the e-mail; `approvedBy` and `approvedAt`
      default to null. */
  function NewUser(id: nat, name: string, email: string, password: string, now: int): (u: User)
    ensures u.approved == Some(false) && u.approvedBy.None? && u.approvedAt.None?
    ensures u.name == Trim(name) && u.email == ToLower(email) && |u.email| == |email|
  {
    User(id, Trim(name), ToLower(email), password, Some(false), None, None, now, now)
  }

  /** `approved` is truthy only when it holds `true`. */
  predicate IsApproved(u: User)
  {
    u.approved == Some(true)
  }

  /** The first error creating a user raises: name, e-mail and password are
      required (after the setters ran), and the e-mail is a unique index. */
  function UserViolation(u: User, users: seq<User>): (v: Option<Violation>)
    ensures v.None? <==>
      u.name != "" && u.email != "" && u.password != ""
      && forall i :: 0 <= i < |users| ==> users[i].email != u.email
  {
    if u.name == "" then Some(Required("name"))
    else if u.email == "" then Some(Required("email"))
    else if u.password == "" then Some(Required("password"))
    else if exists i :: 0 <= i < |users| && users[i].email == u.email then Some(DuplicateKey("email", u.email))
    else None
  }
}
