/** The user controller: the profile projections and the partial profile
    update. No projection carries the password hash. */
module Accounts {
  import opened Common
  import opened Text
  import opened Store

  /** The columns `getUser`, `getUserById` and a successful sign-up select
      (uuid and the timestamps are not represented). */
  datatype Profile = Profile(id: int, name: string, email: string, role: Role, address: string, phone: string, image: Option<string>)

  /** The columns `getAllUsers` selects: no address and no image. */
  datatype Listing = Listing(id: int, email: string, name: string, role: Role, phone: string)

  function ProfileOf(id: int, u: UserRow): (p: Profile)
    ensures p.id == id && p.name == u.name && p.email == u.email && p.role == u.role
    ensures p.address == u.address && p.phone == u.phone && p.image == u.image
  {
    Profile(id, u.name, u.email, u.role, u.address, u.phone, u.image)
  }

  function ListingOf(id: int, u: UserRow): (l: Listing)
    ensures l.id == id && l.email == u.email && l.name == u.name && l.role == u.role && l.phone == u.phone
  {
    Listing(id, u.email, u.name, u.role, u.phone)
  }

  /** Neither projection depends on the stored password. */
  lemma ProjectionsIgnorePassword(id: int, u: UserRow, password: string)
    ensures ProfileOf(id, u.(password := password)) == ProfileOf(id, u)
    ensures ListingOf(id, u.(password := password)) == ListingOf(id, u)
  {
  }

  /** `getUser`: the caller's own profile; an id with no user is a 404. */
  function GetUser(users: Users, userId: int): (r: Reply<Profile>)
    ensures userId !in users ==> r == Failure(NOT_FOUND, "User not found.")
    ensures userId in users ==> r == Success("User retrieved successfully.", ProfileOf(userId, users[userId]))
  {
    if userId !in users then Failure(NOT_FOUND, "User not found.")
    else Success("User retrieved successfully.", ProfileOf(userId, users[userId]))
  }

  /** `getUserById`: the id is `parseInt` of the body's id; 0 stands for
      both 0 and NaN, which are falsy and give a 400. */
  function GetUserById(users: Users, id: int): (r: Reply<Profile>)
    ensures id == 0 ==> r == Failure(BAD_REQUEST, "User ID must be provided.")
    ensures id != 0 && id !in users ==> r == Failure(NOT_FOUND, "User not found.")
    ensures r.success <==> id != 0 && id in users
    ensures r.success ==> r.data == Some(ProfileOf(id, users[id]))
  {
    if id == 0 then Failure(BAD_REQUEST, "User ID must be provided.")
    else if id !in users then Failure(NOT_FOUND, "User not found.")
    else Success("User retrieved successfully.", ProfileOf(id, users[id]))
  }

  /** `getAllUsers`: one listing per user; an empty table is a 404. */
  function GetAllUsers(users: Users): (r: Reply<map<int, Listing>>)
    ensures users == map[] ==> r == Failure(NOT_FOUND, "No users found.")
    ensures users != map[] ==> r.success && r.data.Some? && r.data.value.Keys == users.Keys
    ensures users != map[] ==> forall k :: k in users ==> r.data.value[k] == ListingOf(k, users[k])
  {
    if users == map[] then Failure(NOT_FOUND, "No users found.")
    else Success("Users retrieved successfully.", map k | k in users :: ListingOf(k, users[k]))
  }

  // ------------------------------------------------------------ partial update

  /** The `data` of `updateUser`: name, address and phone are written trimmed
      and image as given, each only when the supplied value is truthy; the
      e-mail, password and role are never written. */
  function PatchProfile(u: UserRow, name: string, address: string, phone: string, image: string): (p: UserRow)
    ensures p.name == (if name != "" then Trim(name) else u.name)
    ensures p.address == (if address != "" then Trim(address) else u.address)
    ensures p.phone == (if phone != "" then Trim(phone) else u.phone)
    ensures p.image == (if image != "" then Some(image) else u.image)
    ensures p.email == u.email && p.password == u.password && p.role == u.role
  {
    u.(name := if name != "" then Trim(name) else u.name,
       address := if address != "" then Trim(address) else u.address,
       phone := if phone != "" then Trim(phone) else u.phone,
       image := if image != "" then Some(image) else u.image)
  }

  /** An update that supplies nothing leaves the row as it was. */
  lemma EmptyPatchIsIdentity(u: UserRow)
    ensures PatchProfile(u, "", "", "", "") == u
  {
  }

  /** Applying the same update twice is applying it once. */
  lemma PatchIdempotent(u: UserRow, name: string, address: string, phone: string, image: string)
    ensures var p := PatchProfile(u, name, address, phone, image);
            PatchProfile(p, name, address, phone, image) == p
  {
  }

  /** Every text field the update writes is stored without white space at
      either end, so trimming it again changes nothing. */
  lemma {:induction false} PatchStoresTrimmed(u: UserRow, name: string, address: string, phone: string, image: string)
    ensures var p := PatchProfile(u, name, address, phone, image);
      && (name != "" ==> Trim(p.name) == p.name)
      && (address != "" ==> Trim(p.address) == p.address)
      && (phone != "" ==> Trim(p.phone) == p.phone)
  {
    TrimIdempotent(name);
    TrimIdempotent(address);
    TrimIdempotent(phone);
  }

  /** `updateUser`: the caller's id comes from the token; an id with no user
      makes Prisma's `update` throw, which is reported with the sign-in
      message the source uses here. */
  method UpdateUser(db: Db, userId: int, name: string, address: string, phone: string, image: string) returns (r: Reply<Profile>)
    requires db.Valid()
    modifies db`users
    ensures db.Valid()
    ensures userId == 0 ==> r == Failure(BAD_REQUEST, "Id must be provided.") && db.users == old(db.users)
    ensures userId != 0 && userId !in old(db.users) ==>
      r == Failure(SERVER_ERROR, "An unexpected error occurred while signing in. Please try again.")
      && db.users == old(db.users)
    ensures userId != 0 && userId in old(db.users) ==>
      && r == SuccessNoData("User updated successfully.")
      && db.users == old(db.users)[userId := PatchProfile(old(db.users)[userId], name, address, phone, image)]
  {
    if userId == 0 {
      return Failure(BAD_REQUEST, "Id must be provided.");
    }
    if userId !in db.users {
      return Failure(SERVER_ERROR, "An unexpected error occurred while signing in. Please try again.");
    }
    var p := PatchProfile(db.users[userId], name, address, phone, image);
    db.users := db.users[userId := p];
    r := SuccessNoData("User updated successfully.");
  }
}
