/** The auth controller: the sign-up validation chain and insert, and
    sign-in. Hashing, hash comparison and token signing are bcrypt and
    jsonwebtoken calls; the model receives their results as parameters. */
module Auth {
  import opened Common
  import opened Text
  import opened Store
  import opened Accounts

  // ---------------------------------------------------------------- e-mail

  /** `[^\s@]`: neither white space nor '@'. */
  predicate Plain(c: char)
  {
    !IsSpace(c) && c != '@'
  }

  predicate AllPlain(s: string)
  {
    forall k :: 0 <= k < |s| ==> Plain(s[k])
  }

  /** `/^[^\s@]+@[^\s@]+\.[^\s@]+$/`: three non-empty plain runs, the first
      two separated by '@' and the last two by '.'. */
  predicate EmailRegex(s: string)
  {
    exists i, j | 0 < i < |s| && i + 1 < j < |s| - 1 ::
      s[i] == '@' && s[j] == '.' && AllPlain(s[..i]) && AllPlain(s[i + 1..j]) && AllPlain(s[j + 1..])
  }

  /** An e-mail address in plain words: no white space, exactly one '@',
      something before it, and after it a '.' that is neither the first nor
      the last character. */
  predicate EmailShape(s: string)
  {
    && NoSpace(s)
    && exists i | 0 < i < |s| ::
      && s[i] == '@'
      && (forall k | 0 <= k < |s| && s[k] == '@' :: k == i)
      && (exists j | i + 1 < j < |s| - 1 :: s[j] == '.')
  }

  /** The regular expression accepts exactly the strings of that shape. */
  lemma {:induction false} EmailRegexMeaning(s: string)
    ensures EmailRegex(s) <==> EmailShape(s)
  {
    if EmailRegex(s) {
      var i, j :| 0 < i < |s| && i + 1 < j < |s| - 1 && s[i] == '@' && s[j] == '.'
        && AllPlain(s[..i]) && AllPlain(s[i + 1..j]) && AllPlain(s[j + 1..]);
      forall k | 0 <= k < |s| && k != i && k != j
        ensures Plain(s[k])
      {
        if k < i {
          assert s[..i][k] == s[k];
        } else if k < j {
          assert s[i + 1..j][k - i - 1] == s[k];
        } else {
          assert s[j + 1..][k - j - 1] == s[k];
        }
      }
      assert s[j] == '.';
      assert NoSpace(s);
    }
    if EmailShape(s) {
      var i :| 0 < i < |s| && s[i] == '@' && (forall k | 0 <= k < |s| && s[k] == '@' :: k == i)
        && (exists j | i + 1 < j < |s| - 1 :: s[j] == '.');
      var j :| i + 1 < j < |s| - 1 && s[j] == '.';
      assert forall k | 0 <= k < |s| && k != i :: Plain(s[k]);
      assert AllPlain(s[..i]) && AllPlain(s[i + 1..j]) && AllPlain(s[j + 1..]);
    }
  }

  /** An e-mail without white space (as every accepted one is) is left as
      it is by `trim()`, so sign-up's `trim()` after
      `toLowerCase()` changes nothing and the stored key is the lower-cased
      address, which is its own lower case. */
  lemma StoredEmail(email: string)
    requires NoSpace(email)
    ensures Trim(ToLower(email)) == ToLower(email)
    ensures ToLower(Trim(ToLower(email))) == Trim(ToLower(email))
  {
    LowerKeepsNonLetters(email);
    TrimNoSpace(ToLower(email));
    LowerIdempotent(email);
  }

  // ---------------------------------------------------------------- phone

  predicate IsSeparator(c: char)
  {
    IsSpace(c) || c == '-'
  }

  /** `phone.replace(/\s|-/g, '')`. */
  function StripSeparators(s: string): (r: string)
    ensures |r| <= |s|
    ensures forall i :: 0 <= i < |r| ==> !IsSeparator(r[i])
    ensures (forall i :: 0 <= i < |s| ==> !IsSeparator(s[i])) ==> r == s
  {
    if s == [] then []
    else (if IsSeparator(s[0]) then [] else [s[0]]) + StripSeparators(s[1..])
  }

  /** Stripping distributes over concatenation. */
  lemma {:induction false} StripAppend(a: string, b: string)
    ensures StripSeparators(a + b) == StripSeparators(a) + StripSeparators(b)
    decreases |a|
  {
    if a != [] {
      var h := if IsSeparator(a[0]) then [] else [a[0]];
      assert (a + b)[0] == a[0] && (a + b)[1..] == a[1..] + b;
      assert StripSeparators(a + b) == h + StripSeparators(a[1..] + b);
      StripAppend(a[1..], b);
    } else {
      assert a + b == b;
    }
  }

  /** `/^[\+]?[1-9][\d]{3,14}$/`: an optional '+' (a leading '+' cannot be
      the `[1-9]` digit, so the optional part takes it whenever it is
      there), then 4 to 15 digits of which the first is not '0'. */
  predicate PhoneRegex(p: string)
  {
    var d := if p != [] && p[0] == '+' then p[1..] else p;
    4 <= |d| <= 15 && '1' <= d[0] <= '9' && AllDigits(d)
  }

  /** The phone test of sign-up. */
  predicate ValidPhone(phone: string)
  {
    PhoneRegex(StripSeparators(phone))
  }

  /** A white space or a '-' anywhere in the number does not change the
      verdict. */
  lemma {:induction false} SeparatorsIgnored(a: string, c: char, b: string)
    requires IsSeparator(c)
    ensures ValidPhone(a + [c] + b) == ValidPhone(a + b)
  {
    StripDropsSeparator(a, c, b);
  }

  lemma {:induction false} StripDropsSeparator(a: string, c: char, b: string)
    requires IsSeparator(c)
    ensures StripSeparators(a + [c] + b) == StripSeparators(a + b)
  {
    StripAppend(a + [c], b);
    StripAppend(a, [c]);
    StripAppend(a, b);
    assert StripSeparators([c]) == [] by { assert [c][1..] == []; }
  }

  // ---------------------------------------------------------------- sign-up

  /** The body of a sign-up request; an empty string is a missing field,
      `None` an absent role or image. */
  datatype SignUpForm = SignUpForm(
    name: string, email: string, password: string, address: string, phone: string,
    role: Option<Role>, image: Option<string>)

  /** Some user is stored under exactly this e-mail. */
  predicate HasEmail(users: Users, email: string)
  {
    exists k | k in users :: users[k].email == email
  }

  /** The checks of `SignUp`, in the source's order; the first that fails
      decides the reply, and a form passing them all is inserted. */
  function SignUpRefusal(f: SignUpForm, users: Users): (g: Option<Refusal>)
    ensures f.name == "" || f.email == "" || f.password == "" || f.address == "" || f.phone == "" ==>
      g == Some(Refusal(BAD_REQUEST, "All required fields must be provided."))
    ensures g.None? <==>
      && f.name != "" && f.email != "" && f.password != "" && f.address != "" && f.phone != ""
      && EmailRegex(f.email) && Utf16Length(f.password) >= 6 && ValidPhone(f.phone)
      && !HasEmail(users, ToLower(f.email))
    ensures g.Some? && g.value.status == CONFLICT ==> HasEmail(users, ToLower(f.email))
    ensures HasEmail(users, ToLower(f.email)) ==> g.Some?
  {
    if f.name == "" || f.email == "" || f.password == "" || f.address == "" || f.phone == "" then
      Some(Refusal(BAD_REQUEST, "All required fields must be provided."))
    else if !EmailRegex(f.email) then Some(Refusal(BAD_REQUEST, "Please provide a valid email address."))
    else if Utf16Length(f.password) < 6 then Some(Refusal(BAD_REQUEST, "Password must be at least 6 characters long."))
    else if !ValidPhone(f.phone) then Some(Refusal(BAD_REQUEST, "Please provide a valid phone number."))
    else if HasEmail(users, ToLower(f.email)) then Some(Refusal(CONFLICT, "User with this email already exists."))
    else None
  }

  /** The row `SignUp` creates: trimmed name, address and phone, the e-mail
      lower-cased then trimmed, the hash in place of the password, and USER
      (the column default) when no role is sent. */
  function NewUser(f: SignUpForm, hash: string): (u: UserRow)
    ensures u.name == Trim(f.name) && u.address == Trim(f.address) && u.phone == Trim(f.phone)
    ensures u.email == Trim(ToLower(f.email)) && u.password == hash && u.image == f.image
    ensures u.role == (if f.role.Some? then f.role.value else User)
  {
    UserRow(Trim(f.name), Trim(ToLower(f.email)), hash, if f.role.Some? then f.role.value else User,
            Trim(f.address), Trim(f.phone), f.image)
  }

  /** Inserting the new row under a fresh id keeps the e-mails unique and
      lower-case. */
  lemma SignUpKeeps(users: Users, id: int, f: SignUpForm, hash: string)
    requires EmailsUnique(users) && EmailsLowerCase(users) && id !in users
    requires NoSpace(f.email) && !HasEmail(users, ToLower(f.email))
    ensures NewUser(f, hash).email == ToLower(f.email)
    ensures EmailsUnique(users[id := NewUser(f, hash)]) && EmailsLowerCase(users[id := NewUser(f, hash)])
  {
    StoredEmail(f.email);
  }

  /** `SignUp`: the checks above, then one new user. `hash` is what
      `hashPassword(password)` yields. The reply is a 201 with the new
      profile, which has no password. The unique e-mail constraint's P2002
      can only come from a concurrent sign-up, which is not modelled. */
  method SignUp(db: Db, f: SignUpForm, hash: string) returns (r: Reply<Profile>)
    requires db.Valid()
    modifies db`users, db`nextUserId
    ensures db.Valid()
    ensures var g := SignUpRefusal(f, old(db.users));
      g.Some? ==> r == Failure(g.value.status, g.value.message) && db.users == old(db.users)
    ensures SignUpRefusal(f, old(db.users)).None? ==>
      && old(db.nextUserId) !in old(db.users)
      && db.users == old(db.users)[old(db.nextUserId) := NewUser(f, hash)]
      && r == Created("User registered successfully.", ProfileOf(old(db.nextUserId), NewUser(f, hash)))
      && NewUser(f, hash).email == ToLower(f.email)
  {
    var refusal := SignUpRefusal(f, db.users);
    if refusal.Some? {
      return Failure(refusal.value.status, refusal.value.message);
    }
    var id := db.nextUserId;
    var u := NewUser(f, hash);
    EmailRegexMeaning(f.email);
    SignUpKeeps(db.users, id, f, hash);
    db.users := db.users[id := u];
    db.nextUserId := id + 1;
    r := Created("User registered successfully.", ProfileOf(id, u));
  }

  // ---------------------------------------------------------------- sign-in

  /** The payload of a successful sign-in. */
  datatype Session = Session(id: int, name: string, email: string, role: Role, token: string)

  /** The checks before the lookup. */
  function SignInRefusal(email: string, password: string): (g: Option<Refusal>)
    ensures g.None? <==> email != "" && password != "" && EmailRegex(email)
    ensures email == "" || password == "" ==> g == Some(Refusal(BAD_REQUEST, "All required fields must be provided."))
  {
    if email == "" || password == "" then Some(Refusal(BAD_REQUEST, "All required fields must be provided."))
    else if !EmailRegex(email) then Some(Refusal(BAD_REQUEST, "Please provide a valid email address."))
    else None
  }

  /** `SignIn` with the stored e-mail looked up under `key`. `verify` stands
      for bcrypt's comparison and `mint` for signing the token. With unique
      e-mails it succeeds exactly when the checks pass, a user is stored
      under `key`, and the password matches that user's hash. */
  method Authenticate(users: Users, key: string, email: string, password: string,
                      verify: (string, string) -> bool, mint: (int, string, Role) -> string)
    returns (r: Reply<Session>)
    ensures var g := SignInRefusal(email, password);
      g.Some? ==> r == Failure(g.value.status, g.value.message)
    ensures SignInRefusal(email, password).None? && !HasEmail(users, key) ==>
      r == Failure(SERVER_ERROR, "No User was found. Please try again.")
    ensures r.success ==>
      && SignInRefusal(email, password).None? && r.data.Some?
      && var s := r.data.value;
      && s.id in users && users[s.id].email == key && verify(password, users[s.id].password)
      && s == Session(s.id, users[s.id].name, users[s.id].email, users[s.id].role,
                      "Bearer " + mint(s.id, users[s.id].email, users[s.id].role))
    ensures EmailsUnique(users) ==>
      (r.success <==> SignInRefusal(email, password).None?
                      && exists k | k in users :: users[k].email == key && verify(password, users[k].password))
  {
    var refusal := SignInRefusal(email, password);
    if refusal.Some? {
      return Failure(refusal.value.status, refusal.value.message);
    }
    if !HasEmail(users, key) {
      return Failure(SERVER_ERROR, "No User was found. Please try again.");
    }
    var k :| k in users && users[k].email == key;
    if !verify(password, users[k].password) {
      return Failure(SERVER_ERROR, "Incorrect Email or Password. Please try again.");
    }
    var u := users[k];
    r := Success("User Logged in Successfully.", Session(k, u.name, u.email, u.role, "Bearer " + mint(k, u.email, u.role)));
  }

  /** `SignIn` as written: the e-mail is looked up exactly as typed. */
  method SignInAsWritten(users: Users, email: string, password: string,
                         verify: (string, string) -> bool, mint: (int, string, Role) -> string)
    returns (r: Reply<Session>)
    ensures SignInRefusal(email, password).None? && !HasEmail(users, email) ==>
      r == Failure(SERVER_ERROR, "No User was found. Please try again.")
    ensures r.success ==> r.data.Some? && r.data.value.id in users && users[r.data.value.id].email == email
  {
    r := Authenticate(users, email, email, password, verify, mint);
  }

  /** After a sign-up under an address with a capital letter, the address
      as typed is not a stored e-mail, while its lower case is. */
  lemma {:induction false} AsWrittenLookupMisses(id: int, f: SignUpForm, hash: string)
    requires NoSpace(f.email) && ToLower(f.email) != f.email
    ensures !HasEmail(map[id := NewUser(f, hash)], f.email)
    ensures HasEmail(map[id := NewUser(f, hash)], ToLower(f.email))
  {
    StoredEmail(f.email);
    FoundUnderLowerCase(map[], id, f, hash);
    assert map[][id := NewUser(f, hash)] == map[id := NewUser(f, hash)];
  }

  /** A sign-up whose address has a capital letter. */
  const ANN := SignUpForm("Ann", "Ann@mail.com", "secret", "Home", "+923001234567", None, None)

  lemma AnnPassesSignInChecks()
    ensures SignInRefusal(ANN.email, ANN.password).None?
  {
    var e := ANN.email;
    assert e[3] == '@' && e[8] == '.';
    assert AllPlain(e[..3]) && AllPlain(e[4..8]) && AllPlain(e[9..]);
  }

  /** A number typed without separators is judged by the regular
      expression alone. */
  lemma PhoneWithoutSeparators(p: string)
    requires forall i :: 0 <= i < |p| ==> !IsSeparator(p[i])
    ensures ValidPhone(p) == PhoneRegex(p)
  {
  }

  lemma AnnPhoneShape()
    ensures PhoneRegex(ANN.phone)
    ensures forall i :: 0 <= i < |ANN.phone| ==> !IsSeparator(ANN.phone[i])
  {
    assert ANN.phone[1..][0] == '9';
  }

  lemma AnnPhoneValid()
    ensures ValidPhone(ANN.phone)
  {
    AnnPhoneShape();
    PhoneWithoutSeparators(ANN.phone);
  }

  lemma AnnPasswordLength()
    ensures Utf16Length(ANN.password) == 6
  {
    var w := ANN.password;
    assert w[1..][1..][1..][1..][1..][1..] == [];
  }

  lemma AnnSignsUp()
    ensures SignUpRefusal(ANN, map[]).None?
  {
    AnnPassesSignInChecks();
    AnnPhoneValid();
    AnnPasswordLength();
  }

  lemma AnnHasCapital()
    ensures NoSpace(ANN.email) && ToLower(ANN.email) != ANN.email
  {
    assert ANN.email[0] == 'A';
    assert ToLower(ANN.email)[0] == LowerChar('A') == 'a';
  }

  /** Signing up as `Ann@mail.com` succeeds, and signing in with exactly
      that address then passes sign-in's checks, yet the as-written lookup
      finds no user (a 500 "No User was found"), since the row was stored
      under `ann@mail.com`. */
  lemma {:induction false} SignInAsWrittenMissesMixedCase()
    ensures var users := map[1 := NewUser(ANN, "hash")];
      && SignUpRefusal(ANN, map[]).None?
      && SignInRefusal(ANN.email, ANN.password).None?
      && !HasEmail(users, ANN.email)
      && HasEmail(users, ToLower(ANN.email))
  {
    AnnSignsUp();
    AnnPassesSignInChecks();
    AnnHasCapital();
    AsWrittenLookupMisses(1, ANN, "hash");
  }

  /** `SignIn` with the e-mail lower-cased before the lookup, as sign-up
      stores it. */
  method SignIn(users: Users, email: string, password: string,
                verify: (string, string) -> bool, mint: (int, string, Role) -> string)
    returns (r: Reply<Session>)
    ensures var g := SignInRefusal(email, password);
      g.Some? ==> r == Failure(g.value.status, g.value.message)
    ensures SignInRefusal(email, password).None? && !HasEmail(users, ToLower(email)) ==>
      r == Failure(SERVER_ERROR, "No User was found. Please try again.")
    ensures r.success ==>
      && r.data.Some? && r.data.value.id in users && users[r.data.value.id].email == ToLower(email)
      && verify(password, users[r.data.value.id].password)
    ensures EmailsUnique(users) ==>
      (r.success <==> SignInRefusal(email, password).None?
                      && exists k | k in users :: users[k].email == ToLower(email) && verify(password, users[k].password))
  {
    r := Authenticate(users, ToLower(email), email, password, verify, mint);
  }

  /** Whatever letter case a user signed up with, the new row is found
      under the lower case of the address, which is the key `SignIn` looks
      up for any spelling of it that lower-cases the same way. */
  lemma {:induction false} SignInFindsSignedUp(users: Users, id: int, f: SignUpForm, hash: string)
    requires EmailRegex(f.email)
    ensures HasEmail(users[id := NewUser(f, hash)], ToLower(f.email))
  {
    EmailRegexMeaning(f.email);
    FoundUnderLowerCase(users, id, f, hash);
  }

  lemma {:induction false} FoundUnderLowerCase(users: Users, id: int, f: SignUpForm, hash: string)
    requires NoSpace(f.email)
    ensures HasEmail(users[id := NewUser(f, hash)], ToLower(f.email))
  {
    StoredEmail(f.email);
    var users' := users[id := NewUser(f, hash)];
    assert users'[id].email == ToLower(f.email);
  }
}
