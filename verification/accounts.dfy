/**
 * The account routes: register, login, logout and profile, as transitions
 * over the user collection. Login issues an opaque random token that is
 * stored on the user and handed back as the `token` cookie; logout clears
 * it; profile resolves the cookie back to a user.
 *
 * The collection is a sequence in insertion order, so `findOne` is "the
 * first match". bcrypt is idealised as a digest that matches exactly the
 * password it was made from; the salt and the new token come in as
 * parameters because they are random.
 */
module Accounts {
  import opened Wrappers

  const SaltRounds: nat := 10

  /** A bcrypt digest of a password: cost, salt and (abstractly) what was hashed. */
  datatype PasswordHash = Bcrypt(cost: nat, salt: string, of: string)

  /** `bcrypt.hash(password, 10)` with the salt it drew. */
  function Hash(password: string, salt: string): PasswordHash {
    Bcrypt(SaltRounds, salt, password)
  }

  /** `bcrypt.compare(password, hash)`. */
  predicate Compare(password: string, h: PasswordHash) {
    h.of == password
  }

  /** A digest matches the password it was made from and no other. */
  lemma CompareMatchesOnlyOwnPassword(password: string, other: string, salt: string)
    ensures Compare(password, Hash(password, salt))
    ensures other != password ==> !Compare(other, Hash(password, salt))
  {
  }

  /** Profile fields a user can fill in later. */
  datatype Profile = Profile(name: string, contactNumber: string, address: string)

  const EmptyProfile: Profile := Profile("", "", "")

  datatype User = User(id: nat, email: string, password: PasswordHash, token: Option<string>,
                       isAdmin: bool, profile: Profile)

  /** What `select("-password")` leaves of a user. */
  datatype PublicUser = PublicUser(id: nat, email: string, token: Option<string>, isAdmin: bool, profile: Profile)

  function Public(u: User): PublicUser {
    PublicUser(u.id, u.email, u.token, u.isAdmin, u.profile)
  }

  type Store = seq<User>

  /** Ids are positions and emails are unique. */
  ghost predicate Valid(store: Store) {
    && (forall i | 0 <= i < |store| :: store[i].id == i)
    && (forall i, j | 0 <= i < j < |store| :: store[i].email != store[j].email)
  }

  /** No two users hold the same session token. */
  ghost predicate TokensUnique(store: Store) {
    forall i, j | 0 <= i < j < |store| && store[i].token.Some? :: store[i].token != store[j].token
  }

  /** Nobody holds `token`. */
  ghost predicate Unused(store: Store, token: string) {
    forall i | 0 <= i < |store| :: store[i].token != Some(token)
  }

  /** `User.findOne({ email })`: the position of the first user with that email. */
  function FindByEmail(store: Store, email: string): (r: Option<nat>)
    ensures r.None? <==> forall i | 0 <= i < |store| :: store[i].email != email
    ensures r.Some? ==> r.value < |store| && store[r.value].email == email
    ensures r.Some? ==> forall j | 0 <= j < r.value :: store[j].email != email
  {
    if store == [] then None
    else if store[0].email == email then Some(0)
    else
      var r := FindByEmail(store[1..], email);
      assert forall i | 1 <= i < |store| :: store[i] == store[1..][i - 1];
      if r.None? then None else Some(r.value + 1)
  }

  /** `User.findOne({ token })`: the position of the first user holding it. */
  function FindByToken(store: Store, token: string): (r: Option<nat>)
    ensures r.None? <==> Unused(store, token)
    ensures r.Some? ==> r.value < |store| && store[r.value].token == Some(token)
    ensures r.Some? ==> forall j | 0 <= j < r.value :: store[j].token != Some(token)
  {
    if store == [] then None
    else if store[0].token == Some(token) then Some(0)
    else
      var r := FindByToken(store[1..], token);
      assert forall i | 1 <= i < |store| :: store[i] == store[1..][i - 1];
      if r.None? then None else Some(r.value + 1)
  }

  /** With unique tokens, the holder found is the only holder. */
  lemma FindByTokenUnique(store: Store, token: string, i: nat)
    requires TokensUnique(store) && i < |store| && store[i].token == Some(token)
    ensures FindByToken(store, token) == Some(i)
  {
  }

  const MsgFieldsRequired: string := "All fields required."
  const MsgEmailExists: string := "Email already exists."
  const MsgRegistered: string := "Registered successfully"
  const MsgInvalidLogin: string := "Invalid email or password."
  const MsgLoggedOut: string := "Logged out"
  const MsgNotLoggedIn: string := "Not logged in"
  const MsgInvalidSession: string := "Invalid session"

  /** POST /register. A missing (or empty) email or password and an email
      already on file are refused with 400 and change nothing; otherwise
      exactly one user is appended, holding the email, a digest of the
      password, no token and no admin flag. */
  function Register(store: Store, email: string, password: string, salt: string): (r: (Store, Reply<string>))
    ensures email == "" || password == "" ==> r == (store, Reply(400, Error(MsgFieldsRequired)))
    ensures email != "" && password != "" && FindByEmail(store, email).Some? ==>
              r == (store, Reply(400, Error(MsgEmailExists)))
    ensures r.1.status == 201 <==> email != "" && password != "" && FindByEmail(store, email).None?
    ensures r.1.status == 201 ==>
              && |r.0| == |store| + 1 && r.0[..|store|] == store
              && r.0[|store|].email == email && Compare(password, r.0[|store|].password)
              && r.0[|store|].token.None? && !r.0[|store|].isAdmin
    ensures r.1.status != 201 ==> r.0 == store
    ensures Valid(store) ==> Valid(r.0)
    ensures TokensUnique(store) ==> TokensUnique(r.0)
  {
    if email == "" || password == "" then (store, Reply(400, Error(MsgFieldsRequired)))
    else if FindByEmail(store, email).Some? then (store, Reply(400, Error(MsgEmailExists)))
    else
      var user := User(|store|, email, Hash(password, salt), None, false, EmptyProfile);
      (store + [user], Reply(201, Payload(MsgRegistered)))
  }

  /** The JSON a successful login answers with: `{ user: { email } }`. */
  datatype LoginBody = LoginBody(email: string)

  /** POST /login. An unknown email and a wrong password give the very same
      400 reply and change nothing; success stores `newToken` as that user's
      token, touches no other user, and sets the cookie to the same token. */
  function Login(store: Store, email: string, password: string, newToken: string): (r: (Store, Reply<LoginBody>, Option<string>))
    ensures email == "" || password == "" ==> r == (store, Reply(400, Error(MsgFieldsRequired)), None)
    ensures email != "" && password != "" &&
            (FindByEmail(store, email).None? || !Compare(password, store[FindByEmail(store, email).value].password)) ==>
              r == (store, Reply(400, Error(MsgInvalidLogin)), None)
    ensures r.1.status == 200 <==>
              && email != "" && password != "" && FindByEmail(store, email).Some?
              && Compare(password, store[FindByEmail(store, email).value].password)
    ensures r.1.status == 200 ==>
              && email != "" && password != ""
              && r.2 == Some(newToken) && r.1.body == Payload(LoginBody(email))
              && |r.0| == |store|
              && var i := FindByEmail(store, email).value;
                 && Compare(password, store[i].password)
                 && r.0[i] == store[i].(token := Some(newToken))
                 && forall j | 0 <= j < |store| && j != i :: r.0[j] == store[j]
    ensures r.1.status != 200 ==> r.0 == store && r.2.None?
    ensures Valid(store) ==> Valid(r.0)
    ensures TokensUnique(store) && Unused(store, newToken) ==> TokensUnique(r.0)
  {
    if email == "" || password == "" then (store, Reply(400, Error(MsgFieldsRequired)), None)
    else match FindByEmail(store, email)
      case None => (store, Reply(400, Error(MsgInvalidLogin)), None)
      case Some(i) =>
        if !Compare(password, store[i].password) then (store, Reply(400, Error(MsgInvalidLogin)), None)
        else
          (store[i := store[i].(token := Some(newToken))], Reply(200, Payload(LoginBody(email))), Some(newToken))
  }

  /** POST /logout. With a token cookie held by some user, that user's token
      is cleared; otherwise nothing changes. The reply is always
      "Logged out". */
  function Logout(store: Store, cookie: Option<string>): (r: (Store, Reply<string>))
    ensures r.1 == Reply(200, Payload(MsgLoggedOut))
    ensures |r.0| == |store|
    ensures cookie.None? || cookie == Some("") || Unused(store, cookie.value) ==> r.0 == store
    ensures cookie.Some? && cookie.value != "" && !Unused(store, cookie.value) ==>
              var i := FindByToken(store, cookie.value).value;
              && r.0[i] == store[i].(token := None)
              && forall j | 0 <= j < |store| && j != i :: r.0[j] == store[j]
    ensures Valid(store) ==> Valid(r.0)
    ensures TokensUnique(store) ==> TokensUnique(r.0)
  {
    if cookie.None? || cookie.value == "" then (store, Reply(200, Payload(MsgLoggedOut)))
    else match FindByToken(store, cookie.value)
      case None => (store, Reply(200, Payload(MsgLoggedOut)))
      case Some(i) => (store[i := store[i].(token := None)], Reply(200, Payload(MsgLoggedOut)))
  }

  /** GET /profile. No cookie: 401 "Not logged in"; a token nobody holds:
      401 "Invalid session"; otherwise the holder, without the password. */
  function GetProfile(store: Store, cookie: Option<string>): (r: Reply<PublicUser>)
    ensures cookie.None? || cookie == Some("") ==> r == Reply(401, Error(MsgNotLoggedIn))
    ensures cookie.Some? && cookie.value != "" && Unused(store, cookie.value) ==> r == Reply(401, Error(MsgInvalidSession))
    ensures r.status == 200 <==> cookie.Some? && cookie.value != "" && !Unused(store, cookie.value)
    ensures r.status == 200 ==>
              r.body.Payload? && exists i | 0 <= i < |store| :: store[i].token == cookie && r.body.value == Public(store[i])
    ensures r.status != 200 ==> r.status == 401
  {
    if cookie.None? || cookie.value == "" then Reply(401, Error(MsgNotLoggedIn))
    else match FindByToken(store, cookie.value)
      case None => Reply(401, Error(MsgInvalidSession))
      case Some(i) => Reply(200, Payload(Public(store[i])))
  }

  /** A registered user can log in with the password they registered with. */
  lemma RegisterThenLogin(store: Store, email: string, password: string, salt: string, newToken: string)
    requires Valid(store) && email != "" && password != "" && FindByEmail(store, email).None?
    ensures var s1 := Register(store, email, password, salt).0;
            Login(s1, email, password, newToken).1.status == 200
  {
    var s1 := Register(store, email, password, salt).0;
    assert FindByEmail(s1, email) == Some(|store|);
  }

  /** Registering the same email twice: the second attempt is refused and
      leaves the store as the first one made it. */
  lemma RegisterTwiceRefused(store: Store, email: string, p1: string, p2: string, s1: string, s2: string)
    requires email != "" && p1 != "" && p2 != ""
    ensures var first := Register(store, email, p1, s1).0;
            Register(first, email, p2, s2) == (first, Reply(400, Error(MsgEmailExists)))
  {
    var first := Register(store, email, p1, s1).0;
    if FindByEmail(store, email).None? {
      assert first[|store|].email == email;
    }
  }

  /** Logging in with a newToken token opens a session: the cookie it sets
      resolves to the user who logged in. */
  lemma LoginThenProfile(store: Store, email: string, password: string, newToken: string)
    requires TokensUnique(store) && Unused(store, newToken) && newToken != ""
    requires Login(store, email, password, newToken).1.status == 200
    ensures var (s1, _, cookie) := Login(store, email, password, newToken);
            var p := GetProfile(s1, cookie);
            p.status == 200 && p.body.value.email == email && p.body.value.token == Some(newToken)
  {
    var (s1, _, cookie) := Login(store, email, password, newToken);
    var i := FindByEmail(store, email).value;
    FindByTokenUnique(s1, newToken, i);
  }

  /** After logging out, the same token no longer opens a session (tokens
      being unique, which random 32-byte tokens are with overwhelming
      probability). */
  lemma {:induction false} LogoutThenProfileRefused(store: Store, token: string)
    requires TokensUnique(store) && token != ""
    ensures var s1 := Logout(store, Some(token)).0;
            GetProfile(s1, Some(token)) == Reply(401, Error(MsgInvalidSession))
  {
    var s1 := Logout(store, Some(token)).0;
    if !Unused(store, token) {
      var i := FindByToken(store, token).value;
      forall j | 0 <= j < |s1| ensures s1[j].token != Some(token) {
        if j != i {
          assert s1[j] == store[j];
          if j < i { assert store[j].token != store[i].token; }
          else { assert store[i].token != store[j].token; }
        }
      }
    }
  }
}
