/** `authController`: the sign-up and log-in decision ladders over the user
    collection. Password hashing and comparison and the e-mail format test are
    library calls; they are parameters here. */
module AuthController {
  import opened Common
  import opened Records
  import opened Ranking
  import FriendGraph

  type Users = map<Id, User>

  // ---- the validator's `trim` -------------------------------------------------

  predicate IsSpace(c: char) {
    c == ' ' || c == '\t' || c == '\n' || c == '\r' || c == '\U{000B}' || c == '\U{000C}'
  }

  predicate IsAsciiLetter(c: char) {
    ('a' <= c <= 'z') || ('A' <= c <= 'Z')
  }

  /** `s` without its leading white space. */
  function TrimStart(s: string): (r: string)
    ensures |r| <= |s| && r == s[|s| - |r|..]
    ensures r == [] || !IsSpace(r[0])
    ensures forall i :: 0 <= i < |s| - |r| ==> IsSpace(s[i])
  {
    if s != [] && IsSpace(s[0]) then TrimStart(s[1..]) else s
  }

  /** `s` without its trailing white space. */
  function TrimEnd(s: string): (r: string)
    ensures |r| <= |s| && r == s[..|r|]
    ensures r == [] || !IsSpace(r[|r| - 1])
    ensures forall i :: |r| <= i < |s| ==> IsSpace(s[i])
  {
    if s != [] && IsSpace(s[|s| - 1]) then TrimEnd(s[..|s| - 1]) else s
  }

  /** `r` sits at position `i` of `s` with only white space around it. */
  predicate PaddedAt(s: string, r: string, i: nat) {
    i + |r| <= |s| && r == s[i..i + |r|]
    && (forall k :: 0 <= k < i ==> IsSpace(s[k]))
    && (forall k :: i + |r| <= k < |s| ==> IsSpace(s[k]))
  }

  /** `trim()`: a middle slice of `s` (TrimPadded) that neither starts nor ends
      with white space. */
  function Trim(s: string): (r: string)
    ensures r == [] || (!IsSpace(r[0]) && !IsSpace(r[|r| - 1]))
  {
    TrimEnd(TrimStart(s))
  }

  /** Trimming cuts off only white space, on either side: the result is the
      slice of `s` starting where the leading white space ends. */
  lemma TrimPadded(s: string)
    ensures PaddedAt(s, Trim(s), |s| - |TrimStart(s)|)
  {
    PaddedBetween(s, TrimStart(s), TrimEnd(TrimStart(s)));
  }

  /** A prefix `r` of a suffix `l` of `s`, with white space around both cuts, is padded in `s`. */
  lemma PaddedBetween(s: string, l: string, r: string)
    requires |l| <= |s| && l == s[|s| - |l|..]
    requires forall k :: 0 <= k < |s| - |l| ==> IsSpace(s[k])
    requires |r| <= |l| && r == l[..|r|]
    requires forall k :: |r| <= k < |l| ==> IsSpace(l[k])
    ensures PaddedAt(s, r, |s| - |l|)
  {
    var i := |s| - |l|;
    forall k | 0 <= k < |r| ensures r[k] == s[i + k] {
      assert r[k] == l[k] == s[i + k];
    }
    forall k | i + |r| <= k < |s| ensures IsSpace(s[k]) {
      assert s[k] == l[k - i];
    }
  }

  // ---- sign-up ----------------------------------------------------------------

  /** The rule for `firstName` and `lastName`: present, and after trimming only
      ASCII letters (at least one, by the pattern's `+`), at most fifteen. */
  predicate NameValid(name: Option<string>) {
    name.Some? &&
    var t := Trim(name.value);
    1 <= |t| <= 15 && forall i :: 0 <= i < |t| ==> IsAsciiLetter(t[i])
  }

  /** The rule for `password`: present, 8 to 32 characters after trimming. */
  predicate PasswordValid(password: Option<string>) {
    password.Some? && 8 <= |Trim(password.value)| <= 32
  }

  /** The rule for `email`: present and in e-mail format. */
  predicate EmailValid(email: Option<string>, isEmail: string -> bool) {
    email.Some? && isEmail(email.value)
  }

  /** The body parameters an error can be reported on. */
  datatype Param = FirstName | LastName | Password | Email

  /** The parameters the sign-up validators reject. */
  function SignupErrors(firstName: Option<string>, lastName: Option<string>, password: Option<string>,
                        email: Option<string>, isEmail: string -> bool): (errors: set<Param>)
    ensures FirstName in errors <==> !NameValid(firstName)
    ensures LastName in errors <==> !NameValid(lastName)
    ensures Password in errors <==> !PasswordValid(password)
    ensures Email in errors <==> !EmailValid(email, isEmail)
  {
    Rejected(NameValid(firstName), NameValid(lastName), PasswordValid(password), EmailValid(email, isEmail))
  }

  /** The parameters whose rule did not pass. */
  function Rejected(firstNameOk: bool, lastNameOk: bool, passwordOk: bool, emailOk: bool): (errors: set<Param>)
    ensures FirstName in errors <==> !firstNameOk
    ensures LastName in errors <==> !lastNameOk
    ensures Password in errors <==> !passwordOk
    ensures Email in errors <==> !emailOk
    ensures errors == {} <==> firstNameOk && lastNameOk && passwordOk && emailOk
  {
    (if firstNameOk then {} else {FirstName})
    + (if lastNameOk then {} else {LastName})
    + (if passwordOk then {} else {Password})
    + (if emailOk then {} else {Email})
  }

  /** `isEmailUsed`: some user has this address. */
  predicate EmailUsed(users: Users, email: string) {
    exists u :: u in users && users[u].email == email
  }

  /** The outcome of `signup`: 400 with the rejected fields, 400 with `email`
      when the address is taken, or 200 and the new user. */
  datatype SignupResult =
    | SignupFailed(errors: set<Param>)
    | SignupSucceeded(users: Users)

  function StatusOf(r: SignupResult): nat {
    if r.SignupFailed? then BAD_REQUEST else OK
  }

  /** `signup`. The stored names are the trimmed ones (the validators sanitise
      the body); the stored password is the hash of the trimmed password. */
  function Signup(users: Users, firstName: Option<string>, lastName: Option<string>, password: Option<string>,
                  email: Option<string>, isEmail: string -> bool, hash: string -> string, newId: Id): (r: SignupResult)
    ensures r.SignupFailed? ==> r.errors != {}
    ensures r.SignupSucceeded? ==>
      && r.users.Keys == users.Keys + {newId}
      && (forall u :: u in users && u != newId ==> r.users[u] == users[u])
  {
    var errors := SignupErrors(firstName, lastName, password, email, isEmail);
    if errors != {} then SignupFailed(errors)
    else if EmailUsed(users, email.value) then SignupFailed({Email})
    else
      var created := User(Trim(firstName.value), Trim(lastName.value), email.value,
                          hash(Trim(password.value)), [], [], false);
      SignupSucceeded(Register(users, newId, created))
  }

  /** `User.create`: the users with one more, under its new id. */
  function Register(users: Users, newId: Id, created: User): (r: Users)
    ensures r.Keys == users.Keys + {newId}
    ensures r[newId] == created
    ensures forall u :: u in users && u != newId ==> r[u] == users[u]
  {
    users[newId := created]
  }

  // ---- log-in -----------------------------------------------------------------

  /** The users with this address, all with the same key. */
  function WithEmail(users: Users, email: string): (keys: map<Id, nat>)
    ensures forall u :: u in keys <==> u in users && users[u].email == email
  {
    map u | u in users && users[u].email == email :: 0
  }

  /** `findOne({email})`: the first user, in insertion (id) order, with this address. */
  function FindByEmail(users: Users, email: string): (found: Option<Id>)
    ensures found.None? <==> !EmailUsed(users, email)
    ensures found.Some? ==> found.value in users && users[found.value].email == email
    ensures found.Some? ==> forall u :: u in users && users[u].email == email ==> found.value <= u
  {
    var keys := WithEmail(users, email);
    if keys == map[] then
      None
    else
      var r := Rank(keys);
      assert r[0] in keys;
      assert forall u :: u in keys && u != r[0] ==> Before(keys, r[0], u) by {
        forall u | u in keys && u != r[0] ensures Before(keys, r[0], u) {
          var k :| 0 <= k < |r| && r[k] == u;
        }
      }
      Some(r[0])
  }

  /** `login`: 400 on a validation error, 404 for an unknown address, then the
      password comparison decides between 200 (with the user's id) and 400. */
  function Login(users: Users, email: Option<string>, password: string, isEmail: string -> bool,
                 matches: (string, string) -> bool): (r: Response<Option<Id>>)
    ensures r.status in {OK, BAD_REQUEST, NOT_FOUND}
    ensures r.state.Some? <==> r.status == OK
    ensures r.state.Some? ==> r.state.value in users && email.Some? && users[r.state.value].email == email.value
    ensures EmailValid(email, isEmail) && EmailUsed(users, email.value) ==>
      (r.status == OK <==> matches(password, users[FindByEmail(users, email.value).value].password))
  {
    if !EmailValid(email, isEmail) then Response(BAD_REQUEST, None)
    else match FindByEmail(users, email.value)
      case None => Response(NOT_FOUND, None)
      case Some(u) =>
        if matches(password, users[u].password) then Response(OK, Some(u)) else Response(BAD_REQUEST, None)
  }

  // ---------------------------------------------------------------------------

  /** Trimming twice is trimming once. */
  lemma TrimIdempotent(s: string)
    ensures Trim(Trim(s)) == Trim(s)
  {
    var t := Trim(s);
    assert TrimStart(t) == t;
    assert TrimEnd(t) == t;
  }

  /** Sign-up succeeds exactly when every field passes and the address is free;
      a failure leaves the users as they were, a success adds exactly one user,
      with the trimmed names, the given address, no friends, no requests and no
      admin right. */
  lemma SignupOutcome(users: Users, firstName: Option<string>, lastName: Option<string>, password: Option<string>,
                      email: Option<string>, isEmail: string -> bool, hash: string -> string, newId: Id)
    requires newId !in users
    ensures var r := Signup(users, firstName, lastName, password, email, isEmail, hash, newId);
      && (r.SignupSucceeded? <==>
            NameValid(firstName) && NameValid(lastName) && PasswordValid(password) && EmailValid(email, isEmail)
            && !EmailUsed(users, email.value))
      && (r.SignupSucceeded? ==>
            && r.users.Keys == users.Keys + {newId}
            && (forall u :: u in users ==> r.users[u] == users[u])
            && r.users[newId].email == email.value
            && r.users[newId].firstName == Trim(firstName.value)
            && r.users[newId].lastName == Trim(lastName.value)
            && r.users[newId].password == hash(Trim(password.value))
            && r.users[newId].friends == [] && r.users[newId].friendRequests == []
            && !r.users[newId].isAdmin)
      && StatusOf(r) == (if r.SignupSucceeded? then OK else BAD_REQUEST)
  {
    SignupDecision(users, firstName, lastName, password, email, isEmail, hash, newId);
    var r := Signup(users, firstName, lastName, password, email, isEmail, hash, newId);
    if r.SignupSucceeded? {
      SignupStores(users, firstName, lastName, password, email, isEmail, hash, newId);
      var u := User(Trim(firstName.value), Trim(lastName.value), email.value, hash(Trim(password.value)), [], [], false);
      assert r.users == users[newId := u];
      assert r.users[newId] == u;
    }
  }

  /** When sign-up succeeds. */
  lemma SignupDecision(users: Users, firstName: Option<string>, lastName: Option<string>, password: Option<string>,
                       email: Option<string>, isEmail: string -> bool, hash: string -> string, newId: Id)
    ensures var r := Signup(users, firstName, lastName, password, email, isEmail, hash, newId);
      r.SignupSucceeded? <==>
        NameValid(firstName) && NameValid(lastName) && PasswordValid(password) && EmailValid(email, isEmail)
        && !EmailUsed(users, email.value)
  {
    var errors := SignupErrors(firstName, lastName, password, email, isEmail);
    assert errors == {} <==>
      NameValid(firstName) && NameValid(lastName) && PasswordValid(password) && EmailValid(email, isEmail);
  }

  /** What a successful sign-up stores. */
  lemma SignupStores(users: Users, firstName: Option<string>, lastName: Option<string>, password: Option<string>,
                     email: Option<string>, isEmail: string -> bool, hash: string -> string, newId: Id)
    requires Signup(users, firstName, lastName, password, email, isEmail, hash, newId).SignupSucceeded?
    ensures email.Some? && firstName.Some? && lastName.Some? && password.Some?
    ensures Signup(users, firstName, lastName, password, email, isEmail, hash, newId).users ==
      users[newId := User(Trim(firstName.value), Trim(lastName.value), email.value,
                          hash(Trim(password.value)), [], [], false)]
  {
  }

  /** Sign-up keeps the friend graph's invariant: the new user has no friends
      and no requests, and every existing user is untouched. */
  lemma SignupKeepsValid(users: Users, firstName: Option<string>, lastName: Option<string>, password: Option<string>,
                         email: Option<string>, isEmail: string -> bool, hash: string -> string, newId: Id)
    requires FriendGraph.Valid(users) && newId !in users
    ensures var r := Signup(users, firstName, lastName, password, email, isEmail, hash, newId);
      r.SignupSucceeded? ==> FriendGraph.Valid(r.users)
  {
    if Signup(users, firstName, lastName, password, email, isEmail, hash, newId).SignupSucceeded? {
      SignupStores(users, firstName, lastName, password, email, isEmail, hash, newId);
      FriendGraph.AddUserValid(users, newId, User(Trim(firstName.value), Trim(lastName.value), email.value,
                                                  hash(Trim(password.value)), [], [], false));
    }
  }

  /** The outcome on each branch of the handler: validation errors, a used
      address, or the new user stored. */
  lemma SignupBranches(users: Users, firstName: Option<string>, lastName: Option<string>, password: Option<string>,
                       email: Option<string>, isEmail: string -> bool, hash: string -> string, newId: Id)
    ensures var r := Signup(users, firstName, lastName, password, email, isEmail, hash, newId);
      var errors := SignupErrors(firstName, lastName, password, email, isEmail);
      && (errors != {} ==> r == SignupFailed(errors))
      && (errors == {} ==> email.Some? && firstName.Some? && lastName.Some? && password.Some?)
      && (errors == {} && EmailUsed(users, email.value) ==> r == SignupFailed({Email}))
      && (errors == {} && !EmailUsed(users, email.value) ==>
            r == SignupSucceeded(users[newId := User(Trim(firstName.value), Trim(lastName.value), email.value,
                                                     hash(Trim(password.value)), [], [], false)]))
  {
  }

  /** A used address is reported on `email` alone once every field is valid. */
  lemma SignupEmailTaken(users: Users, firstName: Option<string>, lastName: Option<string>, password: Option<string>,
                         email: string, isEmail: string -> bool, hash: string -> string, newId: Id)
    requires NameValid(firstName) && NameValid(lastName) && PasswordValid(password) && isEmail(email)
    requires EmailUsed(users, email)
    ensures Signup(users, firstName, lastName, password, Some(email), isEmail, hash, newId) == SignupFailed({Email})
  {
    assert SignupErrors(firstName, lastName, password, Some(email), isEmail) == {};
  }

  /** Signing up twice with one address: the second attempt is refused on `email`. */
  lemma SecondSignupRefused(users: Users, firstName: Option<string>, lastName: Option<string>, password: Option<string>,
                            email: string, isEmail: string -> bool, hash: string -> string, newId: Id, otherId: Id)
    requires newId !in users
    requires Signup(users, firstName, lastName, password, Some(email), isEmail, hash, newId).SignupSucceeded?
    ensures var after := Signup(users, firstName, lastName, password, Some(email), isEmail, hash, newId).users;
      Signup(after, firstName, lastName, password, Some(email), isEmail, hash, otherId) == SignupFailed({Email})
  {
    SignupOutcome(users, firstName, lastName, password, Some(email), isEmail, hash, newId);
    var after := Signup(users, firstName, lastName, password, Some(email), isEmail, hash, newId).users;
    assert after[newId].email == email;
    SignupEmailTaken(after, firstName, lastName, password, email, isEmail, hash, otherId);
  }

  /** After a sign-up, logging in with the address and a password the hash
      accepts answers 200 with the new user's id; one it rejects answers 400. */
  lemma SignupThenLogin(users: Users, firstName: Option<string>, lastName: Option<string>, password: Option<string>,
                        email: string, isEmail: string -> bool, hash: string -> string, newId: Id,
                        attempt: string, matches: (string, string) -> bool)
    requires newId !in users
    requires Signup(users, firstName, lastName, password, Some(email), isEmail, hash, newId).SignupSucceeded?
    ensures var after := Signup(users, firstName, lastName, password, Some(email), isEmail, hash, newId).users;
      var r := Login(after, Some(email), attempt, isEmail, matches);
      && (matches(attempt, hash(Trim(password.value))) ==> r == Response(OK, Some(newId)))
      && (!matches(attempt, hash(Trim(password.value))) ==> r == Response(BAD_REQUEST, None))
  {
    SignupDecision(users, firstName, lastName, password, Some(email), isEmail, hash, newId);
    SignupStores(users, firstName, lastName, password, Some(email), isEmail, hash, newId);
    var created := User(Trim(firstName.value), Trim(lastName.value), email, hash(Trim(password.value)), [], [], false);
    var after := users[newId := created];
    assert !EmailUsed(users, email);
    OnlyNewHasEmail(users, email, newId, created, after);
    FindOnly(after, email, newId);
    assert EmailValid(Some(email), isEmail);
  }

  /** An address nobody used belongs, once stored, to the new user alone. */
  lemma OnlyNewHasEmail(users: Users, email: string, newId: Id, created: User, after: Users)
    requires !EmailUsed(users, email) && after == users[newId := created]
    ensures forall u :: u in after && after[u].email == email ==> u == newId
  {
  }

  /** The only user with an address is the one found. */
  lemma FindOnly(users: Users, email: string, id: Id)
    requires id in users && users[id].email == email
    requires forall u :: u in users && users[u].email == email ==> u == id
    ensures FindByEmail(users, email) == Some(id)
  {
  }

  /** Log-in outcomes: 400 for a malformed or missing address, 404 exactly for
      an unknown one, and otherwise the comparison with the first matching
      user's stored hash decides. */
  lemma LoginOutcome(users: Users, email: Option<string>, password: string, isEmail: string -> bool,
                     matches: (string, string) -> bool)
    ensures var r := Login(users, email, password, isEmail, matches);
      && (!EmailValid(email, isEmail) ==> r == Response(BAD_REQUEST, None))
      && (r.status == NOT_FOUND <==> EmailValid(email, isEmail) && !EmailUsed(users, email.value))
      && (r.status == OK ==>
            && r.state.Some?
            && r.state.value in users
            && users[r.state.value].email == email.value
            && matches(password, users[r.state.value].password))
      && (EmailValid(email, isEmail) && EmailUsed(users, email.value) ==>
            var found := FindByEmail(users, email.value).value;
            && (r.status == OK <==> matches(password, users[found].password))
            && (r.status == OK ==> r.state == Some(found))
            && (r.status != OK ==> r == Response(BAD_REQUEST, None)))
      && (r.status == OK || r.status == BAD_REQUEST || r.status == NOT_FOUND)
  {
  }
}
