/**
 * Account registration and login over the user collection, keyed by email.
 * Password hashing and comparison are an abstract pair; what comes back to
 * the caller is the public view of a user: id, name and email.
 */
module AuthService {
  import opened Wrappers
  import opened Js

  /** A stored user; `password` holds the hash, never the plaintext. */
  datatype StoredUser = StoredUser(id: nat, name: string, email: string, password: string)

  /** What `registerUser` and `loginUser` return: no password field. */
  datatype PublicUser = PublicUser(id: nat, name: string, email: string)

  /** `bcrypt.hash(password, 10)` and `bcrypt.compare(password, hash)`. */
  datatype Hasher = Hasher(hash: string -> string, compare: (string, string) -> bool)

  /** A hasher whose `compare` accepts a password against its own hash. */
  predicate Sound(h: Hasher, password: string) {
    h.compare(password, h.hash(password))
  }

  const UserExistsMessage: string := "User already exists"
  const InvalidCredentialsMessage: string := "Invalid credentials"

  type Users = map<string, StoredUser>

  /** Every user sits under its own email, and ids are distinct and below the
      next id to hand out. */
  predicate TableInvariant(users: Users, nextId: nat) {
    && (forall e :: e in users ==> users[e].email == e && users[e].id < nextId)
    && (forall e1, e2 :: e1 in users && e2 in users && users[e1].id == users[e2].id ==> e1 == e2)
  }

  function Public(u: StoredUser): (p: PublicUser)
    ensures p.id == u.id && p.name == u.name && p.email == u.email
  {
    PublicUser(u.id, u.name, u.email)
  }

  /** The outcome of `registerUser` and the table after it. */
  datatype Registration = Registration(outcome: Result<PublicUser, Exception>, users: Users, nextId: nat)

  /** `registerUser({name, email, password})`. */
  function RegisterSpec(users: Users, nextId: nat, name: string, email: string, password: string, h: Hasher): Registration {
    if email in users then Registration(Failure(Error(UserExistsMessage)), users, nextId)
    else
      var stored := StoredUser(nextId, name, email, h.hash(password));
      Registration(Success(Public(stored)), users[email := stored], nextId + 1)
  }

  /** `loginUser({email, password})`. */
  function LoginSpec(users: Users, email: string, password: string, h: Hasher): Result<PublicUser, Exception> {
    if email !in users then Failure(Error(InvalidCredentialsMessage))
    else if !h.compare(password, users[email].password) then Failure(Error(InvalidCredentialsMessage))
    else Success(Public(users[email]))
  }

  /** A taken email is refused with "User already exists" and nothing changes. */
  lemma RegisterExisting(users: Users, nextId: nat, name: string, email: string, password: string, h: Hasher)
    requires email in users
    ensures RegisterSpec(users, nextId, name, email, password, h) ==
      Registration(Failure(Error(UserExistsMessage)), users, nextId)
  {
  }

  /** A new email adds exactly one user, under that email, storing the hash of
      the password; the result is the new user's public view. */
  lemma RegisterNew(users: Users, nextId: nat, name: string, email: string, password: string, h: Hasher)
    requires email !in users
    ensures var reg := RegisterSpec(users, nextId, name, email, password, h);
      && reg.outcome == Success(PublicUser(nextId, name, email))
      && reg.users.Keys == users.Keys + {email}
      && reg.users[email].password == h.hash(password)
      && (forall e :: e in users ==> reg.users[e] == users[e])
  {
  }

  /** Registration keeps the table invariant. */
  lemma RegisterKeepsInvariant(users: Users, nextId: nat, name: string, email: string, password: string, h: Hasher)
    requires TableInvariant(users, nextId)
    ensures var reg := RegisterSpec(users, nextId, name, email, password, h);
      TableInvariant(reg.users, reg.nextId)
  {
  }

  /** An unknown email and a wrong password are indistinguishable to the
      caller: both fail with the same "Invalid credentials". */
  lemma InvalidCredentialsUniform(users: Users, unknown: string, known: string, wrong: string, h: Hasher)
    requires unknown !in users
    requires known in users && !h.compare(wrong, users[known].password)
    ensures LoginSpec(users, unknown, wrong, h) == LoginSpec(users, known, wrong, h)
    ensures LoginSpec(users, unknown, wrong, h) == Failure(Error(InvalidCredentialsMessage))
  {
  }

  /** Login succeeds exactly when the email is registered and the password
      compares equal against its hash, and then returns that user's public
      view. */
  lemma LoginSucceedsIff(users: Users, email: string, password: string, h: Hasher)
    ensures LoginSpec(users, email, password, h).Success? <==>
      email in users && h.compare(password, users[email].password)
    ensures LoginSpec(users, email, password, h).Success? ==>
      LoginSpec(users, email, password, h).value == Public(users[email])
  {
  }

  /** With a sound hasher, logging in right after registering, with the same
      email and password, returns what registration returned. */
  lemma LoginAfterRegister(users: Users, nextId: nat, name: string, email: string, password: string, h: Hasher)
    requires email !in users
    requires Sound(h, password)
    ensures var reg := RegisterSpec(users, nextId, name, email, password, h);
      LoginSpec(reg.users, email, password, h) == reg.outcome
  {
  }

  /** A later registration does not lock out an earlier account: logins of
      existing users give the same result after it. */
  lemma RegisterPreservesLogins(users: Users, nextId: nat, name: string, email: string, password: string,
                                other: string, otherPassword: string, h: Hasher)
    requires other in users
    ensures var reg := RegisterSpec(users, nextId, name, email, password, h);
      LoginSpec(reg.users, other, otherPassword, h) == LoginSpec(users, other, otherPassword, h)
  {
  }

  /** The user collection. */
  class UserStore {
    var users: Users
    var nextId: nat

    ghost predicate Valid()
      reads this
    {
      TableInvariant(users, nextId)
    }

    constructor ()
      ensures Valid() && users == map[] && nextId == 0
    {
      users := map[];
      nextId := 0;
    }

    /** `registerUser`: look the email up, then create the user. */
    method RegisterUser(name: string, email: string, password: string, h: Hasher)
      returns (r: Result<PublicUser, Exception>)
      requires Valid()
      modifies this
      ensures Valid()
      ensures Registration(r, users, nextId) == RegisterSpec(old(users), old(nextId), name, email, password, h)
    {
      RegisterKeepsInvariant(users, nextId, name, email, password, h);
      if email in users {
        return Failure(Error(UserExistsMessage));
      }
      var hashedPassword := h.hash(password);
      var user := StoredUser(nextId, name, email, hashedPassword);
      users := users[email := user];
      nextId := nextId + 1;
      r := Success(PublicUser(user.id, user.name, user.email));
    }

    /** `loginUser`: reads the table and changes nothing. */
    method LoginUser(email: string, password: string, h: Hasher) returns (r: Result<PublicUser, Exception>)
      ensures r == LoginSpec(users, email, password, h)
    {
      if email !in users {
        return Failure(Error(InvalidCredentialsMessage));
      }
      var user := users[email];
      var isMatch := h.compare(password, user.password);
      if !isMatch {
        return Failure(Error(InvalidCredentialsMessage));
      }
      r := Success(PublicUser(user.id, user.name, user.email));
    }
  }
}
