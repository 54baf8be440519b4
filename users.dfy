/**
  * internal/service/user_service.go: registration, login and the account
  * operations of the signed-in user.
  *
  * Password hashing (bcrypt) and token signing (JWT) are not modelled; they
  * are functions the service is constructed with. `hashPassword` yields
  * `None` where bcrypt fails, `passwordMatches(hash, password)` is bcrypt's
  * comparison, and `generateToken(id, email)` yields `None` where signing
  * fails. The user store follows the `(nil, nil)` convention for both of
  * its lookups.
  */
module Users {
  import opened Wrappers
  import opened Errors
  import opened Domain
  import opened Storage

  /** A signed-in user together with the token issued for them. */
  datatype Session = Session(user: User, token: string)

  function UserWithEmail(email: string): User -> bool
  {
    (u: User) => u.email == email
  }

  /** Some stored user has `email`. */
  ghost predicate EmailTaken(records: map<Id, User>, email: string)
  {
    exists k :: k in records && records[k].email == email
  }

  /** The copy of a user the service answers with: the hash is blanked. */
  function Public(u: User): (p: User)
    ensures p.passwordHash == ""
    ensures p.(passwordHash := u.passwordHash) == u
  {
    u.(passwordHash := "")
  }

  class UserService {
    const repo: Table<User>
    const hashPassword: string -> Option<string>
    const passwordMatches: (string, string) -> bool
    const generateToken: (Id, string) -> Option<string>

    /** Every user sits under its own identifier, and no two users share an email. */
    ghost predicate Valid()
      reads repo
    {
      && repo.Valid()
      && (forall k :: k in repo.records ==> repo.records[k].id == k)
      && (forall j, k :: j in repo.records && k in repo.records && repo.records[j].email == repo.records[k].email ==> j == k)
    }

    constructor (repo: Table<User>, hashPassword: string -> Option<string>,
                 passwordMatches: (string, string) -> bool, generateToken: (Id, string) -> Option<string>)
      ensures this.repo == repo && this.hashPassword == hashPassword
      ensures this.passwordMatches == passwordMatches && this.generateToken == generateToken
      ensures repo.Valid() && repo.records == map[] ==> Valid()
    {
      this.repo := repo;
      this.hashPassword := hashPassword;
      this.passwordMatches := passwordMatches;
      this.generateToken := generateToken;
    }

    /**
      * Stores a new user under the identifier the store hands out next,
      * keeping only the hash of the password. A token failure is reported
      * after the user is stored, and the user stays.
      */
    method Register(name: string, email: string, password: string, now: Time) returns (r: Result<Session>)
      requires Valid()
      modifies repo`records, repo`nextId
      ensures Valid()
      ensures repo.readFault.Some? ==> r == Failure(Db(repo.readFault.value)) && unchanged(repo)
      ensures repo.readFault.None? && EmailTaken(old(repo.records), email) ==>
        r == Failure(ErrConflict("email already registered")) && unchanged(repo)
      ensures repo.readFault.None? && !EmailTaken(old(repo.records), email) && hashPassword(password).None? ==>
        r == Failure(ErrInternalServer("failed to process password")) && unchanged(repo)
      ensures repo.readFault.None? && !EmailTaken(old(repo.records), email) && hashPassword(password).Some? ==>
        var user := User(old(repo.nextId), name, email, hashPassword(password).value, now, now);
        && (repo.writeFault.Some? ==> r == Failure(Db(repo.writeFault.value)) && repo.records == old(repo.records))
        && (repo.writeFault.None? ==>
              && user.id != Nil && user.id !in old(repo.records)
              && repo.records == old(repo.records)[user.id := user]
              && (generateToken(user.id, email).None? ==> r == Failure(ErrInternalServer("failed to generate token")))
              && (generateToken(user.id, email).Some? ==> r == Success(Session(user, generateToken(user.id, email).value))))
    {
      var existing := repo.FirstWhere(UserWithEmail(email));
      if existing.Failure? {
        return Failure(existing.error);
      }
      if existing.value.Some? {
        return Failure(ErrConflict("email already registered"));
      }
      var hashed := hashPassword(password);
      if hashed.None? {
        return Failure(ErrInternalServer("failed to process password"));
      }
      var id := repo.NewId();
      var user := User(id, name, email, hashed.value, now, now);
      var err := repo.Create(id, user);
      if err.Some? {
        return Failure(err.value);
      }
      var token := generateToken(user.id, user.email);
      if token.None? {
        return Failure(ErrInternalServer("failed to generate token"));
      }
      r := Success(Session(user, token.value));
    }

    /**
      * A failed read, an unknown email and a wrong password all give the
      * same answer, so the caller cannot tell which one happened.
      */
    method Login(email: string, password: string) returns (r: Result<Session>)
      requires Valid()
      ensures repo.readFault.Some? || !EmailTaken(repo.records, email) ==>
        r == Failure(ErrUnauthorized("invalid email or password"))
      ensures repo.readFault.None? ==> forall k :: k in repo.records && repo.records[k].email == email ==>
        && (!passwordMatches(repo.records[k].passwordHash, password) ==>
              r == Failure(ErrUnauthorized("invalid email or password")))
        && (passwordMatches(repo.records[k].passwordHash, password) && generateToken(k, email).None? ==>
              r == Failure(ErrInternalServer("failed to generate token")))
        && (passwordMatches(repo.records[k].passwordHash, password) && generateToken(k, email).Some? ==>
              r == Success(Session(repo.records[k], generateToken(k, email).value)))
    {
      var found := repo.FirstWhere(UserWithEmail(email));
      if found.Failure? || found.value.None? {
        return Failure(ErrUnauthorized("invalid email or password"));
      }
      var user := found.value.value;
      if !passwordMatches(user.passwordHash, password) {
        return Failure(ErrUnauthorized("invalid email or password"));
      }
      var token := generateToken(user.id, user.email);
      if token.None? {
        return Failure(ErrInternalServer("failed to generate token"));
      }
      r := Success(Session(user, token.value));
    }

    method GetCurrentUser(id: Id) returns (r: Result<User>)
      ensures repo.readFault.Some? ==> r == Failure(Db(repo.readFault.value))
      ensures repo.readFault.None? && id !in repo.records ==> r == Failure(ErrNotFound("user not found"))
      ensures repo.readFault.None? && id in repo.records ==> r == Success(Public(repo.records[id]))
    {
      var found := repo.Lookup(id);
      if found.Failure? {
        return Failure(found.error);
      }
      if found.value.None? {
        return Failure(ErrNotFound("user not found"));
      }
      var user := found.value.value;
      user := user.(passwordHash := "");
      r := Success(user);
    }

    /** Renames the user; the stored hash is kept and only the answer has it blanked. */
    method UpdateProfile(userID: Id, name: string, now: Time) returns (r: Result<User>)
      requires Valid()
      modifies repo`records, repo`nextId
      ensures Valid()
      ensures repo.readFault.Some? ==> r == Failure(Db(repo.readFault.value)) && unchanged(repo)
      ensures repo.readFault.None? && userID !in old(repo.records) ==>
        r == Failure(ErrNotFound("user not found")) && unchanged(repo)
      ensures repo.readFault.None? && userID in old(repo.records) ==>
        var renamed := old(repo.records[userID]).(name := name, updatedAt := now);
        && (repo.writeFault.Some? ==> r == Failure(Db(repo.writeFault.value)) && repo.records == old(repo.records))
        && (repo.writeFault.None? ==>
              && repo.records == old(repo.records)[userID := renamed]
              && r == Success(Public(renamed)))
    {
      var found := repo.Lookup(userID);
      if found.Failure? {
        return Failure(found.error);
      }
      if found.value.None? {
        return Failure(ErrNotFound("user not found"));
      }
      var user := found.value.value;
      user := user.(name := name, updatedAt := now);
      var err := repo.Save(userID, user);
      if err.Some? {
        return Failure(err.value);
      }
      user := user.(passwordHash := "");
      r := Success(user);
    }

    method DeleteAccount(id: Id) returns (r: Outcome)
      requires Valid()
      modifies repo`records
      ensures Valid()
      ensures repo.readFault.Some? ==> r == Fail(Db(repo.readFault.value)) && unchanged(repo)
      ensures repo.readFault.None? && id !in old(repo.records) ==>
        r == Fail(ErrNotFound("user not found")) && unchanged(repo)
      ensures repo.readFault.None? && id in old(repo.records) ==>
        && (repo.writeFault.Some? ==> r == Fail(Db(repo.writeFault.value)) && unchanged(repo))
        && (repo.writeFault.None? ==> r == Pass && repo.records == old(repo.records) - {id})
    {
      var found := repo.Lookup(id);
      if found.Failure? {
        return Fail(found.error);
      }
      if found.value.None? {
        return Fail(ErrNotFound("user not found"));
      }
      var err := repo.Delete(id);
      if err.Some? {
        return Fail(err.value);
      }
      r := Pass;
    }
  }
}
