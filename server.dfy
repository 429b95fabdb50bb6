/** Registration and login (server.js): the decision logic over the author collection. */
module Server {
  import opened Common
  import AuthorModel
  import Db

  /** bcrypt: `hash(password, 10)` and `compare(password, hash)`. Salting is not modelled, so the
      hash is a function of the password alone. */
  datatype Crypto = Crypto(hash: string -> string, verify: (string, string) -> bool)

  /** The claims of a signed token; the signature and the signing secret are not modelled. */
  datatype TokenPayload = TokenPayload(id: Id, name: string, email: string)
  datatype Token = Token(payload: TokenPayload, expiresInSeconds: nat)

  /** `expiresIn: '1h'`. */
  const TokenLifetime: nat := 3600

  /** The `user` object of a response: name and email, and no password. */
  datatype UserSummary = UserSummary(name: string, email: string)

  /** A response: its status, its message, and the user and token it carries, if any. */
  datatype Reply = Reply(status: int, message: string, user: Option<UserSummary>, token: Option<Token>)

  /** The token both routes issue for a stored author. */
  function TokenFor(id: Id, a: AuthorModel.Author): Token
    requires a.name.Some? && a.email.Some?
  {
    Token(TokenPayload(id, a.name.value, a.email.value), TokenLifetime)
  }

  /** `POST /users`. The password is hashed first, so a missing password fails before the email is
      looked up; a taken email is a conflict; otherwise the author is saved with the hash. */
  method Register(store: Db.Store, crypto: Crypto, name: Option<string>, email: string,
                  password: Option<string>, bio: Option<string>, now: nat) returns (reply: Reply)
    requires store.Valid()
    modifies store
    ensures store.Valid()
    ensures store.articles == old(store.articles) && store.comments == old(store.comments)
    // bcrypt.hash(undefined) throws
    ensures password.None? ==> reply == Reply(500, "Server error", None, None)
                               && store.authors == old(store.authors) && store.nextId == old(store.nextId)
    ensures password.Some? && AuthorModel.EmailTaken(old(store.authors), email) ==>
              reply == Reply(409, "User already exists", None, None)
              && store.authors == old(store.authors) && store.nextId == old(store.nextId)
    ensures password.Some? && !AuthorModel.EmailTaken(old(store.authors), email) ==>
      var id := old(store.nextId);
      var author := AuthorModel.Author(name, Some(email), Some(crypto.hash(password.value)), bio, now);
      && store.nextId == id + 1
      && (AuthorModel.Valid(author) ==>
            && store.authors == old(store.authors)[id := author]
            && reply == Reply(201, "User registered successfully",
                              Some(UserSummary(name.value, email)), Some(TokenFor(id, author))))
      && (!AuthorModel.Valid(author) ==>
            store.authors == old(store.authors) && reply == Reply(500, "Server error", None, None))
    // whatever happens, no two authors share an email
    ensures AuthorModel.EmailsUnique(store.authors)
  {
    if password.None? {
      return Reply(500, "Server error", None, None);
    }
    var hashedPassword := crypto.hash(password.value);
    var existing := store.FindAuthorByEmail(email);
    if existing.Some? {
      return Reply(409, "User already exists", None, None);
    }
    var id := store.NewId();
    var author := AuthorModel.Author(name, Some(email), Some(hashedPassword), bio, now);
    var err := store.InsertAuthor(id, author);
    if err.Some? {
      return Reply(500, "Server error", None, None);
    }
    reply := Reply(201, "User registered successfully", Some(UserSummary(author.name.value, email)),
                   Some(TokenFor(id, author)));
  }

  /** `POST /users/login`: an unknown email is 400, a password the stored hash does not verify is
      401, and a verified one is 200 with a token. The store is only read. */
  method Login(store: Db.Store, crypto: Crypto, email: string, password: Option<string>)
    returns (reply: Reply)
    requires store.Valid()
    ensures !AuthorModel.EmailTaken(store.authors, email) ==>
              reply == Reply(400, "Cannot find user", None, None)
    ensures forall id :: id in store.authors && store.authors[id].email == Some(email) ==>
      var user := store.authors[id];
      // bcrypt.compare(undefined, hash) throws
      && (password.None? ==> reply == Reply(500, "Server error", None, None))
      && (password.Some? && crypto.verify(password.value, user.password.value) ==>
            reply == Reply(200, "Success", Some(UserSummary(user.name.value, email)), Some(TokenFor(id, user))))
      && (password.Some? && !crypto.verify(password.value, user.password.value) ==>
            reply == Reply(401, "Incorrect password", None, None))
  {
    var found := store.FindAuthorByEmail(email);
    if found.None? {
      return Reply(400, "Cannot find user", None, None);
    }
    var id := found.value;
    var user := store.authors[id];
    if password.None? {
      return Reply(500, "Server error", None, None);
    }
    var isMatch := crypto.verify(password.value, user.password.value);
    if isMatch {
      reply := Reply(200, "Success", Some(UserSummary(user.name.value, email)), Some(TokenFor(id, user)));
    } else {
      reply := Reply(401, "Incorrect password", None, None);
    }
  }

  /** bcrypt's promise: a hash is never empty, and a password verifies against the hash of exactly
      itself. */
  ghost predicate Sound(crypto: Crypto)
  {
    && (forall p :: |crypto.hash(p)| > 0)
    && (forall p, q :: crypto.verify(p, crypto.hash(q)) <==> p == q)
  }

  lemma AdaAddressAccepted()
    ensures AuthorModel.MatchesEmail("ada@x.com")
  {
    assert AuthorModel.EmailMatchAt("ada@x.com", 3, 5);
  }

  /** Register Ada, then log in with a wrong and with the right password; registering the same
      email again is a conflict. */
  method RegisterThenLogin(store: Db.Store, crypto: Crypto, now: nat) returns (statuses: seq<int>)
    requires store.Valid() && store.authors == map[] && Sound(crypto)
    modifies store
    ensures statuses == [201, 401, 200, 409]
    ensures |store.authors| == 1
  {
    ghost var id := store.nextId;
    AdaAddressAccepted();
    assert AuthorModel.Valid(AuthorModel.Author(Some("Ada"), Some("ada@x.com"), Some(crypto.hash("secret123")), None, now));
    var r := Register(store, crypto, Some("Ada"), "ada@x.com", Some("secret123"), None, now);
    assert r.status == 201 && r.token.Some?;
    assert id in store.authors && store.authors[id].email == Some("ada@x.com");
    assert store.authors[id].password == Some(crypto.hash("secret123"));
    assert !crypto.verify("wrong", crypto.hash("secret123"));
    var wrong := Login(store, crypto, "ada@x.com", Some("wrong"));
    assert wrong.status == 401 && wrong.token.None?;
    var right := Login(store, crypto, "ada@x.com", Some("secret123"));
    assert right.status == 200 && right.token.Some?;
    var again := Register(store, crypto, Some("Ada"), "ada@x.com", Some("other"), None, now);
    assert again.status == 409;
    statuses := [r.status, wrong.status, right.status, again.status];
  }
}
