/**
 * The `POST /approvisionner` handler of app/__init__.py: the token check,
 * the missing-field check, the handler's own username derivation, then
 * `create_keycloak_user` followed by `apply_k8s_config`. The handler is a
 * function from the request and the backends' state to the response and
 * the new state. What the cluster does with the manifest is the parameter
 * `applied`: whether `apply_k8s_config` went through.
 */
module Provisioner {

  import opened Wrappers
  import opened Text
  import opened Utils
  import opened Backends

  /** The `Authorization` header and the `email` and `full_name` fields of the JSON body. */
  datatype Request = Request(authorization: Option<string>, email: Option<string>, fullName: Option<string>)

  /** The cluster's sandbox namespaces: name to the user id written into the manifest. */
  type Cluster = map<string, UserId>

  datatype Stores = Stores(identity: IdentityStore, cluster: Cluster)

  /** The exceptions that escape the handler, each answered by Flask with status 500. */
  datatype Crash =
    | SentinelNotUnpackable   // `user_id, password = "CREATED"` raises ValueError
    | NamespaceNotApplied     // `apply_k8s_config` raised

  datatype Response =
    | InvalidToken
    | MissingFields
    | UserCreated(userId: UserId, password: string, username: string)
    | ServerError(crash: Crash)

  const InvalidTokenMessage: string := "Token invalide"
  const MissingFieldsMessage: string := "Email et Nom complet manquants"
  const CreatedMessage: string := "Utilisateur créé"

  /** The HTTP status of a response. */
  function Status(r: Response): (code: int)
    ensures code == 200 <==> r.UserCreated?
    ensures 400 <= code < 600 <==> !r.UserCreated?
  {
    match r
    case InvalidToken => 401
    case MissingFields => 400
    case UserCreated(_, _, _) => 200
    case ServerError(_) => 500
  }

  /** The `message` field of the JSON body; a 500 carries Flask's error page instead. */
  function Message(r: Response): (m: Option<string>)
    ensures m.None? <==> r.ServerError?
  {
    match r
    case InvalidToken => Some(InvalidTokenMessage)
    case MissingFields => Some(MissingFieldsMessage)
    case UserCreated(_, _, _) => Some(CreatedMessage)
    case ServerError(_) => None
  }

  /**
   * The handler's username: with an email, the raw text before the first
   * `@` (no `.` replacement, no slugify); otherwise the same
   * lower-case, space-free slug as `make_username`.
   */
  function ProvisionUsername(email: Option<string>, fullName: Option<string>, slugify: Slugifier): (username: string)
    requires Truthy(email) || Truthy(fullName)
    ensures Truthy(email) ==> username <= email.value && '@' !in username
    ensures Truthy(email) ==> |username| == |email.value| || email.value[|username|] == '@'
    ensures !Truthy(email) ==> Success(username) == MakeUsername(email, fullName, slugify)
  {
    if Truthy(email) then LocalPart(email.value)
    else slugify(NameSlugInput(fullName.value))
  }

  /**
   * `approvisionner()`: `expected` is the `VERIFICATION_TOKEN` setting,
   * `draw` the random picks of the password, `freshId` the id Keycloak
   * gives a new user and `applied` whether the manifest was applied.
   */
  function Approvisionner(req: Request, expected: Option<string>, s: Stores, draw: nat -> CharIndex,
                          freshId: UserId, applied: bool, slugify: Slugifier): (res: (Response, Stores))
    ensures res.0.InvalidToken? <==> req.authorization != expected
    ensures res.0.MissingFields? <==> req.authorization == expected && !Truthy(req.email) && !Truthy(req.fullName)
    ensures res.0.InvalidToken? || res.0.MissingFields? ==> res.1 == s
    ensures forall u :: u in s.identity ==> u in res.1.identity && res.1.identity[u] == s.identity[u]
    ensures !res.0.UserCreated? ==> res.1.cluster == s.cluster
    ensures res.0.UserCreated? ==>
              res.0.username == ProvisionUsername(req.email, req.fullName, slugify) &&
              res.0.username !in s.identity &&
              res.1.identity == s.identity[res.0.username := Account(res.0.userId, req.email, res.0.password)] &&
              res.1.cluster == s.cluster[res.0.username := res.0.userId] &&
              |res.0.password| == DefaultPasswordLength
  {
    if req.authorization != expected then
      (InvalidToken, s)
    else if !Truthy(req.email) && !Truthy(req.fullName) then
      (MissingFields, s)
    else
      var username := ProvisionUsername(req.email, req.fullName, slugify);
      var (outcome, identity) := CreateIdentity(s.identity, username, req.email, draw, freshId);
      match outcome
      case AlreadyCreated => (ServerError(SentinelNotUnpackable), Stores(identity, s.cluster))
      case Created(userId, password) =>
        if applied then
          (UserCreated(userId, password, username), Stores(identity, s.cluster[username := userId]))
        else
          (ServerError(NamespaceNotApplied), Stores(identity, s.cluster))
  }

  /** The handler's own error answers: 401 with "Token invalide" exactly on a token mismatch, 400 with the missing-fields message exactly when both fields are falsy. */
  lemma ErrorResponses(req: Request, expected: Option<string>, s: Stores, draw: nat -> CharIndex,
                       freshId: UserId, applied: bool, slugify: Slugifier)
    ensures var r := Approvisionner(req, expected, s, draw, freshId, applied, slugify).0;
            (Status(r) == 401 && Message(r) == Some(InvalidTokenMessage)) <==> req.authorization != expected
    ensures var r := Approvisionner(req, expected, s, draw, freshId, applied, slugify).0;
            (Status(r) == 400 && Message(r) == Some(MissingFieldsMessage)) <==>
              req.authorization == expected && !Truthy(req.email) && !Truthy(req.fullName)
    ensures var r := Approvisionner(req, expected, s, draw, freshId, applied, slugify).0;
            Status(r) == 500 <==>
              Admitted(req, expected) && (ProvisionUsername(req.email, req.fullName, slugify) in s.identity || !applied)
  {
  }

  /** The request that gets past both checks. */
  predicate Admitted(req: Request, expected: Option<string>)
  {
    req.authorization == expected && (Truthy(req.email) || Truthy(req.fullName))
  }

  /**
   * A user is provisioned exactly when the request is admitted, its
   * username is new to Keycloak and the manifest is applied; the response
   * then carries the id and password that `create_keycloak_user` returned.
   */
  lemma SuccessExactly(req: Request, expected: Option<string>, s: Stores, draw: nat -> CharIndex,
                       freshId: UserId, applied: bool, slugify: Slugifier)
    ensures var res := Approvisionner(req, expected, s, draw, freshId, applied, slugify);
            res.0.UserCreated? <==>
              Admitted(req, expected) && ProvisionUsername(req.email, req.fullName, slugify) !in s.identity && applied
    ensures Admitted(req, expected) && applied ==>
              var username := ProvisionUsername(req.email, req.fullName, slugify);
              var created := CreateIdentity(s.identity, username, req.email, draw, freshId).0;
              created.Created? ==>
                Approvisionner(req, expected, s, draw, freshId, applied, slugify).0
                  == UserCreated(created.userId, created.password, username)
  {
  }

  /** An existing username makes `create_keycloak_user` return "CREATED", which cannot be unpacked: a 500, with nothing changed. */
  lemma ExistingUserCrashes(req: Request, expected: Option<string>, s: Stores, draw: nat -> CharIndex,
                            freshId: UserId, applied: bool, slugify: Slugifier)
    requires Admitted(req, expected)
    requires ProvisionUsername(req.email, req.fullName, slugify) in s.identity
    ensures Approvisionner(req, expected, s, draw, freshId, applied, slugify) == (ServerError(SentinelNotUnpackable), s)
  {
  }

  /** No compensation: when the manifest is not applied, the new Keycloak user stays. */
  lemma NoRollbackWhenApplyFails(req: Request, expected: Option<string>, s: Stores, draw: nat -> CharIndex,
                                 freshId: UserId, slugify: Slugifier)
    requires Admitted(req, expected)
    requires ProvisionUsername(req.email, req.fullName, slugify) !in s.identity
    ensures var res := Approvisionner(req, expected, s, draw, freshId, false, slugify);
            var username := ProvisionUsername(req.email, req.fullName, slugify);
            res.0 == ServerError(NamespaceNotApplied) &&
            username in res.1.identity && res.1.identity[username].id == freshId &&
            res.1.cluster == s.cluster
  {
  }

  /** Sending the same request twice: the second answer is a 500 and leaves the stores as the first call left them. */
  lemma ProvisionTwice(req: Request, expected: Option<string>, s: Stores, d1: nat -> CharIndex, d2: nat -> CharIndex,
                       id1: UserId, id2: UserId, a1: bool, a2: bool, slugify: Slugifier)
    requires Admitted(req, expected)
    ensures var first := Approvisionner(req, expected, s, d1, id1, a1, slugify);
            Approvisionner(req, expected, first.1, d2, id2, a2, slugify) == (ServerError(SentinelNotUnpackable), first.1)
  {
    var username := ProvisionUsername(req.email, req.fullName, slugify);
    var first := Approvisionner(req, expected, s, d1, id1, a1, slugify);
    assert username in first.1.identity;
  }

  /**
   * Where the handler and `make_username` part ways: when the local part
   * of the email holds a `.`, the handler keeps it, while `make_username`
   * hands slugify a string without one, so the two differ at least when
   * slugify leaves its input as it is.
   */
  lemma {:induction false} EmailUsernameDiffers(email: Option<string>, fullName: Option<string>)
    requires Truthy(email) && '.' in LocalPart(email.value)
    ensures '.' in ProvisionUsername(email, fullName, s => s)
    ensures '.' !in EmailSlugInput(email.value)
    ensures Success(ProvisionUsername(email, fullName, s => s)) != MakeUsername(email, fullName, s => s)
  {
    var id: Slugifier := s => s;
    assert MakeUsername(email, fullName, id) == Success(EmailSlugInput(email.value));
  }

  /** The concrete case: `a.b@x` is provisioned as `a.b`, where `make_username` would slugify `a_b`. */
  lemma DottedEmail(slugify: Slugifier)
    ensures ProvisionUsername(Some("a.b@x"), None, slugify) == "a.b"
    ensures MakeUsername(Some("a.b@x"), None, slugify) == Success(slugify("a_b"))
  {
    assert "a.b" + "@" + "x" == "a.b@x";
    LocalPartOfAddress("a.b", "x");
    var e := ReplaceChar("a.b", '.', '_');
    assert |e| == 3 && e[0] == 'a' && e[1] == '_' && e[2] == 'b';
    assert e == "a_b";
  }

  /** `jane.doe@example.com` with no prior user: username `jane.doe` and a 12-character password. */
  lemma JaneDoe(expected: Option<string>, s: Stores, draw: nat -> CharIndex, freshId: UserId, slugify: Slugifier)
    requires "jane.doe" !in s.identity
    ensures var req := Request(expected, Some("jane.doe@example.com"), None);
            var res := Approvisionner(req, expected, s, draw, freshId, true, slugify);
            res.0.UserCreated? && res.0.username == "jane.doe" && res.0.userId == freshId && |res.0.password| == 12
  {
    var email := "jane.doe@example.com";
    assert "jane.doe" + "@" + "example.com" == email;
    LocalPartOfAddress("jane.doe", "example.com");
    assert Truthy(Some(email));
    assert ProvisionUsername(Some(email), None, slugify) == "jane.doe";
  }

  /** With `VERIFICATION_TOKEN` unset, a request without an `Authorization` header passes the token check (`None != None` is false). */
  lemma UnsetTokenAdmitsMissingHeader(email: Option<string>, fullName: Option<string>, s: Stores,
                                      draw: nat -> CharIndex, freshId: UserId, applied: bool, slugify: Slugifier)
    ensures !Approvisionner(Request(None, email, fullName), None, s, draw, freshId, applied, slugify).0.InvalidToken?
  {
  }
}
