/**
 * The check-then-act helpers of app/utils.py over in-memory stand-ins for
 * the two remote user stores: Keycloak (username to user) and Grafana
 * (login to account). Each helper is a function from the old store to its
 * result and the new store; the classes `Keycloak` and `Grafana` hold a
 * store in a field and carry out the same steps in place.
 */
module Backends {

  import opened Wrappers
  import opened Utils

  /** Keycloak user ids are non-empty (UUIDs), so a present id is always truthy. */
  type UserId = s: string | s != "" witness "0"

  /** What `create_keycloak_user` sends to Keycloak for a new user. */
  datatype Account = Account(id: UserId, email: Option<string>, password: string)

  /** Keycloak's users, by username. */
  type IdentityStore = map<string, Account>

  /** `create_keycloak_user` returns the string "CREATED" when the user exists, and `(user_id, password)` otherwise. */
  datatype CreateOutcome = AlreadyCreated | Created(userId: UserId, password: string)

  /** No two users share an id. */
  ghost predicate UniqueIds(users: IdentityStore)
  {
    forall u, v :: u in users && v in users && u != v ==> users[u].id != users[v].id
  }

  /** `keycloak_admin.get_user_id(username)` */
  function GetUserId(users: IdentityStore, username: string): (r: Option<UserId>)
    ensures r.Some? <==> username in users
    ensures r.Some? ==> r.value == users[username].id
  {
    if username in users then Some(users[username].id) else None
  }

  /**
   * `create_keycloak_user(username, email)`: a password is generated
   * first; an existing username leaves the store alone and yields the
   * sentinel; otherwise the user is added under the id `freshId` that
   * Keycloak assigns, and that id comes back with the password.
   */
  function CreateIdentity(users: IdentityStore, username: string, email: Option<string>,
                          draw: nat -> CharIndex, freshId: UserId): (res: (CreateOutcome, IdentityStore))
    ensures res.0.Created? <==> username !in users
    ensures res.0.AlreadyCreated? ==> res.1 == users
    ensures res.0.Created? ==> res.1.Keys == users.Keys + {username}
    ensures res.0.Created? ==> res.0.userId == freshId && res.1[username] == Account(freshId, email, res.0.password)
    ensures res.0.Created? ==> res.0.password == GeneratePassword(DefaultPasswordLength, draw)
    ensures forall u :: u in users ==> u in res.1 && res.1[u] == users[u]
  {
    var password := GeneratePassword(DefaultPasswordLength, draw);
    if GetUserId(users, username).Some? then
      (AlreadyCreated, users)
    else
      var users' := users[username := Account(freshId, email, password)];
      (Created(GetUserId(users', username).value, password), users')
  }

  /** Adding a user under an id no one holds keeps ids unique. */
  lemma CreatePreservesUniqueIds(users: IdentityStore, username: string, email: Option<string>,
                                 draw: nat -> CharIndex, freshId: UserId)
    requires UniqueIds(users)
    requires forall u :: u in users ==> users[u].id != freshId
    ensures UniqueIds(CreateIdentity(users, username, email, draw, freshId).1)
  {
  }

  /** Creating the same username a second time yields the sentinel and changes nothing. */
  lemma CreateTwice(users: IdentityStore, username: string, e1: Option<string>, e2: Option<string>,
                    d1: nat -> CharIndex, d2: nat -> CharIndex, id1: UserId, id2: UserId)
    ensures var after := CreateIdentity(users, username, e1, d1, id1).1;
            CreateIdentity(after, username, e2, d2, id2) == (AlreadyCreated, after)
  {
  }

  /**
   * `delete_keycloak_user(username)`: the user's id if it had one, and the
   * user removed; `None` and nothing changed otherwise.
   */
  function DeleteIdentity(users: IdentityStore, username: string): (res: (Option<UserId>, IdentityStore))
    ensures res.0.Some? <==> username in users
    ensures res.0.Some? ==> res.0.value == users[username].id
    ensures username !in res.1
    ensures forall u :: u != username ==> (u in res.1 <==> u in users)
    ensures forall u :: u in res.1 ==> res.1[u] == users[u]
  {
    var id := GetUserId(users, username);
    if id.Some? then (id, users - {username}) else (id, users)
  }

  /** Deleting a user just created gives back its new id and the store as it was. */
  lemma CreateThenDelete(users: IdentityStore, username: string, email: Option<string>,
                         draw: nat -> CharIndex, freshId: UserId)
    requires username !in users
    ensures DeleteIdentity(CreateIdentity(users, username, email, draw, freshId).1, username) == (Some(freshId), users)
  {
    var after := CreateIdentity(users, username, email, draw, freshId).1;
    assert after - {username} == users;
  }

  /** Deleting twice: the second call finds nothing and changes nothing. */
  lemma DeleteIdentityTwice(users: IdentityStore, username: string)
    ensures var after := DeleteIdentity(users, username).1;
            DeleteIdentity(after, username) == (None, after)
  {
  }

  /** A Grafana account as `create_grafana_user` sends it. */
  datatype DashboardUser = DashboardUser(id: nat, name: string, email: Option<string>, password: string, role: string, orgId: nat)

  /** Grafana's accounts, by login. */
  type DashboardStore = map<string, DashboardUser>

  const ViewerRole: string := "Viewer"
  const MainOrgId: nat := 1

  /** Grafana refuses a second account with a login already in use. */
  datatype DashboardError = LoginTaken

  /**
   * `create_grafana_user(username, email, password)`: a Viewer account in
   * organisation 1 whose name and login are the username, under the id
   * `freshId` that Grafana assigns; the result is that id.
   */
  function CreateDashboardUser(accounts: DashboardStore, username: string, email: Option<string>,
                               password: string, freshId: nat): (res: (Result<nat, DashboardError>, DashboardStore))
    ensures res.0.Failure? <==> username in accounts
    ensures res.0.Failure? ==> res.1 == accounts
    ensures res.0.Success? ==> res.0.value == freshId && res.1.Keys == accounts.Keys + {username}
    ensures res.0.Success? ==> res.1[username] == DashboardUser(freshId, username, email, password, ViewerRole, MainOrgId)
    ensures forall l :: l in accounts ==> l in res.1 && res.1[l] == accounts[l]
  {
    if username in accounts then
      (Failure(LoginTaken), accounts)
    else
      (Success(freshId), accounts[username := DashboardUser(freshId, username, email, password, ViewerRole, MainOrgId)])
  }

  /** `delete_grafana_user(username)`: removes the account if one is found, and always answers `True`. */
  function DeleteDashboardUser(accounts: DashboardStore, username: string): (res: (bool, DashboardStore))
    ensures res.0
    ensures username !in res.1
    ensures forall l :: l != username ==> (l in res.1 <==> l in accounts)
    ensures forall l :: l in res.1 ==> res.1[l] == accounts[l]
  {
    if username in accounts then (true, accounts - {username}) else (true, accounts)
  }

  /** Deleting an account just created restores the store. */
  lemma CreateThenDeleteDashboardUser(accounts: DashboardStore, username: string, email: Option<string>,
                                      password: string, freshId: nat)
    requires username !in accounts
    ensures DeleteDashboardUser(CreateDashboardUser(accounts, username, email, password, freshId).1, username) == (true, accounts)
  {
    var after := CreateDashboardUser(accounts, username, email, password, freshId).1;
    assert after - {username} == accounts;
  }

  /** The Keycloak user store, updated in place by the two helpers. */
  class Keycloak {
    var users: IdentityStore

    ghost predicate Valid()
      reads this
    {
      UniqueIds(users)
    }

    constructor (users: IdentityStore)
      requires UniqueIds(users)
      ensures Valid() && this.users == users
    {
      this.users := users;
    }

    /** `create_keycloak_user`; `freshId` is the id Keycloak would give a new user, held by no one yet. */
    method CreateUser(username: string, email: Option<string>, draw: nat -> CharIndex, freshId: UserId)
      returns (outcome: CreateOutcome)
      requires Valid()
      requires forall u :: u in users ==> users[u].id != freshId
      modifies this
      ensures Valid()
      ensures (outcome, users) == CreateIdentity(old(users), username, email, draw, freshId)
    {
      var password := GeneratePassword(DefaultPasswordLength, draw);
      var userId := GetUserId(users, username);
      if userId.None? {
        users := users[username := Account(freshId, email, password)];
      } else {
        return AlreadyCreated;
      }
      userId := GetUserId(users, username);
      outcome := Created(userId.value, password);
      CreatePreservesUniqueIds(old(users), username, email, draw, freshId);
    }

    /** `delete_keycloak_user` */
    method DeleteUser(username: string) returns (userId: Option<UserId>)
      requires Valid()
      modifies this
      ensures Valid()
      ensures (userId, users) == DeleteIdentity(old(users), username)
    {
      userId := GetUserId(users, username);
      if userId.Some? {
        users := users - {username};
      }
    }
  }

  /** The Grafana account store (the module-wide `grafana` client), updated in place. */
  class Grafana {
    var accounts: DashboardStore

    constructor (accounts: DashboardStore)
      ensures this.accounts == accounts
    {
      this.accounts := accounts;
    }

    /** `create_grafana_user` */
    method CreateUser(username: string, email: Option<string>, password: string, freshId: nat)
      returns (r: Result<nat, DashboardError>)
      modifies this
      ensures (r, accounts) == CreateDashboardUser(old(accounts), username, email, password, freshId)
    {
      if username in accounts {
        return Failure(LoginTaken);
      }
      accounts := accounts[username := DashboardUser(freshId, username, email, password, ViewerRole, MainOrgId)];
      r := Success(freshId);
    }

    /** `delete_grafana_user` */
    method DeleteUser(username: string) returns (r: bool)
      modifies this
      ensures (r, accounts) == DeleteDashboardUser(old(accounts), username)
    {
      if username in accounts {
        accounts := accounts - {username};
      }
      r := true;
    }
  }
}
