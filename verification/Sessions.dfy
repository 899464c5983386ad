/** Session epochs: a token carries the version its login read, a logout raises the version, and a
    token is honoured while the two agree. */
module Sessions {
  import opened Domain

  const ROOT_USER_ID := "03AA99227R0000000000000000"
  const ACCESS_TOKEN_TTL := 3600
  const DEFAULT_ACCOUNT_NAME := "Primary Wallet"

  datatype User = User(email: string, passwordHash: string, role: Role, version: int)

  /** A signed token, as the claim it carries; times are whole seconds. */
  datatype Claim = Claim(
    userID: string, email: string, role: Role, permissions: seq<string>, expirationTime: int, tokenVersion: int)

  function ClaimFor(userID: string, user: User, now: int): Claim {
    Claim(userID, user.email, user.role, PermissionsForRole(user.role), now + ACCESS_TOKEN_TTL, user.version)
  }

  /** The token says of the user what their row says: who they are, their role, the permissions of that role
      and no others, and the session epoch; and it runs out after an hour. */
  ghost predicate Carries(claim: Claim, userID: string, user: User, now: int) {
    && claim.userID == userID && claim.email == user.email
    && claim.role == user.role && claim.permissions == PermissionsForRole(user.role)
    && claim.tokenVersion == user.version && claim.expirationTime == now + 3600
  }

  /** So a member's token grants nothing that reaches across owners. */
  lemma MemberTokensReachNobodyElse(claim: Claim, userID: string, user: User, now: int)
    requires Carries(claim, userID, user, now) && user.role == Member
    ensures forall p :: IsAcross(p) ==> !IsGranted(claim.permissions, p)
  {
    MembersReachNobodyElse();
  }

  /** The token is honoured: not expired, and its version is the user's. */
  predicate Honoured(users: map<string, User>, claim: Claim, now: int) {
    now <= claim.expirationTime && claim.userID in users && users[claim.userID].version == claim.tokenVersion
  }

  ghost predicate UniqueEmails(users: map<string, User>) {
    forall a, b :: a in users && b in users && users[a].email == users[b].email ==> a == b
  }

  ghost predicate EmailTaken(users: map<string, User>, email: string) {
    exists a :: a in users && users[a].email == email
  }

  // ---------------------------------------------------------------- interleavings

  /** A login between its read of the user and its token. */
  datatype Read = Read(userID: string, user: User)

  datatype State = State(users: map<string, User>, logins: map<nat, Read>)

  /** The steps that interleave. A token's validation is the moment it reads the version. */
  datatype Event =
    | Register(userID: string, email: string, passwordHash: string)
    | ReadUser(login: nat, email: string, userID: string)
    | Issue(login: nat, now: int)
    | Logout(userID: string)
    | Validate(claim: Claim, now: int)

  ghost predicate Enabled(s: State, e: Event) {
    match e
    case Register(userID, email, _) => userID != "" && userID !in s.users && !EmailTaken(s.users, email)
    case ReadUser(login, email, userID) => login !in s.logins && userID in s.users && s.users[userID].email == email
    case Issue(login, _) => login in s.logins
    case Logout(_) => true
    case Validate(_, _) => true
  }

  function Apply(s: State, e: Event): State {
    match e
    case Register(userID, email, passwordHash) => s.(users := s.users[userID := User(email, passwordHash, Member, 0)])
    case ReadUser(login, email, userID) =>
      if userID in s.users then s.(logins := s.logins[login := Read(userID, s.users[userID])]) else s
    case Issue(_, _) => s
    case Logout(userID) =>
      if LogsOut(s, e, userID)
      then s.(users := s.users[userID := s.users[userID].(version := s.users[userID].version + 1)]) else s
    case Validate(_, _) => s
  }

  /** The event is a logout of the user that takes effect. */
  predicate LogsOut(s: State, e: Event, userID: string) {
    e == Logout(userID) && userID in s.users && s.users[userID].version < MAX_INT64
  }

  ghost predicate Run(states: seq<State>, events: seq<Event>) {
    && |states| == |events| + 1
    && states[0] == State(map[], map[])
    && forall n :: 0 <= n < |events| ==> Enabled(states[n], events[n]) && states[n + 1] == Apply(states[n], events[n])
  }

  /** The history goes on by one event. */
  ghost predicate Took(states: seq<State>, events: seq<Event>, states': seq<State>, events': seq<Event>, e: Event) {
    && |states| == |events| + 1 && Enabled(states[|events|], e)
    && events' == events + [e] && states' == states + [Apply(states[|events|], e)]
  }

  lemma TookIsRun(states: seq<State>, events: seq<Event>, states': seq<State>, events': seq<Event>, e: Event)
    requires Run(states, events) && Took(states, events, states', events', e)
    ensures Run(states', events')
  {
    forall n | 0 <= n < |events'|
      ensures Enabled(states'[n], events'[n]) && states'[n + 1] == Apply(states'[n], events'[n])
    {
      if n < |events| {
        assert Enabled(states[n], events[n]) && states[n + 1] == Apply(states[n], events[n]);
      }
    }
  }

  /** How many logouts of the user took effect from step i up to, not including, step j. */
  function Logouts(states: seq<State>, events: seq<Event>, userID: string, i: nat, j: nat): nat
    requires i <= j <= |events| <= |states|
    decreases j
  {
    if i == j then 0
    else Logouts(states, events, userID, i, j - 1) + if LogsOut(states[j - 1], events[j - 1], userID) then 1 else 0
  }

  /** Only a logout moves a version, and only by one; a user never disappears. */
  lemma {:induction false} VersionCountsLogouts(states: seq<State>, events: seq<Event>, userID: string, i: nat, j: nat)
    requires Run(states, events) && i <= j <= |events| && userID in states[i].users
    ensures userID in states[j].users
    ensures states[j].users[userID].version == states[i].users[userID].version + Logouts(states, events, userID, i, j)
    decreases j
  {
    if i < j {
      VersionCountsLogouts(states, events, userID, i, j - 1);
      StepMovesVersion(states[j - 1], events[j - 1], userID);
    }
  }

  /** A version starts at 0 and stays a BIGINT: the logout that would overflow fails instead. */
  lemma {:induction false} VersionsFit(states: seq<State>, events: seq<Event>, userID: string, n: nat)
    requires Run(states, events) && n <= |events| && userID in states[n].users
    ensures 0 <= states[n].users[userID].version <= 0x7FFF_FFFF_FFFF_FFFF
  {
    if n > 0 {
      assert states[n] == Apply(states[n - 1], events[n - 1]);
      if userID in states[n - 1].users {
        VersionsFit(states, events, userID, n - 1);
      }
    }
  }

  lemma StepMovesVersion(s: State, e: Event, userID: string)
    requires Enabled(s, e) && userID in s.users
    ensures userID in Apply(s, e).users
    ensures Apply(s, e).users[userID].version == s.users[userID].version + if LogsOut(s, e, userID) then 1 else 0
  {
  }

  lemma {:induction false} ReadStays(states: seq<State>, events: seq<Event>, login: nat, i: nat, j: nat)
    requires Run(states, events) && i <= j <= |events| && login in states[i].logins
    ensures login in states[j].logins && states[j].logins[login] == states[i].logins[login]
    decreases j
  {
    if i < j {
      ReadStays(states, events, login, i, j - 1);
      assert Enabled(states[j - 1], events[j - 1]) && states[j] == Apply(states[j - 1], events[j - 1]);
    }
  }

  lemma {:induction false} LogoutsSplit(states: seq<State>, events: seq<Event>, userID: string, i: nat, j: nat, k: nat)
    requires i <= j <= k <= |events| <= |states|
    ensures Logouts(states, events, userID, i, k)
            == Logouts(states, events, userID, i, j) + Logouts(states, events, userID, j, k)
    decreases k
  {
    if j < k {
      LogoutsSplit(states, events, userID, i, j, k - 1);
    }
  }

  /** Login `login` read its user at step i and issued its token at step k. */
  ghost predicate LoggedIn(states: seq<State>, events: seq<Event>, login: nat, i: nat, k: nat, claim: Claim) {
    && Run(states, events) && i < k < |events|
    && events[i].ReadUser? && events[i].login == login
    && events[k].Issue? && events[k].login == login
    && login in states[k].logins
    && claim == ClaimFor(states[k].logins[login].userID, states[k].logins[login].user, events[k].now)
  }

  /** Over every interleaving a token is accepted exactly when it has not expired and no logout of its
      user took effect between the read of the version at login and its read at validation. */
  lemma AcceptedIffNoLogoutBetween(
    states: seq<State>, events: seq<Event>, login: nat, i: nat, k: nat, claim: Claim, j: nat, now: int)
    requires LoggedIn(states, events, login, i, k, claim) && i < j <= |events|
    ensures claim.userID == events[i].userID
    ensures Honoured(states[j].users, claim, now) <==>
              now <= events[k].now + 3600 && Logouts(states, events, claim.userID, i, j) == 0
  {
    assert Enabled(states[i], events[i]) && states[i + 1] == Apply(states[i], events[i]);
    ReadStays(states, events, login, i + 1, k);
    VersionCountsLogouts(states, events, claim.userID, i, j);
  }

  /** A token issued at registration is accepted exactly when it has not expired and its user has not
      logged out since the registration committed. */
  lemma RegisteredIffNoLogout(states: seq<State>, events: seq<Event>, i: nat, j: nat, issued: int, now: int)
    requires Run(states, events) && i < j <= |events| && events[i].Register?
    ensures events[i].userID in states[i + 1].users
    ensures var claim := ClaimFor(events[i].userID, states[i + 1].users[events[i].userID], issued);
            Honoured(states[j].users, claim, now) <==>
              now <= issued + 3600 && Logouts(states, events, claim.userID, i + 1, j) == 0
  {
    assert Enabled(states[i], events[i]) && states[i + 1] == Apply(states[i], events[i]);
    VersionCountsLogouts(states, events, events[i].userID, i + 1, j);
  }

  /** Once revoked, never accepted again: a token its version has failed stays refused. */
  lemma RevokedForGood(
    states: seq<State>, events: seq<Event>, login: nat, i: nat, k: nat, claim: Claim, j: nat, n: nat, now: int, later: int)
    requires LoggedIn(states, events, login, i, k, claim) && i < j <= n <= |events|
    requires now <= claim.expirationTime && !Honoured(states[j].users, claim, now)
    ensures !Honoured(states[n].users, claim, later)
  {
    AcceptedIffNoLogoutBetween(states, events, login, i, k, claim, j, now);
    AcceptedIffNoLogoutBetween(states, events, login, i, k, claim, n, later);
    LogoutsSplit(states, events, claim.userID, i, j, n);
  }

  /** Emails stay unique, so the login that reads by email reads the one row it can mean. */
  lemma {:induction false} EmailsStayUnique(states: seq<State>, events: seq<Event>, n: nat)
    requires Run(states, events) && n < |states|
    ensures UniqueEmails(states[n].users) && "" !in states[n].users
  {
    if n > 0 {
      EmailsStayUnique(states, events, n - 1);
      assert Enabled(states[n - 1], events[n - 1]) && states[n] == Apply(states[n - 1], events[n - 1]);
    }
  }

  /** What a client can expect of a token in its hands: it is accepted from here on exactly until it
      expires or a logout of its user takes effect. */
  ghost predicate LivesUntilLogout(states: seq<State>, events: seq<Event>, claim: Claim, now: int, accepted: bool) {
    forall login: nat, i: nat, k: nat :: LoggedIn(states, events, login, i, k, claim) ==>
      (accepted <==> now <= claim.expirationTime && Logouts(states, events, claim.userID, i, |events|) == 0)
  }

  lemma HonouredLives(states: seq<State>, events: seq<Event>, claim: Claim, now: int)
    requires Run(states, events)
    ensures LivesUntilLogout(states, events, claim, now, Honoured(states[|events|].users, claim, now))
  {
    forall login: nat, i: nat, k: nat | LoggedIn(states, events, login, i, k, claim)
      ensures Honoured(states[|events|].users, claim, now)
              <==> now <= claim.expirationTime && Logouts(states, events, claim.userID, i, |events|) == 0
    {
      AcceptedIffNoLogoutBetween(states, events, login, i, k, claim, |events|, now);
    }
  }

  // ---------------------------------------------------------------- the code

  /** The users and accounts tables, and the calls that touch them. `states` and `events` remember what
      took effect; the program keeps neither. */
  class Identity {
    var users: map<string, User>
    var accounts: map<string, Account>
    var faults: seq<Option<string>>
    ghost var states: seq<State>
    ghost var events: seq<Event>

    constructor ()
      ensures Valid() && users == map[] && accounts == map[] && faults == [] && events == []
    {
      users, accounts, faults := map[], map[], [];
      states, events := [State(map[], map[])], [];
    }

    /** What has happened is a run, and the users table is where it has led. */
    ghost predicate Valid()
      reads this
    {
      Run(states, events) && Now().users == users && UniqueEmails(users) && "" !in users
    }

    ghost function Now(): State
      reads this
      requires Run(states, events)
    {
      states[|events|]
    }

    ghost method Record(e: Event)
      requires Run(states, events) && Enabled(Now(), e)
      modifies this`states, this`events
      ensures Run(states, events) && Took(old(states), old(events), states, events, e)
      ensures UniqueEmails(Now().users) && "" !in Now().users
    {
      var before, past := states, events;
      events, states := events + [e], states + [Apply(Now(), e)];
      TookIsRun(before, past, states, events, e);
      EmailsStayUnique(states, events, |events|);
    }

    /** The next statement fails. */
    ghost predicate Fails()
      reads this
    {
      faults != [] && faults[0].Some?
    }

    ghost function Later(): seq<Option<string>>
      reads this
    {
      if faults == [] then [] else faults[1..]
    }

    method Statement() returns (fault: Option<string>)
      modifies this`faults
      ensures fault.Some? <==> old(Fails())
      ensures faults == old(Later())
    {
      fault := None;
      if faults != [] {
        fault, faults := faults[0], faults[1..];
      }
    }

    /** One row per id and per email. */
    method CreateUser(userID: string, user: User) returns (r: Result<User>)
      requires UniqueEmails(users)
      modifies this`users, this`faults
      ensures UniqueEmails(users)
      ensures r.Ok? ==> userID !in old(users) && !EmailTaken(old(users), user.email)
                        && users == old(users)[userID := user.(version := 0)] && r.value == user
      ensures r.Err? ==> users == old(users) && (r.error.AlreadyExists? || r.error.Storage?)
      ensures r.Err? && r.error.AlreadyExists? ==> userID in users || EmailTaken(users, user.email)
      ensures (r.Err? && r.error.Storage? <==> old(Fails())) && faults == old(Later())
    {
      var fault := Statement();
      if fault.Some? {
        return Err(Storage("insert user", fault.value));
      }
      if userID in users || exists a :: a in users && users[a].email == user.email {
        return Err(AlreadyExists);
      }
      users := users[userID := user.(version := 0)];
      return Ok(user);
    }

    method CreateAccount(accountID: string, account: Account) returns (r: Result<Account>)
      modifies this`accounts, this`faults
      ensures r.Ok? ==> accountID !in old(accounts) && accounts == old(accounts)[accountID := account]
      ensures r.Err? ==> accounts == old(accounts) && (r.error.AlreadyExists? || r.error.Storage?)
      ensures r.Err? && r.error.AlreadyExists? ==> accountID in accounts
      ensures (r.Err? && r.error.Storage? <==> old(Fails())) && faults == old(Later())
    {
      var fault := Statement();
      if fault.Some? {
        return Err(Storage("insert account", fault.value));
      }
      if accountID in accounts {
        return Err(AlreadyExists);
      }
      accounts := accounts[accountID := account];
      return Ok(account);
    }

    /** One unit of work: the member and their first account appear together, as one event, or not at
        all; the token issued afterwards carries the version the new row starts with, and lives until
        it expires or its user logs out. */
    method Register(userID: string, accountID: string, email: string, passwordHash: string, accountName: string, now: int)
      returns (r: Result<Claim>)
      requires Valid() && userID != ""
      modifies this
      ensures Valid()
      ensures r.Ok? ==>
                && Took(old(states), old(events), states, events, Event.Register(userID, email, passwordHash))
                && accountID !in old(accounts)
                && accounts == old(accounts)[accountID :=
                     Account(userID, if accountName == "" then "Primary Wallet" else accountName, 0)]
                && userID !in old(users) && users == old(users)[userID := User(email, passwordHash, Member, 0)]
                && Carries(r.value, userID, users[userID], now) && r.value.permissions == PermissionsForRole(Member)
      ensures r.Err? ==> users == old(users) && accounts == old(accounts) && states == old(states) && events == old(events)
      ensures r.Ok? ==> forall k :: 0 <= k < |old(faults)| && k < 4 ==> old(faults)[k].None?
      ensures old(faults) == [] ==>
                && (r.Ok? <==> userID !in old(users) && !EmailTaken(old(users), email) && accountID !in old(accounts))
                && (r.Err? ==> r.error.AlreadyExists?)
    {
      var name := if accountName == "" then DEFAULT_ACCOUNT_NAME else accountName;
      var user := User(email, passwordHash, Member, 0);

      var begun := Statement();
      if begun.Some? {
        return Err(Storage("begin transaction", begun.value));
      }
      var savedUsers, savedAccounts := users, accounts;
      var createdUser := CreateUser(userID, user);
      if createdUser.Err? {
        users, accounts := savedUsers, savedAccounts;
        return Err(createdUser.error);
      }
      var createdAccount := CreateAccount(accountID, Account(userID, name, 0));
      if createdAccount.Err? {
        users, accounts := savedUsers, savedAccounts;
        return Err(createdAccount.error);
      }
      var committed := Statement();
      if committed.Some? {
        users, accounts := savedUsers, savedAccounts;
        return Err(Storage("commit transaction", committed.value));
      }
      Record(Event.Register(userID, email, passwordHash));
      return Ok(ClaimFor(userID, user, now));
    }

    /** Login resolves any email because it asks as the root user; everyone else without
        user:read:all finds only themselves. */
    method GetByEmail(claims: seq<string>, email: string, userID: string) returns (r: Result<string>)
      requires UniqueEmails(users)
      modifies this`faults
      ensures r.Ok? ==> r.value in users && users[r.value].email == email
                        && (IsGranted(claims, PERM_USER_READ_ALL) || userID == ROOT_USER_ID || userID == r.value)
      ensures r.Err? ==> r.error.NotFound? || r.error.Storage? || r.error.Invalid?
      ensures r.Err? && r.error.Invalid? <==> email == ""
      ensures r.Err? && r.error.Storage? <==> email != "" && old(Fails())
      ensures faults == if email == "" then old(faults) else old(Later())
      ensures r.Err? && r.error.NotFound? ==>
                forall a :: a in users && users[a].email == email ==>
                  !IsGranted(claims, PERM_USER_READ_ALL) && userID != ROOT_USER_ID && userID != a
    {
      if email == "" {
        return Err(Invalid("GetByEmail", ["Email is required"]));
      }
      var fault := Statement();
      if fault.Some? {
        return Err(Storage("scan user", fault.value));
      }
      var scoped := !IsGranted(claims, PERM_USER_READ_ALL) && userID != ROOT_USER_ID;
      if exists a :: a in users && users[a].email == email && (scoped ==> a == userID) {
        var a :| a in users && users[a].email == email && (scoped ==> a == userID);
        return Ok(a);
      }
      return Err(NotFound);
    }

    /** The first half of a login: it reads the user, version and all. */
    method BeginLogin(ghost login: nat, email: string) returns (r: Result<Read>)
      requires Valid() && login !in Now().logins
      modifies this`faults, this`states, this`events
      ensures Valid()
      ensures r.Ok? ==> Took(old(states), old(events), states, events, ReadUser(login, email, r.value.userID))
                        && login in Now().logins && Now().logins[login] == r.value
                        && r.value.userID in users && r.value.user == users[r.value.userID] && r.value.user.email == email
      ensures r.Err? ==> states == old(states) && events == old(events)
      ensures r.Err? ==> match r.error
                         case Unauthorized => !EmailTaken(users, email)
                         case Invalid(_, _) => email == ""
                         case Storage(_, _) => email != "" && old(Fails())
                         case _ => false
      ensures email == "" || old(Fails()) ==> r.Err? && !r.error.Unauthorized?
      ensures faults == if email == "" then old(faults) else old(Later())
    {
      var found := GetByEmail([], email, ROOT_USER_ID);
      if found.Err? {
        return Err(if found.error.NotFound? then Unauthorized else found.error);
      }
      Record(ReadUser(login, email, found.value));
      return Ok(Read(found.value, users[found.value]));
    }

    /** The second half, any time later: it compares the password and stamps the version that was read. */
    method FinishLogin(ghost login: nat, read: Read, passwordMatches: string -> bool, now: int) returns (r: Result<Claim>)
      requires Valid() && login in Now().logins && Now().logins[login] == read
      modifies this`states, this`events
      ensures Valid()
      ensures r.Ok? <==> passwordMatches(read.user.passwordHash)
      ensures r.Ok? ==> Took(old(states), old(events), states, events, Issue(login, now))
                        && Carries(r.value, read.userID, read.user, now)
      ensures r.Err? ==> r.error == Unauthorized && states == old(states) && events == old(events)
    {
      if !passwordMatches(read.user.passwordHash) {
        return Err(Unauthorized);
      }
      Record(Issue(login, now));
      return Ok(ClaimFor(read.userID, read.user, now));
    }

    /** A login nobody interferes with: a token exactly for a known email and its password, and the
        history now shows the login it came from. An unknown email and a wrong password read alike. */
    method Authenticate(ghost login: nat, email: string, passwordMatches: string -> bool, now: int) returns (r: Result<Claim>)
      requires Valid() && login !in Now().logins
      modifies this`faults, this`states, this`events
      ensures Valid()
      ensures r.Ok? ==>
                && r.value.userID in users && users[r.value.userID].email == email
                && passwordMatches(users[r.value.userID].passwordHash)
                && Carries(r.value, r.value.userID, users[r.value.userID], now)
                && LoggedIn(states, events, login, |old(events)|, |old(events)| + 1, r.value)
      ensures r.Err? ==> match r.error
                         case Unauthorized =>
                           forall a :: a in users && users[a].email == email ==> !passwordMatches(users[a].passwordHash)
                         case Invalid(_, _) => email == ""
                         case Storage(_, _) => email != "" && old(Fails())
                         case _ => false
      ensures email == "" || old(Fails()) ==> r.Err? && !r.error.Unauthorized?
    {
      var read := BeginLogin(login, email);
      if read.Err? {
        return Err(read.error);
      }
      r := FinishLogin(login, read.value, passwordMatches, now);
    }

    /** Logout: raises the version by one and returns it, in one statement. */
    method IncrementTokenVersion(userID: string) returns (r: Result<int>)
      requires Valid()
      modifies this`users, this`faults, this`states, this`events
      ensures Valid()
      ensures r.Ok? ==> Took(old(states), old(events), states, events, Logout(userID))
                        && LogsOut(old(Now()), Logout(userID), userID)
                        && userID in users && r.value == users[userID].version == old(users)[userID].version + 1
      ensures r.Err? ==> users == old(users) && states == old(states) && events == old(events)
      ensures r.Err? ==> match r.error
                         case Invalid(_, _) => userID == ""
                         case NotFound => userID !in users
                         case OutOfRange => userID in users && users[userID].version >= 0x7FFF_FFFF_FFFF_FFFF
                         case Storage(_, _) => userID != "" && old(Fails())
                         case _ => false
      ensures userID == "" ==> r.Err? && r.error.Invalid?
      ensures userID != "" && old(Fails()) ==> r.Err? && r.error.Storage?
    {
      if userID == "" {
        return Err(Invalid("IncrementTokenVersion", ["UserID is required"]));
      }
      var fault := Statement();
      if fault.Some? {
        return Err(Storage("increment token version", fault.value));
      }
      if userID !in users {
        return Err(NotFound);
      }
      if users[userID].version >= MAX_INT64 {
        return Err(OutOfRange);
      }
      Record(Logout(userID));
      users := users[userID := users[userID].(version := users[userID].version + 1)];
      return Ok(users[userID].version);
    }

    method GetTokenVersion(userID: string) returns (r: Result<int>)
      modifies this`faults
      ensures r.Ok? ==> userID in users && r.value == users[userID].version
      ensures r.Err? ==> match r.error
                         case Invalid(_, _) => userID == ""
                         case NotFound => userID !in users
                         case Storage(_, _) => userID != "" && old(Fails())
                         case _ => false
      ensures userID == "" ==> r.Err? && r.error.Invalid?
      ensures userID != "" && old(Fails()) ==> r.Err? && r.error.Storage?
    {
      if userID == "" {
        return Err(Invalid("GetTokenVersion", ["UserID is required"]));
      }
      var fault := Statement();
      if fault.Some? {
        return Err(Storage("read token version", fault.value));
      }
      if userID !in users {
        return Err(NotFound);
      }
      return Ok(users[userID].version);
    }

    /** Expiry first, then the version; a version that cannot be read is a refusal. When storage works
        every token of every login there has been lives until it expires or its user has logged out. */
    method ValidateAccessToken(claim: Claim, now: int) returns (accepted: bool)
      requires Valid()
      modifies this`faults, this`states, this`events
      ensures Valid() && Took(old(states), old(events), states, events, Validate(claim, now))
      ensures accepted <==> Honoured(users, claim, now) && !old(Fails())
      ensures !old(Fails()) ==> LivesUntilLogout(old(states), old(events), claim, now, accepted)
    {
      HonouredLives(states, events, claim, now);
      Record(Validate(claim, now));
      if now > claim.expirationTime {
        return false;
      }
      var version := GetTokenVersion(claim.userID);
      if version.Err? {
        return false;
      }
      return claim.tokenVersion == version.value;
    }
  }
}
