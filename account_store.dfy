/** The account repositories (accounts/repositories.py) as queries over the
    user, token and activity tables, and the account services
    (accounts/services.py) as methods of `AccountStore`, which holds those
    tables. The current time and every random value are parameters;
    Django's `authenticate` is the stored-password match of an active user. */
module AccountServices {
  import opened Base
  import opened AccountRecords

  const EmailTokenLifetime: int := 24 * 60 * 60
  const PhoneTokenLifetime: int := 10 * 60
  const ResetTokenLifetime: int := 60 * 60
  const LockoutWindowMinutes: int := 30
  const LockoutThreshold: int := 5
  const PhoneCodeRange: nat := 1000000
  /** What `send_mail(..., fail_silently=False)` raises when delivery fails. */
  const MailError: string := "SMTPException"

  // ---------------------------------------------------------------------
  // user queries

  function UserIndex(users: seq<User>, id: int): Option<nat> {
    IndexWhere(users, (u: User) => u.id == id)
  }

  predicate HasUser(users: seq<User>, id: int) {
    exists k :: 0 <= k < |users| && users[k].id == id
  }

  /** `username_exists`: an exact, case-sensitive match. */
  predicate UsernameExists(users: seq<User>, username: string) {
    exists k :: 0 <= k < |users| && users[k].username == username
  }

  /** `email_exists`: the lowercased email against the stored emails. */
  predicate EmailExists(users: seq<User>, email: string) {
    exists k :: 0 <= k < |users| && users[k].email == Lower(email)
  }

  /** The `email=email.lower()` filter. */
  predicate EmailMatch(u: User, email: string) {
    u.email == Lower(email)
  }

  /** `get_by_email`: `.get` on the filter. Emails are indexed but not
      unique (and `update_profile` lets any number of users clear theirs),
      so two users on one address make it raise MultipleObjectsReturned,
      which the method does not catch. */
  function UserByEmail(users: seq<User>, email: string): (r: Result<Option<nat>>)
    ensures r == Success(None) <==> !EmailExists(users, email)
    ensures r.Failure? <==> exists i, j :: 0 <= i < j < |users| && EmailMatch(users[i], email)
                                           && EmailMatch(users[j], email)
    ensures r.Failure? ==> r.error == "MultipleObjectsReturned"
    ensures r.Success? && r.value.Some? ==>
      r.value.value < |users| && EmailMatch(users[r.value.value], email)
      && forall k :: 0 <= k < |users| && k != r.value.value ==> !EmailMatch(users[k], email)
  {
    GetWhere(users, (u: User) => EmailMatch(u, email))
  }

  /** Two users holding one address make the e-mail lookup raise; two
      users who both cleared their address reach this with "". */
  lemma EmailAmbiguous(users: seq<User>, i: nat, j: nat, email: string)
    requires i < |users| && j < |users| && i != j
    requires users[i].email == Lower(email) && users[j].email == Lower(email)
    ensures UserByEmail(users, email) == Failure("MultipleObjectsReturned")
  {
    if i < j {
      assert EmailMatch(users[i], email) && EmailMatch(users[j], email);
    } else {
      assert EmailMatch(users[j], email) && EmailMatch(users[i], email);
    }
  }

  /** The `Q(username=identifier) | Q(email=identifier.lower())` filter. */
  predicate LoginMatch(u: User, identifier: string) {
    u.username == identifier || u.email == Lower(identifier)
  }

  /** `get_by_username_or_email`: `.get` on the filter, which finds None when
      no user matches and raises MultipleObjectsReturned, which the method
      does not catch, when two do (one user's username may be another's
      email). */
  function UserByLogin(users: seq<User>, identifier: string): (r: Result<Option<nat>>)
    ensures r == Success(None) <==> forall k :: 0 <= k < |users| ==> !LoginMatch(users[k], identifier)
    ensures r.Failure? <==> exists i, j :: 0 <= i < j < |users| && LoginMatch(users[i], identifier)
                                           && LoginMatch(users[j], identifier)
    ensures r.Failure? ==> r.error == "MultipleObjectsReturned"
    ensures r.Success? && r.value.Some? ==>
      r.value.value < |users| && LoginMatch(users[r.value.value], identifier)
      && forall k :: 0 <= k < |users| && k != r.value.value ==> !LoginMatch(users[k], identifier)
  {
    GetWhere(users, (u: User) => LoginMatch(u, identifier))
  }

  /** Registration checks usernames and emails apart, so one user's
      username can be another's email; logging in with it then raises. */
  lemma LoginAmbiguous(users: seq<User>, i: nat, j: nat, identifier: string)
    requires i < |users| && j < |users| && i != j
    requires users[i].username == identifier && users[j].email == Lower(identifier)
    ensures UserByLogin(users, identifier) == Failure("MultipleObjectsReturned")
  {
    if i < j {
      assert LoginMatch(users[i], identifier) && LoginMatch(users[j], identifier);
    } else {
      assert LoginMatch(users[j], identifier) && LoginMatch(users[i], identifier);
    }
  }

  /** Email lookups ignore the case of the address asked for. */
  lemma EmailLookupCaseBlind(users: seq<User>, a: string, b: string)
    requires Lower(a) == Lower(b)
    ensures UserByEmail(users, a) == UserByEmail(users, b)
    ensures EmailExists(users, a) <==> EmailExists(users, b)
  {
  }

  /** A stored lowercase address that no other user holds is found, as that
      user, under any capitalisation of it. */
  lemma {:induction false} EmailFoundAnyCase(users: seq<User>, k: nat, email: string)
    requires k < |users| && users[k].email == Lower(email)
    requires forall j :: 0 <= j < |users| && j != k ==> users[j].email != users[k].email
    ensures EmailExists(users, email) && UserByEmail(users, email) == Success(Some(k))
    ensures EmailExists(users, Lower(email))
  {
    LowerIdempotent(email);
    assert EmailMatch(users[k], email);
  }

  // ---------------------------------------------------------------------
  // `update_user`: assign each given field, lowering a non-empty email

  /** The text fields a keyword argument can name. */
  predicate Settable(name: string) {
    name == "first_name" || name == "last_name" || name == "email" || name == "phone"
    || name == "username" || name == "role"
  }

  /** The current value of a settable field. */
  function FieldOf(u: User, name: string): string {
    if name == "first_name" then u.firstName
    else if name == "last_name" then u.lastName
    else if name == "email" then u.email
    else if name == "phone" then u.phone
    else if name == "username" then u.username
    else if name == "role" then u.role
    else ""
  }

  /** The value `update_user` stores for an argument. */
  function Stored(name: string, value: string): string {
    if name == "email" && value != "" then Lower(value) else value
  }

  function SetField(u: User, field: string, value: string): User {
    if field == "first_name" then u.(firstName := value)
    else if field == "last_name" then u.(lastName := value)
    else if field == "email" then u.(email := Stored(field, value))
    else if field == "phone" then u.(phone := value)
    else if field == "username" then u.(username := value)
    else if field == "role" then u.(role := value)
    else u
  }

  /** The user after the keyword arguments have been assigned in order. */
  function ApplyFields(u: User, fields: seq<(string, string)>): User
    decreases |fields|
  {
    if fields == [] then u
    else SetField(ApplyFields(u, fields[..|fields| - 1]), fields[|fields| - 1].0, fields[|fields| - 1].1)
  }

  /** `fields.get(name)` for keyword arguments. */
  function FieldValue(fields: seq<(string, string)>, name: string): Option<string> {
    var k := IndexWhere(fields, (f: (string, string)) => f.0 == name);
    if k.None? then None else Some(fields[k.value].1)
  }

  predicate DistinctNames(fields: seq<(string, string)>) {
    forall i, j :: 0 <= i < j < |fields| ==> fields[i].0 != fields[j].0
  }

  /** One assignment changes the named field and no other. */
  lemma SetFieldEffect(u: User, field: string, value: string, name: string)
    requires Settable(name)
    ensures FieldOf(SetField(u, field, value), name) == if field == name then Stored(name, value) else FieldOf(u, name)
  {
    var r := SetField(u, field, value);
    if name == "first_name" {
      assert r.firstName == if field == name then value else u.firstName;
    } else if name == "last_name" {
      assert r.lastName == if field == name then value else u.lastName;
    } else if name == "email" {
      assert r.email == if field == name then Stored(name, value) else u.email;
    } else if name == "phone" {
      assert r.phone == if field == name then value else u.phone;
    } else if name == "username" {
      assert r.username == if field == name then value else u.username;
    } else {
      assert r.role == if field == name then value else u.role;
    }
  }

  /** The id, the password and the flags are never assigned. */
  lemma {:induction false} ApplyFieldsKeeps(u: User, fields: seq<(string, string)>)
    ensures var r := ApplyFields(u, fields);
      r.id == u.id && r.password == u.password
      && r.isVerified == u.isVerified && r.isActive == u.isActive && r.isStaff == u.isStaff
    decreases |fields|
  {
    if fields != [] {
      ApplyFieldsKeeps(u, fields[..|fields| - 1]);
      SetFieldKeeps(ApplyFields(u, fields[..|fields| - 1]), fields[|fields| - 1].0, fields[|fields| - 1].1);
    }
  }

  /** One assignment leaves the id, the password and the flags. */
  lemma SetFieldKeeps(u: User, field: string, value: string)
    ensures var r := SetField(u, field, value);
      r.id == u.id && r.password == u.password
      && r.isVerified == u.isVerified && r.isActive == u.isActive && r.isStaff == u.isStaff
  {
  }

  /** With distinct names (as keyword arguments are), each settable field
      takes the given value, an email lowercased when non-empty, and a field
      not given keeps its value. */
  lemma {:induction false} ApplyFieldsSets(u: User, fields: seq<(string, string)>, name: string)
    requires DistinctNames(fields) && Settable(name)
    ensures FieldOf(ApplyFields(u, fields), name) ==
      if FieldValue(fields, name).None? then FieldOf(u, name) else Stored(name, FieldValue(fields, name).value)
    decreases |fields|
  {
    if fields != [] {
      var init := fields[..|fields| - 1];
      assert DistinctNames(init) by {
        forall i, j | 0 <= i < j < |init| ensures init[i].0 != init[j].0 {
          assert init[i] == fields[i] && init[j] == fields[j];
        }
      }
      ApplyFieldsSets(u, init, name);
      FieldValueLast(fields, name);
      SetFieldEffect(ApplyFields(u, init), fields[|fields| - 1].0, fields[|fields| - 1].1, name);
    }
  }

  /** With distinct names, a field is either the last argument, or found in
      the arguments before it with the same value. */
  lemma FieldValueLast(fields: seq<(string, string)>, name: string)
    requires fields != [] && DistinctNames(fields)
    ensures var init := fields[..|fields| - 1];
      (fields[|fields| - 1].0 == name ==>
         FieldValue(fields, name) == Some(fields[|fields| - 1].1) && FieldValue(init, name).None?)
      && (fields[|fields| - 1].0 != name ==> FieldValue(fields, name) == FieldValue(init, name))
  {
    var init := fields[..|fields| - 1];
    var n := |fields| - 1;
    var k := IndexWhere(fields, (f: (string, string)) => f.0 == name);
    var k0 := IndexWhere(init, (f: (string, string)) => f.0 == name);
    if fields[n].0 == name {
      assert forall j :: 0 <= j < n ==> init[j] == fields[j] && fields[j].0 != name;
      assert k0.None?;
      assert k == Some(n);
    } else {
      assert forall j :: 0 <= j < n ==> init[j] == fields[j];
      if k0.Some? {
        assert k == k0;
      } else {
        assert k.None?;
      }
    }
  }

  // ---------------------------------------------------------------------
  // token queries

  predicate ValidMatch(t: Token, token: string, tokenType: string, now: int) {
    t.token == token && t.tokenType == tokenType && TokenIsValid(t, now)
  }

  /** `get_valid_token`: the token with that string and type, unused, and
      expiring strictly after now. */
  function ValidToken(tokens: seq<Token>, token: string, tokenType: string, now: int): (r: Option<nat>)
    ensures r.Some? <==> exists k :: (0 <= k < |tokens| && tokens[k].token == token
      && tokens[k].tokenType == tokenType && !tokens[k].isUsed && tokens[k].expiresAt > now)
    ensures r.Some? ==> r.value < |tokens| && ValidMatch(tokens[r.value], token, tokenType, now)
  {
    IndexWhere(tokens, (t: Token) => ValidMatch(t, token, tokenType, now))
  }

  predicate TokenTaken(tokens: seq<Token>, token: string) {
    exists k :: 0 <= k < |tokens| && tokens[k].token == token
  }

  /** The `unique=True` constraint on the token string. */
  predicate TokensUnique(tokens: seq<Token>) {
    forall i, j :: 0 <= i < j < |tokens| ==> tokens[i].token != tokens[j].token
  }

  /** Once the one token with a string is used, that string never finds a
      valid token again, of any type and at any time. */
  lemma UsedTokenSpent(tokens: seq<Token>, i: nat, tokenType: string, now: int)
    requires TokensUnique(tokens) && i < |tokens| && tokens[i].isUsed
    ensures ValidToken(tokens, tokens[i].token, tokenType, now).None?
  {
  }

  /** `delete_expired_tokens`: drop tokens with expires_at strictly before now. */
  function DeleteExpiredTokens(tokens: seq<Token>, now: int): (r: (seq<Token>, nat))
    ensures forall t :: t in r.0 <==> t in tokens && t.expiresAt >= now
    ensures |r.0| + r.1 == |tokens|
  {
    FilterPartition(tokens, (t: Token) => t.expiresAt >= now, (t: Token) => !(t.expiresAt >= now));
    (Filter(tokens, (t: Token) => t.expiresAt >= now), |tokens| - |Filter(tokens, (t: Token) => t.expiresAt >= now)|)
  }

  /** A token expiring exactly now is neither valid nor deleted. */
  lemma ExpiringNowKept(tokens: seq<Token>, k: nat, now: int)
    requires k < |tokens| && tokens[k].expiresAt == now
    ensures tokens[k] in DeleteExpiredTokens(tokens, now).0
    ensures !TokenIsValid(tokens[k], now)
  {
  }

  /** `delete_user_tokens`: that user's tokens, of the given type when a
      non-empty type is given. */
  predicate Purged(t: Token, user: int, tokenType: string) {
    t.user == user && (tokenType == "" || t.tokenType == tokenType)
  }

  function DeleteUserTokens(tokens: seq<Token>, user: int, tokenType: string): (r: (seq<Token>, nat))
    ensures forall t :: t in r.0 <==> t in tokens && !Purged(t, user, tokenType)
    ensures |r.0| + r.1 == |tokens|
    ensures forall t :: t in tokens && t.user != user ==> t in r.0
  {
    FilterPartition(tokens, (t: Token) => !Purged(t, user, tokenType), (t: Token) => !!Purged(t, user, tokenType));
    (Filter(tokens, (t: Token) => !Purged(t, user, tokenType)),
     |tokens| - |Filter(tokens, (t: Token) => !Purged(t, user, tokenType))|)
  }

  // ---------------------------------------------------------------------
  // activity queries

  predicate FailedLogin(a: Activity, user: int, since: int) {
    a.user == Some(user) && a.action == "LOGIN" && a.success == Some(false) && a.createdAt >= since
  }

  /** `get_failed_login_attempts`: failed logins of the user at or after now - minutes. */
  function FailedLoginAttempts(activities: seq<Activity>, user: int, now: int, minutes: int): (n: nat)
    ensures n <= |activities|
    ensures n == |Filter(activities, (a: Activity) => FailedLogin(a, user, now - minutes * 60))|
  {
    Count(activities, (a: Activity) => FailedLogin(a, user, now - minutes * 60))
  }

  /** An attempt logged later, a success, or another user's failure never adds to the count. */
  lemma FailedLoginsIgnoreOthers(activities: seq<Activity>, a: Activity, user: int, now: int, minutes: int)
    requires a.user != Some(user) || a.success != Some(false) || a.action != "LOGIN"
    ensures FailedLoginAttempts(activities + [a], user, now, minutes) == FailedLoginAttempts(activities, user, now, minutes)
  {
    CountSnoc(activities, a, (x: Activity) => FailedLogin(x, user, now - minutes * 60));
  }

  /** A failed login logged now counts toward the lockout. */
  lemma FailureCounts(activities: seq<Activity>, user: int, now: int)
    ensures FailedLoginAttempts(activities + [Activity(Some(user), "LOGIN", Some(false), now)], user, now, LockoutWindowMinutes)
      == FailedLoginAttempts(activities, user, now, LockoutWindowMinutes) + 1
  {
    CountSnoc(activities, Activity(Some(user), "LOGIN", Some(false), now),
              (x: Activity) => FailedLogin(x, user, now - LockoutWindowMinutes * 60));
  }

  function Min(a: int, b: int): int { if a <= b then a else b }

  function ByUser(user: int): Activity -> bool {
    (a: Activity) => a.user == Some(user)
  }

  function NewestFirst(a: Activity): int { -a.createdAt }

  /** `get_user_activities`: the newest `limit` of the user's activities,
      newest first. Each entry is one of the user's, taken no more often
      than it is stored, and every entry of the user left out is no newer
      than the last one returned. */
  function UserActivities(activities: seq<Activity>, user: int, limit: nat): (r: seq<Activity>)
    ensures |r| == Min(limit, Count(activities, ByUser(user)))
    ensures forall a :: a in r ==> a in activities && a.user == Some(user)
    ensures multiset(r) <= multiset(Filter(activities, ByUser(user)))
    ensures forall i, j :: 0 <= i < j < |r| ==> r[i].createdAt >= r[j].createdAt
    ensures |r| > 0 ==> forall a :: a in multiset(Filter(activities, ByUser(user))) - multiset(r) ==>
      a.createdAt <= r[|r| - 1].createdAt
  {
    var f := Filter(activities, ByUser(user));
    assert |f| == Count(activities, ByUser(user));
    var r := SortBy(f, NewestFirst)[..Min(limit, |f|)];
    NewestTake(f, limit, r);
    r
  }

  /** The facts of `UserActivities` about the user's own list `f`. */
  lemma NewestTake(f: seq<Activity>, limit: nat, r: seq<Activity>)
    requires r == SortBy(f, NewestFirst)[..Min(limit, |f|)]
    ensures |r| == Min(limit, |f|)
    ensures forall a :: a in r ==> a in f
    ensures multiset(r) <= multiset(f)
    ensures forall i, j :: 0 <= i < j < |r| ==> r[i].createdAt >= r[j].createdAt
    ensures |r| > 0 ==> forall a :: a in multiset(f) - multiset(r) ==> a.createdAt <= r[|r| - 1].createdAt
  {
    var mine := SortBy(f, NewestFirst);
    var n := Min(limit, |mine|);
    NewestPrefix(mine, n);
    assert multiset(f) - multiset(r) == multiset(mine[n..]);
    if n > 0 {
      forall a | a in multiset(mine[n..]) ensures a.createdAt <= r[|r| - 1].createdAt {
        assert a in mine[n..];
      }
    }
  }

  /** The first n of a newest-first list are newest first, come from it,
      and what is left of it is no newer than the last of them. */
  lemma NewestPrefix(mine: seq<Activity>, n: nat)
    requires SortedBy(mine, NewestFirst) && n <= |mine|
    ensures forall i, j :: 0 <= i < j < |mine[..n]| ==> mine[..n][i].createdAt >= mine[..n][j].createdAt
    ensures forall a :: a in mine[..n] ==> a in mine
    ensures multiset(mine[..n]) <= multiset(mine)
    ensures multiset(mine) - multiset(mine[..n]) == multiset(mine[n..])
    ensures n > 0 ==> forall a :: a in mine[n..] ==> a.createdAt <= mine[n - 1].createdAt
  {
    forall i, j | 0 <= i < j < |mine[..n]| ensures mine[..n][i].createdAt >= mine[..n][j].createdAt {
      assert NewestFirst(mine[i]) <= NewestFirst(mine[j]);
    }
    assert mine == mine[..n] + mine[n..];
    if n > 0 {
      forall a | a in mine[n..] ensures a.createdAt <= mine[n - 1].createdAt {
        var k :| 0 <= k < |mine[n..]| && mine[n..][k] == a;
        assert NewestFirst(mine[n - 1]) <= NewestFirst(mine[n + k]);
      }
    }
  }

  // ---------------------------------------------------------------------
  // the store

  /** `str(secrets.randbelow(1000000)).zfill(6)` for the drawn number. */
  function PhoneCode(n: nat): string {
    ZeroFill(NatToString(n), 6)
  }

  /** Every drawn number gives a six-digit code that reads back as that
      number, so distinct draws give distinct codes. */
  lemma PhoneCodeShape(n: nat)
    requires n < PhoneCodeRange
    ensures |PhoneCode(n)| == 6
    ensures forall i :: 0 <= i < 6 ==> IsDigit(PhoneCode(n)[i])
    ensures DigitsValue(PhoneCode(n)) == n
  {
    assert Pow10(6) == PhoneCodeRange;
    NatToStringLength(n, 6, Pow10(6));
    NatToStringValue(n);
    ZeroFillValue(NatToString(n), 6);
  }

  lemma PhoneCodeInjective(a: nat, b: nat)
    requires a < PhoneCodeRange && b < PhoneCodeRange && PhoneCode(a) == PhoneCode(b)
    ensures a == b
  {
    PhoneCodeShape(a);
    PhoneCodeShape(b);
  }

  class AccountStore {
    var users: seq<User>
    var tokens: seq<Token>
    var activities: seq<Activity>
    var nextId: int

    ghost predicate Valid()
      reads this
    {
      (forall k :: 0 <= k < |users| ==> users[k].id < nextId)
      && (forall k :: 0 <= k < |tokens| ==> HasUser(users, tokens[k].user))
      && TokensUnique(tokens)
    }

    constructor ()
      ensures Valid() && users == [] && tokens == [] && activities == []
    {
      users, tokens, activities := [], [], [];
      nextId := 1;
    }

    /** `UserActivityRepository.log_activity` */
    method Log(user: int, action: string, success: Option<bool>, now: int)
      modifies this`activities
      ensures activities == old(activities) + [Activity(Some(user), action, success, now)]
    {
      activities := activities + [Activity(Some(user), action, success, now)];
    }

    /** `UserService.register_user`: username first, then email; a new user
        gets an EMAIL token valid for 24 hours and a REGISTER entry, and the
        verification mail is sent (`mailSent` is whether delivery succeeds).
        The call is atomic, so a clash of the drawn token string, or a mail
        failure, undoes everything. */
    method RegisterUser(username: string, email: string, password: string, role: string,
                        firstName: string, lastName: string, phone: string,
                        tokenValue: string, mailSent: bool, now: int)
      returns (r: Result<(int, string)>)
      requires Valid()
      modifies this
      ensures Valid()
      ensures UsernameExists(old(users), username) ==>
        r == Failure("Username already exists") && users == old(users) && tokens == old(tokens)
        && activities == old(activities)
      ensures !UsernameExists(old(users), username) && EmailExists(old(users), email) ==>
        r == Failure("Email already exists") && users == old(users) && tokens == old(tokens)
        && activities == old(activities)
      ensures !UsernameExists(old(users), username) && !EmailExists(old(users), email) ==>
        if TokenTaken(old(tokens), tokenValue) then r == Failure("IntegrityError")
        else if !mailSent then r == Failure(MailError)
        else r.Success?
      ensures r.Success? ==>
        !UsernameExists(old(users), username) && !EmailExists(old(users), email)
        && r.value == (old(nextId), tokenValue)
        && users == old(users) + [User(old(nextId), username, Lower(email), password, firstName, lastName,
                                       phone, role, false, true, false)]
        && tokens == old(tokens) + [Token(old(nextId), tokenValue, EmailToken, now + EmailTokenLifetime, false)]
        && activities == old(activities) + [Activity(Some(old(nextId)), "REGISTER", None, now)]
      ensures r.Failure? ==> users == old(users) && tokens == old(tokens) && activities == old(activities)
    {
      if UsernameExists(users, username) {
        return Failure("Username already exists");
      }
      if EmailExists(users, email) {
        return Failure("Email already exists");
      }
      if TokenTaken(tokens, tokenValue) {
        return Failure("IntegrityError");
      }
      if !mailSent {
        // the atomic block rolls back the user, the token and the entry
        return Failure(MailError);
      }
      var u := User(nextId, username, Lower(email), password, firstName, lastName, phone, role, false, true, false);
      users := users + [u];
      tokens := tokens + [Token(u.id, tokenValue, EmailToken, now + EmailTokenLifetime, false)];
      Log(u.id, "REGISTER", None, now);
      nextId := nextId + 1;
      assert HasUser(users, u.id) by { assert users[|users| - 1] == u; }
      assert forall k :: 0 <= k < |old(tokens)| ==> HasUser(users, tokens[k].user) by {
        forall k | 0 <= k < |old(tokens)| ensures HasUser(users, tokens[k].user) {
          assert HasUser(old(users), old(tokens)[k].user);
          var j :| 0 <= j < |old(users)| && old(users)[j].id == old(tokens)[k].user;
          assert users[j] == old(users)[j];
        }
      }
      return Success((u.id, tokenValue));
    }

    /** `UserService.authenticate_user`: an identifier two users match
        raises MultipleObjectsReturned, and an unknown one returns None, both
        logging nothing; five or more failed logins in the last 30 minutes
        refuse the attempt before the password is looked at; otherwise one
        LOGIN entry records whether the password matched. */
    method AuthenticateUser(identifier: string, password: string, now: int) returns (r: Result<Option<int>>)
      requires Valid()
      modifies this`activities
      ensures var i := UserByLogin(old(users), identifier);
        if i.Failure? then r == Failure("MultipleObjectsReturned") && activities == old(activities)
        else if i.value.None? then r == Success(None) && activities == old(activities)
        else
          var u := old(users)[i.value.value];
          if FailedLoginAttempts(old(activities), u.id, now, LockoutWindowMinutes) >= LockoutThreshold then
            r == Failure("Too many failed login attempts. Please try again later.")
            && activities == old(activities)
          else
            var ok := u.password == password && u.isActive;
            r == Success(if ok then Some(u.id) else None)
            && activities == old(activities) + [Activity(Some(u.id), "LOGIN", Some(ok), now)]
    {
      var i := UserByLogin(users, identifier);
      if i.Failure? {
        return Failure(i.error);
      }
      if i.value.None? {
        return Success(None);
      }
      var u := users[i.value.value];
      if FailedLoginAttempts(activities, u.id, now, LockoutWindowMinutes) >= LockoutThreshold {
        return Failure("Too many failed login attempts. Please try again later.");
      }
      var ok := u.password == password && u.isActive;
      Log(u.id, "LOGIN", Some(ok), now);
      r := Success(if ok then Some(u.id) else None);
    }

    /** `UserService.update_profile`: refused only when a non-empty email that
        differs from the stored one already exists; otherwise the fields are
        assigned and a PROFILE_UPDATE entry is logged. */
    method UpdateProfile(index: nat, fields: seq<(string, string)>, now: int) returns (r: Result<User>)
      requires Valid() && index < |users|
      modifies this
      ensures Valid()
      ensures tokens == old(tokens) && nextId == old(nextId)
      ensures var e := FieldValue(fields, "email");
        if e.Some? && e.value != "" && e.value != old(users)[index].email && EmailExists(old(users), e.value) then
          r == Failure("Email already in use") && users == old(users) && activities == old(activities)
        else
          r == Success(ApplyFields(old(users)[index], fields))
          && users == old(users)[index := r.value]
          && activities == old(activities) + [Activity(Some(old(users)[index].id), "PROFILE_UPDATE", None, now)]
    {
      var e := FieldValue(fields, "email");
      if e.Some? && e.value != "" && e.value != users[index].email && EmailExists(users, e.value) {
        return Failure("Email already in use");
      }
      ApplyFieldsKeeps(users[index], fields);
      var u := UpdateUser(index, fields);
      Log(u.id, "PROFILE_UPDATE", None, now);
      return Success(u);
    }

    /** `UserRepository.update_user`: the setattr loop over the arguments. */
    method UpdateUser(index: nat, fields: seq<(string, string)>) returns (u: User)
      requires Valid() && index < |users|
      modifies this`users
      ensures Valid()
      ensures u == ApplyFields(old(users)[index], fields)
      ensures users == old(users)[index := u]
    {
      u := users[index];
      var k := 0;
      while k < |fields|
        invariant 0 <= k <= |fields|
        invariant u == ApplyFields(users[index], fields[..k])
      {
        assert fields[..k + 1][..k] == fields[..k];
        u := SetField(u, fields[k].0, fields[k].1);
        k := k + 1;
      }
      assert fields[..k] == fields;
      ApplyFieldsKeeps(users[index], fields);
      KeepsUsers(users, index, u);
      users := users[index := u];
    }

    /** `UserService.change_password`: a wrong current password raises and
        changes nothing. */
    method ChangePassword(index: nat, oldPassword: string, newPassword: string, now: int) returns (r: Result<bool>)
      requires Valid() && index < |users|
      modifies this
      ensures Valid()
      ensures tokens == old(tokens) && nextId == old(nextId)
      ensures old(users)[index].password != oldPassword ==>
        r == Failure("Current password is incorrect") && users == old(users) && activities == old(activities)
      ensures old(users)[index].password == oldPassword ==>
        r == Success(true) && users == old(users)[index := old(users)[index].(password := newPassword)]
        && activities == old(activities) + [Activity(Some(old(users)[index].id), "PASSWORD_CHANGE", None, now)]
    {
      if users[index].password != oldPassword {
        return Failure("Current password is incorrect");
      }
      var u := users[index].(password := newPassword);
      KeepsUsers(users, index, u);
      users := users[index := u];
      Log(u.id, "PASSWORD_CHANGE", None, now);
      return Success(true);
    }

    /** `UserService.deactivate_account`: clears is_active and logs a PROFILE_UPDATE entry. */
    method DeactivateAccount(index: nat, now: int) returns (u: User)
      requires Valid() && index < |users|
      modifies this
      ensures Valid()
      ensures tokens == old(tokens) && nextId == old(nextId)
      ensures u == old(users)[index].(isActive := false) && users == old(users)[index := u]
      ensures activities == old(activities) + [Activity(Some(u.id), "PROFILE_UPDATE", None, now)]
    {
      u := users[index].(isActive := false);
      KeepsUsers(users, index, u);
      users := users[index := u];
      Log(u.id, "PROFILE_UPDATE", None, now);
    }

    /** `VerificationTokenRepository.create_token`; the unique token string
        makes a repeated string fail. */
    method CreateToken(user: int, token: string, tokenType: string, expiresAt: int) returns (ok: bool)
      requires Valid() && HasUser(users, user)
      modifies this`tokens
      ensures Valid()
      ensures ok <==> !TokenTaken(old(tokens), token)
      ensures ok ==> tokens == old(tokens) + [Token(user, token, tokenType, expiresAt, false)]
      ensures !ok ==> tokens == old(tokens)
    {
      if TokenTaken(tokens, token) {
        return false;
      }
      tokens := tokens + [Token(user, token, tokenType, expiresAt, false)];
      return true;
    }

    /** `create_email_verification_token`: valid for 24 hours. */
    method CreateEmailVerificationToken(index: nat, tokenValue: string, now: int) returns (r: Result<string>)
      requires Valid() && index < |users|
      modifies this`tokens
      ensures Valid()
      ensures r.Success? <==> !TokenTaken(old(tokens), tokenValue)
      ensures r.Success? ==> (r.value == tokenValue
        && tokens == old(tokens) + [Token(users[index].id, tokenValue, EmailToken, now + EmailTokenLifetime, false)])
      ensures r.Failure? ==> tokens == old(tokens)
    {
      var ok := CreateToken(users[index].id, tokenValue, EmailToken, now + EmailTokenLifetime);
      r := if ok then Success(tokenValue) else Failure("IntegrityError");
    }

    /** `create_phone_verification_token`: a six-digit code valid for 10 minutes. */
    method CreatePhoneVerificationToken(index: nat, draw: nat, now: int) returns (r: Result<string>)
      requires Valid() && index < |users| && draw < PhoneCodeRange
      modifies this`tokens
      ensures Valid()
      ensures r.Success? <==> !TokenTaken(old(tokens), PhoneCode(draw))
      ensures r.Success? ==> (r.value == PhoneCode(draw) && |r.value| == 6
        && tokens == old(tokens) + [Token(users[index].id, PhoneCode(draw), PhoneToken, now + PhoneTokenLifetime, false)])
      ensures r.Failure? ==> tokens == old(tokens)
    {
      PhoneCodeShape(draw);
      var code := PhoneCode(draw);
      var ok := CreateToken(users[index].id, code, PhoneToken, now + PhoneTokenLifetime);
      r := if ok then Success(code) else Failure("IntegrityError");
    }

    /** The shared body of `verify_email` and `verify_phone`: a valid token of
        the type marks its user verified and is used up. */
    method Verify(token: string, tokenType: string, kind: string, now: int) returns (r: Option<int>)
      requires Valid()
      modifies this
      ensures Valid()
      ensures nextId == old(nextId)
      ensures var i := ValidToken(old(tokens), token, tokenType, now);
        if i.None? then r == None && users == old(users) && tokens == old(tokens) && activities == old(activities)
        else
          var owner := old(tokens)[i.value].user;
          var j := UserIndex(old(users), owner);
          j.Some? && r == Some(owner)
          && users == old(users)[j.value := old(users)[j.value].(isVerified := true)]
          && tokens == old(tokens)[i.value := old(tokens)[i.value].(isUsed := true)]
          && activities == old(activities) + [Activity(Some(owner), "VERIFICATION", None, now)]
      ensures r.Some? ==> forall later :: ValidToken(tokens, token, tokenType, later).None?
    {
      var i := ValidToken(tokens, token, tokenType, now);
      if i.None? {
        return None;
      }
      var owner := tokens[i.value].user;
      var j := UserIndex(users, owner);
      assert HasUser(users, owner);
      var u := users[j.value].(isVerified := true);
      KeepsUsers(users, j.value, u);
      users := users[j.value := u];
      MarkAsUsed(i.value);
      Log(owner, "VERIFICATION", None, now);
      forall later ensures ValidToken(tokens, token, tokenType, later).None? {
        UsedTokenSpent(tokens, i.value, tokenType, later);
      }
      return Some(owner);
    }

    /** `VerificationService.verify_email`: Verify on EMAIL tokens, which
        marks the user verified, uses the token up and logs one entry. */
    method VerifyEmail(token: string, now: int) returns (r: Option<int>)
      requires Valid()
      modifies this
      ensures Valid()
      ensures nextId == old(nextId)
      ensures var i := ValidToken(old(tokens), token, EmailToken, now);
        if i.None? then r == None && users == old(users) && tokens == old(tokens) && activities == old(activities)
        else
          var owner := old(tokens)[i.value].user;
          var j := UserIndex(old(users), owner);
          j.Some? && r == Some(owner)
          && users == old(users)[j.value := old(users)[j.value].(isVerified := true)]
          && tokens == old(tokens)[i.value := old(tokens)[i.value].(isUsed := true)]
          && activities == old(activities) + [Activity(Some(owner), "VERIFICATION", None, now)]
      ensures r.Some? ==> forall later :: ValidToken(tokens, token, EmailToken, later).None?
    {
      r := Verify(token, EmailToken, "email", now);
    }

    /** `VerificationService.verify_phone`: Verify on PHONE codes, which
        marks the user verified, uses the code up and logs one entry. */
    method VerifyPhone(token: string, now: int) returns (r: Option<int>)
      requires Valid()
      modifies this
      ensures Valid()
      ensures nextId == old(nextId)
      ensures var i := ValidToken(old(tokens), token, PhoneToken, now);
        if i.None? then r == None && users == old(users) && tokens == old(tokens) && activities == old(activities)
        else
          var owner := old(tokens)[i.value].user;
          var j := UserIndex(old(users), owner);
          j.Some? && r == Some(owner)
          && users == old(users)[j.value := old(users)[j.value].(isVerified := true)]
          && tokens == old(tokens)[i.value := old(tokens)[i.value].(isUsed := true)]
          && activities == old(activities) + [Activity(Some(owner), "VERIFICATION", None, now)]
      ensures r.Some? ==> forall later :: ValidToken(tokens, token, PhoneToken, later).None?
    {
      r := Verify(token, PhoneToken, "phone", now);
    }

    /** `VerificationTokenRepository.mark_as_used`: only is_used changes. */
    method MarkAsUsed(i: nat)
      requires Valid() && i < |tokens|
      modifies this`tokens
      ensures Valid()
      ensures tokens == old(tokens)[i := old(tokens)[i].(isUsed := true)]
    {
      tokens := tokens[i := tokens[i].(isUsed := true)];
    }

    /** `create_password_reset_token`: None for an unknown email, and
        MultipleObjectsReturned, with nothing changed, when two users hold
        it; otherwise
        the user's earlier reset tokens are deleted, one new token, valid for
        an hour, is created and the reset mail is sent (`mailSent` is whether
        delivery succeeds). The call is not atomic: when the drawn string
        clashes, the deletion has already happened, and when the mail fails,
        the new token stays stored. */
    method CreatePasswordResetToken(email: string, tokenValue: string, mailSent: bool, now: int)
      returns (r: Result<Option<string>>)
      requires Valid()
      modifies this`tokens
      ensures Valid()
      ensures var g := UserByEmail(users, email);
        if g.Failure? then r == Failure("MultipleObjectsReturned") && tokens == old(tokens)
        else if g.value.None? then r == Success(None) && tokens == old(tokens)
        else
          var i := g.value;
          var purged := DeleteUserTokens(old(tokens), users[i.value].id, ResetToken).0;
          if TokenTaken(purged, tokenValue) then r == Failure("IntegrityError") && tokens == purged
          else r == (if mailSent then Success(Some(tokenValue)) else Failure(MailError))
               && tokens == purged + [Token(users[i.value].id, tokenValue, ResetToken, now + ResetTokenLifetime, false)]
    {
      var g := UserByEmail(users, email);
      if g.Failure? {
        return Failure(g.error);
      }
      var i := g.value;
      if i.None? {
        return Success(None);
      }
      var user := users[i.value].id;
      var _ := DeleteUserTokensOf(user, ResetToken);
      var ok := CreateToken(user, tokenValue, ResetToken, now + ResetTokenLifetime);
      r := if !ok then Failure("IntegrityError") else if mailSent then Success(Some(tokenValue)) else Failure(MailError);
    }

    /** `VerificationService.reset_password`: a valid reset token sets the
        new password and is used up. */
    method ResetPassword(token: string, newPassword: string, now: int) returns (r: Option<int>)
      requires Valid()
      modifies this
      ensures Valid()
      ensures var i := ValidToken(old(tokens), token, ResetToken, now);
        if i.None? then r == None && users == old(users) && tokens == old(tokens) && activities == old(activities)
        else
          var owner := old(tokens)[i.value].user;
          var j := UserIndex(old(users), owner);
          j.Some? && r == Some(owner)
          && users == old(users)[j.value := old(users)[j.value].(password := newPassword)]
          && tokens == old(tokens)[i.value := old(tokens)[i.value].(isUsed := true)]
          && activities == old(activities) + [Activity(Some(owner), "PASSWORD_RESET", None, now)]
      ensures r.Some? ==> forall later :: ValidToken(tokens, token, ResetToken, later).None?
    {
      var i := ValidToken(tokens, token, ResetToken, now);
      if i.None? {
        return None;
      }
      var owner := tokens[i.value].user;
      var j := UserIndex(users, owner);
      assert HasUser(users, owner);
      var u := users[j.value].(password := newPassword);
      KeepsUsers(users, j.value, u);
      users := users[j.value := u];
      MarkAsUsed(i.value);
      Log(owner, "PASSWORD_RESET", None, now);
      forall later ensures ValidToken(tokens, token, ResetToken, later).None? {
        UsedTokenSpent(tokens, i.value, ResetToken, later);
      }
      return Some(owner);
    }

    /** `VerificationTokenRepository.delete_expired_tokens` */
    method DeleteExpired(now: int) returns (count: nat)
      requires Valid()
      modifies this`tokens
      ensures Valid()
      ensures (tokens, count) == DeleteExpiredTokens(old(tokens), now)
    {
      var r := DeleteExpiredTokens(tokens, now);
      FilterKeepsUnique(tokens, (t: Token) => t.expiresAt >= now);
      tokens, count := r.0, r.1;
    }

    /** `VerificationTokenRepository.delete_user_tokens` */
    method DeleteUserTokensOf(user: int, tokenType: string) returns (count: nat)
      requires Valid()
      modifies this`tokens
      ensures Valid()
      ensures (tokens, count) == DeleteUserTokens(old(tokens), user, tokenType)
    {
      var r := DeleteUserTokens(tokens, user, tokenType);
      FilterKeepsUnique(tokens, (t: Token) => !Purged(t, user, tokenType));
      tokens, count := r.0, r.1;
    }
  }

  /** Replacing a user row without changing its id keeps every id present. */
  lemma KeepsUsers(users: seq<User>, k: nat, u: User)
    requires k < |users| && u.id == users[k].id
    ensures forall id :: HasUser(users, id) ==> HasUser(users[k := u], id)
  {
    forall id | HasUser(users, id) ensures HasUser(users[k := u], id) {
      var j :| 0 <= j < |users| && users[j].id == id;
      assert users[k := u][j].id == id;
    }
  }

  /** Deleting tokens keeps the remaining strings unique. */
  lemma {:induction false} FilterKeepsUnique(tokens: seq<Token>, p: Token -> bool)
    requires TokensUnique(tokens)
    ensures TokensUnique(Filter(tokens, p))
  {
    if tokens != [] {
      FilterKeepsUnique(tokens[1..], p);
      var rest := Filter(tokens[1..], p);
      forall t | t in rest ensures t.token != tokens[0].token {
        var j :| 0 <= j < |tokens[1..]| && tokens[1..][j] == t;
        assert tokens[j + 1] == t;
      }
      if p(tokens[0]) {
        var f := Filter(tokens, p);
        assert f == [tokens[0]] + rest;
        forall i, j | 0 <= i < j < |f| ensures f[i].token != f[j].token {
          if i == 0 {
            assert f[j] == rest[j - 1];
            assert f[j] in rest;
          } else {
            assert f[i] == rest[i - 1] && f[j] == rest[j - 1];
          }
        }
      }
    }
  }
}
