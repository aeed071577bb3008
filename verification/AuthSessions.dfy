/**
 * Sign-in, refresh, sign-out, password reset and bans as whole service calls on one store:
 * auth.service.ts and the ban calls of admin.service.ts.
 */
module AuthSessions {
  import opened Prelude
  import opened RefreshTokens

  datatype State = State(
    now: int,
    graceMs: int,
    ttlMs: int,
    table: Table,
    issued: map<Token, Claims>,
    /** The family each token was issued in, whether or not its row still exists. */
    lineage: map<Token, Family>,
    users: set<User>,
    admins: set<User>,
    banned: set<User>,
    /**
     * No entry: the account signs in with Google only. Comparing with the stored hash is comparing with the
     * password.
     */
    passwords: map<User, string>,
    /** Accounts whose address is confirmed. */
    verified: set<User>)

  /** Password sign-in, the Google callback and email verification all end in a first token of a new family;
      `redeemed` is the answer of redeemCode. */
  datatype Call =
    | Login(user: User, password: string, child: Token, family: Family)
    | VerifyEmail(user: User, redeemed: bool, child: Token, family: Family)
    | SignIn(user: User, child: Token, family: Family)
    | Refresh(token: Token, child: Token)
    | Logout(token: Token)
    | ResetPassword(user: User, redeemed: bool, password: string)
    | Ban(user: User, actor: User)
    | Unban(user: User)
    | PurgeExpired
    | Wait(ms: nat)

  datatype Outcome = Issued(token: Token) | Unauthorized | Forbidden | BadRequest | NotFound | Done

  /** The accounts a run starts with: who they are, and with which passwords and confirmed addresses. */
  datatype Accounts = Accounts(users: set<User>, admins: set<User>, passwords: map<User, string>, verified: set<User>)

  function Init(graceMs: int, ttlMs: int, now: int, a: Accounts): State {
    State(now, graceMs, ttlMs, map[], map[], map[], a.users, a.admins, {}, a.passwords, a.verified)
  }

  function Issue(s: State, child: Token, user: User, family: Family): State {
    s.(table := s.table[child := Row(user, family, None, s.now + s.ttlMs)],
       issued := s.issued[child := Claims(user, SignedExpiry(s.now, s.ttlMs))],
       lineage := s.lineage[child := family])
  }

  /** randomUUID: token ids and family ids never repeat. */
  predicate Fresh(s: State, call: Call) {
    match call
    case Login(_, _, child, family) => child !in s.issued && family !in s.lineage.Values
    case VerifyEmail(_, _, child, family) => child !in s.issued && family !in s.lineage.Values
    case SignIn(_, child, family) => child !in s.issued && family !in s.lineage.Values
    case Refresh(_, child) => child !in s.issued
    case _ => true
  }

  /** What follows a claim that was won, or a race inside the grace window. */
  function Exchange(s: State, sub: User, family: Family, child: Token): (State, Outcome) {
    if sub !in s.users then (s, Unauthorized)
    else if sub in s.banned then (s, Forbidden)
    else (Issue(s, child, sub, family), Issued(child))
  }

  function RefreshCall(s: State, token: Token, child: Token): (State, Outcome) {
    if !Verifies(s.issued, token, s.now) then (s, Unauthorized)
    else if token !in s.table then (s, Unauthorized)
    else
      var family := s.table[token].family;
      if Claimable(s.table, token) then
        Exchange(s.(table := Claim(s.table, token, s.now)), s.issued[token].sub, family, child)
      else if WithinGrace(s.table, token, s.now, s.graceMs) then
        Exchange(s, s.issued[token].sub, family, child)
      else (s.(table := DeleteFamily(s.table, family)), Unauthorized)
  }

  function LoginCall(s: State, user: User, password: string, child: Token, family: Family): (State, Outcome) {
    if user !in s.users then (s, Unauthorized)
    else if user !in s.passwords then (s, Unauthorized)
    else if s.passwords[user] != password then (s, Unauthorized)
    else if user !in s.verified then (s, Forbidden)
    else if user in s.banned then (s, Forbidden)
    else (Issue(s, child, user, family), Issued(child))
  }

  /** No unknown or banned account can redeem a code, nor a confirmed one a verification code. */
  function VerifyEmailCall(s: State, user: User, redeemed: bool, child: Token, family: Family): (State, Outcome) {
    if !redeemed || user !in s.users || user in s.verified || user in s.banned then (s, BadRequest)
    else (Issue(s.(verified := s.verified + {user}), child, user, family), Issued(child))
  }

  function ResetPasswordCall(s: State, user: User, redeemed: bool, password: string): (State, Outcome) {
    if !redeemed || user !in s.users || user in s.banned then (s, BadRequest)
    else (s.(passwords := s.passwords[user := password], verified := s.verified + {user},
             table := DeleteUser(s.table, user)), Done)
  }

  function Apply(s: State, call: Call): (State, Outcome) {
    match call
    case Login(user, password, child, family) => LoginCall(s, user, password, child, family)
    case VerifyEmail(user, redeemed, child, family) => VerifyEmailCall(s, user, redeemed, child, family)
    case SignIn(user, child, family) =>
      if user !in s.users then (s, Unauthorized)
      else if user in s.banned then (s, Forbidden)
      else (Issue(s, child, user, family), Issued(child))
    case Refresh(token, child) => RefreshCall(s, token, child)
    case Logout(token) =>
      if token !in s.table then (s, Done) else (s.(table := DeleteFamily(s.table, s.table[token].family)), Done)
    case ResetPassword(user, redeemed, password) => ResetPasswordCall(s, user, redeemed, password)
    case Ban(user, actor) =>
      if user == actor then (s, BadRequest)
      else if user !in s.users then (s, NotFound)
      else if user in s.admins then (s, BadRequest)
      else if user in s.banned then (s, BadRequest)
      else (s.(banned := s.banned + {user}, table := DeleteUser(s.table, user)), Done)
    case Unban(user) =>
      if user !in s.users then (s, NotFound) else (s.(banned := s.banned - {user}), Done)
    case PurgeExpired => (s.(table := Purge(s.table, s.now)), Done)
    case Wait(ms) => (s.(now := s.now + ms), Done)
  }

  // ─── The service ─────────────────────────────────────────────────────────

  class AuthService {
    const graceMs: int
    const ttlMs: int
    var now: int
    var table: Table
    var issued: map<Token, Claims>
    var lineage: map<Token, Family>
    var users: set<User>
    var admins: set<User>
    var banned: set<User>
    var passwords: map<User, string>
    var verified: set<User>

    function Value(): State
      reads this
    {
      State(now, graceMs, ttlMs, table, issued, lineage, users, admins, banned, passwords, verified)
    }

    constructor (graceMs: int, ttlMs: int, now: int, a: Accounts)
      ensures Value() == Init(graceMs, ttlMs, now, a)
    {
      this.graceMs, this.ttlMs, this.now := graceMs, ttlMs, now;
      users, admins, passwords, verified := a.users, a.admins, a.passwords, a.verified;
      table, issued, lineage, banned := map[], map[], map[], {};
    }

    method CreateRefreshToken(userId: User, child: Token, familyId: Family)
      modifies this`table, this`issued, this`lineage
      ensures Value() == Issue(old(Value()), child, userId, familyId)
    {
      issued := issued[child := Claims(userId, SignedExpiry(now, ttlMs))];
      lineage := lineage[child := familyId];
      table := table[child := Row(userId, familyId, None, now + ttlMs)];
    }

    method SignInWith(userId: User, password: string, child: Token, familyId: Family) returns (o: Outcome)
      requires Fresh(Value(), Login(userId, password, child, familyId))
      modifies this
      ensures (Value(), o) == Apply(old(Value()), Login(userId, password, child, familyId))
    {
      if userId !in users {
        return Unauthorized;
      }
      if userId !in passwords {
        return Unauthorized;
      }
      if passwords[userId] != password {
        return Unauthorized;
      }
      if userId !in verified {
        return Forbidden;
      }
      if userId in banned {
        return Forbidden;
      }
      CreateRefreshToken(userId, child, familyId);
      return Issued(child);
    }

    method VerifyEmailCode(userId: User, redeemed: bool, child: Token, familyId: Family) returns (o: Outcome)
      requires Fresh(Value(), VerifyEmail(userId, redeemed, child, familyId))
      modifies this
      ensures (Value(), o) == Apply(old(Value()), VerifyEmail(userId, redeemed, child, familyId))
    {
      if !redeemed || userId !in users || userId in verified || userId in banned {
        return BadRequest;
      }
      verified := verified + {userId};
      CreateRefreshToken(userId, child, familyId);
      return Issued(child);
    }

    /** Returns quietly inside the grace window; otherwise deletes the family and reports reuse. */
    method AssertWithinReuseGrace(token: Token, familyId: Family) returns (ok: bool)
      modifies this`table
      ensures ok == WithinGrace(old(table), token, now, graceMs)
      ensures table == if ok then old(table) else DeleteFamily(old(table), familyId)
    {
      if token in table && table[token].consumedAt.Some? {
        var age := now - table[token].consumedAt.value;
        if age < graceMs {
          return true;
        }
      }
      table := DeleteFamily(table, familyId);
      return false;
    }

    method Refresh(token: Token, child: Token) returns (o: Outcome)
      requires Fresh(Value(), Call.Refresh(token, child))
      modifies this
      ensures (Value(), o) == Apply(old(Value()), Call.Refresh(token, child))
    {
      if !Verifies(issued, token, now) {
        return Unauthorized;
      }
      var sub := issued[token].sub;
      if token !in table {
        return Unauthorized;
      }
      var family := table[token].family;
      if Claimable(table, token) {
        table := Claim(table, token, now);
      } else {
        var ok := AssertWithinReuseGrace(token, family);
        if !ok {
          return Unauthorized;
        }
      }
      if sub !in users {
        return Unauthorized;
      }
      if sub in banned {
        return Forbidden;
      }
      CreateRefreshToken(sub, child, family);
      return Issued(child);
    }

    method Logout(token: Token)
      modifies this`table
      ensures Value() == Apply(old(Value()), Call.Logout(token)).0
    {
      if token in table {
        table := DeleteFamily(table, table[token].family);
      }
    }

    method SetNewPassword(userId: User, redeemed: bool, password: string) returns (o: Outcome)
      modifies this`table, this`passwords, this`verified
      ensures (Value(), o) == Apply(old(Value()), ResetPassword(userId, redeemed, password))
    {
      if !redeemed || userId !in users || userId in banned {
        return BadRequest;
      }
      passwords := passwords[userId := password];
      verified := verified + {userId};
      table := DeleteUser(table, userId);
      return Done;
    }

    method BanUser(targetId: User, actorId: User) returns (o: Outcome)
      modifies this`banned, this`table
      ensures (Value(), o) == Apply(old(Value()), Ban(targetId, actorId))
    {
      if targetId == actorId {
        return BadRequest;
      }
      if targetId !in users {
        return NotFound;
      }
      if targetId in admins {
        return BadRequest;
      }
      if targetId in banned {
        return BadRequest;
      }
      banned := banned + {targetId};
      table := DeleteUser(table, targetId);
      return Done;
    }

    method UnbanUser(targetId: User) returns (o: Outcome)
      modifies this`banned
      ensures (Value(), o) == Apply(old(Value()), Unban(targetId))
    {
      if targetId !in users {
        return NotFound;
      }
      banned := banned - {targetId};
      return Done;
    }
  }

  // ─── What every call keeps ───────────────────────────────────────────────

  ghost predicate RowInv(s: State, t: Token)
    requires t in s.table
  {
    && t in s.issued && t in s.lineage
    && s.lineage[t] == s.table[t].family
    && s.issued[t].sub == s.table[t].user
    && s.issued[t].exp * 1000 <= s.table[t].expiresAt
    && s.table[t].user in s.users && s.table[t].user !in s.banned
  }

  ghost predicate Inv(s: State) {
    && s.issued.Keys == s.lineage.Keys
    && (forall t :: t in s.table ==> RowInv(s, t))
  }

  lemma IssueKeepsInv(s: State, child: Token, user: User, family: Family)
    requires Inv(s) && child !in s.issued && user in s.users && user !in s.banned
    ensures Inv(Issue(s, child, user, family))
  {
    var next := Issue(s, child, user, family);
    SignedExpiryIsNotLater(s.now, s.ttlMs, s.now);
    forall t | t in next.table
      ensures RowInv(next, t)
    {
      assert t != child ==> RowInv(s, t);
    }
  }

  lemma TableKeepsInv(s: State, table: Table, banned: set<User>)
    requires Inv(s)
    requires forall t :: t in table ==>
      t in s.table && table[t].(consumedAt := None) == s.table[t].(consumedAt := None) && table[t].user !in banned
    ensures Inv(s.(table := table, banned := banned))
  {
    forall t | t in table
      ensures RowInv(s.(table := table, banned := banned), t)
    {
      assert RowInv(s, t);
    }
  }

  /** Passwords and confirmations are no part of what is kept. */
  lemma AccountsKeepInv(s: State, passwords: map<User, string>, verified: set<User>)
    requires Inv(s)
    ensures Inv(s.(passwords := passwords, verified := verified))
  {
    var t := s.(passwords := passwords, verified := verified);
    forall token | token in t.table ensures RowInv(t, token) {
      assert RowInv(s, token);
    }
  }

  lemma CallKeepsInv(s: State, call: Call)
    requires Inv(s) && Fresh(s, call)
    ensures Inv(Apply(s, call).0)
  {
    hide Issue;
    match call
    case Login(user, _, child, family) =>
      if user in s.users && user !in s.banned {
        IssueKeepsInv(s, child, user, family);
      }
    case VerifyEmail(user, _, child, family) =>
      AccountsKeepInv(s, s.passwords, s.verified + {user});
      if user in s.users && user !in s.banned {
        IssueKeepsInv(s.(verified := s.verified + {user}), child, user, family);
      }
    case SignIn(user, child, family) =>
      if user in s.users && user !in s.banned {
        IssueKeepsInv(s, child, user, family);
      }
    case Refresh(token, child) =>
      if token in s.table {
        assert RowInv(s, token);
        if Claimable(s.table, token) {
          var claimed := s.(table := Claim(s.table, token, s.now));
          TableKeepsInv(s, claimed.table, s.banned);
          IssueKeepsInv(claimed, child, s.issued[token].sub, s.table[token].family);
        } else {
          TableKeepsInv(s, DeleteFamily(s.table, s.table[token].family), s.banned);
          IssueKeepsInv(s, child, s.issued[token].sub, s.table[token].family);
        }
      }
    case Logout(token) =>
      if token in s.table {
        TableKeepsInv(s, DeleteFamily(s.table, s.table[token].family), s.banned);
      }
    case ResetPassword(user, _, password) =>
      TableKeepsInv(s, DeleteUser(s.table, user), s.banned);
      AccountsKeepInv(s.(table := DeleteUser(s.table, user)), s.passwords[user := password], s.verified + {user});
    case Ban(user, _) =>
      TableKeepsInv(s, DeleteUser(s.table, user), s.banned + {user});
    case Unban(user) =>
      TableKeepsInv(s, s.table, s.banned - {user});
    case PurgeExpired =>
      TableKeepsInv(s, Purge(s.table, s.now), s.banned);
    case Wait(ms) =>
      forall t | t in s.table
        ensures RowInv(s.(now := s.now + ms), t)
      {
        assert RowInv(s, t);
      }
  }

  function Run(s: State, calls: seq<Call>): State {
    if calls == [] then s else Apply(Run(s, calls[..|calls| - 1]), calls[|calls| - 1]).0
  }

  /** Every fresh id in the run is fresh when it is used. */
  ghost predicate FreshRun(s: State, calls: seq<Call>) {
    calls == [] || (FreshRun(s, calls[..|calls| - 1]) && Fresh(Run(s, calls[..|calls| - 1]), calls[|calls| - 1]))
  }

  lemma {:induction false} RunKeepsInv(s: State, calls: seq<Call>)
    requires Inv(s) && FreshRun(s, calls)
    ensures Inv(Run(s, calls))
  {
    if calls != [] {
      hide Apply, Inv;
      RunKeepsInv(s, calls[..|calls| - 1]);
      CallKeepsInv(Run(s, calls[..|calls| - 1]), calls[|calls| - 1]);
    }
  }

  /** In every reachable state a banned user has no stored rows, and each row belongs to the user its token names. */
  lemma BannedHaveNoRows(graceMs: int, ttlMs: int, now: int, a: Accounts, calls: seq<Call>, t: Token)
    requires FreshRun(Init(graceMs, ttlMs, now, a), calls)
    requires t in Run(Init(graceMs, ttlMs, now, a), calls).table
    ensures var s := Run(Init(graceMs, ttlMs, now, a), calls);
      s.table[t].user !in s.banned && t in s.issued && s.issued[t].sub == s.table[t].user
  {
    RunKeepsInv(Init(graceMs, ttlMs, now, a), calls);
    assert RowInv(Run(Init(graceMs, ttlMs, now, a), calls), t);
  }

  /**
   * In every reachable state a refresh gets a token exactly when its own verifies, has a row, and that row is
   * unclaimed or was claimed within the grace window; the account checks that follow never refuse, and only a late
   * replay deletes anything.
   */
  lemma RefreshIssuesExactly(s: State, token: Token, child: Token)
    requires Inv(s)
    ensures var (t, o) := RefreshCall(s, token, child);
      var known := Verifies(s.issued, token, s.now) && token in s.table;
      && (o == Outcome.Issued(child) <==>
          known && (Claimable(s.table, token) || WithinGrace(s.table, token, s.now, s.graceMs)))
      && (o != Outcome.Issued(child) ==> o == Unauthorized)
      && (o == Unauthorized ==> t == if known then s.(table := DeleteFamily(s.table, s.table[token].family)) else s)
  {
    hide Issue, DeleteFamily, Claim;
    assert token in s.table ==> RowInv(s, token);
  }

  // ─── Revocation is final ─────────────────────────────────────────────────

  /** Issued once, gone now. */
  ghost predicate Dead(s: State, t: Token) {
    t in s.issued && t in s.lineage && t !in s.table
  }

  /** Started once, and without a row. */
  ghost predicate DeadFamily(s: State, f: Family) {
    f in s.lineage.Values && forall t :: t in s.table ==> s.table[t].family != f
  }

  lemma CallKeepsDead(s: State, call: Call, t: Token, f: Family)
    requires Inv(s) && Fresh(s, call)
    ensures Dead(s, t) ==> Dead(Apply(s, call).0, t)
    ensures DeadFamily(s, f) ==> DeadFamily(Apply(s, call).0, f)
  {
    if DeadFamily(s, f) {
      var first: Token :| first in s.lineage && s.lineage[first] == f;
      assert first in Apply(s, call).0.lineage && Apply(s, call).0.lineage[first] == f;
    }
  }

  lemma {:induction false} RunKeepsDead(s: State, calls: seq<Call>, t: Token, f: Family)
    requires Inv(s) && FreshRun(s, calls)
    ensures Dead(s, t) ==> Dead(Run(s, calls), t)
    ensures DeadFamily(s, f) ==> DeadFamily(Run(s, calls), f)
  {
    if calls != [] {
      hide Apply, Inv, Dead, DeadFamily;
      var n := |calls| - 1;
      RunKeepsDead(s, calls[..n], t, f);
      RunKeepsInv(s, calls[..n]);
      CallKeepsDead(Run(s, calls[..n]), calls[n], t, f);
    }
  }

  /** A token with no row is exchanged for nothing, at any later time, and presenting it changes nothing. */
  ghost predicate NeverExchanged(s: State, calls: seq<Call>, t: Token) {
    forall child :: RefreshCall(Run(s, calls), t, child) == (Run(s, calls), Unauthorized)
  }

  lemma DeadIsNeverExchanged(s: State, calls: seq<Call>, t: Token)
    requires Inv(s) && FreshRun(s, calls) && Dead(s, t)
    ensures NeverExchanged(s, calls, t)
  {
    hide Run;
    RunKeepsDead(s, calls, t, 0);
  }

  /**
   * A late replay ends its session for good: no token ever issued in that family is exchanged again,
   * whatever calls follow, and the family never has a row again.
   */
  lemma LateReplayIsFinal(s: State, token: Token, child: Token, calls: seq<Call>, t: Token)
    requires Inv(s) && Verifies(s.issued, token, s.now) && token in s.table
    requires !Claimable(s.table, token) && !WithinGrace(s.table, token, s.now, s.graceMs)
    requires t in s.lineage && s.lineage[t] == s.table[token].family
    requires FreshRun(Apply(s, Refresh(token, child)).0, calls)
    ensures var revoked := Apply(s, Refresh(token, child)).0;
      && Apply(s, Refresh(token, child)).1 == Unauthorized
      && NeverExchanged(revoked, calls, t)
      && DeadFamily(Run(revoked, calls), s.table[token].family)
  {
    RevokedFamily(s, s.table[token].family, calls, t);
  }

  /** So does signing out with any token that still has a row, expired or not. */
  lemma LogoutIsFinal(s: State, token: Token, calls: seq<Call>, t: Token)
    requires Inv(s) && token in s.table
    requires t in s.lineage && s.lineage[t] == s.table[token].family
    requires FreshRun(Apply(s, Logout(token)).0, calls)
    ensures var revoked := Apply(s, Logout(token)).0;
      NeverExchanged(revoked, calls, t) && DeadFamily(Run(revoked, calls), s.table[token].family)
  {
    RevokedFamily(s, s.table[token].family, calls, t);
  }

  lemma RevokedFamily(s: State, family: Family, calls: seq<Call>, t: Token)
    requires Inv(s) && t in s.lineage && s.lineage[t] == family
    requires FreshRun(s.(table := DeleteFamily(s.table, family)), calls)
    ensures var revoked := s.(table := DeleteFamily(s.table, family));
      NeverExchanged(revoked, calls, t) && DeadFamily(Run(revoked, calls), family)
  {
    hide Run, FreshRun, NeverExchanged;
    var revoked := s.(table := DeleteFamily(s.table, family));
    TableKeepsInv(s, revoked.table, s.banned);
    assert t in s.table ==> RowInv(s, t);
    DeadIsNeverExchanged(revoked, calls, t);
    RunKeepsDead(revoked, calls, t, family);
  }

  /** After a password reset no token issued to that user before it is ever exchanged again. */
  lemma ResetIsFinal(s: State, user: User, password: string, calls: seq<Call>, t: Token)
    requires Inv(s) && Apply(s, ResetPassword(user, true, password)).1 == Done
    requires t in s.issued && s.issued[t].sub == user
    requires FreshRun(Apply(s, ResetPassword(user, true, password)).0, calls)
    ensures NeverExchanged(Apply(s, ResetPassword(user, true, password)).0, calls, t)
  {
    hide Run, FreshRun, NeverExchanged;
    CallKeepsInv(s, ResetPassword(user, true, password));
    assert t in s.table ==> RowInv(s, t);
    DeadIsNeverExchanged(Apply(s, ResetPassword(user, true, password)).0, calls, t);
  }

  /** A confirmed account with this password. */
  predicate HasPassword(s: State, user: User, password: string) {
    user in s.users && user in s.passwords && s.passwords[user] == password && user in s.verified
  }

  lemma CallKeepsPassword(s: State, call: Call, user: User, password: string)
    requires HasPassword(s, user, password) && !(call.ResetPassword? && call.user == user)
    ensures HasPassword(Apply(s, call).0, user, password)
  {
    hide DeleteFamily, DeleteUser, Purge, Claim;
  }

  ghost predicate NoReset(calls: seq<Call>, user: User) {
    forall i :: 0 <= i < |calls| ==> !(calls[i].ResetPassword? && calls[i].user == user)
  }

  lemma {:induction false} RunKeepsPassword(s: State, calls: seq<Call>, user: User, password: string)
    requires HasPassword(s, user, password) && NoReset(calls, user)
    ensures HasPassword(Run(s, calls), user, password)
  {
    if calls != [] {
      hide Apply, HasPassword;
      RunKeepsPassword(s, calls[..|calls| - 1], user, password);
      CallKeepsPassword(Run(s, calls[..|calls| - 1]), calls[|calls| - 1], user, password);
    }
  }

  /**
   * After a password reset, until the next one, the new password and no other opens a session, unless the account
   * is banned.
   */
  lemma OnlyTheNewPassword(s: State, user: User, password: string, calls: seq<Call>, attempt: string, child: Token,
                           family: Family)
    requires Apply(s, ResetPassword(user, true, password)).1 == Done && NoReset(calls, user)
    ensures var later := Run(Apply(s, ResetPassword(user, true, password)).0, calls);
      Apply(later, Login(user, attempt, child, family)).1.Issued? <==> attempt == password && user !in later.banned
  {
    hide Run, NoReset;
    RunKeepsPassword(Apply(s, ResetPassword(user, true, password)).0, calls, user, password);
  }

  /** Nor after a ban, and the calls that follow may well lift it. */
  lemma BanIsFinal(s: State, user: User, actor: User, calls: seq<Call>, t: Token)
    requires Inv(s) && Apply(s, Ban(user, actor)).1 == Done
    requires t in s.issued && s.issued[t].sub == user
    requires FreshRun(Apply(s, Ban(user, actor)).0, calls)
    ensures NeverExchanged(Apply(s, Ban(user, actor)).0, calls, t)
  {
    hide Run, FreshRun, NeverExchanged;
    TableKeepsInv(s, DeleteUser(s.table, user), s.banned + {user});
    assert t in s.table ==> RowInv(s, t);
    DeadIsNeverExchanged(Apply(s, Ban(user, actor)).0, calls, t);
  }

  /** The rows a call may change or delete. */
  predicate InScope(s: State, call: Call, t: Token)
    requires t in s.table
  {
    match call
    case Login(_, _, _, _) => false
    case VerifyEmail(_, _, _, _) => false
    case SignIn(_, _, _) => false
    case Refresh(token, _) => token in s.table && s.table[t].family == s.table[token].family
    case Logout(token) => token in s.table && s.table[t].family == s.table[token].family
    case ResetPassword(user, _, _) => s.table[t].user == user
    case Ban(user, _) => s.table[t].user == user
    case Unban(_) => false
    case PurgeExpired => s.table[t].expiresAt < s.now
    case Wait(_) => false
  }

  /** Rows of other families and other users are untouched by every call. */
  lemma OthersUntouched(s: State, call: Call, t: Token)
    requires Inv(s) && Fresh(s, call) && t in s.table && !InScope(s, call, t)
    ensures t in Apply(s, call).0.table && Apply(s, call).0.table[t] == s.table[t]
  {
    assert RowInv(s, t);
  }

  // ─── Purging expired rows changes no answer ──────────────────────────────

  /** `p` is `q` with some expired rows purged. */
  ghost predicate PurgedFrom(p: State, q: State) {
    && p == q.(table := p.table)
    && (forall t :: t in p.table ==> t in q.table && p.table[t] == q.table[t])
    && (forall t :: t in q.table && t !in p.table ==> q.table[t].expiresAt < q.now)
  }

  /** Signing out with a token whose row, if it has one, the retention job must still keep. */
  predicate LogoutUnexpired(s: State, call: Call) {
    call.Logout? && call.token in s.table ==> s.table[call.token].expiresAt >= s.now
  }

  function Unpurged(call: Call): Call {
    if call.PurgeExpired? then Wait(0) else call
  }

  function UnpurgedAll(calls: seq<Call>): seq<Call> {
    if calls == [] then [] else UnpurgedAll(calls[..|calls| - 1]) + [Unpurged(calls[|calls| - 1])]
  }

  /** A token that still verifies has its row in both states or in neither. */
  lemma VerifiedRowsAgree(p: State, q: State, token: Token)
    requires Inv(q) && PurgedFrom(p, q) && Verifies(q.issued, token, q.now)
    ensures token in p.table <==> token in q.table
  {
    assert token in q.table ==> RowInv(q, token);
  }

  lemma PurgedIssue(p: State, q: State, child: Token, user: User, family: Family)
    requires PurgedFrom(p, q) && child !in q.table
    ensures PurgedFrom(Issue(p, child, user, family), Issue(q, child, user, family))
  {
  }

  lemma PurgedRefresh(p: State, q: State, token: Token, child: Token)
    requires Inv(q) && PurgedFrom(p, q) && child !in q.issued
    ensures PurgedFrom(RefreshCall(p, token, child).0, RefreshCall(q, token, child).0)
    ensures RefreshCall(p, token, child).1 == RefreshCall(q, token, child).1
  {
    hide Issue;
    if Verifies(q.issued, token, q.now) {
      VerifiedRowsAgree(p, q, token);
      assert child in q.table ==> RowInv(q, child);
      if token in q.table {
        var sub, family := q.issued[token].sub, q.table[token].family;
        if Claimable(q.table, token) {
          PurgedIssue(p.(table := Claim(p.table, token, p.now)), q.(table := Claim(q.table, token, q.now)), child,
                      sub, family);
        } else {
          PurgedIssue(p, q, child, sub, family);
        }
      }
    }
  }

  lemma PurgedSignIn(p: State, q: State, call: Call)
    requires Inv(q) && PurgedFrom(p, q) && Fresh(q, call) && (call.SignIn? || call.Login? || call.VerifyEmail?)
    ensures PurgedFrom(Apply(p, call).0, Apply(q, Unpurged(call)).0)
    ensures Apply(p, call).1 == Apply(q, Unpurged(call)).1
  {
    assert call.child in q.table ==> RowInv(q, call.child);
    hide Issue, PurgedFrom, RowInv, Inv;
    AccountsOfPurged(p, q, q.verified + {call.user});
    if call.VerifyEmail? {
      var user := call.user;
      PurgedIssue(p.(verified := p.verified + {user}), q.(verified := q.verified + {user}), call.child, user,
                  call.family);
    } else {
      PurgedIssue(p, q, call.child, call.user, call.family);
    }
  }

  lemma AccountsOfPurged(p: State, q: State, verified: set<User>)
    requires PurgedFrom(p, q)
    ensures (p.users, p.passwords, p.verified, p.banned) == (q.users, q.passwords, q.verified, q.banned)
    ensures PurgedFrom(p.(verified := verified), q.(verified := verified))
  {
  }

  lemma PurgedStep(p: State, q: State, call: Call)
    requires Inv(q) && PurgedFrom(p, q) && Fresh(q, call) && LogoutUnexpired(q, call)
    ensures PurgedFrom(Apply(p, call).0, Apply(q, Unpurged(call)).0)
    ensures Apply(p, call).1 == Apply(q, Unpurged(call)).1
  {
    if call.Refresh? {
      hide Issue, RefreshCall, Inv;
      PurgedRefresh(p, q, call.token, call.child);
    } else if call.SignIn? || call.Login? || call.VerifyEmail? {
      hide *;
      PurgedSignIn(p, q, call);
    } else {
      hide Inv, Issue, LoginCall, VerifyEmailCall, RefreshCall;
    }
  }

  ghost predicate LogoutsUnexpired(s: State, calls: seq<Call>) {
    calls == [] || (LogoutsUnexpired(s, calls[..|calls| - 1])
        && LogoutUnexpired(Run(s, UnpurgedAll(calls[..|calls| - 1])), calls[|calls| - 1]))
  }

  lemma RunLast(s: State, calls: seq<Call>, call: Call)
    ensures Run(s, calls + [call]) == Apply(Run(s, calls), call).0
    ensures FreshRun(s, calls + [call]) <==> FreshRun(s, calls) && Fresh(Run(s, calls), call)
  {
    hide Apply, Fresh;
    assert (calls + [call])[..|calls|] == calls;
  }

  lemma {:induction false} RunsArePurgedFrom(s: State, calls: seq<Call>)
    requires Inv(s) && FreshRun(s, UnpurgedAll(calls)) && LogoutsUnexpired(s, calls)
    ensures PurgedFrom(Run(s, calls), Run(s, UnpurgedAll(calls)))
  {
    if calls != [] {
      hide Apply, Inv, PurgedFrom, LogoutUnexpired, Run, FreshRun, Fresh, Unpurged;
      var n := |calls| - 1;
      var earlier := UnpurgedAll(calls[..n]);
      assert calls == calls[..n] + [calls[n]];
      RunLast(s, calls[..n], calls[n]);
      RunLast(s, earlier, Unpurged(calls[n]));
      RunsArePurgedFrom(s, calls[..n]);
      RunKeepsInv(s, earlier);
      StillFresh(Run(s, earlier), calls[n]);
      PurgedStep(Run(s, calls[..n]), Run(s, earlier), calls[n]);
    }
  }

  lemma StillFresh(s: State, call: Call)
    requires Fresh(s, Unpurged(call))
    ensures Fresh(s, call)
  {
  }

  /**
   * However often and whenever expired rows are purged, every call is answered as if they never were,
   * provided sign-outs are made with unexpired tokens.
   */
  lemma PurgingChangesNoAnswer(s: State, calls: seq<Call>, call: Call)
    requires Inv(s) && FreshRun(s, UnpurgedAll(calls)) && LogoutsUnexpired(s, calls)
    requires Fresh(Run(s, UnpurgedAll(calls)), call) && !call.Logout?
    ensures Apply(Run(s, calls), call).1 == Apply(Run(s, UnpurgedAll(calls)), Unpurged(call)).1
  {
    hide Run, FreshRun;
    RunsArePurgedFrom(s, calls);
    RunKeepsInv(s, UnpurgedAll(calls));
    PurgedStep(Run(s, calls), Run(s, UnpurgedAll(calls)), call);
  }

  /**
   * The proviso is needed. Signing out with a token whose row was purged in one state and not in the other
   * tells them apart exactly for the tokens of its family that could still be exchanged.
   */
  lemma ExpiredLogoutTellsThemApart(p: State, q: State, token: Token, t: Token, child: Token)
    requires Inv(p) && Inv(q) && PurgedFrom(p, q) && child !in q.issued
    requires token in q.table && token !in p.table
    ensures RefreshCall(Apply(p, Logout(token)).0, t, child).1 == RefreshCall(Apply(q, Logout(token)).0, t, child).1
       <==> !(t in p.table && p.table[t].family == q.table[token].family && Verifies(p.issued, t, p.now)
              && (Claimable(p.table, t) || WithinGrace(p.table, t, p.now, p.graceMs)))
  {
    hide Inv, Issue;
    CallKeepsInv(q, Logout(token));
    RefreshIssuesExactly(p, t, child);
    RefreshIssuesExactly(Apply(q, Logout(token)).0, t, child);
    if Verifies(q.issued, t, q.now) {
      VerifiedRowsAgree(p, q, t);
    }
  }

  lemma FourCalls(s: State, a: Call, b: Call, c: Call, d: Call)
    ensures var s1 := Apply(s, a).0;
      var s2 := Apply(s1, b).0;
      var s3 := Apply(s2, c).0;
      && Run(s, [a, b, c, d]) == Apply(s3, d).0
      && (FreshRun(s, [a, b, c, d]) <==> Fresh(s, a) && Fresh(s1, b) && Fresh(s2, c) && Fresh(s3, d))
  {
    hide Apply, Fresh;
    RunLast(s, [], a);
    RunLast(s, [a], b);
    RunLast(s, [a, b], c);
    RunLast(s, [a, b, c], d);
    assert [] + [a] == [a] && [a] + [b] == [a, b] && [a, b] + [c] == [a, b, c] && [a, b, c] + [d] == [a, b, c, d];
  }

  /** Sign in, refresh halfway, and outlive the first token. */
  const HALFWAY := [SignIn(0, 0, 0), Wait(5_000), Refresh(0, 1), Wait(6_000)]
  const ONE_USER := Init(0, 10_000, 0, Accounts({0}, {}, map[], {}))

  /** Where that leads: token 0 claimed and past its expiry, its child 1 live. */
  const OUTLIVED := ONE_USER.(
    now := 11_000,
    table := map[0 := Row(0, 0, Some(5_000), 10_000), 1 := Row(0, 0, None, 15_000)],
    issued := map[0 := Claims(0, 10), 1 := Claims(0, 15)],
    lineage := map[0 := 0, 1 := 0])

  lemma Halfway()
    ensures FreshRun(ONE_USER, HALFWAY) && Run(ONE_USER, HALFWAY) == OUTLIVED
  {
    FourCalls(ONE_USER, SignIn(0, 0, 0), Wait(5_000), Refresh(0, 1), Wait(6_000));
    hide Run, FreshRun;
    var s1 := Apply(ONE_USER, SignIn(0, 0, 0)).0;
    assert s1 == ONE_USER.(table := map[0 := Row(0, 0, None, 10_000)], issued := map[0 := Claims(0, 10)],
                           lineage := map[0 := 0]);
    var s3 := Apply(s1.(now := 5_000), Refresh(0, 1)).0;
    assert s3.table == map[0 := Row(0, 0, Some(5_000), 10_000), 1 := Row(0, 0, None, 15_000)];
  }

  lemma Purged()
    ensures FreshRun(ONE_USER, HALFWAY + [PurgeExpired])
    ensures Run(ONE_USER, HALFWAY + [PurgeExpired]) == OUTLIVED.(table := map[1 := Row(0, 0, None, 15_000)])
  {
    Halfway();
    RunLast(ONE_USER, HALFWAY, PurgeExpired);
    hide Run, FreshRun;
    assert Purge(OUTLIVED.table, 11_000) == map[1 := Row(0, 0, None, 15_000)];
  }

  /** Without its purge, a run that purges only at its end ends where it stood. */
  lemma LastPurgeUndone(s: State, calls: seq<Call>)
    requires forall i :: 0 <= i < |calls| ==> !calls[i].PurgeExpired?
    ensures Run(s, UnpurgedAll(calls + [PurgeExpired])) == Run(s, calls)
  {
    assert (calls + [PurgeExpired])[..|calls|] == calls;
    assert UnpurgedAll(calls + [PurgeExpired]) == UnpurgedAll(calls) + [Wait(0)];
    NothingToUnpurge(calls);
    hide UnpurgedAll, Run;
    RunLast(s, calls, Wait(0));
  }

  lemma Kept()
    ensures Run(ONE_USER, UnpurgedAll(HALFWAY + [PurgeExpired])) == OUTLIVED
  {
    hide Run, UnpurgedAll;
    Halfway();
    LastPurgeUndone(ONE_USER, HALFWAY);
  }

  /**
   * It happens: purge then, and sign out with that first token. Its sibling lives on; without the purge it would
   * not.
   */
  lemma ExpiredLogoutHappens()
    ensures FreshRun(ONE_USER, HALFWAY + [PurgeExpired])
    ensures var purged, kept := Run(ONE_USER, HALFWAY + [PurgeExpired]),
        Run(ONE_USER, UnpurgedAll(HALFWAY + [PurgeExpired]));
      && RefreshCall(Apply(purged, Logout(0)).0, 1, 2).1 == Outcome.Issued(2)
      && RefreshCall(Apply(kept, Logout(0)).0, 1, 2).1 == Unauthorized
  {
    hide Run, FreshRun, UnpurgedAll, Issue;
    Purged();
    Kept();
  }

  lemma {:induction false} NothingToUnpurge(calls: seq<Call>)
    requires forall i :: 0 <= i < |calls| ==> !calls[i].PurgeExpired?
    ensures UnpurgedAll(calls) == calls
  {
    if calls != [] {
      NothingToUnpurge(calls[..|calls| - 1]);
      assert calls == calls[..|calls| - 1] + [calls[|calls| - 1]];
    }
  }
}
