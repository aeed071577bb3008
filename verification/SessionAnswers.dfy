/**
 * What each call on sessions is answered and leaves, in terms of accounts, rows and the clock alone; and how long a
 * token lives.
 */
module SessionAnswers {
  import opened Prelude
  import opened RefreshTokens
  import opened AuthSessions

  // ─── Signing in ──────────────────────────────────────────────────────────

  /** A password opens a session for a known, confirmed, unbanned account and nobody else; each refusal has its case. */
  lemma LoginIsAnswered(s: State, user: User, password: string, child: Token, family: Family)
    ensures var o := Apply(s, Login(user, password, child, family)).1;
      var right := user in s.users && user in s.passwords && s.passwords[user] == password;
      && (o == Issued(child) <==> right && user in s.verified && user !in s.banned)
      && (o == Unauthorized <==> !right)
      && (o == Forbidden <==> right && (user !in s.verified || user in s.banned))
  {
  }

  /** A verification code does for a known, unconfirmed, unbanned account, and confirms it. */
  lemma VerifyEmailIsAnswered(s: State, user: User, redeemed: bool, child: Token, family: Family)
    ensures var (t, o) := Apply(s, VerifyEmail(user, redeemed, child, family));
      && (o == Issued(child) <==> redeemed && user in s.users && user !in s.verified && user !in s.banned)
      && (o != Issued(child) ==> o == BadRequest && t == s)
      && t.verified == (if o == Issued(child) then s.verified + {user} else s.verified)
      && t.passwords == s.passwords && t.banned == s.banned
  {
  }

  /** Google vouches for the address, so only a ban stands in the way. */
  lemma SignInIsAnswered(s: State, user: User, child: Token, family: Family)
    ensures var o := Apply(s, SignIn(user, child, family)).1;
      && (o == Issued(child) <==> user in s.users && user !in s.banned)
      && (o == Unauthorized <==> user !in s.users) && (o == Forbidden <==> user in s.users && user in s.banned)
  {
  }

  /** Whichever way, what opens is one unclaimed row and one signature; a refusal changes nothing. */
  lemma SignInsLeave(s: State, call: Call)
    requires call.Login? || call.VerifyEmail? || call.SignIn?
    ensures var (t, o) := Apply(s, call);
      if o == Issued(call.child) then
        && t.table == s.table[call.child := Row(call.user, call.family, None, s.now + s.ttlMs)]
        && t.issued == s.issued[call.child := Claims(call.user, s.now / 1000 + s.ttlMs / 1000)]
        && t.lineage == s.lineage[call.child := call.family]
        && (t.users, t.admins, t.banned, t.passwords) == (s.users, s.admins, s.banned, s.passwords)
      else t == s
  {
  }

  // ─── Passwords and bans ──────────────────────────────────────────────────

  /** A reset needs a redeemed code of a known, unbanned account; it sets the password, confirms, and ends sessions. */
  lemma ResetIsAnswered(s: State, user: User, redeemed: bool, password: string, t: Token)
    ensures var (next, o) := Apply(s, ResetPassword(user, redeemed, password));
      && (o == Done <==> redeemed && user in s.users && user !in s.banned)
      && (o != Done ==> o == BadRequest && next == s)
      && (o == Done ==>
            && next.passwords == s.passwords[user := password] && next.verified == s.verified + {user}
            && (t in next.table <==> t in s.table && s.table[t].user != user)
            && (t in next.table ==> next.table[t] == s.table[t])
            && (next.users, next.admins, next.banned, next.issued) == (s.users, s.admins, s.banned, s.issued))
  {
  }

  /** A ban spares oneself, unknown accounts, admins and the already banned, and ends the target's sessions. */
  lemma BanIsAnswered(s: State, user: User, actor: User, t: Token)
    ensures var (next, o) := Apply(s, Ban(user, actor));
      && (o == Done <==> user != actor && user in s.users && user !in s.admins && user !in s.banned)
      && (o == NotFound <==> user != actor && user !in s.users)
      && (o == BadRequest <==> user == actor || (user in s.users && (user in s.admins || user in s.banned)))
      && (o != Done ==> next == s)
      && (o == Done ==>
            && next.banned == s.banned + {user}
            && (t in next.table <==> t in s.table && s.table[t].user != user)
            && (t in next.table ==> next.table[t] == s.table[t])
            && (next.users, next.passwords, next.verified, next.issued) == (s.users, s.passwords, s.verified, s.issued))
  {
  }

  lemma UnbanIsAnswered(s: State, user: User)
    ensures var (next, o) := Apply(s, Unban(user));
      && (o == Done <==> user in s.users) && (o == NotFound <==> user !in s.users)
      && next == (if user in s.users then s.(banned := s.banned - {user}) else s)
  {
  }

  // ─── Rows ────────────────────────────────────────────────────────────────

  /** Signing out always succeeds, and takes exactly the rows of the token's family. */
  lemma LogoutLeaves(s: State, token: Token, t: Token)
    ensures var (next, o) := Apply(s, Logout(token));
      && o == Done && next == s.(table := next.table)
      && (t in next.table <==>
            t in s.table && (token !in s.table || s.table[t].family != s.table[token].family))
      && (t in next.table ==> next.table[t] == s.table[t])
  {
  }

  /** The retention job takes exactly the rows that have expired. */
  lemma PurgeLeaves(s: State, t: Token)
    ensures var next := Apply(s, PurgeExpired).0;
      && next == s.(table := next.table)
      && (t in next.table <==> t in s.table && s.now <= s.table[t].expiresAt)
      && (t in next.table ==> next.table[t] == s.table[t])
  {
  }

  /**
   * A refresh gives a token exactly for a signed token in time whose row is there and was never claimed, or less than
   * the grace window ago, of a known, unbanned account; in every reachable state the account is always in order.
   */
  lemma RefreshIsAnswered(s: State, token: Token, child: Token)
    ensures var (t, o) := Apply(s, Refresh(token, child));
      var known := token in s.issued && s.now / 1000 < s.issued[token].exp && token in s.table;
      var claimed := if token in s.table then s.table[token].consumedAt else None;
      var good := known && (claimed.None? || s.now - claimed.value < s.graceMs);
      && (o == Issued(child) <==> good && s.issued[token].sub in s.users && s.issued[token].sub !in s.banned)
      && (o == Unauthorized <==> !good || s.issued[token].sub !in s.users)
      && (o == Forbidden <==> good && s.issued[token].sub in s.users && s.issued[token].sub in s.banned)
      && (Inv(s) && good ==> o == Issued(child))
  {
    hide DeleteFamily;
    assert Inv(s) && token in s.table ==> RowInv(s, token);
  }

  /** What it leaves: the row claimed if it was not, and the child's row and signature in the same family. */
  lemma RefreshLeaves(s: State, token: Token, child: Token, t: Token)
    requires Inv(s) && child !in s.issued && Apply(s, Refresh(token, child)).1 == Issued(child)
    ensures var next := Apply(s, Refresh(token, child)).0;
      && next.table.Keys == s.table.Keys + {child} && next.issued.Keys == s.issued.Keys + {child}
      && next.table[child] == Row(s.issued[token].sub, s.table[token].family, None, s.now + s.ttlMs)
      && next.issued[child] == Claims(s.issued[token].sub, s.now / 1000 + s.ttlMs / 1000)
      && (t in s.table && t != child && t != token ==> next.table[t] == s.table[t])
      && var row := s.table[token];
         next.table[token] == row.(consumedAt := if row.consumedAt.None? then Some(s.now) else row.consumedAt)
  {
    RefreshIssuesExactly(s, token, child);
    assert RowInv(s, token) && (child in s.table ==> RowInv(s, child));
  }

  // ─── How long a token lives ──────────────────────────────────────────────

  /** A token is good for its first exchange until its whole-second expiry, and not after. */
  lemma FirstExchangeExactly(s: State, call: Call, ms: nat, child: Token)
    requires (call.Login? || call.VerifyEmail? || call.SignIn?) && Apply(s, call).1 == Issued(call.child)
    requires child != call.child
    ensures var later := Apply(Apply(s, call).0, Wait(ms)).0;
      Apply(later, Refresh(call.child, child)).1 == Issued(child) <==>
        (s.now + ms) / 1000 < s.now / 1000 + s.ttlMs / 1000
  {
    SignInsLeave(s, call);
    hide DeleteFamily, DeleteUser, Purge;
  }

  /** Presented again, an exchanged token is good for another child exactly for the grace window, while it lasts. */
  lemma SecondExchangeExactly(s: State, token: Token, first: Token, ms: nat, second: Token)
    requires Inv(s) && first !in s.issued && second !in s.issued && first != second
    requires token in s.table && s.table[token].consumedAt.None?
    requires Apply(s, Refresh(token, first)).1 == Issued(first)
    ensures var exchanged := Apply(s, Refresh(token, first)).0;
      var later := Apply(exchanged, Wait(ms)).0;
      Apply(later, Refresh(token, second)).1 == Issued(second) <==>
        ms < s.graceMs && (s.now + ms) / 1000 < s.issued[token].exp
  {
    assert RowInv(s, token);
    RefreshLeaves(s, token, first, token);
    CallKeepsInv(s, Refresh(token, first));
    var exchanged := Apply(s, Refresh(token, first)).0;
    CallKeepsInv(exchanged, Wait(ms));
    var later := Apply(exchanged, Wait(ms)).0;
    assert later == exchanged.(now := s.now + ms) && exchanged.graceMs == s.graceMs;
    assert later.issued[token] == s.issued[token];
    hide Apply, Inv;
    RefreshIsAnswered(later, token, second);
  }

  // ─── Only confirmed accounts ─────────────────────────────────────────────

  /** A redeemed code of this account, verification or reset, that was accepted at its place in the run. */
  predicate Confirms(s: State, call: Call, user: User) {
    && (call.VerifyEmail? || call.ResetPassword?) && call.user == user && call.redeemed
    && Apply(s, call).0.verified == s.verified + {user}
  }

  /** The call at place `i` of the run is such a one. */
  predicate ConfirmedAt(s: State, calls: seq<Call>, i: nat, user: User)
    requires i < |calls|
  {
    Confirms(Run(s, calls[..i]), calls[i], user)
  }

  lemma ConfirmedStep(s: State, call: Call, user: User)
    ensures user in Apply(s, call).0.verified <==> user in s.verified || Confirms(s, call, user)
  {
  }

  lemma RunOneMore(s: State, calls: seq<Call>, n: nat)
    requires n < |calls|
    ensures Run(s, calls[..n + 1]) == Apply(Run(s, calls[..n]), calls[n]).0
  {
    hide Apply;
    assert calls[..n + 1][..n] == calls[..n];
  }

  lemma ConfirmedOneMore(s: State, calls: seq<Call>, n: nat, user: User)
    requires n < |calls|
    ensures user in Run(s, calls[..n + 1]).verified <==>
      user in Run(s, calls[..n]).verified || ConfirmedAt(s, calls, n, user)
  {
    hide Run, Confirms, Apply;
    RunOneMore(s, calls, n);
    ConfirmedStep(Run(s, calls[..n]), calls[n], user);
  }

  /** After `n` calls, exactly those accounts are confirmed that were from the start or by one of these calls. */
  lemma {:induction false} ConfirmedByCodes(s: State, calls: seq<Call>, n: nat, user: User)
    requires n <= |calls|
    ensures user in Run(s, calls[..n]).verified <==>
      user in s.verified || exists i :: 0 <= i < n && ConfirmedAt(s, calls, i, user)
  {
    if n == 0 {
      assert Run(s, calls[..0]) == s;
    } else {
      hide *;
      ConfirmedByCodes(s, calls, n - 1, user);
      ConfirmedOneMore(s, calls, n - 1, user);
    }
  }

  /** Over any run, a password opens a session only for an account confirmed from the start or by a code before. */
  lemma LoginsAreConfirmed(s: State, calls: seq<Call>, n: nat)
    requires n < |calls| && calls[n].Login? && Apply(Run(s, calls[..n]), calls[n]).1 == Issued(calls[n].child)
    ensures var user := calls[n].user;
      user in s.verified || exists i :: 0 <= i < n && ConfirmedAt(s, calls, i, user)
  {
    var call := calls[n];
    LoginIsAnswered(Run(s, calls[..n]), call.user, call.password, call.child, call.family);
    hide *;
    ConfirmedByCodes(s, calls, n, call.user);
  }
}
