/** The two granularities of the session model describe one service. */
module AuthRefinement {
  import opened RefreshTokens
  import Steps = RefreshInterleavings
  import Calls = AuthSessions

  /** The same clock, settings, rows and signatures. */
  ghost predicate Matches(fine: Steps.State, whole: Calls.State) {
    && fine.now == whole.now && fine.graceMs == whole.graceMs && fine.ttlMs == whole.ttlMs
    && fine.table == whole.table && fine.issued == whole.issued
  }

  /** The statements of one refresh, in source order; those its branch does not reach are not enabled. */
  function RefreshSteps(r: nat, token: Token, child: Token, accountOk: bool): seq<Steps.Step> {
    [Steps.Present(r, token), Steps.Read(r), Steps.TryClaim(r), Steps.Reread(r), Steps.Revoke(r),
     Steps.CheckAccount(r, accountOk), Steps.Insert(r, child)]
  }

  lemma LastStep(s: Steps.State, steps: seq<Steps.Step>, step: Steps.Step)
    ensures Steps.Run(s, steps + [step]) == Steps.Apply(Steps.Run(s, steps), step)
  {
    assert (steps + [step])[..|steps|] == steps;
  }

  function Reading(s: Steps.State, r: nat, token: Token): Steps.State {
    Steps.Apply(Steps.Apply(s, Steps.Present(r, token)), Steps.Read(r))
  }

  function Claiming(s: Steps.State, r: nat): Steps.State {
    Steps.Apply(Steps.Apply(Steps.Apply(s, Steps.TryClaim(r)), Steps.Reread(r)), Steps.Revoke(r))
  }

  function Inserting(s: Steps.State, r: nat, child: Token, ok: bool): Steps.State {
    Steps.Apply(Steps.Apply(s, Steps.CheckAccount(r, ok)), Steps.Insert(r, child))
  }

  lemma SevenSteps(s: Steps.State, r: nat, token: Token, child: Token, ok: bool)
    ensures Steps.Run(s, RefreshSteps(r, token, child, ok)) ==
      Inserting(Claiming(Reading(s, r, token), r), r, child, ok)
  {
    hide Steps.Apply;
    var all := RefreshSteps(r, token, child, ok);
    assert Steps.Run(s, all[..0]) == s;
    forall i | 0 <= i < 7
      ensures Steps.Run(s, all[..i + 1]) == Steps.Apply(Steps.Run(s, all[..i]), all[i])
    {
      assert all[..i + 1] == all[..i] + [all[i]];
      LastStep(s, all[..i], all[i]);
    }
    assert all[..7] == all;
    assert Steps.Run(s, all[..1]) == Steps.Apply(Steps.Run(s, all[..0]), all[0]);
    assert Steps.Run(s, all[..2]) == Steps.Apply(Steps.Run(s, all[..1]), all[1]);
    assert Steps.Run(s, all[..3]) == Steps.Apply(Steps.Run(s, all[..2]), all[2]);
    assert Steps.Run(s, all[..4]) == Steps.Apply(Steps.Run(s, all[..3]), all[3]);
    assert Steps.Run(s, all[..5]) == Steps.Apply(Steps.Run(s, all[..4]), all[4]);
    assert Steps.Run(s, all[..6]) == Steps.Apply(Steps.Run(s, all[..5]), all[5]);
    assert Steps.Run(s, all[..7]) == Steps.Apply(Steps.Run(s, all[..6]), all[6]);
  }

  /** A request that has ended, or never began, takes no further step. */
  lemma NothingLeftToDo(s: Steps.State, r: nat, child: Token, ok: bool)
    requires r !in s.requests
    ensures Inserting(Claiming(s, r), r, child, ok) == s
  {
  }

  lemma ReadingDone(s: Steps.State, r: nat, token: Token)
    requires r !in s.requests
    ensures Reading(s, r, token) ==
      if !Verifies(s.issued, token, s.now) || token !in s.table then s
      else Steps.Move(s, r, Steps.Found(token, s.issued[token].sub, s.table[token].family))
  {
    var verified := Steps.Apply(s, Steps.Present(r, token));
    if Verifies(s.issued, token, s.now) {
      var sub := s.issued[token].sub;
      assert s.requests[r := Steps.Verified(token, sub)] - {r} == s.requests;
      if token in s.table {
        assert s.requests[r := Steps.Verified(token, sub)][r := Steps.Found(token, sub, s.table[token].family)]
            == s.requests[r := Steps.Found(token, sub, s.table[token].family)];
      }
    }
  }

  lemma InsertingDone(s: Steps.State, requests: map<nat, Steps.Phase>, r: nat, sub: User, family: Family,
                      child: Token, ok: bool)
    requires r !in requests && s.requests == requests[r := Steps.Passed(sub, family)] && child !in s.issued
    ensures var quiet := s.(requests := requests);
      Inserting(s, r, child, ok) == if ok then Steps.Issue(quiet, child, sub, family) else quiet
  {
    assert s.requests[r := Steps.Cleared(sub, family)] - {r} == requests;
    assert s.requests - {r} == requests;
  }

  lemma ClaimWon(s: Steps.State, requests: map<nat, Steps.Phase>, r: nat, token: Token, sub: User, family: Family)
    requires s.requests == requests[r := Steps.Found(token, sub, family)] && Claimable(s.table, token)
    ensures Claiming(s, r) == s.(
      requests := requests[r := Steps.Passed(sub, family)], table := Claim(s.table, token, s.now),
          claimed := s.claimed + [token])
  {
    hide Claim;
    assert Steps.Apply(s, Steps.TryClaim(r)).requests == requests[r := Steps.Passed(sub, family)];
  }

  lemma ClaimLost(s: Steps.State, requests: map<nat, Steps.Phase>, r: nat, token: Token, sub: User, family: Family)
    requires s.requests == requests[r := Steps.Found(token, sub, family)] && !Claimable(s.table, token)
    ensures Steps.Apply(s, Steps.TryClaim(r)) == s.(requests := requests[r := Steps.Lost(token, sub, family)])
  {
  }

  /** The re-read after a lost claim, and its consequence. */
  lemma LostResolved(s: Steps.State, requests: map<nat, Steps.Phase>, r: nat, token: Token, sub: User, family: Family)
    requires r !in requests && s.requests == requests[r := Steps.Lost(token, sub, family)]
    ensures var after := Steps.Apply(Steps.Apply(s, Steps.Reread(r)), Steps.Revoke(r));
      && after == s.(requests := after.requests, table := after.table, graced := after.graced)
      && if WithinGrace(s.table, token, s.now, s.graceMs)
         then after.requests == requests[r := Steps.Passed(sub, family)] && after.table == s.table
         else after.requests == requests && after.table == DeleteFamily(s.table, family)
  {
    hide DeleteFamily, WithinGrace;
    var reread := Steps.Apply(s, Steps.Reread(r));
    if WithinGrace(s.table, token, s.now, s.graceMs) {
      assert reread.requests == requests[r := Steps.Passed(sub, family)];
    } else {
      assert reread == s.(requests := requests[r := Steps.Late(family)]);
      assert reread.requests - {r} == requests;
    }
  }

  /** The claim, and for a claim that was lost the re-read and its consequence. */
  lemma ClaimingDone(s: Steps.State, requests: map<nat, Steps.Phase>, r: nat, token: Token, sub: User, family: Family)
    requires r !in requests && s.requests == requests[r := Steps.Found(token, sub, family)] && token in s.table
    ensures var after := Claiming(s, r);
      && (after.now, after.graceMs, after.ttlMs, after.issued, after.owner) ==
          (s.now, s.graceMs, s.ttlMs, s.issued, s.owner)
      && if Claimable(s.table, token) then
           after.requests == requests[r := Steps.Passed(sub, family)] && after.table == Claim(s.table, token, s.now)
         else if WithinGrace(s.table, token, s.now, s.graceMs) then
           after.requests == requests[r := Steps.Passed(sub, family)] && after.table == s.table
         else after.requests == requests && after.table == DeleteFamily(s.table, family)
  {
    hide Steps.Apply, Claim, DeleteFamily, WithinGrace, Claimable;
    if Claimable(s.table, token) {
      ClaimWon(s, requests, r, token, sub, family);
    } else {
      ClaimLost(s, requests, r, token, sub, family);
      LostResolved(Steps.Apply(s, Steps.TryClaim(r)), requests, r, token, sub, family);
    }
  }

  lemma IssueMatches(fine: Steps.State, whole: Calls.State, child: Token, sub: User, family: Family)
    requires Matches(fine, whole)
    ensures Matches(Steps.Issue(fine, child, sub, family), Calls.Issue(whole, child, sub, family))
    ensures Steps.Issue(fine, child, sub, family).requests == fine.requests
    ensures Steps.Issue(fine, child, sub, family).owner == fine.owner
  {
  }

  /** What follows a claim won, or a race inside the grace window: `table` is the table it left. */
  lemma ExchangeMatches(
      fine: Steps.State, whole: Calls.State, requests: map<nat, Steps.Phase>, r: nat, sub: User, family: Family,
          child: Token, ok: bool)
    requires Matches(fine, whole) && child !in fine.issued
    requires r !in requests && fine.requests == requests[r := Steps.Passed(sub, family)]
    requires ok <==> sub in whole.users && sub !in whole.banned
    ensures var after := Inserting(fine, r, child, ok);
      Matches(after, Calls.Exchange(whole, sub, family, child).0) && after.requests == requests
          && after.owner == fine.owner
  {
    hide Inserting, Steps.Issue, Calls.Issue;
    InsertingDone(fine, requests, r, sub, family, child, ok);
    IssueMatches(fine.(requests := requests), whole, child, sub, family);
  }

  predicate AccountOk(whole: Calls.State, token: Token) {
    token in whole.issued && whole.issued[token].sub in whole.users && whole.issued[token].sub !in whole.banned
  }

  lemma ClaimMatches(fine: Steps.State, whole: Calls.State, r: nat, token: Token, child: Token)
    requires Matches(fine, whole) && r !in fine.requests && child !in fine.issued
    requires Verifies(fine.issued, token, fine.now) && token in fine.table
    ensures var found := Steps.Move(fine, r, Steps.Found(token, fine.issued[token].sub, fine.table[token].family));
      var after := Inserting(Claiming(found, r), r, child, AccountOk(whole, token));
      Matches(after, Calls.RefreshCall(whole, token, child).0) && after.requests == fine.requests
          && after.owner == fine.owner
  {
    hide Claiming, Inserting, Claim, DeleteFamily, WithinGrace, Claimable, Calls.Exchange;
    var sub, family := fine.issued[token].sub, fine.table[token].family;
    var found := Steps.Move(fine, r, Steps.Found(token, sub, family));
    ClaimingDone(found, fine.requests, r, token, sub, family);
    var claimed := Claiming(found, r);
    if Claimable(fine.table, token) {
      ExchangeMatches(claimed, whole.(table := Claim(whole.table, token, whole.now)), fine.requests, r, sub, family,
                      child, AccountOk(whole, token));
    } else if WithinGrace(fine.table, token, fine.now, fine.graceMs) {
      ExchangeMatches(claimed, whole, fine.requests, r, sub, family, child, AccountOk(whole, token));
    } else {
      NothingLeftToInsert(claimed, r, child, AccountOk(whole, token));
    }
  }

  lemma NothingLeftToInsert(s: Steps.State, r: nat, child: Token, ok: bool)
    requires r !in s.requests
    ensures Inserting(s, r, child, ok) == s
  {
  }

  /** A refresh call with nothing between its statements is the whole call, on every branch. */
  lemma RefreshCallIsItsSteps(fine: Steps.State, whole: Calls.State, r: nat, token: Token, child: Token)
    requires Matches(fine, whole) && r !in fine.requests && child !in fine.issued
    ensures var after := Steps.Run(fine, RefreshSteps(r, token, child, AccountOk(whole, token)));
      Matches(after, Calls.RefreshCall(whole, token, child).0) && after.requests == fine.requests
          && after.owner == fine.owner
  {
    hide Steps.Run, Reading, Claiming, Inserting, Verifies, AccountOk;
    SevenSteps(fine, r, token, child, AccountOk(whole, token));
    ReadingDone(fine, r, token);
    if !Verifies(fine.issued, token, fine.now) || token !in fine.table {
      NothingLeftToDo(fine, r, child, AccountOk(whole, token));
    } else {
      assert token in fine.issued by { VerifiedWasIssued(fine, token); }
      ClaimMatches(fine, whole, r, token, child);
    }
  }

  lemma VerifiedWasIssued(s: Steps.State, token: Token)
    requires Verifies(s.issued, token, s.now)
    ensures token in s.issued
  {
  }

  // ─── The other requests ──────────────────────────────────────────────────

  predicate SignsIn(call: Calls.Call) {
    call.Login? || call.VerifyEmail? || call.SignIn?
  }

  /** The statements of a sign-in; one that is refused runs none. */
  function SignInSteps(r: nat, call: Calls.Call, accepted: bool): seq<Steps.Step>
    requires SignsIn(call)
  {
    if accepted then [Steps.SignIn(r, call.user), Steps.StartFamily(r, call.child, call.family)] else []
  }

  lemma TwoSteps(s: Steps.State, first: Steps.Step, second: Steps.Step)
    ensures Steps.Run(s, [first, second]) == Steps.Apply(Steps.Apply(s, first), second)
  {
    hide Steps.Apply;
    LastStep(s, [], first);
    LastStep(s, [first], second);
    assert [] + [first] == [first] && [first] + [second] == [first, second];
  }

  lemma FamilyStarted(s: Steps.State, r: nat, user: User, child: Token, family: Family)
    requires r !in s.requests && child !in s.issued && family !in s.owner
    ensures Steps.Run(s, [Steps.SignIn(r, user), Steps.StartFamily(r, child, family)]) ==
      Steps.Issue(s.(owner := s.owner[family := user]), child, user, family)
  {
    assert s.requests[r := Steps.SigningIn(user)] - {r} == s.requests;
    TwoSteps(s, Steps.SignIn(r, user), Steps.StartFamily(r, child, family));
  }

  lemma SignedInMatches(fine: Steps.State, whole: Calls.State, call: Calls.Call)
    requires Matches(fine, whole) && SignsIn(call)
    ensures var (next, outcome) := Calls.Apply(whole, call);
      Matches(if outcome.Issued? then Steps.Issue(fine, call.child, call.user, call.family) else fine, next)
  {
  }

  /** So is a sign-in, by password, by a confirmed address or through Google. */
  lemma SignInIsItsSteps(fine: Steps.State, whole: Calls.State, r: nat, call: Calls.Call)
    requires Matches(fine, whole) && SignsIn(call) && Calls.Fresh(whole, call)
    requires r !in fine.requests && call.family !in fine.owner
    ensures var (next, outcome) := Calls.Apply(whole, call);
      var after := Steps.Run(fine, SignInSteps(r, call, outcome.Issued?));
      && Matches(after, next) && after.requests == fine.requests
      && after.owner == (if outcome.Issued? then fine.owner[call.family := call.user] else fine.owner)
  {
    assert call.child !in fine.issued;
    hide Calls.Apply, Calls.Fresh;
    if Calls.Apply(whole, call).1.Issued? {
      hide Steps.Run;
      FamilyStarted(fine, r, call.user, call.child, call.family);
      SignedInMatches(fine.(owner := fine.owner[call.family := call.user]), whole, call);
    } else {
      SignedInMatches(fine, whole, call);
    }
  }

  /** So is a sign-out, of a stored token or of an unknown one. */
  lemma SignOutIsItsSteps(fine: Steps.State, whole: Calls.State, r: nat, token: Token)
    requires Matches(fine, whole) && r !in fine.requests
    ensures var after := Steps.Run(fine, [Steps.SignOut(r, token), Steps.Revoke(r)]);
      && Matches(after, Calls.Apply(whole, Calls.Logout(token)).0)
      && after.requests == fine.requests && after.owner == fine.owner
  {
    hide DeleteFamily;
    TwoSteps(fine, Steps.SignOut(r, token), Steps.Revoke(r));
    if token in fine.table {
      assert fine.requests[r := Steps.SigningOut(fine.table[token].family)] - {r} == fine.requests;
    }
  }

  /** A password reset, a ban and the retention job are one statement each, as far as the tokens go. */
  lemma RevocationIsOneStep(fine: Steps.State, whole: Calls.State, call: Calls.Call)
    requires Matches(fine, whole) && (call.ResetPassword? || call.Ban?) && Calls.Apply(whole, call).1 == Calls.Done
    ensures Matches(Steps.Apply(fine, Steps.RevokeUser(call.user)), Calls.Apply(whole, call).0)
    ensures Matches(Steps.Apply(fine, Steps.PurgeExpired), Calls.Apply(whole, Calls.PurgeExpired).0)
  {
  }
}
