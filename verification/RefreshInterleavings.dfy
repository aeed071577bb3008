/**
 * Refresh, sign-in and sign-out requests split into the database statements they run, any number of
 * them in flight, interleaved in any order: auth.service.ts, the scheme of section 4.14.2 of RFC 9700.
 */
module RefreshInterleavings {
  import opened Prelude
  import opened RefreshTokens

  /** Where a request stands between two statements. */
  datatype Phase =
    | Verified(token: Token, sub: User)                    // the signature checked out, the row is not read yet
    | Found(token: Token, sub: User, family: Family)       // row read, claim not tried
    | Lost(token: Token, sub: User, family: Family)        // the claim affected no row
    | Late(family: Family)                                 // judged reuse, the family is to be deleted
    | Passed(sub: User, family: Family)                    // claim won, or a race within the grace window
    | Cleared(sub: User, family: Family)                   // account checked, the child is to be inserted
    | SigningIn(sub: User)                                 // password and ban checked
    | SigningOut(family: Family)                           // row read, the family is to be deleted

  datatype State = State(
    now: int,
    graceMs: int,
    ttlMs: int,
    table: Table,
    issued: map<Token, Claims>,
    /** Every family ever started, and whose sign-in started it. */
    owner: map<Family, User>,
    requests: map<nat, Phase>,
    /** The rows claimed so far, in order. */
    claimed: seq<Token>,
    /** How many replays of a family were let through by the grace window. */
    graced: map<Family, nat>)

  datatype Step =
    | Tick(ms: nat)
    | Present(r: nat, token: Token)                        // a refresh arrives; its signature is verified
    | Read(r: nat)
    | TryClaim(r: nat)
    | Reread(r: nat)
    | Revoke(r: nat)
    | CheckAccount(r: nat, ok: bool)                       // the account exists and is not banned, or not
    | Insert(r: nat, child: Token)
    | SignIn(r: nat, user: User)
    | StartFamily(r: nat, child: Token, family: Family)
    | SignOut(r: nat, token: Token)                        // a logout reads its row; no signature is verified
    | RevokeUser(user: User)                               // password reset or ban
    | PurgeExpired

  function Init(graceMs: int, ttlMs: int, now: int): State {
    State(now, graceMs, ttlMs, map[], map[], map[], map[], [], map[])
  }

  function Graced(s: State, f: Family): nat {
    if f in s.graced then s.graced[f] else 0
  }

  function Move(s: State, r: nat, phase: Phase): State {
    s.(requests := s.requests[r := phase])
  }

  function End(s: State, r: nat): State {
    s.(requests := s.requests - {r})
  }

  function Issue(s: State, child: Token, user: User, family: Family): State {
    s.(table := s.table[child := Row(user, family, None, s.now + s.ttlMs)],
       issued := s.issued[child := Claims(user, SignedExpiry(s.now, s.ttlMs))])
  }

  /** The conditional update affected its row. */
  function Win(s: State, r: nat, p: Phase): State
    requires p.Found? && Claimable(s.table, p.token)
  {
    s.(requests := s.requests[r := Passed(p.sub, p.family)],
       table := Claim(s.table, p.token, s.now),
       claimed := s.claimed + [p.token])
  }

  /** It did not, but the token was redeemed a moment ago. */
  function Grant(s: State, r: nat, p: Phase): State
    requires p.Lost?
  {
    s.(requests := s.requests[r := Passed(p.sub, p.family)],
       graced := s.graced[p.family := Graced(s, p.family) + 1])
  }

  /** One statement of one request; a step that is not enabled leaves the state alone. */
  function Apply(s: State, step: Step): State {
    match step
    case Tick(ms) => s.(now := s.now + ms)
    case Present(r, token) =>
      if r in s.requests || !Verifies(s.issued, token, s.now) then s
      else Move(s, r, Verified(token, s.issued[token].sub))
    case Read(r) =>
      if r !in s.requests || !s.requests[r].Verified? then s
      else
        var p := s.requests[r];
        if p.token in s.table then Move(s, r, Found(p.token, p.sub, s.table[p.token].family)) else End(s, r)
    case TryClaim(r) =>
      if r !in s.requests || !s.requests[r].Found? then s
      else
        var p := s.requests[r];
        if Claimable(s.table, p.token) then Win(s, r, p)
        else Move(s, r, Lost(p.token, p.sub, p.family))
    case Reread(r) =>
      if r !in s.requests || !s.requests[r].Lost? then s
      else
        var p := s.requests[r];
        if WithinGrace(s.table, p.token, s.now, s.graceMs) then Grant(s, r, p)
        else Move(s, r, Late(p.family))
    case Revoke(r) =>
      if r !in s.requests || !(s.requests[r].Late? || s.requests[r].SigningOut?) then s
      else End(s, r).(table := DeleteFamily(s.table, s.requests[r].family))
    case CheckAccount(r, ok) =>
      if r !in s.requests || !s.requests[r].Passed? then s
      else if ok then Move(s, r, Cleared(s.requests[r].sub, s.requests[r].family)) else End(s, r)
    case Insert(r, child) =>
      if r !in s.requests || !s.requests[r].Cleared? || child in s.issued then s
      else Issue(End(s, r), child, s.requests[r].sub, s.requests[r].family)
    case SignIn(r, user) =>
      if r in s.requests then s else Move(s, r, SigningIn(user))
    case StartFamily(r, child, family) =>
      if r !in s.requests || !s.requests[r].SigningIn? || child in s.issued || family in s.owner then s
      else Issue(End(s, r).(owner := s.owner[family := s.requests[r].sub]), child, s.requests[r].sub, family)
    case SignOut(r, token) =>
      if r in s.requests || token !in s.table then s else Move(s, r, SigningOut(s.table[token].family))
    case RevokeUser(user) => s.(table := DeleteUser(s.table, user))
    case PurgeExpired => s.(table := Purge(s.table, s.now))
  }

  function Run(s: State, steps: seq<Step>): State {
    if steps == [] then s else Apply(Run(s, steps[..|steps| - 1]), steps[|steps| - 1])
  }

  // ─── Who can still extend a family ───────────────────────────────────────

  function LiveOf(table: Table, f: Family): set<Token> {
    set t | t in table && table[t].family == f && table[t].consumedAt.None?
  }

  /** Let through, child not inserted yet. */
  predicate Pending(p: Phase, f: Family) {
    (p.Passed? || p.Cleared?) && p.family == f
  }

  function PendingOf(requests: map<nat, Phase>, f: Family): set<nat> {
    set r | r in requests && Pending(requests[r], f)
  }

  function Holders(s: State, f: Family): nat {
    |LiveOf(s.table, f)| + |PendingOf(s.requests, f)|
  }

  ghost predicate RowsOwned(s: State) {
    forall t :: t in s.table ==>
      && t in s.issued
      && s.table[t].family in s.owner && s.owner[s.table[t].family] == s.table[t].user == s.issued[t].sub
      && (s.table[t].consumedAt.Some? ==> s.table[t].consumedAt.value <= s.now)
  }

  ghost predicate PhaseOwned(s: State, p: Phase) {
    match p
    case Verified(token, sub) => token in s.issued && s.issued[token].sub == sub
    case Found(token, sub, family) => token in s.issued && family in s.owner && s.owner[family] == sub
        && (token in s.table ==> s.table[token].family == family)
    case Lost(token, sub, family) => token in s.issued && family in s.owner && s.owner[family] == sub
        && (token in s.table ==> s.table[token].family == family)
    case Passed(sub, family) => family in s.owner && s.owner[family] == sub
    case Cleared(sub, family) => family in s.owner && s.owner[family] == sub
    case Late(family) => true
    case SigningIn(_) => true
    case SigningOut(_) => true
  }

  ghost predicate RequestsOwned(s: State) {
    forall r :: r in s.requests ==> PhaseOwned(s, s.requests[r])
  }

  /** No row is in the claim log twice, and a row in it is consumed for as long as it exists. */
  ghost predicate ClaimsInv(s: State) {
    && (forall i, j :: 0 <= i < j < |s.claimed| ==> s.claimed[i] != s.claimed[j])
    && (forall t :: t in s.claimed ==> t in s.issued && !Claimable(s.table, t))
  }

  ghost predicate HoldersBounded(s: State) {
    forall f :: f in s.owner ==> Holders(s, f) <= 1 + Graced(s, f)
  }

  ghost predicate NoGraceNoGrant(s: State) {
    s.graceMs <= 0 ==> s.graced == map[]
  }

  ghost predicate Inv(s: State) {
    RowsOwned(s) && RequestsOwned(s) && ClaimsInv(s) && HoldersBounded(s) && NoGraceNoGrant(s)
  }

  // ─── How single statements move the two counts ───────────────────────────

  lemma ClaimedRow(table: Table, token: Token, now: int, f: Family)
    requires Claimable(table, token)
    ensures |LiveOf(Claim(table, token, now), f)| == |LiveOf(table, f)| - if table[token].family == f then 1 else 0
  {
    assert LiveOf(Claim(table, token, now), f) == LiveOf(table, f) - {token};
  }

  lemma InsertedRow(table: Table, child: Token, row: Row, f: Family)
    requires child !in table && row.consumedAt.None?
    ensures |LiveOf(table[child := row], f)| == |LiveOf(table, f)| + if row.family == f then 1 else 0
  {
    assert LiveOf(table[child := row], f) == LiveOf(table, f) + if row.family == f then {child} else {};
  }

  function Weight(requests: map<nat, Phase>, r: nat, f: Family): nat {
    if r in requests && Pending(requests[r], f) then 1 else 0
  }

  lemma OnlyOneMoves(requests: map<nat, Phase>, r: nat, p: Phase, f: Family)
    ensures r in PendingOf(requests, f) <==> Weight(requests, r, f) == 1
    ensures r in PendingOf(requests[r := p], f) <==> Pending(p, f)
    ensures PendingOf(requests[r := p], f) - {r} == PendingOf(requests, f) - {r}
  {
  }

  lemma MovedRequest(requests: map<nat, Phase>, r: nat, p: Phase, f: Family)
    ensures |PendingOf(requests[r := p], f)| ==
      |PendingOf(requests, f)| - Weight(requests, r, f) + if Pending(p, f) then 1 else 0
  {
    hide PendingOf;
    OnlyOneMoves(requests, r, p, f);
    WithoutOne(PendingOf(requests, f), r);
    WithoutOne(PendingOf(requests[r := p], f), r);
  }

  lemma EndedRequest(requests: map<nat, Phase>, r: nat, f: Family)
    ensures |PendingOf(requests - {r}, f)| == |PendingOf(requests, f)| - Weight(requests, r, f)
  {
    assert PendingOf(requests - {r}, f) == PendingOf(requests, f) - {r};
  }

  /** A family nobody has started has neither rows nor requests. */
  lemma UnstartedIsEmpty(s: State, f: Family)
    requires RowsOwned(s) && RequestsOwned(s) && f !in s.owner
    ensures Holders(s, f) == 0
  {
    assert LiveOf(s.table, f) == {};
    forall r | r in s.requests
      ensures !Pending(s.requests[r], f)
    {
      assert PhaseOwned(s, s.requests[r]);
    }
    assert PendingOf(s.requests, f) == {};
  }

  // ─── Each kind of statement keeps the invariant ──────────────────────────

  lemma MoveKeepsInv(s: State, r: nat, p: Phase)
    requires Inv(s) && PhaseOwned(s, p)
    requires forall f :: Pending(p, f) ==> r in s.requests && Pending(s.requests[r], f)
    ensures Inv(Move(s, r, p))
  {
    forall f | f in s.owner
      ensures Holders(Move(s, r, p), f) <= 1 + Graced(s, f)
    {
      MovedRequest(s.requests, r, p, f);
    }
    forall q | q in Move(s, r, p).requests
      ensures PhaseOwned(Move(s, r, p), Move(s, r, p).requests[q])
    {
      assert q != r ==> PhaseOwned(s, s.requests[q]);
    }
  }

  lemma EndKeepsInv(s: State, r: nat)
    requires Inv(s)
    ensures Inv(End(s, r))
    ensures forall f :: r in s.requests && Pending(s.requests[r], f) ==> Holders(End(s, r), f) <= Graced(s, f)
  {
    forall f
      ensures f in s.owner ==> Holders(End(s, r), f) + Weight(s.requests, r, f) <= 1 + Graced(s, f)
    {
      EndedRequest(s.requests, r, f);
    }
    assert r in s.requests ==> PhaseOwned(s, s.requests[r]);
    forall q | q in End(s, r).requests
      ensures PhaseOwned(End(s, r), End(s, r).requests[q])
    {
      assert PhaseOwned(s, s.requests[q]);
    }
  }

  lemma DeletionKeepsInv(s: State, fewer: Table)
    requires Inv(s)
    requires forall t :: t in fewer ==> t in s.table && fewer[t] == s.table[t]
    ensures Inv(s.(table := fewer))
  {
    var next := s.(table := fewer);
    forall f | f in s.owner
      ensures Holders(next, f) <= 1 + Graced(s, f)
    {
      SubsetCardinality(LiveOf(fewer, f), LiveOf(s.table, f));
    }
    forall q | q in s.requests
      ensures PhaseOwned(next, s.requests[q])
    {
      assert PhaseOwned(s, s.requests[q]);
    }
  }

  lemma WinKeepsHolders(s: State, r: nat, p: Phase, f: Family)
    requires Inv(s) && r in s.requests && s.requests[r] == p && p.Found? && Claimable(s.table, p.token)
    ensures f in s.owner ==> Holders(Win(s, r, p), f) <= 1 + Graced(s, f)
  {
    assert PhaseOwned(s, p);
    ClaimedRow(s.table, p.token, s.now, f);
    MovedRequest(s.requests, r, Passed(p.sub, p.family), f);
  }

  /** Winning the claim turns a live row of the family into one pending request. */
  lemma WinKeepsInv(s: State, r: nat, p: Phase)
    requires Inv(s) && r in s.requests && s.requests[r] == p && p.Found? && Claimable(s.table, p.token)
    ensures Inv(Win(s, r, p))
  {
    hide Holders;
    var next := Win(s, r, p);
    assert PhaseOwned(s, p);
    forall f | f in s.owner
      ensures Holders(next, f) <= 1 + Graced(s, f)
    {
      WinKeepsHolders(s, r, p, f);
    }
    forall q | q in next.requests
      ensures PhaseOwned(next, next.requests[q])
    {
      assert PhaseOwned(s, s.requests[q]);
    }
  }

  /** A replay inside the grace window adds one pending request, and is counted as a grant. */
  lemma GrantKeepsInv(s: State, r: nat, p: Phase)
    requires Inv(s) && r in s.requests && s.requests[r] == p && p.Lost?
    requires WithinGrace(s.table, p.token, s.now, s.graceMs)
    ensures Inv(Grant(s, r, p))
  {
    var next := Grant(s, r, p);
    assert PhaseOwned(s, p);
    forall f | f in s.owner
      ensures Holders(next, f) <= 1 + Graced(next, f)
    {
      MovedRequest(s.requests, r, Passed(p.sub, p.family), f);
    }
    forall q | q in next.requests
      ensures PhaseOwned(next, next.requests[q])
    {
      assert PhaseOwned(s, s.requests[q]);
    }
  }

  /** A family with room for a holder takes a new row. */
  lemma IssueKeepsInv(s: State, child: Token, family: Family)
    requires Inv(s) && child !in s.issued && family in s.owner && Holders(s, family) <= Graced(s, family)
    ensures Inv(Issue(s, child, s.owner[family], family))
  {
    var next := Issue(s, child, s.owner[family], family);
    forall f | f in s.owner
      ensures Holders(next, f) <= 1 + Graced(s, f)
    {
      InsertedRow(s.table, child, next.table[child], f);
    }
    forall q | q in s.requests
      ensures PhaseOwned(next, s.requests[q])
    {
      assert PhaseOwned(s, s.requests[q]);
    }
  }

  lemma NewFamilyKeepsInv(s: State, family: Family, user: User)
    requires Inv(s) && family !in s.owner
    ensures Inv(s.(owner := s.owner[family := user])) && Holders(s, family) == 0
  {
    UnstartedIsEmpty(s, family);
    var next := s.(owner := s.owner[family := user]);
    forall q | q in s.requests
      ensures PhaseOwned(next, s.requests[q])
    {
      assert PhaseOwned(s, s.requests[q]);
    }
  }

  lemma TickKeepsInv(s: State, ms: nat)
    requires Inv(s)
    ensures Inv(s.(now := s.now + ms))
  {
    forall q | q in s.requests
      ensures PhaseOwned(s.(now := s.now + ms), s.requests[q])
    {
      assert PhaseOwned(s, s.requests[q]);
    }
  }

  lemma PhaseOf(s: State, r: nat)
    requires Inv(s) && r in s.requests
    ensures PhaseOwned(s, s.requests[r])
  {
  }

  lemma FoundRow(s: State, token: Token)
    requires Inv(s) && token in s.table
    ensures token in s.issued && s.table[token].family in s.owner
    ensures s.owner[s.table[token].family] == s.issued[token].sub
  {
  }

  lemma StepKeepsInv(s: State, step: Step)
    requires Inv(s)
    ensures Inv(Apply(s, step))
  {
    hide Inv, Holders, Win, Grant, Issue, Claimable, DeleteFamily, DeleteUser, Purge, Claim, WithinGrace;
    match step
    case Tick(ms) => TickKeepsInv(s, ms);
    case Present(r, token) =>
      if Apply(s, step) != s {
        MoveKeepsInv(s, r, Verified(token, s.issued[token].sub));
      }
    case Read(r) =>
      if r in s.requests && s.requests[r].Verified? {
        var p := s.requests[r];
        PhaseOf(s, r);
        if p.token in s.table {
          FoundRow(s, p.token);
          MoveKeepsInv(s, r, Found(p.token, p.sub, s.table[p.token].family));
        } else {
          EndKeepsInv(s, r);
        }
      }
    case TryClaim(r) =>
      if r in s.requests && s.requests[r].Found? {
        PhaseOf(s, r);
        if Claimable(s.table, s.requests[r].token) {
          WinKeepsInv(s, r, s.requests[r]);
        } else {
          MoveKeepsInv(s, r, Lost(s.requests[r].token, s.requests[r].sub, s.requests[r].family));
        }
      }
    case Reread(r) =>
      if r in s.requests && s.requests[r].Lost? {
        if WithinGrace(s.table, s.requests[r].token, s.now, s.graceMs) {
          GrantKeepsInv(s, r, s.requests[r]);
        } else {
          MoveKeepsInv(s, r, Late(s.requests[r].family));
        }
      }
    case Revoke(r) =>
      if Apply(s, step) != s {
        EndKeepsInv(s, r);
        DeletedRows(s.table, s.requests[r].family, 0, s.now);
        DeletionKeepsInv(End(s, r), DeleteFamily(s.table, s.requests[r].family));
      }
    case CheckAccount(r, ok) =>
      if Apply(s, step) != s {
        PhaseOf(s, r);
        if ok {
          MoveKeepsInv(s, r, Cleared(s.requests[r].sub, s.requests[r].family));
        } else {
          EndKeepsInv(s, r);
        }
      }
    case Insert(r, child) =>
      if r in s.requests && s.requests[r].Cleared? && child !in s.issued {
        PhaseOf(s, r);
        EndKeepsInv(s, r);
        assert Pending(s.requests[r], s.requests[r].family);
        IssueKeepsInv(End(s, r), child, s.requests[r].family);
      }
    case SignIn(r, user) =>
      if r !in s.requests {
        MoveKeepsInv(s, r, SigningIn(user));
      }
    case StartFamily(r, child, family) =>
      if Apply(s, step) != s {
        EndKeepsInv(s, r);
        NewFamilyKeepsInv(End(s, r), family, s.requests[r].sub);
        var started := End(s, r).(owner := s.owner[family := s.requests[r].sub]);
        assert Holders(started, family) == Holders(End(s, r), family) by {
          HoldersIgnoreOwner(End(s, r), started.owner, family);
        }
        IssueKeepsInv(started, child, family);
      }
    case SignOut(r, token) =>
      if Apply(s, step) != s {
        MoveKeepsInv(s, r, SigningOut(s.table[token].family));
      }
    case RevokeUser(user) =>
      DeletedRows(s.table, 0, user, s.now);
      DeletionKeepsInv(s, DeleteUser(s.table, user));
    case PurgeExpired =>
      DeletedRows(s.table, 0, 0, s.now);
      DeletionKeepsInv(s, Purge(s.table, s.now));
  }

  lemma HoldersIgnoreOwner(s: State, owner: map<Family, User>, f: Family)
    ensures Holders(s.(owner := owner), f) == Holders(s, f)
  {
  }

  /** Each of the three deletions only takes rows away. */
  lemma DeletedRows(table: Table, family: Family, user: User, now: int)
    ensures forall t :: t in DeleteFamily(table, family) ==> t in table && DeleteFamily(table, family)[t] == table[t]
    ensures forall t :: t in DeleteUser(table, user) ==> t in table && DeleteUser(table, user)[t] == table[t]
    ensures forall t :: t in Purge(table, now) ==> t in table && Purge(table, now)[t] == table[t]
  {
  }

  lemma {:induction false} RunKeepsInv(s: State, steps: seq<Step>)
    requires Inv(s)
    ensures Inv(Run(s, steps))
  {
    if steps != [] {
      hide Inv, Apply;
      RunKeepsInv(s, steps[..|steps| - 1]);
      StepKeepsInv(Run(s, steps[..|steps| - 1]), steps[|steps| - 1]);
    }
  }

  // ─── What holds in every interleaving ────────────────────────────────────

  /**
   * Whatever the grace window, a family is held by at most one row or request, plus one for each
   * replay the window let through.
   */
  lemma OneHolderPlusGrants(graceMs: int, ttlMs: int, now: int, steps: seq<Step>, f: Family)
    ensures var s := Run(Init(graceMs, ttlMs, now), steps); Holders(s, f) <= 1 + Graced(s, f)
  {
    var init := Init(graceMs, ttlMs, now);
    RunKeepsInv(init, steps);
    var s := Run(init, steps);
    if f !in s.owner {
      UnstartedIsEmpty(s, f);
    }
  }

  /** With no grace window a family has at most one live row or one request that will insert one, never both. */
  lemma NoGraceOneHolder(ttlMs: int, now: int, steps: seq<Step>, f: Family)
    ensures var s := Run(Init(0, ttlMs, now), steps); Holders(s, f) <= 1
  {
    var init := Init(0, ttlMs, now);
    RunKeepsInv(init, steps);
    RunKeepsSettings(init, steps);
    OneHolderPlusGrants(0, ttlMs, now, steps, f);
  }

  lemma {:induction false} RunKeepsSettings(s: State, steps: seq<Step>)
    ensures Run(s, steps).graceMs == s.graceMs
  {
    if steps != [] {
      hide Apply;
      RunKeepsSettings(s, steps[..|steps| - 1]);
      StepKeepsSettings(Run(s, steps[..|steps| - 1]), steps[|steps| - 1]);
    }
  }

  lemma StepKeepsSettings(s: State, step: Step)
    ensures Apply(s, step).graceMs == s.graceMs
  {
  }

  /** The conditional update has one winner per row, ever: no row is claimed twice. */
  lemma NoRowClaimedTwice(graceMs: int, ttlMs: int, now: int, steps: seq<Step>, i: nat, j: nat)
    requires i < j < |Run(Init(graceMs, ttlMs, now), steps).claimed|
    ensures Run(Init(graceMs, ttlMs, now), steps).claimed[i] != Run(Init(graceMs, ttlMs, now), steps).claimed[j]
  {
    RunKeepsInv(Init(graceMs, ttlMs, now), steps);
  }

  /** All rows of a family belong to the user whose sign-in started it, and so do their signed claims. */
  lemma FamilyHasOneUser(graceMs: int, ttlMs: int, now: int, steps: seq<Step>, t: Token, u: Token)
    requires var s := Run(Init(graceMs, ttlMs, now), steps);
      t in s.table && u in s.table && s.table[t].family == s.table[u].family
    ensures var s := Run(Init(graceMs, ttlMs, now), steps);
      s.table[t].user == s.table[u].user && u in s.issued && s.issued[u].sub == s.table[t].user
  {
    RunKeepsInv(Init(graceMs, ttlMs, now), steps);
  }

  // ─── When a revoked family can come back ─────────────────────────────────

  ghost predicate NoRows(s: State, f: Family) {
    forall t :: t in s.table ==> s.table[t].family != f
  }

  ghost predicate NonePending(s: State, f: Family) {
    forall r :: r in s.requests ==> !Pending(s.requests[r], f)
  }

  lemma ExtinctRows(s: State, step: Step, f: Family)
    requires f in s.owner && NoRows(s, f) && NonePending(s, f)
    ensures f in Apply(s, step).owner && NoRows(Apply(s, step), f)
  {
    if step.Insert? && step.r in s.requests {
      assert !Pending(s.requests[step.r], f);
    }
  }

  lemma ExtinctRequests(s: State, step: Step, f: Family)
    requires Inv(s) && f in s.owner && NoRows(s, f) && NonePending(s, f)
    ensures NonePending(Apply(s, step), f)
  {
    hide Inv, Claim, DeleteFamily, DeleteUser, Purge, Verifies, SignedExpiry;
    var next := Apply(s, step);
    if (step.TryClaim? || step.Reread?) && step.r in s.requests {
      PhaseOf(s, step.r);
    }
    forall r | r in next.requests
      ensures !Pending(next.requests[r], f)
    {
      assert r in s.requests ==> !Pending(s.requests[r], f);
    }
  }

  lemma {:induction false} ExtinctForever(s: State, steps: seq<Step>, f: Family)
    requires Inv(s) && f in s.owner && NoRows(s, f) && NonePending(s, f)
    ensures f in Run(s, steps).owner && NoRows(Run(s, steps), f) && NonePending(Run(s, steps), f)
  {
    if steps != [] {
      hide Inv, Apply, NoRows, NonePending;
      var earlier := Run(s, steps[..|steps| - 1]);
      ExtinctForever(s, steps[..|steps| - 1], f);
      RunKeepsInv(s, steps[..|steps| - 1]);
      ExtinctRows(earlier, steps[|steps| - 1], f);
      ExtinctRequests(earlier, steps[|steps| - 1], f);
    }
  }

  lemma {:induction false} FreshId(used: set<nat>) returns (id: nat)
    ensures forall u :: u in used ==> u < id
  {
    if used == {} {
      id := 0;
    } else {
      var one :| one in used;
      var rest := FreshId(used - {one});
      assert forall u :: u in used ==> u == one || u in used - {one};
      id := if one < rest then rest else one + 1;
    }
  }

  /**
   * Between statements a revoked family can come back in exactly one way: through a request that was
   * let through before the rows went and inserts its child after. With none of those in flight it has
   * no row again in any continuation.
   */
  lemma RevivedOnlyByPending(s: State, f: Family)
    requires Inv(s) && f in s.owner && NoRows(s, f)
    ensures (forall steps :: NoRows(Run(s, steps), f)) <==> NonePending(s, f)
  {
    if NonePending(s, f) {
      forall steps
        ensures NoRows(Run(s, steps), f)
      {
        ExtinctForever(s, steps, f);
      }
    } else {
      var r :| r in s.requests && Pending(s.requests[r], f);
      var child := FreshId(s.issued.Keys);
      Revive(s, r, child, f);
    }
  }

  lemma Revive(s: State, r: nat, child: Token, f: Family)
    requires r in s.requests && Pending(s.requests[r], f) && child !in s.issued
    ensures !NoRows(Run(s, [CheckAccount(r, true), Insert(r, child)]), f)
  {
    var checked := Apply(s, CheckAccount(r, true));
    assert checked.requests[r].Cleared? && checked.requests[r].family == f;
    var inserted := Apply(checked, Insert(r, child));
    assert child in inserted.table && inserted.table[child].family == f;
    var steps := [CheckAccount(r, true), Insert(r, child)];
    assert steps[..1] == [CheckAccount(r, true)] && steps[..1][..0] == [];
    assert Run(s, steps[..1]) == checked;
    assert Run(s, steps) == inserted;
  }
}
