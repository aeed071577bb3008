/** issueEmailToken and redeemCode of auth.service.ts as whole calls, and how they are made of their statements. */
module EmailTokens {
  import opened Prelude
  import opened EmailCodes

  /** Refused is the one message shared by every failure the caller may not tell apart. */
  datatype Outcome = Refused | Expired | TooMany | Accepted

  predicate Live(codes: map<CodeId, Code>, user: User, purpose: Purpose, c: CodeId) {
    c in codes && codes[c].user == user && codes[c].purpose == purpose && !codes[c].consumed
  }

  predicate Siblings(x: Code, y: Code) {
    x.user == y.user && x.purpose == y.purpose
  }

  /** What a call that found this row leaves of it, and what it answers. */
  function Redeem(code: Code, now: int, guess: string, consume: bool): (Code, Outcome) {
    if code.expiresAt <= now then (code.(consumed := true), Expired)
    else if code.attempts >= MAX_CODE_ATTEMPTS then (code.(consumed := true), TooMany)
    else if guess != code.secret then (code.(attempts := code.attempts + 1), Refused)
    else if consume then (code.(consumed := true), Accepted)
    else (code, Accepted)
  }

  /** The codes after a new one was issued: the live ones of the same account and purpose are consumed. */
  function Reissued(codes: map<CodeId, Code>, to: Recipient, id: CodeId, raw: string, now: int): map<CodeId, Code> {
    Superseded(codes, to.user, to.purpose)[id := NewCode(to, raw, now)]
  }

  /** The row of this account and purpose, unspent, in time, under the cap, with this secret. */
  predicate Matches(code: Code, user: User, purpose: Purpose, guess: string, now: int) {
    && code.user == user && code.purpose == purpose && !code.consumed
    && now < code.expiresAt && code.attempts < 5 && code.secret == guess
  }

  class EmailTokenService {
    var now: int
    var codes: map<CodeId, Code>
    var issued: set<CodeId>

    /** At most one live code for each account and purpose, and no row past its cap. */
    ghost predicate Valid()
      reads this
    {
      && codes.Keys <= issued
      && (forall c, d :: c in codes && d in codes && Siblings(codes[c], codes[d]) ==>
            codes[c].consumed || codes[d].consumed || c == d)
      && (forall c :: c in codes ==> codes[c].attempts <= MAX_CODE_ATTEMPTS)
    }

    constructor (now: int)
      ensures Valid() && codes == map[] && issued == {} && this.now == now
    {
      this.now, codes, issued := now, map[], {};
    }

    /** The new code replaces every live one of the same account and purpose; no other row changes. */
    method IssueEmailToken(user: User, purpose: Purpose, id: CodeId, raw: string)
      requires Valid() && id !in issued
      modifies this`codes, this`issued
      ensures Valid() && issued == old(issued) + {id}
      ensures codes == Reissued(old(codes), Recipient(user, purpose), id, raw, now)
      ensures codes.Keys == old(codes).Keys + {id} && codes[id] == Code(user, purpose, raw, now + TTL_MS, 0, false)
      ensures forall c :: c in codes && codes[c].user == user && codes[c].purpose == purpose && !codes[c].consumed <==>
                          c == id
      ensures forall c | c in old(codes) ::
        var same := old(codes)[c].user == user && old(codes)[c].purpose == purpose;
        codes[c] == if same then old(codes)[c].(consumed := true) else old(codes)[c]
    {
      codes := Superseded(codes, user, purpose);
      codes := codes[id := Code(user, purpose, raw, now + TTL_MS, 0, false)];
      issued := issued + {id};
    }

    /** `eligible`: the address has an account the caller does not reject and that is not banned. */
    method RedeemCode(user: User, eligible: bool, guess: string, purpose: Purpose, consume: bool) returns (o: Outcome)
      requires Valid()
      modifies this`codes
      ensures Valid()
      ensures o == Accepted <==>
        eligible && exists c :: c in old(codes) && Matches(old(codes)[c], user, purpose, guess, now)
      ensures !eligible ==> o == Refused && codes == old(codes)
      ensures (forall c :: c in old(codes) && old(codes)[c].user == user && old(codes)[c].purpose == purpose ==>
                 old(codes)[c].consumed) ==> o == Refused && codes == old(codes)
      ensures forall c | c in old(codes) && old(codes)[c].user == user && old(codes)[c].purpose == purpose ::
        eligible && !old(codes)[c].consumed ==>
        var (row, answer) := Redeem(old(codes)[c], now, guess, consume);
        codes == old(codes)[c := row] && o == answer
    {
      if !eligible {
        return Refused;
      }
      if c :| c in codes && Live(codes, user, purpose, c) {
        if codes[c].expiresAt <= now {
          codes := codes[c := codes[c].(consumed := true)];
          return Expired;
        }
        if codes[c].attempts >= MAX_CODE_ATTEMPTS {
          codes := codes[c := codes[c].(consumed := true)];
          return TooMany;
        }
        if guess != codes[c].secret {
          codes := codes[c := codes[c].(attempts := codes[c].attempts + 1)];
          return Refused;
        }
        if consume {
          codes := codes[c := codes[c].(consumed := true)];
        }
        return Accepted;
      }
      return Refused;
    }
  }

  // ─── A whole call is its statements run alone ────────────────────────────

  /** Run without interruption, the two statements of issueEmailToken do what the whole call does. */
  lemma IssueIsItsSteps(s: State, r: nat, to: Recipient, id: CodeId, raw: string)
    requires r !in s.issuing && id !in s.issued
    ensures Run(s, [Supersede(r, to.user, to.purpose), Store(r, id, raw)]) ==
      s.(codes := Reissued(s.codes, to, id, raw, s.now), issued := s.issued + {id})
  {
    var steps := [Supersede(r, to.user, to.purpose), Store(r, id, raw)];
    assert [] + [steps[0]] == [steps[0]] && [steps[0]] + [steps[1]] == steps;
    RunLast(s, [], steps[0]);
    RunLast(s, [steps[0]], steps[1]);
    assert s.issuing[r := to] - {r} == s.issuing;
  }

  /** The statements of one redeemCode, in source order; those its branch does not reach are not enabled. */
  function RedeemSteps(r: nat, c: CodeId, guess: string, consume: bool): seq<Step> {
    [Read(r, c, guess, consume), Compare(r), CountMiss(r), Spend(r), Burn(r)]
  }

  function AfterRead(s: State, r: nat): State {
    Apply(Apply(Apply(Apply(s, Compare(r)), CountMiss(r)), Spend(r)), Burn(r))
  }

  lemma FiveSteps(s: State, r: nat, c: CodeId, guess: string, consume: bool)
    ensures Run(s, RedeemSteps(r, c, guess, consume)) == AfterRead(Apply(s, Read(r, c, guess, consume)), r)
  {
    hide Apply;
    var all := RedeemSteps(r, c, guess, consume);
    RunLast(s, [], all[0]);
    RunLast(s, [all[0]], all[1]);
    RunLast(s, [all[0], all[1]], all[2]);
    RunLast(s, [all[0], all[1], all[2]], all[3]);
    RunLast(s, [all[0], all[1], all[2], all[3]], all[4]);
    assert [] + [all[0]] == [all[0]];
    assert [all[0]] + [all[1]] == [all[0], all[1]];
    assert [all[0], all[1]] + [all[2]] == [all[0], all[1], all[2]];
    assert [all[0], all[1], all[2]] + [all[3]] == [all[0], all[1], all[2], all[3]];
    assert [all[0], all[1], all[2], all[3]] + [all[4]] == all;
  }

  /** A call that has ended takes no further step. */
  lemma NothingLeft(s: State, r: nat)
    requires r !in s.requests
    ensures Apply(s, CountMiss(r)) == Apply(s, Spend(r)) == Apply(s, Burn(r)) == s
  {
  }

  lemma ReadDone(s: State, r: nat, c: CodeId, guess: string, consume: bool)
    requires r !in s.requests && c in s.codes && !s.codes[c].consumed
    ensures Apply(s, Read(r, c, guess, consume)) ==
      Move(s, r, if Unusable(s.codes[c], s.now) then Burning(c) else Comparing(c, s.codes[c].secret, guess, consume))
  {
  }

  lemma BurningDone(s: State, requests: map<nat, Phase>, r: nat, c: CodeId)
    requires r !in requests && s.requests == requests[r := Burning(c)] && c in s.codes
    ensures AfterRead(s, r) == s.(requests := requests, codes := s.codes[c := s.codes[c].(consumed := true)])
  {
    assert s.requests - {r} == requests;
  }

  lemma ComparingDone(s: State, requests: map<nat, Phase>, r: nat, c: CodeId, secret: string, guess: string,
                      consume: bool)
    requires r !in requests && s.requests == requests[r := Comparing(c, secret, guess, consume)]
    requires c in s.codes && !s.codes[c].consumed
    ensures AfterRead(s, r) ==
      if guess != secret then
        s.(requests := requests, codes := s.codes[c := s.codes[c].(attempts := s.codes[c].attempts + 1)],
           wrong := s.wrong[c := Count(s.wrong, c) + 1])
      else if consume then
        s.(requests := requests, codes := s.codes[c := s.codes[c].(consumed := true)],
           spent := s.spent[c := Count(s.spent, c) + 1])
      else s.(requests := requests)
  {
    hide Count, NewCode, Unexpired, Superseded;
    var compared := Apply(s, Compare(r));
    if guess != secret {
      assert compared.requests == requests[r := Missed(c)];
      assert compared.requests - {r} == requests;
      NothingLeft(Apply(compared, CountMiss(r)), r);
    } else if consume {
      assert compared.requests == requests[r := Matched(c)];
      assert Apply(compared, CountMiss(r)) == compared;
      assert compared.requests - {r} == requests;
      NothingLeft(Apply(compared, Spend(r)), r);
    } else {
      assert s.requests - {r} == requests;
      NothingLeft(compared, r);
    }
  }

  /**
   * Run without interruption, the statements do to the row what the whole call does, and count the guess when it
   * was wrong.
   */
  lemma RedeemIsItsSteps(s: State, r: nat, c: CodeId, guess: string, consume: bool)
    requires r !in s.requests && c in s.codes && !s.codes[c].consumed
    ensures var after := Run(s, RedeemSteps(r, c, guess, consume));
      var (row, outcome) := Redeem(s.codes[c], s.now, guess, consume);
      && after == s.(codes := s.codes[c := row], wrong := after.wrong, spent := after.spent)
      && after.wrong == (if outcome == Refused then s.wrong[c := Count(s.wrong, c) + 1] else s.wrong)
      && after.spent == (if outcome == Accepted && consume then s.spent[c := Count(s.spent, c) + 1] else s.spent)
  {
    hide Apply, AfterRead, Run, Count, RedeemSteps;
    FiveSteps(s, r, c, guess, consume);
    ReadDone(s, r, c, guess, consume);
    var read := Apply(s, Read(r, c, guess, consume));
    if Unusable(s.codes[c], s.now) {
      BurningDone(read, s.requests, r, c);
    } else {
      ComparingDone(read, s.requests, r, c, s.codes[c].secret, guess, consume);
      assert s.codes == s.codes[c := s.codes[c]];
    }
  }

  // ─── One caller at a time ────────────────────────────────────────────────

  predicate OnlyRequest(step: Step, r: nat) {
    match step
    case Read(q, _, _, _) => q == r
    case Compare(q) => q == r
    case CountMiss(q) => q == r
    case Spend(q) => q == r
    case Burn(q) => q == r
    case _ => true
  }

  lemma OnlyRequestStep(s: State, step: Step, r: nat)
    requires s.requests.Keys <= {r} && OnlyRequest(step, r)
    ensures Apply(s, step).requests.Keys <= {r}
  {
  }

  lemma {:induction false} OneInFlight(now: int, steps: seq<Step>, r: nat, c: CodeId)
    requires forall step :: step in steps ==> OnlyRequest(step, r)
    ensures Run(Init(now), steps).requests.Keys <= {r} && AtMost(Init(now), steps, c, 1)
  {
    hide Apply, OnlyRequest;
    if steps != [] {
      OneInFlight(now, steps[..|steps| - 1], r, c);
      OnlyRequestStep(Run(Init(now), steps[..|steps| - 1]), steps[|steps| - 1], r);
    }
    SubsetCardinality(Of(Run(Init(now), steps).requests, c, Any), {r});
  }

  /** When calls run one at a time, at most five wrong guesses are ever compared with a code. */
  lemma FiveGuessesOneAtATime(now: int, steps: seq<Step>, r: nat, c: CodeId)
    requires forall step :: step in steps ==> OnlyRequest(step, r)
    ensures Count(Run(Init(now), steps).wrong, c) <= 5
  {
    hide Run, AtMost, OnlyRequest;
    OneInFlight(now, steps, r, c);
    WrongGuessesBounded(now, steps, c, 1);
  }
}
