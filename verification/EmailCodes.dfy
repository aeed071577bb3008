/**
 * One-time email codes: redeemCode and issueEmailToken of auth.service.ts, statement by statement and as whole
 * calls.
 */
module EmailCodes {
  import opened Prelude

  type CodeId = nat
  type User = nat

  datatype Purpose = Verify | Reset

  /** A row of email_tokens; comparing a guess with the stored hash is comparing it with the secret. */
  datatype Code = Code(user: User, purpose: Purpose, secret: string, expiresAt: int, attempts: nat, consumed: bool)

  datatype Recipient = Recipient(user: User, purpose: Purpose)

  const MAX_CODE_ATTEMPTS := 5
  const TTL_MS := 3 * 60 * 1000

  /** Where a redeemCode call stands between two statements. */
  datatype Phase =
    | Comparing(code: CodeId, secret: string, guess: string, consume: bool)   // row read, neither expired nor capped
    | Missed(code: CodeId)     // wrong guess, not counted yet
    | Matched(code: CodeId)    // right guess, to be spent
    | Burning(code: CodeId)    // expired or capped, to be marked consumed

  datatype State = State(
    now: int,
    codes: map<CodeId, Code>,
    issued: set<CodeId>,
    requests: map<nat, Phase>,
    /** The issueEmailToken calls that have superseded the old codes and not stored the new one. */
    issuing: map<nat, Recipient>,
    /** Wrong guesses ever compared against each code. */
    wrong: map<CodeId, nat>,
    /** Consuming calls that ever succeeded on each code. */
    spent: map<CodeId, nat>)

  datatype Step =
    | Tick(ms: nat)
    | Read(r: nat, code: CodeId, guess: string, consume: bool)
    | Compare(r: nat)
    | CountMiss(r: nat)
    | Spend(r: nat)
    | Burn(r: nat)
    | Supersede(r: nat, user: User, purpose: Purpose)
    | Store(r: nat, code: CodeId, secret: string)
    | PurgeExpired

  function Count(counts: map<CodeId, nat>, c: CodeId): nat {
    if c in counts then counts[c] else 0
  }

  function Consume(codes: map<CodeId, Code>, c: CodeId): map<CodeId, Code> {
    if c in codes then codes[c := codes[c].(consumed := true)] else codes
  }

  function Superseded(codes: map<CodeId, Code>, user: User, purpose: Purpose): map<CodeId, Code> {
    map c | c in codes :: codes[c].(consumed := codes[c].consumed
        || (codes[c].user == user && codes[c].purpose == purpose))
  }

  function NewCode(to: Recipient, secret: string, now: int): Code {
    Code(to.user, to.purpose, secret, now + TTL_MS, 0, false)
  }

  function Unexpired(codes: map<CodeId, Code>, now: int): map<CodeId, Code> {
    map c | c in codes && codes[c].expiresAt >= now :: codes[c]
  }

  predicate Unusable(code: Code, now: int) {
    code.expiresAt <= now || code.attempts >= MAX_CODE_ATTEMPTS
  }

  function Move(s: State, r: nat, phase: Phase): State {
    s.(requests := s.requests[r := phase])
  }

  function End(s: State, r: nat): State {
    s.(requests := s.requests - {r})
  }

  /** One statement; a step that is not enabled leaves the state alone. */
  function Apply(s: State, step: Step): State {
    match step
    case Tick(ms) => s.(now := s.now + ms)
    case Read(r, c, guess, consume) =>
      if r in s.requests || c !in s.codes || s.codes[c].consumed then s
      else if Unusable(s.codes[c], s.now) then Move(s, r, Burning(c))
      else Move(s, r, Comparing(c, s.codes[c].secret, guess, consume))
    case Compare(r) =>
      if r !in s.requests || !s.requests[r].Comparing? then s
      else
        var p := s.requests[r];
        if p.guess != p.secret then
          Move(s, r, Missed(p.code)).(wrong := s.wrong[p.code := Count(s.wrong, p.code) + 1])
        else if p.consume then Move(s, r, Matched(p.code))
        else End(s, r)
    case CountMiss(r) =>
      if r !in s.requests || !s.requests[r].Missed? then s
      else
        var c := s.requests[r].code;
        if c !in s.codes then End(s, r)
        else End(s, r).(codes := s.codes[c := s.codes[c].(attempts := s.codes[c].attempts + 1)])
    case Spend(r) =>
      if r !in s.requests || !s.requests[r].Matched? then s
      else
        var c := s.requests[r].code;
        if c in s.codes && !s.codes[c].consumed then
          End(s, r).(codes := Consume(s.codes, c), spent := s.spent[c := Count(s.spent, c) + 1])
        else End(s, r)
    case Burn(r) =>
      if r !in s.requests || !s.requests[r].Burning? then s
      else End(s, r).(codes := Consume(s.codes, s.requests[r].code))
    case Supersede(r, user, purpose) =>
      if r in s.issuing then s
      else s.(codes := Superseded(s.codes, user, purpose), issuing := s.issuing[r := Recipient(user, purpose)])
    case Store(r, c, secret) =>
      if r !in s.issuing || c in s.issued then s
      else
        var code := NewCode(s.issuing[r], secret, s.now);
        s.(issuing := s.issuing - {r}, issued := s.issued + {c}, codes := s.codes[c := code])
    case PurgeExpired => s.(codes := Unexpired(s.codes, s.now))
  }

  function Init(now: int): State {
    State(now, map[], {}, map[], map[], map[], map[])
  }

  function Run(s: State, steps: seq<Step>): State {
    if steps == [] then s else Apply(Run(s, steps[..|steps| - 1]), steps[|steps| - 1])
  }

  // ─── Counting guesses ────────────────────────────────────────────────────

  datatype Kind = Any | AsComparing | AsMissed

  predicate Is(p: Phase, c: CodeId, kind: Kind) {
    p.code == c && (kind.AsComparing? ==> p.Comparing?) && (kind.AsMissed? ==> p.Missed?)
  }

  function Of(requests: map<nat, Phase>, c: CodeId, kind: Kind): set<nat> {
    set r | r in requests && Is(requests[r], c, kind)
  }

  function One(b: bool): nat {
    if b then 1 else 0
  }

  lemma OnlyOneMoves(requests: map<nat, Phase>, r: nat, p: Phase, c: CodeId, kind: Kind)
    ensures r in Of(requests, c, kind) <==> r in requests && Is(requests[r], c, kind)
    ensures r in Of(requests[r := p], c, kind) <==> Is(p, c, kind)
    ensures Of(requests[r := p], c, kind) - {r} == Of(requests, c, kind) - {r} == Of(requests - {r}, c, kind)
  {
  }

  lemma Moved(requests: map<nat, Phase>, r: nat, p: Phase, c: CodeId, kind: Kind)
    ensures |Of(requests[r := p], c, kind)| ==
      |Of(requests, c, kind)| - One(r in requests && Is(requests[r], c, kind)) + One(Is(p, c, kind))
    ensures |Of(requests - {r}, c, kind)| == |Of(requests, c, kind)| - One(r in requests && Is(requests[r], c, kind))
  {
    hide Of, Is;
    OnlyOneMoves(requests, r, p, c, kind);
    WithoutOne(Of(requests, c, kind), r);
    WithoutOne(Of(requests[r := p], c, kind), r);
  }

  lemma PartsOfInFlight(requests: map<nat, Phase>, c: CodeId)
    ensures |Of(requests, c, AsComparing)| + |Of(requests, c, AsMissed)| <= |Of(requests, c, Any)|
  {
    SubsetCardinality(Of(requests, c, AsComparing) + Of(requests, c, AsMissed), Of(requests, c, Any));
    assert Of(requests, c, AsComparing) !! Of(requests, c, AsMissed);
  }

  function InFlight(s: State, c: CodeId): nat {
    |Of(s.requests, c, Any)|
  }

  /** At every moment of the run at most `k` calls are working on `c`. */
  predicate AtMost(s: State, steps: seq<Step>, c: CodeId, k: nat) {
    InFlight(Run(s, steps), c) <= k && (steps == [] || AtMost(s, steps[..|steps| - 1], c, k))
  }

  /** The counter in the row lags the guesses compared by exactly the misses still to be counted. */
  ghost predicate GuessInv(s: State, c: CodeId, k: nat) {
    && s.codes.Keys <= s.issued
    && (c !in s.issued ==> Count(s.wrong, c) == 0 && InFlight(s, c) == 0)
    && (c in s.codes ==> s.codes[c].attempts + |Of(s.requests, c, AsMissed)| == Count(s.wrong, c))
    && Count(s.wrong, c) + |Of(s.requests, c, AsComparing)| <= MAX_CODE_ATTEMPTS - 1 + k
  }

  lemma GuessMove(s: State, r: nat, p: Phase, c: CodeId)
    ensures var next := Move(s, r, p).requests;
      && |Of(next, c, AsMissed)| ==
          |Of(s.requests, c, AsMissed)| - One(r in s.requests && Is(s.requests[r], c, AsMissed))
              + One(Is(p, c, AsMissed))
      && |Of(next, c, AsComparing)| ==
          |Of(s.requests, c, AsComparing)| - One(r in s.requests && Is(s.requests[r], c, AsComparing))
              + One(Is(p, c, AsComparing))
      && |Of(next, c, Any)| == |Of(s.requests, c, Any)| - One(r in s.requests && Is(s.requests[r], c, Any))
          + One(Is(p, c, Any))
    ensures var next := End(s, r).requests;
      && |Of(next, c, AsMissed)| ==
          |Of(s.requests, c, AsMissed)| - One(r in s.requests && Is(s.requests[r], c, AsMissed))
      && |Of(next, c, AsComparing)| ==
          |Of(s.requests, c, AsComparing)| - One(r in s.requests && Is(s.requests[r], c, AsComparing))
      && |Of(next, c, Any)| == |Of(s.requests, c, Any)| - One(r in s.requests && Is(s.requests[r], c, Any))
  {
    hide Of, Is;
    Moved(s.requests, r, p, c, AsMissed);
    Moved(s.requests, r, p, c, AsComparing);
    Moved(s.requests, r, p, c, Any);
  }

  lemma GuessRead(s: State, r: nat, code: CodeId, guess: string, consume: bool, c: CodeId, k: nat)
    requires GuessInv(s, c, k) && InFlight(Apply(s, Read(r, code, guess, consume)), c) <= k
    ensures GuessInv(Apply(s, Read(r, code, guess, consume)), c, k)
  {
    var next := Apply(s, Read(r, code, guess, consume));
    if next != s {
      assert next == Move(s, r, next.requests[r]) && r !in s.requests;
      hide Of, Unexpired, Superseded, Consume, NewCode;
      PartsOfInFlight(next.requests, c);
      GuessMove(s, r, next.requests[r], c);
    }
  }

  lemma GuessCompare(s: State, r: nat, c: CodeId, k: nat)
    requires GuessInv(s, c, k)
    ensures GuessInv(Apply(s, Compare(r)), c, k)
  {
    hide Of, Unexpired, Superseded, Consume;
    if r in s.requests && s.requests[r].Comparing? {
      GuessMove(s, r, Missed(s.requests[r].code), c);
      GuessMove(s, r, Matched(s.requests[r].code), c);
    }
  }

  lemma GuessCountMiss(s: State, r: nat, c: CodeId, k: nat)
    requires GuessInv(s, c, k)
    ensures GuessInv(Apply(s, CountMiss(r)), c, k)
  {
    hide Of, Unexpired, Superseded, Consume;
    if r in s.requests && s.requests[r].Missed? {
      GuessMove(s, r, s.requests[r], c);
    }
  }

  lemma GuessSpendOrBurn(s: State, r: nat, c: CodeId, k: nat)
    requires GuessInv(s, c, k)
    ensures GuessInv(Apply(s, Spend(r)), c, k) && GuessInv(Apply(s, Burn(r)), c, k)
  {
    hide Of, Unexpired, Superseded;
    if r in s.requests && (s.requests[r].Matched? || s.requests[r].Burning?) {
      GuessMove(s, r, s.requests[r], c);
    }
  }

  lemma GuessStep(s: State, step: Step, c: CodeId, k: nat)
    requires GuessInv(s, c, k) && InFlight(Apply(s, step), c) <= k
    ensures GuessInv(Apply(s, step), c, k)
  {
    hide Of;
    match step {
      case Read(r, code, guess, consume) => hide *; GuessRead(s, r, code, guess, consume, c, k);
      case Compare(r) => hide *; GuessCompare(s, r, c, k);
      case CountMiss(r) => hide *; GuessCountMiss(s, r, c, k);
      case Spend(r) => hide *; GuessSpendOrBurn(s, r, c, k);
      case Burn(r) => hide *; GuessSpendOrBurn(s, r, c, k);
      case _ => PartsOfInFlight(s.requests, c);
    }
  }

  lemma RunLast(s: State, steps: seq<Step>, step: Step)
    ensures Run(s, steps + [step]) == Apply(Run(s, steps), step)
  {
    hide Apply;
    assert (steps + [step])[..|steps|] == steps;
  }

  lemma {:induction false} GuessesHold(now: int, steps: seq<Step>, c: CodeId, k: nat)
    requires AtMost(Init(now), steps, c, k)
    ensures GuessInv(Run(Init(now), steps), c, k)
  {
    if steps == [] {
      assert forall kind :: Of(map[], c, kind) == {};
    } else {
      hide Apply, GuessInv, InFlight;
      GuessesHold(now, steps[..|steps| - 1], c, k);
      GuessStep(Run(Init(now), steps[..|steps| - 1]), steps[|steps| - 1], c, k);
    }
  }

  /** With at most `k` calls in flight on a code, at most 4 + k wrong guesses are ever compared with it. */
  lemma WrongGuessesBounded(now: int, steps: seq<Step>, c: CodeId, k: nat)
    requires AtMost(Init(now), steps, c, k)
    ensures Count(Run(Init(now), steps).wrong, c) <= 4 + k
  {
    hide Run;
    GuessesHold(now, steps, c, k);
  }

  // ─── The bound is reached ────────────────────────────────────────────────

  const SECRET := "000000"
  const WRONG := "000001"

  /** A code that has counted `counted` misses, with `guesses` wrong guesses compared so far. */
  function Guessed(now: int, counted: nat, guesses: nat, requests: map<nat, Phase>): State {
    State(now, map[0 := Code(0, Verify, SECRET, now + TTL_MS, counted, false)], {0}, requests, map[],
          if guesses == 0 then map[] else map[0 := guesses], map[])
  }

  function Guesser(r: nat, compared: nat): Phase {
    if r < compared then Missed(0) else Comparing(0, SECRET, WRONG, true)
  }

  /** Requests 0 to k - 1, of which the first `compared` have had their guess refused. */
  function Crowd(k: nat, compared: nat): map<nat, Phase> {
    map r: nat | 0 <= r < k :: Guesser(r, compared)
  }

  lemma Crowded(s: State, k: nat, compared: nat)
    requires s.requests == Crowd(k, compared)
    ensures InFlight(s, 0) <= k
  {
    IndexSetBound(Of(s.requests, 0, Any), 0, k);
  }

  lemma Extended(s: State, steps: seq<Step>, step: Step, c: CodeId, k: nat)
    requires AtMost(s, steps, c, k) && InFlight(Apply(Run(s, steps), step), c) <= k
    ensures AtMost(s, steps + [step], c, k) && Run(s, steps + [step]) == Apply(Run(s, steps), step)
  {
    hide InFlight, Apply;
    RunLast(s, steps, step);
    assert (steps + [step])[..|steps|] == steps;
  }

  lemma FirstCode(now: int)
    ensures var superseded := Apply(Init(now), Supersede(0, 0, Verify));
      InFlight(superseded, 0) == 0 && Apply(superseded, Store(0, 0, SECRET)) == Guessed(now, 0, 0, map[])
    ensures Run(Init(now), []) == Init(now)
  {
    var superseded := Apply(Init(now), Supersede(0, 0, Verify));
    assert superseded == Init(now).(issuing := map[0 := Recipient(0, Verify)]);
    assert superseded.issuing - {0} == map[] && Of(map[], 0, Any) == {};
  }

  /** One caller guesses wrong `n` times, each miss counted before the next guess. */
  lemma {:induction false} OneByOne(now: int, n: nat, k: nat) returns (steps: seq<Step>)
    requires n <= MAX_CODE_ATTEMPTS - 1 && k >= 1
    ensures AtMost(Init(now), steps, 0, k) && Run(Init(now), steps) == Guessed(now, n, n, map[])
  {
    if n == 0 {
      assert InFlight(Init(now), 0) == 0 by { assert Of(map[], 0, Any) == {}; }
      assert AtMost(Init(now), [], 0, k);
      Crowded(Guessed(now, 0, 0, map[]), 0, 0);
      FirstCode(now);
      hide Run, AtMost, InFlight, Apply;
      Extended(Init(now), [], Supersede(0, 0, Verify), 0, k);
      steps := [] + [Supersede(0, 0, Verify)];
      Extended(Init(now), steps, Store(0, 0, SECRET), 0, k);
      steps := steps + [Store(0, 0, SECRET)];
    } else {
      steps := OneByOne(now, n - 1, k);
      steps := OneRound(now, n - 1, k, steps);
    }
  }

  lemma RoundOf(now: int, n: nat)
    requires n < MAX_CODE_ATTEMPTS - 1
    ensures Apply(Guessed(now, n, n, map[]), Read(0, 0, WRONG, true)) == Guessed(now, n, n, Crowd(1, 0))
    ensures Apply(Guessed(now, n, n, Crowd(1, 0)), Compare(0)) == Guessed(now, n, n + 1, Crowd(1, 1))
    ensures Apply(Guessed(now, n, n + 1, Crowd(1, 1)), CountMiss(0)) == Guessed(now, n + 1, n + 1, map[])
  {
    assert Crowd(1, 0)[0 := Missed(0)] == Crowd(1, 1) && Crowd(1, 1) - {0} == map[];
  }

  lemma OneRound(now: int, n: nat, k: nat, before: seq<Step>) returns (steps: seq<Step>)
    requires n < MAX_CODE_ATTEMPTS - 1 && k >= 1
    requires AtMost(Init(now), before, 0, k) && Run(Init(now), before) == Guessed(now, n, n, map[])
    ensures AtMost(Init(now), steps, 0, k) && Run(Init(now), steps) == Guessed(now, n + 1, n + 1, map[])
  {
    RoundOf(now, n);
    hide Run, AtMost, InFlight, Apply;
    var reading, compared, counted := Guessed(now, n, n, Crowd(1, 0)), Guessed(now, n, n + 1, Crowd(1, 1)),
        Guessed(now, n + 1, n + 1, map[]);
    Crowded(reading, 1, 0);
    Extended(Init(now), before, Read(0, 0, WRONG, true), 0, k);
    steps := before + [Read(0, 0, WRONG, true)];
    Crowded(compared, 1, 1);
    Extended(Init(now), steps, Compare(0), 0, k);
    steps := steps + [Compare(0)];
    Crowded(counted, 0, 0);
    Extended(Init(now), steps, CountMiss(0), 0, k);
    steps := steps + [CountMiss(0)];
  }

  /** `k` calls read the row while four misses are counted. */
  lemma {:induction false} AllRead(now: int, n: nat, k: nat) returns (steps: seq<Step>)
    requires n <= k && k >= 1
    ensures AtMost(Init(now), steps, 0, k) && Run(Init(now), steps) == Guessed(now, 4, 4, Crowd(n, 0))
  {
    if n == 0 {
      steps := OneByOne(now, 4, k);
    } else {
      steps := AllRead(now, n - 1, k);
      hide Run, AtMost, InFlight;
      var read := Read(n - 1, 0, WRONG, true);
      assert Apply(Guessed(now, 4, 4, Crowd(n - 1, 0)), read) == Guessed(now, 4, 4, Crowd(n, 0));
      Crowded(Guessed(now, 4, 4, Crowd(n, 0)), n, 0);
      Extended(Init(now), steps, read, 0, k);
      steps := steps + [read];
    }
  }

  lemma ComparedOne(now: int, n: nat, k: nat)
    requires n < k
    ensures Apply(Guessed(now, 4, 4 + n, Crowd(k, n)), Compare(n)) == Guessed(now, 4, 4 + n + 1, Crowd(k, n + 1))
  {
    assert Crowd(k, n)[n := Missed(0)] == Crowd(k, n + 1);
  }

  /** Then all of them compare before any counts its miss. */
  lemma {:induction false} AllCompared(now: int, n: nat, k: nat) returns (steps: seq<Step>)
    requires n <= k && k >= 1
    ensures AtMost(Init(now), steps, 0, k) && Run(Init(now), steps) == Guessed(now, 4, 4 + n, Crowd(k, n))
  {
    if n == 0 {
      steps := AllRead(now, k, k);
    } else {
      steps := AllCompared(now, n - 1, k);
      hide Run, AtMost, InFlight, Apply, Crowd, Guesser, Of, Is, Count;
      ComparedOne(now, n - 1, k);
      assert Guessed(now, 4, 4 + n, Crowd(k, n)).requests == Crowd(k, n);
      Crowded(Guessed(now, 4, 4 + n, Crowd(k, n)), k, n);
      Extended(Init(now), steps, Compare(n - 1), 0, k);
      steps := steps + [Compare(n - 1)];
    }
  }

  /** The bound is exact: some run with at most `k` calls in flight compares 4 + k wrong guesses. */
  lemma GuessBoundIsReached(now: int, k: nat)
    requires k >= 1
    ensures exists steps :: AtMost(Init(now), steps, 0, k) && Count(Run(Init(now), steps).wrong, 0) == 4 + k
  {
    var steps := AllCompared(now, k, k);
    assert AtMost(Init(now), steps, 0, k) && Count(Run(Init(now), steps).wrong, 0) == 4 + k;
  }

  // ─── A code is spent once ────────────────────────────────────────────────

  /** Spent at most once, and never live again after. */
  ghost predicate SpentInv(s: State, c: CodeId) {
    && s.codes.Keys <= s.issued
    && Count(s.spent, c) <= 1
    && (Count(s.spent, c) == 1 ==> c in s.issued && (c in s.codes ==> s.codes[c].consumed))
  }

  lemma {:induction false} SpentHolds(now: int, steps: seq<Step>, c: CodeId)
    ensures SpentInv(Run(Init(now), steps), c)
  {
    if steps != [] {
      hide Apply, SpentInv;
      SpentHolds(now, steps[..|steps| - 1], c);
      SpentStep(Run(Init(now), steps[..|steps| - 1]), steps[|steps| - 1], c);
    }
  }

  lemma SpentStep(s: State, step: Step, c: CodeId)
    requires SpentInv(s, c)
    ensures SpentInv(Apply(s, step), c)
  {
  }

  /** Under any interleaving at most one consuming call ever succeeds on a code. */
  lemma SpentAtMostOnce(now: int, steps: seq<Step>, c: CodeId)
    ensures Count(Run(Init(now), steps).spent, c) <= 1
  {
    hide Run;
    SpentHolds(now, steps, c);
  }

  /** Consumed, superseded, burned or purged: issued, and not there to be redeemed. */
  ghost predicate Closed(s: State, c: CodeId) {
    c in s.issued && (c in s.codes ==> s.codes[c].consumed)
  }

  lemma ClosedStep(s: State, step: Step, c: CodeId)
    requires Closed(s, c)
    ensures Closed(Apply(s, step), c) && Count(Apply(s, step).spent, c) == Count(s.spent, c)
    ensures step.Read? && step.code == c ==> Apply(s, step) == s
  {
  }

  /** A closed code authorises nothing again: no continuation spends it, and no later call gets to compare it. */
  lemma {:induction false} ClosedAuthorisesNothing(s: State, steps: seq<Step>, c: CodeId, r: nat, guess: string,
      consume: bool)
    requires Closed(s, c)
    ensures Closed(Run(s, steps), c) && Count(Run(s, steps).spent, c) == Count(s.spent, c)
    ensures Apply(Run(s, steps), Read(r, c, guess, consume)) == Run(s, steps)
  {
    if steps != [] {
      hide Apply, Closed;
      ClosedAuthorisesNothing(s, steps[..|steps| - 1], c, r, guess, consume);
      ClosedStep(Run(s, steps[..|steps| - 1]), steps[|steps| - 1], c);
    }
    ClosedStep(Run(s, steps), Read(r, c, guess, consume), c);
  }
}
