/**
 * The promotion schedule and its ten-second cache: promotion-settings.service.ts, with reads and schedules split
 * into the statements between their awaits, any number of them under way, and as whole calls.
 */
module PromotionSettings {
  import opened Prelude

  const CACHE_MS := 10_000

  /**
   * Where a read stands that found no fresh cache: waiting for the row, or answered by the database and about to
   * write the cache. `failed`: the answer was an error. `overtaken`: a schedule returned since the answer.
   */
  datatype Reading = Asked | Fetched(at: Option<int>, failed: bool, overtaken: bool)

  /** The two flags are those of the read that wrote it, kept for the proofs. */
  datatype Cached = Cached(at: Option<int>, until: int, failed: bool, overtaken: bool)

  /** `saving`: the schedules that have written the row and not yet emptied the cache. */
  datatype State = State(
    now: int, stored: Option<int>, cache: Option<Cached>, inFlight: map<nat, Reading>, saving: set<nat>)

  datatype Step =
    | Tick(ms: nat)
    | Ask(r: nat)
    | Fetch(r: nat, readable: bool)
    | Store(r: nat)
    | Save(w: nat, at: Option<int>)
    | Empty(w: nat)

  predicate Fresh(s: State) {
    s.cache.Some? && s.now < s.cache.value.until
  }

  function Overtaken(reading: Reading): Reading {
    if reading.Fetched? then reading.(overtaken := true) else reading
  }

  /** One statement; a step that is not enabled leaves the state alone. */
  function Apply(s: State, step: Step): State {
    match step
    case Tick(ms) => s.(now := s.now + ms)
    case Ask(r) => if Fresh(s) || r in s.inFlight then s else s.(inFlight := s.inFlight[r := Asked])
    case Fetch(r, readable) =>
      if r !in s.inFlight || !s.inFlight[r].Asked? then s
      else s.(inFlight := s.inFlight[r := Fetched(if readable then s.stored else None, !readable, false)])
    case Store(r) =>
      if r !in s.inFlight || !s.inFlight[r].Fetched? then s
      else
        var read := s.inFlight[r];
        s.(cache := Some(Cached(read.at, s.now + CACHE_MS, read.failed, read.overtaken)), inFlight := s.inFlight - {r})
    case Save(w, at) => if w in s.saving then s else s.(stored := at, saving := s.saving + {w})
    case Empty(w) =>
      if w !in s.saving then s
      else s.(cache := None, saving := s.saving - {w}, inFlight := map r | r in s.inFlight :: Overtaken(s.inFlight[r]))
  }

  /** What a read answers at this step, if it answers. */
  function Answer(s: State, step: Step): Option<Option<int>> {
    match step
    case Ask(r) => if Fresh(s) then Some(s.cache.value.at) else None
    case Store(r) => if r in s.inFlight && s.inFlight[r].Fetched? then Some(s.inFlight[r].at) else None
    case _ => None
  }

  function Init(now: int, stored: Option<int>): State {
    State(now, stored, None, map[], {})
  }

  function Run(s: State, steps: seq<Step>): State {
    if steps == [] then s else Apply(Run(s, steps[..|steps| - 1]), steps[|steps| - 1])
  }

  // ─── Why an answer can be wrong ──────────────────────────────────────────

  /** Right, or nothing because the database failed, or read before a schedule that returned in the meantime. */
  predicate Excused(at: Option<int>, failed: bool, overtaken: bool, stored: Option<int>) {
    at == stored || (failed && at == None) || overtaken
  }

  ghost predicate Honest(s: State) {
    && (s.cache.Some? ==> s.cache.value.until <= s.now + CACHE_MS)
    && (s.saving == {} ==>
          && (s.cache.Some? ==>
                Excused(s.cache.value.at, s.cache.value.failed, s.cache.value.overtaken, s.stored))
          && (forall r :: r in s.inFlight && s.inFlight[r].Fetched? ==>
                Excused(s.inFlight[r].at, s.inFlight[r].failed, s.inFlight[r].overtaken, s.stored)))
  }

  lemma {:induction false} RunIsHonest(now: int, stored: Option<int>, steps: seq<Step>)
    ensures Honest(Run(Init(now, stored), steps))
  {
    if steps != [] {
      RunIsHonest(now, stored, steps[..|steps| - 1]);
      hide Run;
      StepIsHonest(Run(Init(now, stored), steps[..|steps| - 1]), steps[|steps| - 1]);
    }
  }

  lemma StepIsHonest(s: State, step: Step)
    requires Honest(s)
    ensures Honest(Apply(s, step))
  {
  }

  /** What wrote the answer of this step: a cache entry or the read itself. */
  predicate FromFailure(s: State, step: Step) {
    match step
    case Ask(_) => s.cache.Some? && s.cache.value.failed
    case Store(r) => r in s.inFlight && s.inFlight[r].Fetched? && s.inFlight[r].failed
    case _ => false
  }

  predicate FromOvertaken(s: State, step: Step) {
    match step
    case Ask(_) => s.cache.Some? && s.cache.value.overtaken
    case Store(r) => r in s.inFlight && s.inFlight[r].Fetched? && s.inFlight[r].overtaken
    case _ => false
  }

  /**
   * Under every interleaving, while no schedule is halfway, an answer differs from what is stored only when its read
   * failed, and then it is "nothing scheduled", or when a schedule returned while its read was under way.
   */
  lemma WrongAnswersAreExplained(now: int, stored: Option<int>, steps: seq<Step>, step: Step)
    ensures var s := Run(Init(now, stored), steps);
      var answer := Answer(s, step);
      answer.Some? && answer.value != s.stored && s.saving == {} ==>
        (FromFailure(s, step) && answer.value == None) || FromOvertaken(s, step)
  {
    hide Run;
    RunIsHonest(now, stored, steps);
  }

  // ─── When every answer is right ──────────────────────────────────────────

  /** Neither a schedule written nor a read that fails. */
  predicate Calm(step: Step) {
    !step.Save? && (step.Fetch? ==> step.readable)
  }

  /** Neither the fresh cache nor a read under way holds anything but what is stored. */
  ghost predicate Settled(s: State) {
    && (Fresh(s) ==> s.cache.value.at == s.stored)
    && (forall r :: r in s.inFlight && s.inFlight[r].Fetched? ==> s.inFlight[r].at == s.stored)
  }

  ghost predicate AlwaysRight(s: State) {
    forall steps, step :: (forall other :: other in steps ==> Calm(other)) ==> RightAfter(s, steps, step)
  }

  predicate RightAfter(s: State, steps: seq<Step>, step: Step) {
    Answer(Run(s, steps), step).Some? ==> Answer(Run(s, steps), step).value == s.stored
  }

  lemma {:induction false} StaysSettled(s: State, steps: seq<Step>)
    requires Settled(s) && forall step :: step in steps ==> Calm(step)
    ensures Settled(Run(s, steps)) && Run(s, steps).stored == s.stored
  {
    if steps != [] {
      StaysSettled(s, steps[..|steps| - 1]);
      hide Run;
      assert Calm(steps[|steps| - 1]);
    }
  }

  /** Exactly from such a state every later answer is right, until a schedule is written or a read fails. */
  lemma SettledExactly(s: State)
    ensures Settled(s) <==> AlwaysRight(s)
  {
    if Settled(s) {
      forall steps, step | forall other :: other in steps ==> Calm(other) ensures RightAfter(s, steps, step) {
        StaysSettled(s, steps);
      }
    } else {
      assert Run(s, []) == s;
      if Fresh(s) && s.cache.value.at != s.stored {
        assert !RightAfter(s, [], Ask(0));
      } else {
        var r :| r in s.inFlight && s.inFlight[r].Fetched? && s.inFlight[r].at != s.stored;
        assert !RightAfter(s, [], Store(r));
      }
    }
  }

  /** So a schedule that returns is what every later read answers exactly when no read under way got an older one. */
  lemma AcceptedIsSeenExactly(s: State, w: nat)
    requires w in s.saving
    ensures AlwaysRight(Apply(s, Empty(w))) <==>
      forall r :: r in s.inFlight && s.inFlight[r].Fetched? ==> s.inFlight[r].at == s.stored
  {
    var next := Apply(s, Empty(w));
    SettledExactly(next);
    hide AlwaysRight;
    assert forall r :: r in s.inFlight ==> r in next.inFlight && next.inFlight[r] == Overtaken(s.inFlight[r]);
  }

  /** Whatever the cache was left with, ten seconds in which no schedule is written and no read fails undo it. */
  lemma CacheSettles(now: int, stored: Option<int>, before: seq<Step>, steps: seq<Step>)
    requires var s := Run(Init(now, stored), before);
      forall r :: r in s.inFlight && s.inFlight[r].Fetched? ==> s.inFlight[r].at == s.stored
    requires forall step :: step in steps ==> Calm(step)
    requires Run(Run(Init(now, stored), before), steps).now >= Run(Init(now, stored), before).now + CACHE_MS
    ensures AlwaysRight(Run(Run(Init(now, stored), before), steps))
  {
    RunIsHonest(now, stored, before);
    var s := Run(Init(now, stored), before);
    Settling(s, steps, s.now + CACHE_MS);
    SettledExactly(Run(s, steps));
  }

  lemma {:induction false} Settling(s: State, steps: seq<Step>, deadline: int)
    requires s.cache.Some? ==> s.cache.value.until <= deadline
    requires forall r :: r in s.inFlight && s.inFlight[r].Fetched? ==> s.inFlight[r].at == s.stored
    requires forall step :: step in steps ==> Calm(step)
    ensures var t := Run(s, steps);
      && t.stored == s.stored
      && (t.cache.Some? && t.cache.value.at != t.stored ==> t.cache.value.until <= deadline)
      && (forall r :: r in t.inFlight && t.inFlight[r].Fetched? ==> t.inFlight[r].at == t.stored)
  {
    if steps != [] {
      Settling(s, steps[..|steps| - 1], deadline);
      hide Run;
      assert Calm(steps[|steps| - 1]);
    }
  }

  const OVERTAKEN := [Ask(0), Fetch(0, true), Save(1, Some(5)), Empty(1), Store(0), Tick(CACHE_MS - 1)]

  /** It happens: a read fetches, a schedule is written and returns, the read writes the cache with the old instant. */
  lemma OvertakenReadHappens()
    ensures var s := Run(Init(0, Some(1)), OVERTAKEN);
      s.stored == Some(5) && s.saving == {} && s.inFlight == map[] && Answer(s, Ask(2)) == Some(Some(1))
  {
    var s0 := Init(0, Some(1));
    var s2 := Apply(Apply(s0, Ask(0)), Fetch(0, true));
    var s4 := Apply(Apply(s2, Save(1, Some(5))), Empty(1));
    assert s2.inFlight == map[0 := Fetched(Some(1), false, false)];
    assert s4.inFlight == map[0 := Fetched(Some(1), false, true)] && s4.saving == {};
    var s6 := Apply(Apply(s4, Store(0)), Tick(CACHE_MS - 1));
    assert s6 == State(CACHE_MS - 1, Some(5), Some(Cached(Some(1), CACHE_MS, false, true)), map[], {});
    hide Apply;
    RunOf(s0, OVERTAKEN);
  }

  lemma RunOf(s: State, steps: seq<Step>)
    requires |steps| == 6
    ensures Run(s, steps) ==
      Apply(Apply(Apply(Apply(Apply(Apply(s, steps[0]), steps[1]), steps[2]), steps[3]), steps[4]), steps[5])
  {
    hide Apply, Run;
    assert Run(s, steps[..0]) == s by { RunNone(s); }
    OneMore(s, steps, 0);
    OneMore(s, steps, 1);
    OneMore(s, steps, 2);
    OneMore(s, steps, 3);
    OneMore(s, steps, 4);
    OneMore(s, steps, 5);
    assert steps[..6] == steps;
  }

  lemma RunNone(s: State)
    ensures Run(s, []) == s
  {
  }

  lemma OneMore(s: State, steps: seq<Step>, n: nat)
    requires n < |steps|
    ensures Run(s, steps[..n + 1]) == Apply(Run(s, steps[..n]), steps[n])
  {
    hide Apply;
    assert steps[..n + 1][..n] == steps[..n];
  }

  // ─── Whole calls ─────────────────────────────────────────────────────────

  /** What an admin sends: nothing, something that is no date, or an instant. */
  datatype Input = Clear | NotADate | Instant(at: int)

  datatype Call = Wait(ms: nat) | RolloverAt(readable: bool) | Schedule(input: Input)

  /** A read: the cached instant while it is fresh, else the stored one, else nothing when the database fails. */
  function Read(s: State, readable: bool): (State, Option<int>) {
    if Fresh(s) then (s, s.cache.value.at)
    else
      var at := if readable then s.stored else None;
      (s.(cache := Some(Cached(at, s.now + CACHE_MS, !readable, false))), at)
  }

  function Instance(input: Input): Option<int> {
    if input.Instant? then Some(input.at) else None
  }

  /** The new schedule, and whether it was accepted; what is no date changes nothing. */
  function Scheduled(s: State, input: Input): (State, bool) {
    if input.NotADate? then (s, false) else (s.(stored := Instance(input), cache := None), true)
  }

  function ApplyCall(s: State, call: Call): State {
    match call
    case Wait(ms) => s.(now := s.now + ms)
    case RolloverAt(readable) => Read(s, readable).0
    case Schedule(input) => Scheduled(s, input).0
  }

  function RunCalls(s: State, calls: seq<Call>): State {
    if calls == [] then s else ApplyCall(RunCalls(s, calls[..|calls| - 1]), calls[|calls| - 1])
  }

  /** A read and a schedule with nothing between their statements are the whole calls. */
  lemma CallsAreTheirSteps(s: State, r: nat, readable: bool, input: Input)
    requires s.inFlight == map[] && s.saving == {}
    ensures var asked := Apply(s, Ask(r));
      var fetched := Apply(asked, Fetch(r, readable));
      && Apply(fetched, Store(r)) == Read(s, readable).0
      && (if Fresh(s) then Answer(s, Ask(r)) else Answer(fetched, Store(r))) == Some(Read(s, readable).1)
    ensures !input.NotADate? ==> Apply(Apply(s, Save(r, Instance(input))), Empty(r)) == Scheduled(s, input).0
  {
    assert {r} - {r} == {};
    assert Apply(Apply(s, Save(r, Instance(input))), Empty(r)).inFlight == map[];
    assert map[r := Fetched(if readable then s.stored else None, !readable, false)] - {r} == map[];
  }

  class PromotionSettingsService {
    var now: int
    var stored: Option<int>
    var cache: Option<Cached>

    ghost function Value(): State
      reads this
    {
      State(now, stored, cache, map[], {})
    }

    constructor (now: int, stored: Option<int>)
      ensures Value() == Init(now, stored)
    {
      this.now, this.stored, cache := now, stored, None;
    }

    method ReadRolloverAt(readable: bool) returns (at: Option<int>)
      modifies this`cache
      ensures (Value(), at) == Read(old(Value()), readable)
    {
      if cache.Some? && now < cache.value.until {
        return cache.value.at;
      }
      at := None;
      if readable {
        at := stored;
      }
      cache := Some(Cached(at, now + CACHE_MS, !readable, false));
    }

    method Set(input: Input) returns (accepted: bool)
      modifies this`stored, this`cache
      ensures (Value(), accepted) == Scheduled(old(Value()), input)
    {
      var value: Option<int> := None;
      if !input.Clear? {
        if input.NotADate? {
          return false;
        }
        value := Some(input.at);
      }
      stored := value;
      cache := None;
      return true;
    }
  }

  ghost predicate HonestAlone(s: State) {
    && s.inFlight == map[] && s.saving == {}
    && (s.cache.Some? ==>
          && s.cache.value.until <= s.now + CACHE_MS
          && (s.cache.value.at == s.stored || (s.cache.value.failed && s.cache.value.at == None)))
  }

  lemma {:induction false} CallsAreHonest(now: int, stored: Option<int>, calls: seq<Call>)
    ensures HonestAlone(RunCalls(Init(now, stored), calls))
  {
    if calls != [] {
      CallsAreHonest(now, stored, calls[..|calls| - 1]);
    }
  }

  /** When calls do not overlap, a read answers with what is stored, unless it failed or a fresh cache holds the
      nothing left by one that did; an accepted schedule is what the very next read answers. */
  lemma CacheIsTransparent(now: int, stored: Option<int>, calls: seq<Call>, readable: bool, input: Input)
    ensures var s := RunCalls(Init(now, stored), calls);
      && (Read(s, readable).1 != s.stored ==>
            && Read(s, readable).1 == None
            && (!readable || (Fresh(s) && s.cache.value.failed && s.cache.value.until <= s.now + CACHE_MS)))
      && (Scheduled(s, input).1 ==> Read(Scheduled(s, input).0, true).1 == Instance(input))
  {
    hide RunCalls;
    CallsAreHonest(now, stored, calls);
  }

  /** For ten seconds after a read that went to the database, and not longer, the answer stays as it is. */
  lemma AnsweredForTenSeconds(s: State, readable: bool, ms: nat, again: bool)
    requires !(s.cache.Some? && s.now < s.cache.value.until)
    ensures var (read, at) := Read(s, readable);
      var later := ApplyCall(read, Wait(ms));
      && at == (if readable then s.stored else None)
      && Read(later, again).1 == (if ms < 10_000 then at else if again then s.stored else None)
  {
  }

  /** What an admin sends is refused exactly when it is no date; otherwise it is stored and the cache emptied. */
  lemma SetIsAnswered(s: State, input: Input)
    ensures var (t, accepted) := Scheduled(s, input);
      && (accepted <==> !input.NotADate?) && (!accepted ==> t == s)
      && (input.Clear? ==> t == s.(stored := None, cache := None))
      && (input.Instant? ==> t == s.(stored := Some(input.at), cache := None))
  {
  }
}
