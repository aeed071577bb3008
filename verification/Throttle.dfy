/** The request limiter: redis-throttler.storage.ts and the rule loop of rate-limit.guard.ts. */
module Throttle {
  import opened Prelude
  import opened RedisKeys

  /** The two keys behind one throttle key: the hit counter and the block marker. */
  datatype Counter = Counter(hits: Key, block: Key)

  const IDLE := Counter(Absent, Absent)

  datatype Reply = Reply(hits: int, ttlMs: int, blocked: bool, blockTtlMs: int)

  /** What the throttler hands to the guard, times in seconds. */
  datatype StorageRecord = StorageRecord(totalHits: int, timeToExpire: int, isBlocked: bool, timeToBlockExpire: int)

  datatype Rule = Rule(name: string, limit: int, ttlMs: int)

  /** One rule of a tier, and who this request is as far as that rule counts. */
  datatype Charge = Charge(rule: Rule, tracker: string)

  // ─── The script as a function ────────────────────────────────────────────

  function Script(c: Counter, now: int, ttlMs: int, limit: int, blockMs: int): (Counter, Reply) {
    if Pttl(c.block, now) > 0 then
      var held := Get(c.hits, now);
      var ttl := Pttl(c.hits, now);
      (c, Reply(if held < limit then limit else held, if ttl < 0 then 0 else ttl, true, Pttl(c.block, now)))
    else
      var bumped := IncrBy(c.hits, 1, now);
      var bounded := if bumped.value == 1 || Pttl(bumped, now) < 0 then Pexpire(bumped, ttlMs, now) else bumped;
      var ttl := if bumped.value == 1 || Pttl(bumped, now) < 0 then ttlMs else Pttl(bumped, now);
      if bumped.value > limit then
        (Counter(bounded, SetPx(1, blockMs, now)), Reply(bumped.value, ttl, true, blockMs))
      else
        (Counter(bounded, c.block), Reply(bumped.value, ttl, false, 0))
  }

  function ToRecord(r: Reply): StorageRecord {
    StorageRecord(r.hits, CeilSeconds(r.ttlMs), r.blocked, CeilSeconds(r.blockTtlMs))
  }

  /** The guard's own test on the record. */
  predicate Refuses(r: StorageRecord, limit: int) {
    r.isBlocked || r.totalHits > limit
  }

  function At(counters: map<string, Counter>, key: string): Counter {
    if key in counters then counters[key] else IDLE
  }

  function KeyOf(charge: Charge): string {
    charge.rule.name + ":" + charge.tracker
  }

  /** Called as the guard calls it: the block lasts as long as the window. */
  function GuardScript(c: Counter, rule: Rule, now: int): (Counter, Reply) {
    Script(c, now, rule.ttlMs, rule.limit, rule.ttlMs)
  }

  predicate RuleRefuses(counters: map<string, Counter>, charge: Charge, now: int) {
    Refuses(ToRecord(GuardScript(At(counters, KeyOf(charge)), charge.rule, now).1), charge.rule.limit)
  }

  // ─── The store and the guard ─────────────────────────────────────────────

  class RedisThrottlerStorage {
    var counters: map<string, Counter>

    constructor ()
      ensures counters == map[]
    {
      counters := map[];
    }

    /** The Lua script, statement by statement; Redis runs it to completion before anything else. */
    method Increment(key: string, now: int, ttlMs: int, limit: int, blockMs: int) returns (record: StorageRecord)
      modifies this
      ensures counters == old(counters)[key := Script(At(old(counters), key), now, ttlMs, limit, blockMs).0]
      ensures record == ToRecord(Script(At(old(counters), key), now, ttlMs, limit, blockMs).1)
    {
      var hits, block := At(counters, key).hits, At(counters, key).block;
      var blockTtl := Pttl(block, now);
      if blockTtl > 0 {
        var held := Get(hits, now);
        if held < limit {
          held := limit;
        }
        var ttl := Pttl(hits, now);
        if ttl < 0 {
          ttl := 0;
        }
        counters := counters[key := Counter(hits, block)];
        return StorageRecord(held, CeilSeconds(ttl), true, CeilSeconds(blockTtl));
      }
      hits := IncrBy(hits, 1, now);
      var count := hits.value;
      var ttl := Pttl(hits, now);
      if count == 1 || ttl < 0 {
        hits := Pexpire(hits, ttlMs, now);
        ttl := ttlMs;
      }
      if count > limit {
        block := SetPx(1, blockMs, now);
        counters := counters[key := Counter(hits, block)];
        return StorageRecord(count, CeilSeconds(ttl), true, CeilSeconds(blockMs));
      }
      counters := counters[key := Counter(hits, block)];
      return StorageRecord(count, CeilSeconds(ttl), false, 0);
    }
  }

  /** Rule names hold no colon, so the name can be read back from the key and no two rules share one. */
  lemma KeyNamesItsRule(a: Charge, b: Charge)
    requires ':' !in a.rule.name && ':' !in b.rule.name
    ensures KeyOf(a) == KeyOf(b) <==> a.rule.name == b.rule.name && a.tracker == b.tracker
  {
    var x, y := a.rule.name, b.rule.name;
    if KeyOf(a) == KeyOf(b) {
      var key := KeyOf(a);
      assert key[..|x|] == x && key[|x|] == ':';
      assert key[..|y|] == y && key[|y|] == ':';
      assert forall i :: 0 <= i < |x| ==> key[i] == x[i] && x[i] in x;
      assert forall i :: 0 <= i < |y| ==> key[i] == y[i] && y[i] in y;
      assert |x| == |y| && key[|x| + 1..] == a.tracker && key[|y| + 1..] == b.tracker;
    }
  }

  /** Where the rule loop of `canActivate` stands: it stops counting at the first refusal. */
  datatype GuardState = GuardState(counters: map<string, Counter>, rejected: bool, counted: nat)

  function OneRule(g: GuardState, charge: Charge, now: int): GuardState {
    if g.rejected then g
    else
      var (c, r) := GuardScript(At(g.counters, KeyOf(charge)), charge.rule, now);
      GuardState(g.counters[KeyOf(charge) := c], Refuses(ToRecord(r), charge.rule.limit), g.counted + 1)
  }

  function RuleLoop(counters: map<string, Counter>, tier: seq<Charge>, now: int): GuardState {
    if tier == [] then GuardState(counters, false, 0)
    else OneRule(RuleLoop(counters, tier[..|tier| - 1], now), tier[|tier| - 1], now)
  }

  lemma {:induction false} RejectionEndsTheLoop(counters: map<string, Counter>, tier: seq<Charge>, now: int, n: nat)
    requires n <= |tier| && RuleLoop(counters, tier[..n], now).rejected
    ensures RuleLoop(counters, tier, now) == RuleLoop(counters, tier[..n], now)
  {
    if n == |tier| {
      assert tier[..n] == tier;
    } else {
      assert tier[..|tier| - 1][..n] == tier[..n];
      RejectionEndsTheLoop(counters, tier[..|tier| - 1], now, n);
    }
  }

  /** What the RateLimit headers say of one rule. */
  datatype Report = Report(rule: Rule, remaining: int, resetSeconds: int)

  function ReportOf(rule: Rule, record: StorageRecord): Report {
    Report(rule, if rule.limit - record.totalHits > 0 then rule.limit - record.totalHits else 0,
           if record.isBlocked then record.timeToBlockExpire else record.timeToExpire)
  }

  /** What the store answers for the i-th rule of the tier, when the loop gets that far. */
  function RecordOf(counters: map<string, Counter>, tier: seq<Charge>, i: nat, now: int): StorageRecord
    requires i < |tier|
  {
    ToRecord(GuardScript(At(RuleLoop(counters, tier[..i], now).counters, KeyOf(tier[i])), tier[i].rule, now).1)
  }

  function ReportAt(counters: map<string, Counter>, tier: seq<Charge>, i: nat, now: int): Report
    requires i < |tier|
  {
    ReportOf(tier[i].rule, RecordOf(counters, tier, i, now))
  }

  /**
   * The report of the i-th rule is the one chosen among the first `n`: the least remaining, and of equals the
   * first.
   */
  ghost predicate Tightest(counters: map<string, Counter>, tier: seq<Charge>, n: nat, now: int, i: nat, report: Report)
    requires n <= |tier|
  {
    && i < n && report == ReportAt(counters, tier, i, now)
    && (forall j :: 0 <= j < n ==> report.remaining <= ReportAt(counters, tier, j, now).remaining)
    && (forall j :: 0 <= j < i ==> report.remaining < ReportAt(counters, tier, j, now).remaining)
  }

  lemma TightestFirst(counters: map<string, Counter>, tier: seq<Charge>, now: int)
    requires tier != []
    ensures Tightest(counters, tier, 1, now, 0, ReportAt(counters, tier, 0, now))
  {
  }

  lemma TightestNext(counters: map<string, Counter>, tier: seq<Charge>, n: nat, now: int, i: nat, report: Report)
    requires n < |tier| && Tightest(counters, tier, n, now, i, report)
    ensures var next := ReportAt(counters, tier, n, now);
      if next.remaining < report.remaining then Tightest(counters, tier, n + 1, now, n, next)
      else Tightest(counters, tier, n + 1, now, i, report)
  {
    hide ReportAt;
  }

  /** Where the loop stands after `n` rules, none of which refused. */
  ghost predicate LoopAt(before: map<string, Counter>, tier: seq<Charge>, n: nat, now: int,
                           counters: map<string, Counter>, tightest: Option<Report>) {
    && n <= |tier|
    && RuleLoop(before, tier[..n], now) == GuardState(counters, false, n)
    && (n == 0 ==> tightest == None)
    && (n > 0 ==> tightest.Some? && exists i :: Tightest(before, tier, n, now, i, tightest.value))
  }

  /** One turn of the loop: what the store answers, and where the loop then stands. */
  lemma OneTurn(before: map<string, Counter>, tier: seq<Charge>, n: nat, now: int, counters: map<string, Counter>,
                tightest: Option<Report>)
    requires n < |tier| && LoopAt(before, tier, n, now, counters, tightest)
    ensures var charge := tier[n];
      var (c, r) := GuardScript(At(counters, KeyOf(charge)), charge.rule, now);
      var record, report := ToRecord(r), ReportOf(charge.rule, ToRecord(r));
      var next := counters[KeyOf(charge) := c];
      && RuleLoop(before, tier[..n + 1], now) == GuardState(next, Refuses(record, charge.rule.limit), n + 1)
      && (!Refuses(record, charge.rule.limit) ==> LoopAt(before, tier, n + 1, now, next,
            if tightest.None? || report.remaining < tightest.value.remaining then Some(report) else tightest))
  {
    hide GuardScript, Refuses, ToRecord, KeyOf, At, Tightest, ReportOf;
    assert tier[..n + 1][..n] == tier[..n];
    if n == 0 {
      TightestFirst(before, tier, now);
    } else {
      var i :| Tightest(before, tier, n, now, i, tightest.value);
      TightestNext(before, tier, n, now, i, tightest.value);
    }
  }

  lemma LoopStarts(before: map<string, Counter>, tier: seq<Charge>, now: int)
    ensures LoopAt(before, tier, 0, now, before, None)
  {
  }

  lemma LoopEnds(before: map<string, Counter>, tier: seq<Charge>, now: int, counters: map<string, Counter>,
                 tightest: Option<Report>)
    requires LoopAt(before, tier, |tier|, now, counters, tightest)
    ensures RuleLoop(before, tier, now) == GuardState(counters, false, |tier|)
    ensures tier != [] ==> tightest.Some? && exists i :: Tightest(before, tier, |tier|, now, i, tightest.value)
  {
    assert tier[..|tier|] == tier;
  }

  /** Counts the request against every rule until one refuses; a request that passes is told of its tightest rule. */
  method CanActivate(storage: RedisThrottlerStorage, tier: seq<Charge>, now: int)
      returns (passed: bool, tightest: Option<Report>)
    modifies storage
    ensures var g := RuleLoop(old(storage.counters), tier, now);
      storage.counters == g.counters && passed == !g.rejected
    ensures passed && tier != [] ==>
      tightest.Some? && exists i :: Tightest(old(storage.counters), tier, |tier|, now, i, tightest.value)
  {
    hide Script, RuleLoop, Tightest, ReportAt, KeyOf, At, ToRecord, LoopAt;
    ghost var before := storage.counters;
    tightest := None;
    LoopStarts(before, tier, now);
    for i := 0 to |tier|
      invariant LoopAt(before, tier, i, now, storage.counters, tightest)
    {
      hide Script, RuleLoop, Tightest, ReportAt, KeyOf, At, ToRecord, LoopAt;
      OneTurn(before, tier, i, now, storage.counters, tightest);
      var rule := tier[i].rule;
      var record := storage.Increment(KeyOf(tier[i]), now, rule.ttlMs, rule.limit, rule.ttlMs);
      var report := ReportOf(rule, record);
      if tightest.None? || report.remaining < tightest.value.remaining {
        tightest := Some(report);
      }
      if record.isBlocked || record.totalHits > rule.limit {
        RejectionEndsTheLoop(before, tier, now, i + 1);
        return false, tightest;
      }
    }
    LoopEnds(before, tier, now, storage.counters, tightest);
    return true, tightest;
  }

  ghost predicate DistinctNames(tier: seq<Charge>) {
    && (forall i :: 0 <= i < |tier| ==> ':' !in tier[i].rule.name)
    && (forall i, j :: 0 <= i < j < |tier| ==> tier[i].rule.name != tier[j].rule.name)
  }

  /** A key that belongs to no rule of the tier keeps its counter. */
  lemma {:induction false} OtherKeysUntouched(counters: map<string, Counter>, tier: seq<Charge>, now: int, key: string)
    requires forall i :: 0 <= i < |tier| ==> key != KeyOf(tier[i])
    ensures At(RuleLoop(counters, tier, now).counters, key) == At(counters, key)
  {
    if tier != [] {
      var n := |tier| - 1;
      OtherKeysUntouched(counters, tier[..n], now, key);
      assert key != KeyOf(tier[n]);
    }
  }

  lemma RuleFindsItsCounter(counters: map<string, Counter>, tier: seq<Charge>, now: int, n: nat)
    requires n < |tier| && DistinctNames(tier)
    ensures At(RuleLoop(counters, tier[..n], now).counters, KeyOf(tier[n])) == At(counters, KeyOf(tier[n]))
  {
    forall i | 0 <= i < n
      ensures KeyOf(tier[n]) != KeyOf(tier[i])
    {
      KeyNamesItsRule(tier[i], tier[n]);
    }
    OtherKeysUntouched(counters, tier[..n], now, KeyOf(tier[n]));
  }

  /**
   * A request passes exactly when every rule of its tier, judged on the counters it found, lets it
   * through; the loop stops at the first that does not. Stated for the rule at any place `i`.
   */
  lemma {:induction false} EveryRuleMustPass(counters: map<string, Counter>, tier: seq<Charge>, now: int, i: nat)
    requires DistinctNames(tier) && i < |tier|
    ensures var g := RuleLoop(counters, tier, now);
      && 0 < g.counted <= |tier|
      && (!g.rejected ==> g.counted == |tier|)
      && (i < g.counted ==> (RuleRefuses(counters, tier[i], now) <==> g.rejected && i == g.counted - 1))
  {
    var n := |tier| - 1;
    if n > 0 {
      EveryRuleMustPass(counters, tier[..n], now, if i < n then i else 0);
    }
    RuleFindsItsCounter(counters, tier, now, n);
  }

  /** Each rule up to the first refusal is charged exactly one call; the rules after it are charged nothing. */
  lemma {:induction false} ChargedUpToTheRefusal(counters: map<string, Counter>, tier: seq<Charge>, now: int, i: nat)
    requires DistinctNames(tier) && i < |tier|
    ensures At(RuleLoop(counters, tier, now).counters, KeyOf(tier[i]))
         == var found := At(counters, KeyOf(tier[i]));
            if i < RuleLoop(counters, tier, now).counted then GuardScript(found, tier[i].rule, now).0 else found
  {
    var n := |tier| - 1;
    var g := RuleLoop(counters, tier[..n], now);
    if n > 0 {
      EveryRuleMustPass(counters, tier[..n], now, 0);
    }
    if i == n {
      RuleFindsItsCounter(counters, tier, now, n);
    } else {
      ChargedUpToTheRefusal(counters, tier[..n], now, i);
      KeyNamesItsRule(tier[i], tier[n]);
      OtherKeyKept(g, tier[n], now, KeyOf(tier[i]));
    }
  }

  lemma OtherKeyKept(g: GuardState, charge: Charge, now: int, key: string)
    requires key != KeyOf(charge)
    ensures At(OneRule(g, charge, now).counters, key) == At(g.counters, key)
    ensures OneRule(g, charge, now).counted == g.counted + if g.rejected then 0 else 1
  {
  }

  // ─── Runs of one key ─────────────────────────────────────────────────────

  /** The counter after a run of calls, and the instants of the calls that were let through. */
  datatype Trace = Trace(counter: Counter, admitted: seq<int>)

  function Call(tr: Trace, now: int, rule: Rule): Trace {
    var (c, r) := GuardScript(tr.counter, rule, now);
    Trace(c, if Refuses(ToRecord(r), rule.limit) then tr.admitted else tr.admitted + [now])
  }

  function Calls(times: seq<int>, rule: Rule): Trace {
    if times == [] then Trace(IDLE, [])
    else Call(Calls(times[..|times| - 1], rule), times[|times| - 1], rule)
  }

  predicate Sensible(rule: Rule) {
    rule.limit >= 1 && rule.ttlMs >= 1
  }

  /** The instant the current counting window start. */
  function Opened(c: Counter, rule: Rule): int
    requires c.hits.Key? && c.hits.expires.Some?
  {
    c.hits.expires.value - rule.ttlMs
  }

  /** How many of the admitted calls fall in the current counting window. */
  function Used(c: Counter, rule: Rule): int
    requires c.hits.Key?
  {
    if c.hits.value > rule.limit then rule.limit else c.hits.value
  }

  /** The counter alone: bounded, and blocked past the end of its window exactly when it overflowed. */
  ghost predicate CounterInv(c: Counter, rule: Rule, now: int) {
    match c.hits
    case Absent => c.block.Absent?
    case Key(value, expires) =>
      && expires.Some?
      && 1 <= value <= rule.limit + 1
      && Opened(c, rule) <= now
      && (c.block.Key? ==> c.block.expires.Some?)
      && (value > rule.limit ==> c.block.Key? && expires.value <= c.block.expires.value <= now + rule.ttlMs)
      && (value <= rule.limit && c.block.Key? ==> c.block.expires.value <= Opened(c, rule))
  }

  /** The four things one call can do to a counter that the guard alone has driven. */
  lemma CallCases(c: Counter, rule: Rule, before: int, now: int)
    requires Sensible(rule) && CounterInv(c, rule, before) && before <= now
    ensures var (next, r) := GuardScript(c, rule, now);
      var refused := Refuses(ToRecord(r), rule.limit);
      && CounterInv(next, rule, now)
      && (refused <==> r.blocked)
      && if Live(c.block, now) then refused && next == c && r.blockTtlMs == c.block.expires.value - now
         else if !Live(c.hits, now) then !refused && next.hits == Key(1, Some(now + rule.ttlMs)) && r.hits == 1
         else if c.hits.value < rule.limit then !refused && next.hits == c.hits.(value := c.hits.value + 1)
         else (&& refused && c.hits.value == rule.limit && next.hits == c.hits.(value := rule.limit + 1)
               && r.blockTtlMs == rule.ttlMs)
  {
  }

  /**
   * A history of admissions: the window opened with its first, `used` of them fall in it, the one
   * `limit` places earlier is at least a window older, and any 2*limit in a row span a window.
   */
  ghost predicate Spaced(a: seq<int>, start: int, used: int, rule: Rule) {
    var n := |a|;
    && Nondecreasing(a)
    && 1 <= used <= n && used <= rule.limit
    && a[n - used] == start
    && (n - used - rule.limit >= 0 ==> a[n - used - rule.limit] <= start - rule.ttlMs)
    && (forall i, j :: 0 <= i < j < n && j == i + (2 * rule.limit - 1) ==> a[j] - a[i] >= rule.ttlMs)
  }

  lemma Appended(a: seq<int>, now: int)
    requires Nondecreasing(a) && (a != [] ==> a[|a| - 1] <= now)
    ensures Nondecreasing(a + [now])
  {
  }

  /** With the new call, any 2*limit in a row still span a window if the last such stretch does. */
  lemma StretchesSpan(a: seq<int>, k: nat, span: int, now: int)
    requires k >= 1 && (forall i, j :: 0 <= i < j < |a| && j == i + k ==> a[j] - a[i] >= span)
    requires |a| >= k ==> now - a[|a| - k] >= span
    ensures forall i, j :: 0 <= i < j < |a + [now]| && j == i + k ==> (a + [now])[j] - (a + [now])[i] >= span
  {
  }

  lemma OpenWindow(a: seq<int>, start: int, used: int, rule: Rule, now: int)
    requires Sensible(rule) && Spaced(a, start, used, rule)
    requires a[|a| - 1] <= now && start + rule.ttlMs <= now
    ensures Spaced(a + [now], now, 1, rule)
  {
    var n, k := |a|, 2 * rule.limit - 1;
    Appended(a, now);
    if n >= rule.limit {
      assert a[n - rule.limit] <= a[n - used];
    }
    if n >= k {
      assert a[n - k] <= a[n - used];
    }
    StretchesSpan(a, k, rule.ttlMs, now);
  }

  lemma UseWindow(a: seq<int>, start: int, used: int, rule: Rule, now: int)
    requires Sensible(rule) && Spaced(a, start, used, rule)
    requires a[|a| - 1] <= now && used < rule.limit
    ensures Spaced(a + [now], start, used + 1, rule)
  {
    var n, k := |a|, 2 * rule.limit - 1;
    Appended(a, now);
    assert start <= now;
    if n >= k {
      assert a[n - k] <= a[n - used - rule.limit];
    }
    StretchesSpan(a, k, rule.ttlMs, now);
  }

  ghost predicate Inv(tr: Trace, rule: Rule, now: int) {
    && Sensible(rule)
    && CounterInv(tr.counter, rule, now)
    && (if tr.counter.hits.Absent? then tr.admitted == []
        else Spaced(tr.admitted, Opened(tr.counter, rule), Used(tr.counter, rule), rule))
    && (forall i :: 0 <= i < |tr.admitted| ==> tr.admitted[i] <= now)
  }

  /** A refused call leaves the admissions alone, and the window it was refused in. */
  lemma RefusedKeepsInv(tr: Trace, rule: Rule, before: int, now: int)
    requires Inv(tr, rule, before) && before <= now
    requires Refuses(ToRecord(GuardScript(tr.counter, rule, now).1), rule.limit)
    ensures Inv(Call(tr, now, rule), rule, now)
  {
    hide GuardScript, Spaced, Refuses, ToRecord;
    CallCases(tr.counter, rule, before, now);
  }

  /** An admitted call opens a window or uses up one more place of the open one. */
  lemma AdmittedIsSpaced(tr: Trace, rule: Rule, before: int, now: int)
    requires Inv(tr, rule, before) && before <= now
    requires !Refuses(ToRecord(GuardScript(tr.counter, rule, now).1), rule.limit)
    ensures var next := GuardScript(tr.counter, rule, now).0;
      && next.hits.Key? && next.hits.expires.Some?
      && Spaced(tr.admitted + [now], Opened(next, rule), Used(next, rule), rule)
  {
    hide GuardScript, Spaced, Refuses, ToRecord;
    var c, a := tr.counter, tr.admitted;
    CallCases(c, rule, before, now);
    if c.hits.Absent? {
      FirstWindow(rule, now);
      assert a + [now] == [now];
    } else {
      NotEmpty(a, Opened(c, rule), Used(c, rule), rule);
      if !Live(c.hits, now) {
        OpenWindow(a, Opened(c, rule), Used(c, rule), rule, now);
      } else {
        UseWindow(a, Opened(c, rule), Used(c, rule), rule, now);
      }
    }
  }

  lemma NotEmpty(a: seq<int>, start: int, used: int, rule: Rule)
    requires Spaced(a, start, used, rule)
    ensures a != []
  {
  }

  lemma AdmittedKeepsInv(tr: Trace, rule: Rule, before: int, now: int)
    requires Inv(tr, rule, before) && before <= now
    requires !Refuses(ToRecord(GuardScript(tr.counter, rule, now).1), rule.limit)
    ensures Inv(Call(tr, now, rule), rule, now)
  {
    hide GuardScript, Spaced, Refuses, ToRecord;
    CallCases(tr.counter, rule, before, now);
    AdmittedIsSpaced(tr, rule, before, now);
    hide CounterInv;
  }

  lemma FirstWindow(rule: Rule, now: int)
    requires Sensible(rule)
    ensures Spaced([now], now, 1, rule)
  {
  }

  lemma CallKeepsInv(tr: Trace, rule: Rule, before: int, now: int)
    requires Inv(tr, rule, before) && before <= now
    ensures Inv(Call(tr, now, rule), rule, now)
  {
    hide *;
    if Refuses(ToRecord(GuardScript(tr.counter, rule, now).1), rule.limit) {
      RefusedKeepsInv(tr, rule, before, now);
    } else {
      AdmittedKeepsInv(tr, rule, before, now);
    }
  }

  ghost function LastCall(times: seq<int>, otherwise: int): int {
    if times == [] then otherwise else times[|times| - 1]
  }

  lemma {:induction false} CallsKeepInv(times: seq<int>, rule: Rule, otherwise: int)
    requires Sensible(rule) && Nondecreasing(times)
    ensures Inv(Calls(times, rule), rule, LastCall(times, otherwise))
  {
    if times != [] {
      var n := |times| - 1;
      CallsKeepInv(times[..n], rule, times[n]);
      CallKeepsInv(Calls(times[..n], rule), rule, LastCall(times[..n], times[n]), times[n]);
    }
  }

  /** The counter never runs further than one past the limit. */
  lemma CountStaysBounded(times: seq<int>, rule: Rule)
    requires Sensible(rule) && Nondecreasing(times)
    ensures var hits := Calls(times, rule).counter.hits; hits.Key? ==> hits.value <= rule.limit + 1
  {
    CallsKeepInv(times, rule, 0);
  }

  /** Any half-open interval of one window length admits at most 2*limit - 1 calls. */
  lemma SlidingBound(times: seq<int>, rule: Rule, from: int)
    requires Sensible(rule) && Nondecreasing(times)
    ensures |Within(Calls(times, rule).admitted, from, from + rule.ttlMs)| <= 2 * rule.limit - 1
  {
    hide Calls;
    CallsKeepInv(times, rule, 0);
    SpacingBoundsWindow(Calls(times, rule).admitted, 2 * rule.limit - 1, rule.ttlMs, from);
  }

  function Repeat(t: int, k: nat): seq<int> {
    if k == 0 then [] else Repeat(t, k - 1) + [t]
  }

  lemma {:induction false} RepeatIs(t: int, k: nat)
    ensures |Repeat(t, k)| == k && forall i :: 0 <= i < k ==> Repeat(t, k)[i] == t
  {
    if k > 0 {
      RepeatIs(t, k - 1);
    }
  }

  /** An unblocked counter with room counts the call; one whose window is over opens a new window. */
  lemma UnblockedCall(tr: Trace, rule: Rule, t: int)
    requires Sensible(rule) && tr.counter.block == Absent
    requires Live(tr.counter.hits, t) ==> tr.counter.hits.expires.Some? && 1 <= tr.counter.hits.value < rule.limit
    ensures Call(tr, t, rule) == Trace(
      Counter(if Live(tr.counter.hits, t) then Key(tr.counter.hits.value + 1, tr.counter.hits.expires)
          else Key(1, Some(t + rule.ttlMs)), Absent),
      tr.admitted + [t])
  {
  }

  function CallAgain(tr: Trace, rule: Rule, t: int, k: nat): Trace {
    if k == 0 then tr else Call(CallAgain(tr, rule, t, k - 1), t, rule)
  }

  lemma {:induction false} CallsRepeat(times: seq<int>, rule: Rule, t: int, k: nat)
    ensures Calls(times + Repeat(t, k), rule) == CallAgain(Calls(times, rule), rule, t, k)
  {
    hide Call;
    if k == 0 {
      assert times + Repeat(t, 0) == times;
    } else {
      assert times + Repeat(t, k) == times + Repeat(t, k - 1) + [t];
      assert CallAgain(Calls(times, rule), rule, t, k) == Call(CallAgain(Calls(times, rule), rule, t, k - 1), t, rule);
      hide *;
      CallsRepeat(times, rule, t, k - 1);
      CallsAppend(times + Repeat(t, k - 1), t, rule);
    }
  }

  /** Calls that still fit the open window are all admitted, and only move the count. */
  lemma {:induction false} BurstInWindow(admitted: seq<int>, v: int, end: int, rule: Rule, t: int, k: nat)
    requires Sensible(rule) && t < end && 1 <= v && v + k <= rule.limit
    ensures CallAgain(Trace(Counter(Key(v, Some(end)), Absent), admitted), rule, t, k)
         == Trace(Counter(Key(v + k, Some(end)), Absent), admitted + Repeat(t, k))
  {
    if k == 0 {
      assert admitted + Repeat(t, 0) == admitted;
    } else {
      assert CallAgain(Trace(Counter(Key(v, Some(end)), Absent), admitted), rule, t, k)
          == Call(CallAgain(Trace(Counter(Key(v, Some(end)), Absent), admitted), rule, t, k - 1), t, rule);
      hide CallAgain, Call;
      BurstInWindow(admitted, v, end, rule, t, k - 1);
      UnblockedCall(Trace(Counter(Key(v + k - 1, Some(end)), Absent), admitted + Repeat(t, k - 1)), rule, t);
      assert admitted + Repeat(t, k) == admitted + Repeat(t, k - 1) + [t];
    }
  }

  lemma CallsAppend(times: seq<int>, t: int, rule: Rule)
    ensures Calls(times + [t], rule) == Call(Calls(times, rule), t, rule)
  {
    assert (times + [t])[..|times|] == times;
  }

  /** One call at 0, then the rest of that window's budget at its last instant ... */
  function Half(rule: Rule): seq<int>
    requires Sensible(rule)
  {
    [0] + Repeat(rule.ttlMs - 1, rule.limit - 1)
  }

  /** ... and then a whole budget the instant the next window can open. */
  function Greedy(rule: Rule): seq<int>
    requires Sensible(rule)
  {
    Half(rule) + [rule.ttlMs] + Repeat(rule.ttlMs, rule.limit - 1)
  }

  lemma HalfIsAdmitted(rule: Rule)
    requires Sensible(rule)
    ensures Calls(Half(rule), rule) == Trace(Counter(Key(rule.limit, Some(rule.ttlMs)), Absent), Half(rule))
  {
    hide Call;
    assert [0][..0] == [];
    assert Calls([], rule) == Trace(IDLE, []);
    UnblockedCall(Trace(IDLE, []), rule, 0);
    assert [] + [0] == [0];
    CallsRepeat([0], rule, rule.ttlMs - 1, rule.limit - 1);
    BurstInWindow([0], 1, rule.ttlMs, rule, rule.ttlMs - 1, rule.limit - 1);
  }

  lemma ReopenedIsAdmitted(rule: Rule)
    requires Sensible(rule)
    ensures Calls(Half(rule) + [rule.ttlMs], rule) ==
      Trace(Counter(Key(1, Some(2 * rule.ttlMs)), Absent), Half(rule) + [rule.ttlMs])
  {
    hide Call;
    HalfIsAdmitted(rule);
    CallsAppend(Half(rule), rule.ttlMs, rule);
    UnblockedCall(Calls(Half(rule), rule), rule, rule.ttlMs);
  }

  lemma GreedyIsAdmitted(rule: Rule)
    requires Sensible(rule)
    ensures Calls(Greedy(rule), rule).admitted == Greedy(rule)
  {
    hide Call, Calls;
    ReopenedIsAdmitted(rule);
    var reopened := Half(rule) + [rule.ttlMs];
    CallsRepeat(reopened, rule, rule.ttlMs, rule.limit - 1);
    BurstInWindow(reopened, 1, 2 * rule.ttlMs, rule, rule.ttlMs, rule.limit - 1);
  }

  lemma GreedyShape(rule: Rule)
    requires Sensible(rule)
    ensures |Greedy(rule)| == 2 * rule.limit
    ensures forall i :: 0 <= i < 2 * rule.limit ==>
      Greedy(rule)[i] == if i == 0 then 0 else if i < rule.limit then rule.ttlMs - 1 else rule.ttlMs
  {
    RepeatIs(rule.ttlMs - 1, rule.limit - 1);
    RepeatIs(rule.ttlMs, rule.limit - 1);
  }

  /** The sliding bound cannot be improved: some caller gets exactly 2*limit - 1 calls into one window length. */
  lemma SlidingBoundIsReached(rule: Rule)
    requires Sensible(rule) && rule.ttlMs >= 2
    ensures Nondecreasing(Greedy(rule))
    ensures |Within(Calls(Greedy(rule), rule).admitted, 1, 1 + rule.ttlMs)| == 2 * rule.limit - 1
  {
    hide Calls;
    GreedyShape(rule);
    GreedyIsAdmitted(rule);
    SlidingBound(Greedy(rule), rule, 1);
    var times := Greedy(rule);
    IndexSetHolds(Within(times, 1, 1 + rule.ttlMs), 1, 2 * rule.limit);
  }

  predicate FitsLimit(times: seq<int>, rule: Rule, from: int) {
    |Within(times, from, from + rule.ttlMs)| <= rule.limit
  }

  /** A call refused while its window is still open makes more than `limit` calls in that window. */
  lemma FullWindowIsImpolite(a: seq<int>, start: int, rule: Rule, now: int)
    requires Sensible(rule) && Spaced(a, start, rule.limit, rule)
    requires a[|a| - 1] <= now < start + rule.ttlMs
    ensures !FitsLimit(a + [now], rule, start)
  {
    var times, n := a + [now], |a|;
    assert forall i :: n - rule.limit <= i <= n ==> start <= times[i] <= now;
    IndexSetHolds(Within(times, start, start + rule.ttlMs), n - rule.limit, n + 1);
  }

  lemma PoliteCall(tr: Trace, rule: Rule, before: int, now: int)
    requires Inv(tr, rule, before) && before <= now
    requires tr.counter.hits.Key? ==>
      tr.counter.hits.value <= rule.limit && FitsLimit(tr.admitted + [now], rule, Opened(tr.counter, rule))
    ensures Call(tr, now, rule).admitted == tr.admitted + [now]
    ensures Call(tr, now, rule).counter.hits.Key? && Call(tr, now, rule).counter.hits.value <= rule.limit
  {
    var c := tr.counter;
    CallCases(c, rule, before, now);
    if Live(c.hits, now) && c.hits.value == rule.limit {
      FullWindowIsImpolite(tr.admitted, Opened(c, rule), rule, now);
    }
  }

  /** A caller who never exceeds `limit` calls in any window length is never refused. */
  lemma {:induction false} PoliteCallerNeverRefused(times: seq<int>, rule: Rule)
    requires Sensible(rule) && Nondecreasing(times)
    requires forall start :: FitsLimit(times, rule, start)
    ensures Calls(times, rule).admitted == times
    ensures times != [] ==> Calls(times, rule).counter.hits.Key? && Calls(times, rule).counter.hits.value <= rule.limit
  {
    if times != [] {
      var n := |times| - 1;
      var before, now := times[..n], times[n];
      assert times == before + [now];
      forall start
        ensures FitsLimit(before, rule, start)
      {
        assert FitsLimit(times, rule, start);
        SubsetCardinality(Within(before, start, start + rule.ttlMs), Within(times, start, start + rule.ttlMs));
      }
      PoliteCallerNeverRefused(before, rule);
      CallsKeepInv(before, rule, now);
      PoliteCall(Calls(before, rule), rule, LastCall(before, now), now);
    }
  }

  /** What the guard tells a refused caller: the Retry-After header, in whole seconds and never zero. */
  function RetryAfter(record: StorageRecord): int {
    if record.timeToBlockExpire < 1 then 1 else record.timeToBlockExpire
  }

  /**
   * The wait a refused caller is told is enough, and less than a second too long: the call is refused, and
   * counts for nothing, exactly until the block ends, and the told wait is that time rounded up to seconds.
   */
  lemma RetryAfterIsEnough(times: seq<int>, rule: Rule, now: int, later: int)
    requires Sensible(rule) && Nondecreasing(times) && LastCall(times, now) <= now <= later
    requires Refuses(ToRecord(GuardScript(Calls(times, rule).counter, rule, now).1), rule.limit)
    ensures var (c, r) := GuardScript(Calls(times, rule).counter, rule, now);
      var (next, answer) := GuardScript(c, rule, later);
      var told := now + RetryAfter(ToRecord(r)) * 1000;
      && 0 < r.blockTtlMs <= rule.ttlMs
      && now + r.blockTtlMs <= told < now + r.blockTtlMs + 1000
      && (Refuses(ToRecord(answer), rule.limit) <==> later < now + r.blockTtlMs)
      && (later < now + r.blockTtlMs ==> next == c)
      && (later >= told ==> !Refuses(ToRecord(answer), rule.limit) && answer.hits == 1)
  {
    CallsKeepInv(times, rule, now);
    var c := GuardScript(Calls(times, rule).counter, rule, now).0;
    CallCases(Calls(times, rule).counter, rule, LastCall(times, now), now);
    CallCases(c, rule, now, later);
    hide Script, Calls, Spaced, Sensible;
  }

  // ─── What a call is answered ─────────────────────────────────────────────

  /** Milliseconds, rounded up to seconds. */
  predicate InSeconds(seconds: int, ms: int) {
    (seconds - 1) * 1000 < ms <= seconds * 1000
  }

  lemma CeilMeans(ms: int)
    ensures InSeconds(CeilSeconds(ms), ms)
  {
  }

  /**
   * The script on any two keys, one that would never expire included: blocked exactly while the block lasts or when
   * this call goes over the limit; a count without an expiry is given one; and a blocked call touches nothing.
   */
  lemma ScriptIsAnswered(c: Counter, now: int, ttlMs: int, limit: int, blockMs: int)
    ensures var (next, r) := Script(c, now, ttlMs, limit, blockMs);
      var blocked := c.block.Key? && c.block.expires.Some? && now < c.block.expires.value;
      var timed := c.hits.Key? && c.hits.expires.Some? && now < c.hits.expires.value;
      var count := if timed || (c.hits.Key? && c.hits.expires.None?) then c.hits.value else 0;
      var ends := if timed && count != 0 then c.hits.expires.value else now + ttlMs;
      if blocked then
        && next == c && r.blocked && r.blockTtlMs == c.block.expires.value - now
        && r.hits == (if count < limit then limit else count)
        && r.ttlMs == (if timed then c.hits.expires.value - now else 0)
      else
        && next.hits == Key(count + 1, Some(ends)) && r.hits == count + 1 && r.ttlMs == ends - now
        && (r.blocked <==> limit <= count)
        && next.block == (if r.blocked then Key(1, Some(now + blockMs)) else c.block)
        && r.blockTtlMs == (if r.blocked then blockMs else 0)
  {
  }

  /** By the two keys and the clock: whether a call is refused, and what it leaves. */
  lemma CounterIsAnswered(c: Counter, rule: Rule, before: int, now: int)
    requires Sensible(rule) && CounterInv(c, rule, before) && before <= now
    ensures var (next, reply) := GuardScript(c, rule, now);
      var blocked := c.block.Key? && c.block.expires.Some? && now < c.block.expires.value;
      var open := c.hits.Key? && c.hits.expires.Some? && now < c.hits.expires.value;
      var count, ends := if open then c.hits.value else 0, if open then c.hits.expires.value else now + rule.ttlMs;
      && (reply.blocked <==> blocked || count >= rule.limit)
      && (blocked ==> next == c && reply.blockTtlMs == c.block.expires.value - now && reply.hits >= rule.limit)
      && (!blocked ==>
            && next.hits == Key(count + 1, Some(ends)) && reply.hits == count + 1 && reply.ttlMs == ends - now
            && (reply.blocked ==> next.block == Key(1, Some(now + rule.ttlMs)) && reply.blockTtlMs == rule.ttlMs)
            && (!reply.blocked ==> next.block == c.block))
  {
  }

  lemma ReportIsAnswered(c: Counter, rule: Rule, before: int, now: int)
    requires Sensible(rule) && CounterInv(c, rule, before) && before <= now
    ensures
      var (next, reply) := GuardScript(c, rule, now);
      var report := ReportOf(rule, ToRecord(reply));
      var blocked := c.block.Key? && c.block.expires.Some? && now < c.block.expires.value;
      var open := c.hits.Key? && c.hits.expires.Some? && now < c.hits.expires.value;
      var count, ends := if open then c.hits.value else 0, if open then c.hits.expires.value else now + rule.ttlMs;
      var refused := Refuses(ToRecord(reply), rule.limit);
      && (refused <==> blocked || count >= rule.limit)
      && (blocked ==> next == c && InSeconds(report.resetSeconds, c.block.expires.value - now))
      && (!blocked ==> next.hits == Key(count + 1, Some(ends)))
      && (refused && !blocked ==>
            next.block == Key(1, Some(now + rule.ttlMs)) && InSeconds(report.resetSeconds, rule.ttlMs))
      && (!refused ==> next.block == c.block && InSeconds(report.resetSeconds, ends - now))
      && report.rule == rule && report.remaining == (if refused then 0 else rule.limit - count - 1)
  {
    CounterIsAnswered(c, rule, before, now);
    var reply := GuardScript(c, rule, now).1;
    CeilMeans(reply.ttlMs);
    CeilMeans(reply.blockTtlMs);
    hide GuardScript, CounterInv, CeilSeconds, InSeconds;
  }

  /**
   * In every reachable state, by the two keys and the clock: a call is refused exactly while the block lasts or when
   * the open window has had its limit; what it leaves; and what the headers say is left and for how long.
   */
  lemma CallIsAnswered(times: seq<int>, rule: Rule, now: int)
    requires Sensible(rule) && Nondecreasing(times) && LastCall(times, now) <= now
    ensures var c := Calls(times, rule).counter;
      var (next, reply) := GuardScript(c, rule, now);
      var report := ReportOf(rule, ToRecord(reply));
      var blocked := c.block.Key? && c.block.expires.Some? && now < c.block.expires.value;
      var open := c.hits.Key? && c.hits.expires.Some? && now < c.hits.expires.value;
      var count, ends := if open then c.hits.value else 0, if open then c.hits.expires.value else now + rule.ttlMs;
      var refused := Refuses(ToRecord(reply), rule.limit);
      && (refused <==> blocked || count >= rule.limit)
      && (blocked ==> next == c && InSeconds(report.resetSeconds, c.block.expires.value - now))
      && (!blocked ==> next.hits == Key(count + 1, Some(ends)))
      && (refused && !blocked ==>
            next.block == Key(1, Some(now + rule.ttlMs)) && InSeconds(report.resetSeconds, rule.ttlMs))
      && (!refused ==> next.block == c.block && InSeconds(report.resetSeconds, ends - now))
      && report.rule == rule && report.remaining == (if refused then 0 else rule.limit - count - 1)
  {
    hide *;
    CallsKeepInv(times, rule, now);
    CounterOfTrace(Calls(times, rule), rule, LastCall(times, now));
    ReportIsAnswered(Calls(times, rule).counter, rule, LastCall(times, now), now);
  }

  lemma CounterOfTrace(tr: Trace, rule: Rule, now: int)
    requires Inv(tr, rule, now)
    ensures CounterInv(tr.counter, rule, now)
  {
  }

  lemma Admits(tr: Trace, rule: Rule, now: int)
    requires !Refuses(ToRecord(GuardScript(tr.counter, rule, now).1), rule.limit)
    ensures Call(tr, now, rule) == Trace(GuardScript(tr.counter, rule, now).0, tr.admitted + [now])
  {
    hide GuardScript, ToRecord, Refuses;
  }

  /** The window that is open opened with the last but so many admissions. */
  lemma WindowOpenedWith(tr: Trace, rule: Rule, now: int)
    requires Inv(tr, rule, now) && tr.counter.hits.Key? && tr.counter.hits.value <= rule.limit
    ensures var used, n := tr.counter.hits.value, |tr.admitted|;
      && 1 <= used <= n && tr.counter.hits.expires.Some?
      && tr.counter.hits.expires.value == tr.admitted[n - used] + rule.ttlMs
  {
  }

  /**
   * So the budget told to a caller who passes is what the window that is open has left: it opened with the last but
   * so many admissions, and it ends a window length after that one.
   */
  lemma BudgetToldIsLeft(times: seq<int>, rule: Rule, now: int)
    requires Sensible(rule) && Nondecreasing(times) && LastCall(times, now) <= now
    requires !Refuses(ToRecord(GuardScript(Calls(times, rule).counter, rule, now).1), rule.limit)
    ensures var report := ReportOf(rule, ToRecord(GuardScript(Calls(times, rule).counter, rule, now).1));
      var used, admitted := rule.limit - report.remaining, Calls(times, rule).admitted + [now];
      && 1 <= used <= |admitted|
      && InSeconds(report.resetSeconds, admitted[|admitted| - used] + rule.ttlMs - now)
  {
    hide *;
    CallsKeepInv(times, rule, now);
    var tr := Calls(times, rule);
    CallKeepsInv(tr, rule, LastCall(times, now), now);
    CallIsAnswered(times, rule, now);
    Admits(tr, rule, now);
    WindowOpenedWith(Call(tr, now, rule), rule, now);
  }
}
