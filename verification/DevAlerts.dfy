/** The developer-alert queue of dev-alert.service.ts: dedupe, ceiling, one throttle notice, pruning. */
module DevAlerts {
  import opened Prelude

  const DEDUPE_MS := 60_000
  const CEILING_MS := 60_000
  const GLOBAL_PER_MIN := 20
  const PRUNE_AT := 500

  /** When a signature was last delivered, and how many were folded into it since. */
  datatype Seen = Seen(at: int, held: nat)

  datatype State = State(recent: map<string, Seen>, windowStartedAt: int, sentThisWindow: nat, floodNoticeSent: bool)

  datatype Outcome =
    | Delivered(held: nat)      // sent, reporting `held` suppressed repeats
    | Folded                    // a repeat: counted in the map
    | Dropped(notice: bool)     // over the ceiling; `notice` when this call sent the throttle notice

  function Prune(recent: map<string, Seen>, now: int): map<string, Seen> {
    if |recent| < PRUNE_AT then recent
    else map sig | sig in recent && now - recent[sig].at <= DEDUPE_MS :: recent[sig]
  }

  function FreshWindow(s: State, now: int): State {
    if now - s.windowStartedAt >= CEILING_MS then State(s.recent, now, 0, false) else s
  }

  function Enqueue(before: State, sig: string, now: int): (State, Outcome) {
    var s := FreshWindow(before, now);
    if sig in s.recent && now - s.recent[sig].at < DEDUPE_MS then
      (s.(recent := s.recent[sig := Seen(s.recent[sig].at, s.recent[sig].held + 1)]), Folded)
    else if s.sentThisWindow >= GLOBAL_PER_MIN then
      if s.floodNoticeSent then (s, Dropped(false))
      else (s.(floodNoticeSent := true, sentThisWindow := s.sentThisWindow + 1), Dropped(true))
    else
      (s.(recent := Prune(s.recent[sig := Seen(now, 0)], now), sentThisWindow := s.sentThisWindow + 1),
       Delivered(if sig in s.recent then s.recent[sig].held else 0))
  }

  class DevAlertService {
    const enabled: bool
    var recent: map<string, Seen>
    var windowStartedAt: int
    var sentThisWindow: nat
    var floodNoticeSent: bool

    function Value(): State
      reads this
    {
      State(recent, windowStartedAt, sentThisWindow, floodNoticeSent)
    }

    constructor (enabled: bool, now: int)
      ensures this.enabled == enabled && Value() == State(map[], now, 0, false)
    {
      this.enabled := enabled;
      recent := map[];
      windowStartedAt := now;
      sentThisWindow := 0;
      floodNoticeSent := false;
    }

    /** What was sent is the outcome; None when alerting is switched off. */
    method Queue(sig: string, now: int) returns (outcome: Option<Outcome>)
      modifies this
      ensures !enabled ==> outcome == None && Value() == old(Value())
      ensures enabled ==> outcome == Some(Enqueue(old(Value()), sig, now).1)
      ensures enabled ==> Value() == Enqueue(old(Value()), sig, now).0
    {
      if !enabled {
        return None;
      }
      if now - windowStartedAt >= CEILING_MS {
        windowStartedAt := now;
        sentThisWindow := 0;
        floodNoticeSent := false;
      }
      if sig in recent && now - recent[sig].at < DEDUPE_MS {
        recent := recent[sig := Seen(recent[sig].at, recent[sig].held + 1)];
        return Some(Folded);
      }
      if sentThisWindow >= GLOBAL_PER_MIN {
        if !floodNoticeSent {
          floodNoticeSent := true;
          sentThisWindow := sentThisWindow + 1;
          return Some(Dropped(true));
        }
        return Some(Dropped(false));
      }
      var held := if sig in recent then recent[sig].held else 0;
      recent := recent[sig := Seen(now, 0)];
      sentThisWindow := sentThisWindow + 1;
      PruneOld(now);
      return Some(Delivered(held));
    }

    method PruneOld(now: int)
      modifies this`recent
      ensures recent == Prune(old(recent), now)
    {
      if |recent| < PRUNE_AT {
        return;
      }
      var left := recent.Keys;
      while left != {}
        invariant left <= old(recent).Keys
        invariant forall sig :: sig in recent <==>
            sig in old(recent) && (sig in left || now - old(recent)[sig].at <= DEDUPE_MS)
        invariant forall sig :: sig in recent ==> recent[sig] == old(recent)[sig]
        decreases left
      {
        var sig :| sig in left;
        left := left - {sig};
        if now - recent[sig].at > DEDUPE_MS {
          recent := recent - {sig};
        }
      }
    }
  }

  // ─── Runs ────────────────────────────────────────────────────────────────

  datatype Call = Call(sig: string, now: int)

  function Boot(at: int): State {
    State(map[], at, 0, false)
  }

  ghost predicate Ordered(calls: seq<Call>, boot: int) {
    && (forall i :: 0 <= i < |calls| ==> boot <= calls[i].now)
    && (forall i, j :: 0 <= i < j < |calls| ==> calls[i].now <= calls[j].now)
  }

  function Run(calls: seq<Call>, boot: int): State {
    if calls == [] then Boot(boot)
    else Enqueue(Run(calls[..|calls| - 1], boot), calls[|calls| - 1].sig, calls[|calls| - 1].now).0
  }

  function LastOutcome(calls: seq<Call>, boot: int): Outcome
    requires calls != []
  {
    Enqueue(Run(calls[..|calls| - 1], boot), calls[|calls| - 1].sig, calls[|calls| - 1].now).1
  }

  /** The alerts delivered, in order. */
  function Deliveries(calls: seq<Call>, boot: int): seq<Call> {
    if calls == [] then []
    else
      var earlier := Deliveries(calls[..|calls| - 1], boot);
      if LastOutcome(calls, boot).Delivered? then earlier + [calls[|calls| - 1]] else earlier
  }

  /** The instants of everything sent: alerts and throttle notices. */
  function Messages(calls: seq<Call>, boot: int): seq<int> {
    if calls == [] then []
    else
      var earlier := Messages(calls[..|calls| - 1], boot);
      var o := LastOutcome(calls, boot);
      if o.Delivered? || (o.Dropped? && o.notice) then earlier + [calls[|calls| - 1].now] else earlier
  }

  /** A run, one call at a time. */
  lemma LastStep(calls: seq<Call>, boot: int)
    requires calls != []
    ensures var init, call := calls[..|calls| - 1], calls[|calls| - 1];
      var o := Enqueue(Run(init, boot), call.sig, call.now).1;
      && Run(calls, boot) == Enqueue(Run(init, boot), call.sig, call.now).0
      && Deliveries(calls, boot) == (if o.Delivered? then Deliveries(init, boot) + [call] else Deliveries(init, boot))
      && Messages(calls, boot) ==
         if o.Delivered? || (o.Dropped? && o.notice) then Messages(init, boot) + [call.now] else Messages(init, boot)
  {
    hide Enqueue;
  }

  function Times(calls: seq<Call>): (times: seq<int>)
    ensures |times| == |calls| && forall i :: 0 <= i < |calls| ==> times[i] == calls[i].now
  {
    seq(|calls|, i requires 0 <= i < |calls| => calls[i].now)
  }

  // ─── The ceiling ─────────────────────────────────────────────────────────

  /**
   * A history of sends under a ceiling of `cap` per window: `used` of them fall in the window that
   * began at `start`, the one `cap` places before those is more than a window older than `start`,
   * and any 2*cap + 1 in a row take longer than a window.
   */
  ghost predicate Capped(times: seq<int>, start: int, used: int, cap: int) {
    var n := |times|;
    && Nondecreasing(times)
    && 0 <= used <= n && used <= cap
    && (forall i :: 0 <= i < n - used ==> times[i] < start)
    && (forall i :: n - used <= i < n ==> start <= times[i] < start + CEILING_MS)
    && (n - used - cap - 1 >= 0 ==> times[n - used - cap - 1] < start - CEILING_MS)
    && (forall i, j :: 0 <= i < j < n && j == i + 2 * cap ==> times[j] - times[i] >= CEILING_MS + 1)
  }

  lemma CappedNewWindow(times: seq<int>, start: int, used: int, cap: int, now: int)
    requires Capped(times, start, used, cap) && start + CEILING_MS <= now
    ensures Capped(times, now, 0, cap)
  {
  }

  lemma CappedSend(times: seq<int>, start: int, used: int, cap: int, now: int)
    requires Capped(times, start, used, cap) && start <= now < start + CEILING_MS && used < cap
    requires forall i :: 0 <= i < |times| ==> times[i] <= now
    ensures Capped(times + [now], start, used + 1, cap)
  {
    var n := |times|;
    assert n - 2 * cap >= 0 ==> times[n - 2 * cap] <= times[n - used - cap - 1];
  }

  function AlertsSent(s: State): int {
    s.sentThisWindow - if s.floodNoticeSent then 1 else 0
  }

  ghost predicate CeilingInv(s: State, delivered: seq<int>, messages: seq<int>, now: int) {
    && s.windowStartedAt <= now
    && (if s.floodNoticeSent then s.sentThisWindow == GLOBAL_PER_MIN + 1 else s.sentThisWindow <= GLOBAL_PER_MIN)
    && Capped(delivered, s.windowStartedAt, AlertsSent(s), GLOBAL_PER_MIN)
    && Capped(messages, s.windowStartedAt, s.sentThisWindow, GLOBAL_PER_MIN + 1)
    && (forall i :: 0 <= i < |delivered| ==> delivered[i] <= now)
    && (forall i :: 0 <= i < |messages| ==> messages[i] <= now)
  }

  lemma CeilingStep(before: State, delivered: seq<int>, messages: seq<int>, earlier: int, sig: string, now: int)
    requires CeilingInv(before, delivered, messages, earlier) && earlier <= now
    ensures var (s, o) := Enqueue(before, sig, now);
      CeilingInv(s,
        if o.Delivered? then delivered + [now] else delivered,
        if o.Delivered? || (o.Dropped? && o.notice) then messages + [now] else messages, now)
  {
    hide Capped, Prune;
    var w := before.windowStartedAt;
    if now - w >= CEILING_MS {
      CappedNewWindow(delivered, w, AlertsSent(before), GLOBAL_PER_MIN, now);
      CappedNewWindow(messages, w, before.sentThisWindow, GLOBAL_PER_MIN + 1, now);
    }
    var s, o := FreshWindow(before, now), Enqueue(before, sig, now).1;
    if o.Delivered? {
      CappedSend(delivered, s.windowStartedAt, AlertsSent(s), GLOBAL_PER_MIN, now);
      CappedSend(messages, s.windowStartedAt, s.sentThisWindow, GLOBAL_PER_MIN + 1, now);
    } else if o.Dropped? && o.notice {
      CappedSend(messages, s.windowStartedAt, s.sentThisWindow, GLOBAL_PER_MIN + 1, now);
    }
  }

  ghost function LastCall(calls: seq<Call>, otherwise: int): int {
    if calls == [] then otherwise else calls[|calls| - 1].now
  }

  lemma {:induction false} CeilingHolds(calls: seq<Call>, boot: int)
    requires Ordered(calls, boot)
    ensures CeilingInv(Run(calls, boot), Times(Deliveries(calls, boot)), Messages(calls, boot), LastCall(calls, boot))
  {
    if calls == [] {
      assert Times([]) == [];
    } else {
      var init, call := calls[..|calls| - 1], calls[|calls| - 1];
      LastStep(calls, boot);
      assert Ordered(init, boot) && LastCall(init, boot) <= call.now == LastCall(calls, boot);
      assert Times(Deliveries(init, boot) + [call]) == Times(Deliveries(init, boot)) + [call.now];
      hide *;
      CeilingHolds(init, boot);
      CeilingStep(Run(init, boot), Times(Deliveries(init, boot)), Messages(init, boot), LastCall(init, boot),
                  call.sig, call.now);
    }
  }

  /** Any closed span of a minute holds at most 40 alerts and, counting throttle notices, 42 messages. */
  lemma MinuteBound(calls: seq<Call>, boot: int, from: int)
    requires Ordered(calls, boot)
    ensures |Within(Times(Deliveries(calls, boot)), from, from + CEILING_MS + 1)| <= 2 * GLOBAL_PER_MIN
    ensures |Within(Messages(calls, boot), from, from + CEILING_MS + 1)| <= 2 * GLOBAL_PER_MIN + 2
  {
    hide Run, Deliveries, Messages;
    CeilingHolds(calls, boot);
    SpacingBoundsWindow(Times(Deliveries(calls, boot)), 2 * GLOBAL_PER_MIN, CEILING_MS + 1, from);
    SpacingBoundsWindow(Messages(calls, boot), 2 * GLOBAL_PER_MIN + 2, CEILING_MS + 1, from);
  }

  // ─── A fixed window, and how far a sliding one exceeds it ────────────────

  /** One call: the window stays, and counts what the call sends, or it moves forward. */
  lemma CountedWhenSent(s: State, sig: string, now: int)
    ensures var (t, o) := Enqueue(s, sig, now);
      && t.windowStartedAt >= s.windowStartedAt
      && (t.windowStartedAt == s.windowStartedAt ==>
            && AlertsSent(t) == AlertsSent(s) + (if o.Delivered? then 1 else 0)
            && t.sentThisWindow == s.sentThisWindow + if o.Delivered? || o == Dropped(true) then 1 else 0)
  {
    hide Prune;
  }

  lemma {:induction false} WindowNeverMovesBack(calls: seq<Call>, boot: int, i: nat)
    requires i <= |calls|
    ensures Run(calls[..i], boot).windowStartedAt <= Run(calls, boot).windowStartedAt
  {
    if i == |calls| {
      assert calls[..i] == calls;
    } else {
      var init, call := calls[..|calls| - 1], calls[|calls| - 1];
      assert init[..i] == calls[..i];
      LastStep(calls, boot);
      CountedWhenSent(Run(init, boot), call.sig, call.now);
      hide *;
      WindowNeverMovesBack(init, boot, i);
    }
  }

  /** While the window stays open, everything sent since is counted in it. */
  lemma {:induction false} SentInWindow(calls: seq<Call>, boot: int, i: nat)
    requires i <= |calls| && Run(calls[..i], boot).windowStartedAt == Run(calls, boot).windowStartedAt
    ensures |Deliveries(calls, boot)| - |Deliveries(calls[..i], boot)| ==
      AlertsSent(Run(calls, boot)) - AlertsSent(Run(calls[..i], boot))
    ensures |Messages(calls, boot)| - |Messages(calls[..i], boot)| ==
      Run(calls, boot).sentThisWindow - Run(calls[..i], boot).sentThisWindow
  {
    if i == |calls| {
      assert calls[..i] == calls;
    } else {
      var init, call := calls[..|calls| - 1], calls[|calls| - 1];
      assert init[..i] == calls[..i];
      LastStep(calls, boot);
      CountedWhenSent(Run(init, boot), call.sig, call.now);
      hide *;
      WindowNeverMovesBack(init, boot, i);
      SentInWindow(init, boot, i);
    }
  }

  /** A stretch of calls during which the counting window does not change sends at most 20 alerts and 21 messages. */
  lemma FixedWindowBound(calls: seq<Call>, boot: int, i: nat)
    requires Ordered(calls, boot) && i <= |calls|
    requires Run(calls[..i], boot).windowStartedAt == Run(calls, boot).windowStartedAt
    ensures |Deliveries(calls, boot)| - |Deliveries(calls[..i], boot)| <= GLOBAL_PER_MIN
    ensures |Messages(calls, boot)| - |Messages(calls[..i], boot)| <= GLOBAL_PER_MIN + 1
  {
    SentInWindow(calls, boot, i);
    CeilingHolds(calls, boot);
    CeilingHolds(calls[..i], boot);
    hide Run, Deliveries, Messages, Capped;
  }

  /** A signature of its own for the n-th call. */
  function Nth(n: nat): string {
    seq(n, i => 'x')
  }

  /** The map has seen at most `n` signatures, all shorter than the n-th. */
  ghost predicate Shorter(s: State, n: nat) {
    |s.recent| <= n && forall sig :: sig in s.recent ==> |sig| < n
  }

  /** A new signature is delivered when the window, kept or opened by the call, has room. */
  lemma NewSignature(s: State, n: nat, t: int)
    requires Shorter(s, n) && n + 1 < PRUNE_AT && FreshWindow(s, t).sentThisWindow < GLOBAL_PER_MIN
    ensures var w := FreshWindow(s, t);
      && Enqueue(s, Nth(n), t) ==
          (w.(recent := s.recent[Nth(n) := Seen(t, 0)], sentThisWindow := w.sentThisWindow + 1), Delivered(0))
      && Shorter(Enqueue(s, Nth(n), t).0, n + 1)
  {
    assert s.recent[Nth(n) := Seen(t, 0)].Keys == s.recent.Keys + {Nth(n)};
  }

  lemma OverTheCeiling(s: State, n: nat, t: int)
    requires Shorter(s, n) && t - s.windowStartedAt < CEILING_MS && s.sentThisWindow == GLOBAL_PER_MIN
    requires !s.floodNoticeSent
    ensures Enqueue(s, Nth(n), t) == (s.(floodNoticeSent := true, sentThisWindow := GLOBAL_PER_MIN + 1), Dropped(true))
    ensures Shorter(Enqueue(s, Nth(n), t).0, n + 1)
  {
  }

  /** Everything sent so far, `alerts` and `messages` of it, falls in the closed minute from `from`. */
  ghost predicate Sent(calls: seq<Call>, boot: int, from: int, alerts: nat, messages: nat) {
    && Ordered(calls, boot) && (forall i :: 0 <= i < |calls| ==> from <= calls[i].now <= from + CEILING_MS)
    && |Deliveries(calls, boot)| == alerts && |Messages(calls, boot)| == messages
  }

  lemma Sends(calls: seq<Call>, boot: int, from: int, alerts: nat, messages: nat, call: Call)
    requires Sent(calls, boot, from, alerts, messages) && boot <= call.now && from <= call.now <= from + CEILING_MS
    requires calls != [] ==> calls[|calls| - 1].now <= call.now
    ensures var more := calls + [call];
      && Run(more, boot) == Enqueue(Run(calls, boot), call.sig, call.now).0
      && (Enqueue(Run(calls, boot), call.sig, call.now).1.Delivered? ==>
          Sent(more, boot, from, alerts + 1, messages + 1))
      && (Enqueue(Run(calls, boot), call.sig, call.now).1 == Dropped(true) ==>
          Sent(more, boot, from, alerts, messages + 1))
  {
    hide Enqueue;
    assert (calls + [call])[..|calls|] == calls;
  }

  /**
   * A history of `|calls|` different signatures whose window, begun at `start`, has sent `used` alerts and no
   * notice.
   */
  ghost predicate Filling(calls: seq<Call>, boot: int, start: int, used: nat) {
    var s := Run(calls, boot);
    s.windowStartedAt == start && s.sentThisWindow == used && !s.floodNoticeSent && Shorter(s, |calls|)
  }

  /** `k` more different alerts at one instant, while the window has room for them. */
  lemma {:induction false} Burst(
      calls: seq<Call>, boot: int, start: int, used: nat, t: int, from: int, alerts: nat, messages: nat, k: nat)
    returns (more: seq<Call>)
    requires Filling(calls, boot, start, used) && Sent(calls, boot, from, alerts, messages)
    requires boot <= t && from <= t <= from + CEILING_MS && t - start < CEILING_MS
    requires calls != [] ==> calls[|calls| - 1].now <= t
    requires used + k <= GLOBAL_PER_MIN && |calls| + k < PRUNE_AT
    ensures |more| == |calls| + k && (more != [] ==> more[|more| - 1].now <= t)
    ensures Filling(more, boot, start, used + k) && Sent(more, boot, from, alerts + k, messages + k)
  {
    if k == 0 {
      more := calls;
    } else {
      more := Burst(calls, boot, start, used, t, from, alerts, messages, k - 1);
      hide *;
      OneMore(more, boot, start, used + k - 1, t, from, alerts + k - 1, messages + k - 1);
      more := more + [Call(Nth(|more|), t)];
    }
  }

  lemma OneMore(calls: seq<Call>, boot: int, start: int, used: nat, t: int, from: int, alerts: nat, messages: nat)
    requires Filling(calls, boot, start, used) && Sent(calls, boot, from, alerts, messages)
    requires boot <= t && from <= t <= from + CEILING_MS && t - start < CEILING_MS
    requires calls != [] ==> calls[|calls| - 1].now <= t
    requires used < GLOBAL_PER_MIN && |calls| + 1 < PRUNE_AT
    ensures var more := calls + [Call(Nth(|calls|), t)];
      Filling(more, boot, start, used + 1) && Sent(more, boot, from, alerts + 1, messages + 1)
  {
    NewSignature(Run(calls, boot), |calls|, t);
    hide Enqueue, Shorter, Nth, Sent, Run;
    Sends(calls, boot, from, alerts, messages, Call(Nth(|calls|), t));
  }

  /** One more alert than the window takes sends the throttle notice; the first one of the next window is delivered. */
  lemma OverflowAndReopen(calls: seq<Call>, boot: int, start: int, t: int, from: int, alerts: nat,
                          messages: nat) returns (more: seq<Call>)
    requires Filling(calls, boot, start, GLOBAL_PER_MIN) && Sent(calls, boot, from, alerts, messages)
    requires boot <= t && from <= t < from + CEILING_MS && t - start == CEILING_MS - 1 && |calls| + 2 < PRUNE_AT
    requires calls != [] ==> calls[|calls| - 1].now <= t
    ensures |more| == |calls| + 2 && more[|more| - 1].now == t + 1
    ensures Filling(more, boot, t + 1, 1) && Sent(more, boot, from, alerts + 1, messages + 2)
  {
    var s, n := Run(calls, boot), |calls|;
    OverTheCeiling(s, n, t);
    var over := calls + [Call(Nth(n), t)];
    Sends(calls, boot, from, alerts, messages, Call(Nth(n), t));
    NewSignature(Run(over, boot), n + 1, t + 1);
    hide Enqueue, Shorter, Nth, Sent, Run;
    Sends(over, boot, from, alerts, messages + 1, Call(Nth(n + 1), t + 1));
    more := over + [Call(Nth(n + 1), t + 1)];
  }

  /** The closed minute from `from` holds as many alerts and messages as `MinuteBound` allows. */
  ghost predicate FillsAMinute(calls: seq<Call>, boot: int, from: int) {
    && Ordered(calls, boot)
    && |Within(Times(Deliveries(calls, boot)), from, from + CEILING_MS + 1)| == 2 * GLOBAL_PER_MIN
    && |Within(Messages(calls, boot), from, from + CEILING_MS + 1)| == 2 * GLOBAL_PER_MIN + 2
  }

  /** The bound is reached: twenty alerts and a notice at the end of one window, the same at the start of the next. */
  lemma MinuteBoundIsReached(boot: int)
    ensures exists calls, from :: FillsAMinute(calls, boot, from)
  {
    var t := boot + CEILING_MS - 1;
    assert Filling([], boot, boot, 0) && Sent([], boot, t, 0, 0);
    hide Run, Filling, Sent, FillsAMinute;
    var calls := Burst([], boot, boot, 0, t, t, 0, 0, GLOBAL_PER_MIN);
    calls := OverflowAndReopen(calls, boot, boot, t, t, GLOBAL_PER_MIN, GLOBAL_PER_MIN);
    calls := Burst(calls, boot, t + 1, 1, t + 1, t, GLOBAL_PER_MIN + 1, GLOBAL_PER_MIN + 2, GLOBAL_PER_MIN - 1);
    calls := LastNotice(calls, boot, t);
    AllInside(calls, boot, t);
  }

  lemma LastNotice(calls: seq<Call>, boot: int, from: int) returns (more: seq<Call>)
    requires Filling(calls, boot, from + 1, GLOBAL_PER_MIN)
    requires Sent(calls, boot, from, 2 * GLOBAL_PER_MIN, 2 * GLOBAL_PER_MIN + 1)
    requires boot <= from && calls != [] && calls[|calls| - 1].now <= from + 1
    ensures Sent(more, boot, from, 2 * GLOBAL_PER_MIN, 2 * GLOBAL_PER_MIN + 2)
  {
    OverTheCeiling(Run(calls, boot), |calls|, from + 1);
    hide Enqueue, Shorter, Nth, Sent, Run;
    Sends(calls, boot, from, 2 * GLOBAL_PER_MIN, 2 * GLOBAL_PER_MIN + 1, Call(Nth(|calls|), from + 1));
    more := calls + [Call(Nth(|calls|), from + 1)];
  }

  /** What is sent is sent at the instant of some call. */
  lemma {:induction false} SentAtCalls(calls: seq<Call>, boot: int, from: int, to: int)
    requires forall i :: 0 <= i < |calls| ==> from <= calls[i].now < to
    ensures forall i :: 0 <= i < |Deliveries(calls, boot)| ==> from <= Deliveries(calls, boot)[i].now < to
    ensures forall i :: 0 <= i < |Messages(calls, boot)| ==> from <= Messages(calls, boot)[i] < to
  {
    if calls != [] {
      hide Enqueue, Run;
      SentAtCalls(calls[..|calls| - 1], boot, from, to);
    }
  }

  lemma WholeWithin(s: seq<int>, from: int, to: int)
    requires forall i :: 0 <= i < |s| ==> from <= s[i] < to
    ensures |Within(s, from, to)| == |s|
  {
    IndexSetHolds(Within(s, from, to), 0, |s|);
    IndexSetBound(Within(s, from, to), 0, |s|);
  }

  lemma AllInside(calls: seq<Call>, boot: int, from: int)
    requires Sent(calls, boot, from, 2 * GLOBAL_PER_MIN, 2 * GLOBAL_PER_MIN + 2)
    ensures FillsAMinute(calls, boot, from)
  {
    hide Deliveries, Messages, Within;
    SentAtCalls(calls, boot, from, from + CEILING_MS + 1);
    WholeWithin(Times(Deliveries(calls, boot)), from, from + CEILING_MS + 1);
    WholeWithin(Messages(calls, boot), from, from + CEILING_MS + 1);
  }

  // ─── The map ─────────────────────────────────────────────────────────────

  /** Every entry is a delivery, and every delivery is still remembered or is more than a minute old. */
  ghost predicate MemoryInv(recent: map<string, Seen>, delivered: seq<Call>, now: int) {
    && (forall sig :: sig in recent ==> Call(sig, recent[sig].at) in delivered)
    && (forall d :: d in delivered ==> (d.sig in recent && recent[d.sig].at >= d.now) || now - d.now > DEDUPE_MS)
  }

  lemma MemoryStep(before: State, delivered: seq<Call>, earlier: int, sig: string, now: int)
    requires MemoryInv(before.recent, delivered, earlier) && earlier <= now
    requires forall d :: d in delivered ==> d.now <= now
    ensures var (s, o) := Enqueue(before, sig, now);
      MemoryInv(s.recent, if o.Delivered? then delivered + [Call(sig, now)] else delivered, now)
  {
    var (s, o) := Enqueue(before, sig, now);
    var after := if o.Delivered? then delivered + [Call(sig, now)] else delivered;
    forall other | other in s.recent
      ensures Call(other, s.recent[other].at) in after
    {
      assert other == sig || Call(other, before.recent[other].at) in delivered;
    }
    forall d | d in after
      ensures (d.sig in s.recent && s.recent[d.sig].at >= d.now) || now - d.now > DEDUPE_MS
    {
      assert d in delivered || d == Call(sig, now);
    }
  }

  lemma {:induction false} MemoryHolds(calls: seq<Call>, boot: int)
    requires Ordered(calls, boot)
    ensures MemoryInv(Run(calls, boot).recent, Deliveries(calls, boot), LastCall(calls, boot))
    ensures forall d :: d in Deliveries(calls, boot) ==> d.now <= LastCall(calls, boot)
  {
    if calls != [] {
      var init, call := calls[..|calls| - 1], calls[|calls| - 1];
      LastStep(calls, boot);
      hide Enqueue, MemoryInv, Run, Deliveries;
      MemoryHolds(init, boot);
      MemoryStep(Run(init, boot), Deliveries(init, boot), LastCall(init, boot), call.sig, call.now);
    }
  }

  /** Two deliveries of one signature are at least a minute apart. */
  lemma {:induction false} RepeatsAreFolded(calls: seq<Call>, boot: int, i: nat, j: nat)
    requires Ordered(calls, boot) && i < j < |Deliveries(calls, boot)|
    requires Deliveries(calls, boot)[i].sig == Deliveries(calls, boot)[j].sig
    ensures Deliveries(calls, boot)[j].now - Deliveries(calls, boot)[i].now >= DEDUPE_MS
  {
    var n := |calls| - 1;
    var earlier := Deliveries(calls[..n], boot);
    if j < |earlier| {
      RepeatsAreFolded(calls[..n], boot, i, j);
    } else {
      MemoryHolds(calls[..n], boot);
      assert earlier[i] in earlier;
    }
  }

  lemma FortyAgoIsOld(delivered: seq<Call>, start: int, used: int, now: int, i: nat)
    requires Capped(Times(delivered), start, used, GLOBAL_PER_MIN)
    requires forall d :: d in delivered ==> d.now <= now
    requires i + 2 * GLOBAL_PER_MIN < |delivered|
    ensures now - delivered[i].now > DEDUPE_MS
  {
    var times := Times(delivered);
    assert times[i + 2 * GLOBAL_PER_MIN] - times[i] >= CEILING_MS + 1;
    assert delivered[i + 2 * GLOBAL_PER_MIN] in delivered;
  }

  /** Entries no more than a minute old come from the last 40 deliveries. */
  lemma FreshEntriesAreFew(recent: map<string, Seen>, delivered: seq<Call>, start: int, used: int, now: int)
    requires Capped(Times(delivered), start, used, GLOBAL_PER_MIN)
    requires forall d :: d in delivered ==> d.now <= now
    requires forall sig :: sig in recent ==> now - recent[sig].at <= DEDUPE_MS && Call(sig, recent[sig].at) in delivered
    ensures |recent| <= 2 * GLOBAL_PER_MIN
  {
    hide Capped;
    var n := |delivered|;
    var from := if n > 2 * GLOBAL_PER_MIN then n - 2 * GLOBAL_PER_MIN else 0;
    forall i | 0 <= i < from
      ensures now - delivered[i].now > DEDUPE_MS
    {
      FortyAgoIsOld(delivered, start, used, now, i);
    }
    var last := delivered[from..];
    var sigs := seq(|last|, i requires 0 <= i < |last| => last[i].sig);
    forall sig | sig in recent
      ensures sig in sigs
    {
      var i :| 0 <= i < n && delivered[i] == Call(sig, recent[sig].at);
      assert sigs[i - from] == sig;
    }
    ElementsCardinality(sigs);
    SubsetCardinality(recent.Keys, set x | x in sigs);
  }

  /** After any call the map holds at most 499 signatures. */
  lemma {:induction false} MapStaysSmall(calls: seq<Call>, boot: int)
    requires Ordered(calls, boot)
    ensures |Run(calls, boot).recent| < PRUNE_AT
  {
    if calls != [] {
      var n := |calls| - 1;
      var before, call := Run(calls[..n], boot), calls[n];
      MapStaysSmall(calls[..n], boot);
      var (s, o) := Enqueue(before, call.sig, call.now);
      if o.Delivered? {
        var grown := before.recent[call.sig := Seen(call.now, 0)];
        if |grown| >= PRUNE_AT {
          CeilingHolds(calls, boot);
          MemoryHolds(calls, boot);
          FreshEntriesAreFew(s.recent, Deliveries(calls, boot), s.windowStartedAt, AlertsSent(s), call.now);
        }
      } else {
        assert s.recent.Keys == before.recent.Keys;
        assert |s.recent| == |s.recent.Keys| && |before.recent| == |before.recent.Keys|;
      }
    }
  }

  // ─── Nothing is lost silently ────────────────────────────────────────────

  /** What became of the alerts of one signature. */
  datatype Tally = Tally(raised: nat, delivered: nat, reported: nat, pruned: nat, dropped: nat)

  function Held(s: State, sig: string): nat {
    if sig in s.recent then s.recent[sig].held else 0
  }

  function Count(calls: seq<Call>, boot: int, sig: string): Tally {
    if calls == [] then Tally(0, 0, 0, 0, 0)
    else
      var t, before, after := Count(calls[..|calls| - 1], boot, sig), Run(calls[..|calls| - 1], boot), Run(calls, boot);
      if calls[|calls| - 1].sig != sig then
        t.(pruned := t.pruned + if sig in after.recent then 0 else Held(before, sig))
      else
        match LastOutcome(calls, boot)
        case Delivered(held) => t.(raised := t.raised + 1, delivered := t.delivered + 1, reported := t.reported + held)
        case Folded => t.(raised := t.raised + 1)
        case Dropped(_) => t.(raised := t.raised + 1, dropped := t.dropped + 1)
  }

  /**
   * Every alert of every signature is accounted for exactly once: delivered, reported as suppressed by
   * a later delivery, still held in the map, lost with a pruned entry, or dropped by the ceiling.
   */
  lemma {:induction false} EveryAlertIsAccountedFor(calls: seq<Call>, boot: int, sig: string)
    ensures var t := Count(calls, boot, sig);
      t.raised == t.delivered + t.reported + Held(Run(calls, boot), sig) + t.pruned + t.dropped
  {
    if calls != [] {
      EveryAlertIsAccountedFor(calls[..|calls| - 1], boot, sig);
      DeliveredIsKept(Run(calls[..|calls| - 1], boot), calls[|calls| - 1].sig, calls[|calls| - 1].now);
    }
  }

  /** A call never loses its own signature, and forgets another only by pruning it. */
  lemma DeliveredIsKept(s: State, sig: string, now: int)
    ensures Enqueue(s, sig, now).1.Delivered? ==> Enqueue(s, sig, now).0.recent[sig] == Seen(now, 0)
  {
  }

  // ─── What each alert is answered ─────────────────────────────────────────

  /**
   * By the map, the window and the clock: folded exactly when the signature was delivered less than a minute ago;
   * otherwise delivered, with the repeats held, while the minute's window has sent fewer than twenty; otherwise
   * dropped, the first of a window with a notice.
   */
  lemma AlertIsAnswered(s: State, sig: string, now: int)
    ensures var (t, o) := Enqueue(s, sig, now);
      var over := now - s.windowStartedAt >= 60_000;
      var sent, noticed := if over then 0 else s.sentThisWindow, !over && s.floodNoticeSent;
      var repeats := sig in s.recent && now - s.recent[sig].at < 60_000;
      && (o == Folded <==> repeats)
      && (o.Delivered? <==> !repeats && sent < 20)
      && (o.Delivered? ==> o.held == if sig in s.recent then s.recent[sig].held else 0)
      && (o == Dropped(true) <==> !repeats && sent >= 20 && !noticed)
      && (o == Dropped(false) <==> !repeats && sent >= 20 && noticed)
      && t.windowStartedAt == (if over then now else s.windowStartedAt)
      && t.sentThisWindow == (if o.Delivered? || o == Dropped(true) then sent + 1 else sent)
      && (t.floodNoticeSent <==> noticed || o == Dropped(true))
  {
    hide Prune;
  }

  /** And the map: the signature delivered anew, or folded in, and old entries gone once it holds five hundred. */
  lemma AlertLeaves(s: State, sig: string, now: int, other: string)
    ensures var (t, o) := Enqueue(s, sig, now);
      && (o.Delivered? ==> sig in t.recent && t.recent[sig] == Seen(now, 0))
      && (o == Folded ==> sig in t.recent && t.recent[sig] == Seen(s.recent[sig].at, s.recent[sig].held + 1))
      && (o.Dropped? ==> t.recent == s.recent)
      && (other in t.recent && other != sig ==> other in s.recent && t.recent[other] == s.recent[other])
      && (other in s.recent && other != sig && other !in t.recent ==>
            o.Delivered? && now - s.recent[other].at > 60_000 && |s.recent.Keys + {sig}| >= 500)
  {
    assert s.recent[sig := Seen(now, 0)].Keys == s.recent.Keys + {sig};
    assert |s.recent[sig := Seen(now, 0)]| == |s.recent[sig := Seen(now, 0)].Keys|;
  }

  function Repeats(s: State, sig: string, times: seq<int>): State {
    if times == [] then s else Enqueue(Repeats(s, sig, times[..|times| - 1]), sig, times[|times| - 1]).0
  }

  lemma {:induction false} RepeatsAreHeld(s: State, sig: string, at: int, times: seq<int>)
    requires sig in s.recent && s.recent[sig] == Seen(at, 0) && s.windowStartedAt <= at
    requires forall i :: 0 <= i < |times| ==> at <= times[i] < at + 60_000
    ensures var t := Repeats(s, sig, times);
      && sig in t.recent && t.recent[sig] == Seen(at, |times|)
      && (if t.windowStartedAt == s.windowStartedAt then t.sentThisWindow == s.sentThisWindow
          else t.sentThisWindow == 0)
  {
    if times != [] {
      var n := |times| - 1;
      RepeatsAreHeld(s, sig, at, times[..n]);
      hide Repeats, Enqueue;
      AlertIsAnswered(Repeats(s, sig, times[..n]), sig, times[n]);
      AlertLeaves(Repeats(s, sig, times[..n]), sig, times[n], sig);
      assert Repeats(s, sig, times) == Enqueue(Repeats(s, sig, times[..n]), sig, times[n]).0 by {
        OneMoreRepeat(s, sig, times);
      }
    }
  }

  lemma OneMoreRepeat(s: State, sig: string, times: seq<int>)
    requires times != []
    ensures Repeats(s, sig, times) == Enqueue(Repeats(s, sig, times[..|times| - 1]), sig, times[|times| - 1]).0
  {
  }

  /**
   * An alert that was delivered and then repeats any number of times within the minute is delivered again by its
   * first repeat after it, which reports exactly how many were held back.
   */
  lemma RepeatIsDeliveredAfterAMinute(s: State, sig: string, at: int, times: seq<int>, now: int)
    requires sig in s.recent && s.recent[sig] == Seen(at, 0) && s.windowStartedAt <= at
    requires forall i :: 0 <= i < |times| ==> at <= times[i] < at + 60_000
    requires at + 60_000 <= now
    ensures Enqueue(Repeats(s, sig, times), sig, now).1 == Delivered(|times|)
  {
    RepeatsAreHeld(s, sig, at, times);
    AlertIsAnswered(Repeats(s, sig, times), sig, now);
    hide Repeats, Enqueue;
  }
}
