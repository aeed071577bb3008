/** The per-user byte budget of upload-quota.service.ts: the two Redis scripts and their in-process twin. */
module UploadQuota {
  import opened Prelude
  import opened RedisKeys

  datatype Limits = Limits(maxBytes: int, windowMs: int)

  /** What the service's constructor guarantees of its configuration. */
  predicate Usable(l: Limits) {
    l.maxBytes > 0 && l.windowMs > 0
  }

  datatype Decision = Decision(allowed: bool, retryAfterSeconds: int, remaining: int, limit: int)

  datatype Window = Window(bytes: int, resetAt: int)

  function Max(a: int, b: int): int {
    if a < b then b else a
  }

  // ─── One user's budget, in Redis ─────────────────────────────────────────

  datatype Reply = Reply(allowed: bool, used: int, ttlMs: int)

  function ConsumeScript(k: Key, bytes: int, l: Limits, now: int): (Key, Reply) {
    var used := Get(k, now);
    if used + bytes > l.maxBytes then
      (k, Reply(false, used, if Pttl(k, now) < 0 then l.windowMs else Pttl(k, now)))
    else
      var total := IncrBy(k, bytes, now);
      if total.value == bytes || Pttl(total, now) < 0 then
        (Pexpire(total, l.windowMs, now), Reply(true, total.value, l.windowMs))
      else
        (total, Reply(true, total.value, Pttl(total, now)))
  }

  function RefundScript(k: Key, bytes: int, now: int): Key {
    var used := Get(k, now);
    if used <= 0 then k else SetKeepTtl(k, Max(0, used - bytes), now)
  }

  function ToDecision(r: Reply, l: Limits): Decision {
    Decision(r.allowed, if r.allowed then 0 else Max(1, CeilSeconds(r.ttlMs)), Max(0, l.maxBytes - r.used), l.maxBytes)
  }

  // ─── One user's budget, in process ───────────────────────────────────────

  predicate Open(w: Option<Window>, now: int) {
    w.Some? && now < w.value.resetAt
  }

  function ConsumeWindow(w: Option<Window>, bytes: int, l: Limits, now: int): (Option<Window>, Decision) {
    if !Open(w, now) then
      if bytes > l.maxBytes then (w, Decision(false, CeilSeconds(l.windowMs), l.maxBytes, l.maxBytes))
      else (Some(Window(bytes, now + l.windowMs)), Decision(true, 0, l.maxBytes - bytes, l.maxBytes))
    else
      var used := w.value.bytes;
      if used + bytes > l.maxBytes then
        (w, Decision(false, Max(1, CeilSeconds(w.value.resetAt - now)), Max(0, l.maxBytes - used), l.maxBytes))
      else
        (Some(Window(used + bytes, w.value.resetAt)), Decision(true, 0, l.maxBytes - (used + bytes), l.maxBytes))
  }

  function RefundWindow(w: Option<Window>, bytes: int): Option<Window> {
    if w.None? then None else Some(w.value.(bytes := Max(0, w.value.bytes - bytes)))
  }

  // ─── The service ─────────────────────────────────────────────────────────

  function WindowOf(windows: map<string, Window>, user: string): Option<Window> {
    if user in windows then Some(windows[user]) else None
  }

  function KeyOf(keys: map<string, Key>, user: string): Key {
    if user in keys then keys[user] else Absent
  }

  function Pruned(windows: map<string, Window>, now: int): map<string, Window> {
    map user | user in windows && now < windows[user].resetAt :: windows[user]
  }

  class UploadQuotaService {
    const limits: Limits
    /** Used while Redis is configured and answering. */
    var keys: map<string, Key>
    /** Used otherwise. */
    var windows: map<string, Window>

    constructor (limits: Limits)
      ensures this.limits == limits && keys == map[] && windows == map[]
    {
      this.limits := limits;
      keys, windows := map[], map[];
    }

    method ConsumeInRedis(userId: string, bytes: int, now: int) returns (d: Decision)
      modifies this`keys
      ensures keys == old(keys)[userId := ConsumeScript(KeyOf(old(keys), userId), bytes, limits, now).0]
      ensures d == ToDecision(ConsumeScript(KeyOf(old(keys), userId), bytes, limits, now).1, limits)
    {
      var k := KeyOf(keys, userId);
      var used := Get(k, now);
      if used + bytes > limits.maxBytes {
        var ttl := Pttl(k, now);
        if ttl < 0 {
          ttl := limits.windowMs;
        }
        keys := keys[userId := k];
        return ToDecision(Reply(false, used, ttl), limits);
      }
      k := IncrBy(k, bytes, now);
      var total, ttl := k.value, Pttl(k, now);
      if total == bytes || ttl < 0 {
        k := Pexpire(k, limits.windowMs, now);
        ttl := limits.windowMs;
      }
      keys := keys[userId := k];
      return ToDecision(Reply(true, total, ttl), limits);
    }

    method RefundInRedis(userId: string, bytes: int, now: int)
      modifies this`keys
      ensures keys == old(keys)[userId := RefundScript(KeyOf(old(keys), userId), bytes, now)]
    {
      var k := KeyOf(keys, userId);
      var used := Get(k, now);
      if used > 0 {
        var back := used - bytes;
        if back < 0 {
          back := 0;
        }
        k := SetKeepTtl(k, back, now);
      }
      keys := keys[userId := k];
    }

    method ConsumeLocally(userId: string, bytes: int, now: int) returns (d: Decision)
      modifies this`windows
      ensures var r := ConsumeWindow(WindowOf(old(windows), userId), bytes, limits, now);
        d == r.1 && windows == if r.0.Some? then old(windows)[userId := r.0.value] else old(windows)
    {
      if userId !in windows || windows[userId].resetAt <= now {
        if bytes > limits.maxBytes {
          assert windows == if userId in windows then windows[userId := windows[userId]] else windows;
          return Decision(false, CeilSeconds(limits.windowMs), limits.maxBytes, limits.maxBytes);
        }
        windows := windows[userId := Window(bytes, now + limits.windowMs)];
        return Decision(true, 0, limits.maxBytes - bytes, limits.maxBytes);
      }
      var window := windows[userId];
      if window.bytes + bytes > limits.maxBytes {
        assert windows == windows[userId := window];
        return Decision(
          false, Max(1, CeilSeconds(window.resetAt - now)), Max(0, limits.maxBytes - window.bytes), limits.maxBytes);
      }
      window := window.(bytes := window.bytes + bytes);
      windows := windows[userId := window];
      return Decision(true, 0, limits.maxBytes - window.bytes, limits.maxBytes);
    }

    method RefundLocally(userId: string, bytes: int)
      modifies this`windows
      ensures var r := RefundWindow(WindowOf(old(windows), userId), bytes);
        windows == if r.Some? then old(windows)[userId := r.value] else old(windows)
    {
      if userId in windows {
        var window := windows[userId];
        windows := windows[userId := window.(bytes := Max(0, window.bytes - bytes))];
      }
    }

    method Prune(now: int)
      modifies this`windows
      ensures windows == Pruned(old(windows), now)
    {
      var left := windows.Keys;
      while left != {}
        invariant left <= old(windows).Keys
        invariant forall user :: user in windows <==>
            user in old(windows) && (user in left || now < old(windows)[user].resetAt)
        invariant forall user :: user in windows ==> windows[user] == old(windows)[user]
        decreases left
      {
        var user :| user in left;
        left := left - {user};
        if windows[user].resetAt <= now {
          windows := windows - {user};
        }
      }
    }
  }

  // ─── Runs ────────────────────────────────────────────────────────────────

  datatype Op =
    | Consume(user: string, bytes: nat, now: int)
    | Refund(user: string, bytes: nat, now: int)
    | Prune(now: int)

  ghost predicate Ordered(ops: seq<Op>) {
    forall i, j :: 0 <= i < j < |ops| ==> ops[i].now <= ops[j].now
  }

  function LocalStep(windows: map<string, Window>, op: Op, l: Limits): map<string, Window> {
    match op
    case Consume(user, bytes, now) =>
      var w := ConsumeWindow(WindowOf(windows, user), bytes, l, now).0;
      if w.Some? then windows[user := w.value] else windows
    case Refund(user, bytes, _) =>
      var w := RefundWindow(WindowOf(windows, user), bytes);
      if w.Some? then windows[user := w.value] else windows
    case Prune(now) => Pruned(windows, now)
  }

  /** Redis expires its own keys, so a prune does nothing there. */
  function RedisStep(keys: map<string, Key>, op: Op, l: Limits): map<string, Key> {
    match op
    case Consume(user, bytes, now) => keys[user := ConsumeScript(KeyOf(keys, user), bytes, l, now).0]
    case Refund(user, bytes, now) => keys[user := RefundScript(KeyOf(keys, user), bytes, now)]
    case Prune(_) => keys
  }

  function LocalAnswer(windows: map<string, Window>, op: Op, l: Limits): Option<Decision> {
    if op.Consume? then Some(ConsumeWindow(WindowOf(windows, op.user), op.bytes, l, op.now).1) else None
  }

  function RedisAnswer(keys: map<string, Key>, op: Op, l: Limits): Option<Decision> {
    if op.Consume? then Some(ToDecision(ConsumeScript(KeyOf(keys, op.user), op.bytes, l, op.now).1, l)) else None
  }

  function LocalRun(ops: seq<Op>, l: Limits): map<string, Window> {
    if ops == [] then map[] else LocalStep(LocalRun(ops[..|ops| - 1], l), ops[|ops| - 1], l)
  }

  function RedisRun(ops: seq<Op>, l: Limits): map<string, Key> {
    if ops == [] then map[] else RedisStep(RedisRun(ops[..|ops| - 1], l), ops[|ops| - 1], l)
  }

  // ─── The two implementations agree ───────────────────────────────────────

  /** No step that leaves an open window empty: neither a refund of all it holds nor a first consume of nothing.
      In a window of a single millisecond even that does no harm. */
  predicate Tame(windows: map<string, Window>, op: Op, l: Limits) {
    l.windowMs == 1 ||
    match op
    case Consume(user, bytes, now) => bytes > 0 || Open(WindowOf(windows, user), now)
    case Refund(user, bytes, now) => Open(WindowOf(windows, user), now) ==> bytes < windows[user].bytes
    case Prune(_) => true
  }

  predicate TameRun(ops: seq<Op>, l: Limits) {
    ops == [] || (TameRun(ops[..|ops| - 1], l) && Tame(LocalRun(ops[..|ops| - 1], l), ops[|ops| - 1], l))
  }

  predicate Held(w: Window, l: Limits) {
    if l.windowMs == 1 then 0 <= w.bytes else 0 < w.bytes
  }

  /** Seen at `now`, one user's key and window are the same open budget, or are both over. */
  predicate Twin(w: Option<Window>, k: Key, l: Limits, now: int) {
    if Open(w, now) then
      && k == Key(w.value.bytes, Some(w.value.resetAt)) && Held(w.value, l)
      && w.value.resetAt <= now + l.windowMs
    else
      !Live(k, now)
  }

  ghost predicate Twins(windows: map<string, Window>, keys: map<string, Key>, l: Limits, now: int) {
    forall user :: Twin(WindowOf(windows, user), KeyOf(keys, user), l, now)
  }

  lemma TwinStep(w: Option<Window>, k: Key, bytes: nat, l: Limits, before: int, now: int)
    requires Usable(l) && Twin(w, k, l, before) && before <= now
    ensures Twin(w, k, l, now)
    ensures bytes > 0 || Open(w, now) || l.windowMs == 1 ==>
      && Twin(ConsumeWindow(w, bytes, l, now).0, ConsumeScript(k, bytes, l, now).0, l, now)
      && ConsumeWindow(w, bytes, l, now).1 == ToDecision(ConsumeScript(k, bytes, l, now).1, l)
    ensures l.windowMs == 1 || (Open(w, now) ==> bytes < w.value.bytes) ==>
      Twin(RefundWindow(w, bytes), RefundScript(k, bytes, now), l, now)
  {
  }

  lemma TwinsStep(windows: map<string, Window>, keys: map<string, Key>, op: Op, l: Limits, before: int)
    requires Usable(l) && Twins(windows, keys, l, before) && before <= op.now && Tame(windows, op, l)
    ensures Twins(LocalStep(windows, op, l), RedisStep(keys, op, l), l, op.now)
    ensures LocalAnswer(windows, op, l) == RedisAnswer(keys, op, l)
  {
    hide Twin, ConsumeWindow, ConsumeScript, RefundWindow, RefundScript, ToDecision;
    var user := if op.Prune? then "" else op.user;
    var bytes := if op.Prune? then 0 else op.bytes;
    TwinStep(WindowOf(windows, user), KeyOf(keys, user), bytes, l, before, op.now);
    forall other
      ensures Twin(WindowOf(LocalStep(windows, op, l), other), KeyOf(RedisStep(keys, op, l), other), l, op.now)
    {
      TwinStep(WindowOf(windows, other), KeyOf(keys, other), bytes, l, before, op.now);
      if op.Prune? {
        PrunedTwin(windows, KeyOf(keys, other), l, op.now, other);
      } else if op.Consume? && other == user {
        KeptWhenDropped(WindowOf(windows, user), bytes, l, op.now);
      } else if op.Refund? && other == user {
        RefundKeepsWindow(WindowOf(windows, user), bytes);
      }
    }
  }

  lemma PrunedTwin(windows: map<string, Window>, k: Key, l: Limits, now: int, user: string)
    requires Twin(WindowOf(windows, user), k, l, now)
    ensures Twin(WindowOf(Pruned(windows, now), user), k, l, now)
  {
  }

  lemma KeptWhenDropped(w: Option<Window>, bytes: nat, l: Limits, now: int)
    ensures ConsumeWindow(w, bytes, l, now).0.None? ==> w.None?
  {
  }

  /** A refund gives bytes back to the window that took them; it never opens, closes or moves one. */
  lemma RefundKeepsWindow(w: Option<Window>, bytes: nat)
    ensures RefundWindow(w, bytes).Some? <==> w.Some?
    ensures w.Some? ==> RefundWindow(w, bytes).value.resetAt == w.value.resetAt
  {
  }

  /** The same for the key: its expiry does not move, and a dead key is not brought back. */
  lemma RefundKeepsExpiry(k: Key, bytes: nat, now: int, later: int)
    ensures Live(RefundScript(k, bytes, now), later) <==> Live(k, later)
    ensures Live(k, later) && now <= later ==> RefundScript(k, bytes, now).expires == k.expires
  {
  }

  lemma {:induction false} RunsAreTwins(ops: seq<Op>, l: Limits, now: int)
    requires Usable(l) && Ordered(ops) && TameRun(ops, l)
    requires ops != [] ==> ops[|ops| - 1].now <= now
    ensures Twins(LocalRun(ops, l), RedisRun(ops, l), l, now)
  {
    if ops != [] {
      var n := |ops| - 1;
      RunsAreTwins(ops[..n], l, ops[n].now);
      TwinsStep(LocalRun(ops[..n], l), RedisRun(ops[..n], l), ops[n], l, ops[n].now);
      forall user
        ensures Twin(WindowOf(LocalRun(ops, l), user), KeyOf(RedisRun(ops, l), user), l, now)
      {
        TwinStep(WindowOf(LocalRun(ops, l), user), KeyOf(RedisRun(ops, l), user), 0, l, ops[n].now, now);
      }
    }
  }

  /** On every tame run both implementations give the same decision, the same remaining bytes and the same wait. */
  lemma TwinsAgree(ops: seq<Op>, op: Op, l: Limits)
    requires Usable(l) && Ordered(ops + [op]) && TameRun(ops + [op], l)
    ensures LocalAnswer(LocalRun(ops, l), op, l) == RedisAnswer(RedisRun(ops, l), op, l)
  {
    assert (ops + [op])[..|ops|] == ops;
    assert forall i :: 0 <= i < |ops| ==> ops[i] == (ops + [op])[i];
    assert ops != [] ==> (ops + [op])[|ops| - 1].now <= (ops + [op])[|ops|].now;
    RunsAreTwins(ops, l, op.now);
    TwinsStep(LocalRun(ops, l), RedisRun(ops, l), op, l, op.now);
  }

  /** Two consumes in a row answered alike by both implementations. */
  ghost predicate AnswerAlike(w: Option<Window>, k: Key, l: Limits, first: nat, t1: int, second: nat, t2: int) {
    && ConsumeWindow(w, first, l, t1).1 == ToDecision(ConsumeScript(k, first, l, t1).1, l)
    && ConsumeWindow(ConsumeWindow(w, first, l, t1).0, second, l, t2).1
    == ToDecision(ConsumeScript(ConsumeScript(k, first, l, t1).0, second, l, t2).1, l)
  }

  /** From `now` on, no two consumes of something tell the implementations apart. */
  ghost predicate StayAlike(w: Option<Window>, k: Key, l: Limits, now: int) {
    forall first: nat, second: nat, t1, t2 :: first > 0 && second > 0 && now <= t1 <= t2 ==>
        AnswerAlike(w, k, l, first, t1, second, t2)
  }

  lemma TwinsStayAlike(w: Option<Window>, k: Key, l: Limits, before: int, now: int)
    requires Usable(l) && Twin(w, k, l, before) && before <= now
    ensures StayAlike(w, k, l, now)
  {
    forall first: nat, second: nat, t1, t2 | first > 0 && second > 0 && now <= t1 <= t2
      ensures AnswerAlike(w, k, l, first, t1, second, t2)
    {
      hide Twin, ConsumeWindow, ConsumeScript, ToDecision;
      TwinStep(w, k, first, l, before, t1);
      TwinStep(ConsumeWindow(w, first, l, t1).0, ConsumeScript(k, first, l, t1).0, second, l, t1, t2);
    }
  }

  /**
   * A window left open and empty is told apart, unless it lasts one millisecond: the key takes its next
   * consume for the first of a fresh window and puts its expiry off, the window in process keeps its own.
   */
  lemma EmptyWindowIsToldApart(resetAt: int, l: Limits, now: int)
    requires Usable(l) && l.windowMs > 1 && now < resetAt <= now + l.windowMs
    ensures !StayAlike(Some(Window(0, resetAt)), Key(0, Some(resetAt)), l, now)
  {
    var t1 := if resetAt < now + l.windowMs then now else now + 1;
    assert !AnswerAlike(Some(Window(0, resetAt)), Key(0, Some(resetAt)), l, l.maxBytes, t1, 1, resetAt);
  }

  /**
   * After a refund into an open window the two stay alike exactly when it leaves the window something, or the
   * window lasts one millisecond.
   */
  lemma EmptyingRefundDiverges(w: Option<Window>, k: Key, refund: nat, l: Limits, now: int)
    requires Usable(l) && Twin(w, k, l, now) && Open(w, now)
    ensures refund < w.value.bytes || l.windowMs == 1 <==>
      StayAlike(RefundWindow(w, refund), RefundScript(k, refund, now), l, now)
  {
    hide StayAlike;
    TwinStep(w, k, refund, l, now, now);
    if refund < w.value.bytes || l.windowMs == 1 {
      TwinsStayAlike(RefundWindow(w, refund), RefundScript(k, refund, now), l, now, now);
    } else {
      EmptyWindowIsToldApart(w.value.resetAt, l, now);
    }
  }

  /** After a consume of no bytes they do exactly when the window was open already, or lasts one millisecond. */
  lemma EmptyConsumeDiverges(w: Option<Window>, k: Key, l: Limits, before: int, now: int)
    requires Usable(l) && Twin(w, k, l, before) && before <= now
    ensures Open(w, now) || l.windowMs == 1 <==>
      StayAlike(ConsumeWindow(w, 0, l, now).0, ConsumeScript(k, 0, l, now).0, l, now)
  {
    hide StayAlike;
    TwinStep(w, k, 0, l, before, now);
    if Open(w, now) || l.windowMs == 1 {
      TwinsStayAlike(ConsumeWindow(w, 0, l, now).0, ConsumeScript(k, 0, l, now).0, l, now, now);
    } else {
      EmptyWindowIsToldApart(now + l.windowMs, l, now);
    }
  }

  /** At every point of the run, no user's next two consumes tell the implementations apart. */
  ghost predicate AlikeThroughout(ops: seq<Op>, l: Limits) {
    ops == [] ||
    (AlikeThroughout(ops[..|ops| - 1], l)
     && var now := ops[|ops| - 1].now;
        forall user :: StayAlike(WindowOf(LocalRun(ops, l), user), KeyOf(RedisRun(ops, l), user), l, now))
  }

  /** Tameness is the exact condition: the two answer alike throughout a run if and only if every step of it is tame. */
  lemma {:induction false} TamenessIsExact(ops: seq<Op>, l: Limits)
    requires Usable(l) && Ordered(ops)
    ensures TameRun(ops, l) <==> AlikeThroughout(ops, l)
  {
    if ops != [] {
      var n, op := |ops| - 1, ops[|ops| - 1];
      TamenessIsExact(ops[..n], l);
      hide StayAlike, Tame, LocalStep, RedisStep;
      if TameRun(ops, l) {
        forall user ensures StayAlike(WindowOf(LocalRun(ops, l), user), KeyOf(RedisRun(ops, l), user), l, op.now) {
          TameRunsStayAlike(ops, l, user);
        }
      } else if TameRun(ops[..n], l) {
        RunsAreTwins(ops[..n], l, op.now);
        UntamedIsToldApart(LocalRun(ops[..n], l), RedisRun(ops[..n], l), op, l);
        assert LocalRun(ops, l) == LocalStep(LocalRun(ops[..n], l), op, l);
        assert RedisRun(ops, l) == RedisStep(RedisRun(ops[..n], l), op, l);
        assert !StayAlike(WindowOf(LocalRun(ops, l), op.user), KeyOf(RedisRun(ops, l), op.user), l, op.now);
      }
    }
  }

  lemma TameRunsStayAlike(ops: seq<Op>, l: Limits, user: string)
    requires Usable(l) && Ordered(ops) && TameRun(ops, l) && ops != []
    ensures StayAlike(WindowOf(LocalRun(ops, l), user), KeyOf(RedisRun(ops, l), user), l, ops[|ops| - 1].now)
  {
    hide StayAlike, Twin, TameRun, LocalRun, RedisRun;
    var now := ops[|ops| - 1].now;
    RunsAreTwins(ops, l, now);
    assert Twin(WindowOf(LocalRun(ops, l), user), KeyOf(RedisRun(ops, l), user), l, now);
    TwinsStayAlike(WindowOf(LocalRun(ops, l), user), KeyOf(RedisRun(ops, l), user), l, now, now);
  }

  lemma UntamedIsToldApart(windows: map<string, Window>, keys: map<string, Key>, op: Op, l: Limits)
    requires Usable(l) && Twins(windows, keys, l, op.now) && !Tame(windows, op, l)
    ensures !op.Prune?
    ensures !StayAlike(WindowOf(LocalStep(windows, op, l), op.user), KeyOf(RedisStep(keys, op, l), op.user), l, op.now)
  {
    hide StayAlike;
    var w, k := WindowOf(windows, op.user), KeyOf(keys, op.user);
    assert Twin(w, k, l, op.now);
    match op
    case Consume(_, _, now) => EmptyConsumeDiverges(w, k, l, now, now);
    case Refund(_, bytes, now) => EmptyingRefundDiverges(w, k, bytes, l, now);
  }

  // ─── What one window may take ────────────────────────────────────────────

  /** Bytes admitted into the current window of one user, and bytes given back to it. */
  datatype Ledger = Ledger(admitted: int, returned: int)

  function Min(a: int, b: int): int {
    if a < b then a else b
  }

  function LocalLedger(ops: seq<Op>, l: Limits, user: string): Ledger {
    if ops == [] then Ledger(0, 0)
    else
      var before, op := LocalLedger(ops[..|ops| - 1], l, user), ops[|ops| - 1];
      var w := WindowOf(LocalRun(ops[..|ops| - 1], l), user);
      match op
      case Consume(u, bytes, now) =>
        if u != user || !ConsumeWindow(w, bytes, l, now).1.allowed then before
        else if Open(w, now) then before.(admitted := before.admitted + bytes)
        else Ledger(bytes, 0)
      case Refund(u, bytes, now) =>
        if u == user && Open(w, now) then before.(returned := before.returned + Min(bytes, w.value.bytes)) else before
      case Prune(_) => before
  }

  function RedisLedger(ops: seq<Op>, l: Limits, user: string): Ledger {
    if ops == [] then Ledger(0, 0)
    else
      var before, op := RedisLedger(ops[..|ops| - 1], l, user), ops[|ops| - 1];
      var k := KeyOf(RedisRun(ops[..|ops| - 1], l), user);
      match op
      case Consume(u, bytes, now) =>
        if u != user || !ConsumeScript(k, bytes, l, now).1.allowed then before
        else if Live(k, now) then before.(admitted := before.admitted + bytes)
        else Ledger(bytes, 0)
      case Refund(u, bytes, now) =>
        if u == user && Live(k, now) then before.(returned := before.returned + Min(bytes, k.value)) else before
      case Prune(_) => before
  }

  /**
   * While a window is open, what it holds is exactly what was admitted into it less what was given
   * back, and never more than the maximum. No tameness is assumed.
   */
  lemma {:induction false} WindowHoldsTheBalance(ops: seq<Op>, l: Limits, user: string, now: int)
    requires Usable(l) && Ordered(ops) && (ops != [] ==> ops[|ops| - 1].now <= now)
    ensures var w, ledger := WindowOf(LocalRun(ops, l), user), LocalLedger(ops, l, user);
      Open(w, now) ==> 0 <= ledger.admitted - ledger.returned == w.value.bytes <= l.maxBytes
  {
    if ops != [] {
      var n := |ops| - 1;
      WindowHoldsTheBalance(ops[..n], l, user, ops[n].now);
    }
  }

  lemma {:induction false} KeyHoldsTheBalance(ops: seq<Op>, l: Limits, user: string, now: int)
    requires Usable(l) && Ordered(ops) && (ops != [] ==> ops[|ops| - 1].now <= now)
    ensures var k, ledger := KeyOf(RedisRun(ops, l), user), RedisLedger(ops, l, user);
      Live(k, now) ==> k.expires.Some? && 0 <= ledger.admitted - ledger.returned == k.value <= l.maxBytes
  {
    if ops != [] {
      var n := |ops| - 1;
      KeyHoldsTheBalance(ops[..n], l, user, ops[n].now);
    }
  }

  // ─── Pruning ─────────────────────────────────────────────────────────────

  function WithoutPrunes(ops: seq<Op>): seq<Op> {
    if ops == [] then []
    else WithoutPrunes(ops[..|ops| - 1]) + if ops[|ops| - 1].Prune? then [] else [ops[|ops| - 1]]
  }

  /** Two windows no later decision can tell apart. */
  predicate Alike(a: Option<Window>, b: Option<Window>, now: int) {
    (Open(a, now) <==> Open(b, now)) && (Open(a, now) ==> a == b)
  }

  lemma AlikeStep(a: Option<Window>, b: Option<Window>, bytes: nat, l: Limits, before: int, now: int)
    requires Usable(l) && Alike(a, b, before) && before <= now
    ensures Alike(a, b, now)
    ensures Alike(ConsumeWindow(a, bytes, l, now).0, ConsumeWindow(b, bytes, l, now).0, now)
    ensures ConsumeWindow(a, bytes, l, now).1 == ConsumeWindow(b, bytes, l, now).1
    ensures Alike(RefundWindow(a, bytes), RefundWindow(b, bytes), now)
  {
  }

  lemma StepAt(windows: map<string, Window>, op: Op, l: Limits, user: string)
    ensures WindowOf(LocalStep(windows, op, l), user) == var w := WindowOf(windows, user);
      match op
      case Consume(u, bytes, now) => if u == user then ConsumeWindow(w, bytes, l, now).0 else w
      case Refund(u, bytes, now) => if u == user then RefundWindow(w, bytes) else w
      case Prune(now) => if Open(w, now) then w else None
  {
  }

  lemma AlikeAfter(windows: map<string, Window>, unpruned: map<string, Window>, op: Op, l: Limits, user: string)
    requires Usable(l) && Alike(WindowOf(windows, user), WindowOf(unpruned, user), op.now)
    ensures Alike(WindowOf(LocalStep(windows, op, l), user),
                  WindowOf(if op.Prune? then unpruned else LocalStep(unpruned, op, l), user), op.now)
  {
    hide LocalStep, ConsumeWindow, RefundWindow;
    StepAt(windows, op, l, user);
    StepAt(unpruned, op, l, user);
    AlikeStep(WindowOf(windows, user), WindowOf(unpruned, user), if op.Prune? then 0 else op.bytes, l, op.now, op.now);
  }

  lemma {:induction false} PrunedRunIsAlike(ops: seq<Op>, l: Limits, user: string, now: int)
    requires Usable(l) && Ordered(ops) && (ops != [] ==> ops[|ops| - 1].now <= now)
    ensures Alike(WindowOf(LocalRun(ops, l), user), WindowOf(LocalRun(WithoutPrunes(ops), l), user), now)
  {
    hide LocalStep, Alike, WindowOf;
    if ops == [] {
      AlikeToItself(WindowOf(map[], user), now);
      AlikeStep(WindowOf(map[], user), WindowOf(map[], user), 0, l, now, now);
    } else {
      var n := |ops| - 1;
      var op, kept := ops[n], WithoutPrunes(ops[..n]);
      PrunedRunIsAlike(ops[..n], l, user, op.now);
      AlikeAfter(LocalRun(ops[..n], l), LocalRun(kept, l), op, l, user);
      if !op.Prune? {
        assert (kept + [op])[..|kept|] == kept;
      } else {
        assert kept + [] == kept;
      }
      AlikeStep(WindowOf(LocalRun(ops, l), user), WindowOf(LocalRun(WithoutPrunes(ops), l), user), 0, l, op.now, now);
    }
  }

  lemma AlikeToItself(w: Option<Window>, now: int)
    ensures Alike(w, w, now)
  {
  }

  /** Whatever was pruned and whenever, the next decision is the one a run without pruning would give. */
  lemma PruneNeverMatters(ops: seq<Op>, user: string, bytes: nat, now: int, l: Limits)
    requires Usable(l) && Ordered(ops) && (ops != [] ==> ops[|ops| - 1].now <= now)
    ensures LocalAnswer(LocalRun(ops, l), Consume(user, bytes, now), l)
         == LocalAnswer(LocalRun(WithoutPrunes(ops), l), Consume(user, bytes, now), l)
  {
    PrunedRunIsAlike(ops, l, user, now);
    AlikeStep(WindowOf(LocalRun(ops, l), user), WindowOf(LocalRun(WithoutPrunes(ops), l), user), bytes, l, now, now);
  }

  // ─── What each call is answered ──────────────────────────────────────────

  predicate InSeconds(seconds: int, ms: int) {
    (seconds - 1) * 1000 < ms <= seconds * 1000
  }

  /** Given the budget in use and when it resets: whether the bytes fit, what is left, and for how long if not. */
  predicate Answers(d: Decision, held: int, bytes: nat, waitMs: int, l: Limits) {
    && (d.allowed <==> held + bytes <= l.maxBytes) && d.limit == l.maxBytes
    && d.remaining == l.maxBytes - held - (if d.allowed then bytes else 0)
    && (if d.allowed then d.retryAfterSeconds == 0 else InSeconds(d.retryAfterSeconds, waitMs))
  }

  /** The in-process consume, by the window and the clock. */
  lemma ConsumeLocallyIsAnswered(w: Option<Window>, bytes: nat, l: Limits, now: int)
    requires Usable(l) && (w.Some? && now < w.value.resetAt ==> 0 <= w.value.bytes <= l.maxBytes)
    ensures var (next, d) := ConsumeWindow(w, bytes, l, now);
      var open := w.Some? && now < w.value.resetAt;
      var held, ends := if open then w.value.bytes else 0, if open then w.value.resetAt else now + l.windowMs;
      && Answers(d, held, bytes, ends - now, l)
      && next == (if d.allowed then Some(Window(held + bytes, ends)) else w)
  {
  }

  /**
   * The script's, by the key and the clock: the same, but that a budget in use of nothing, or a key that would never
   * expire, starts a new window.
   */
  lemma ConsumeInRedisIsAnswered(k: Key, bytes: nat, l: Limits, now: int)
    requires Usable(l) && (k.Key? && (k.expires.Some? ==> now < k.expires.value) ==> 0 <= k.value <= l.maxBytes)
    ensures var (next, reply) := ConsumeScript(k, bytes, l, now);
      var held := if k.Key? && (k.expires.Some? ==> now < k.expires.value) then k.value else 0;
      var timed := k.Key? && k.expires.Some? && now < k.expires.value;
      var ends := if timed then k.expires.value else now + l.windowMs;
      && Answers(ToDecision(reply, l), held, bytes, ends - now, l)
      && next == (if !reply.allowed then k else Key(held + bytes, Some(if held == 0 then now + l.windowMs else ends)))
  {
  }

  lemma WindowFits(ops: seq<Op>, l: Limits, user: string, now: int)
    requires Usable(l) && Ordered(ops) && (ops != [] ==> ops[|ops| - 1].now <= now)
    ensures var w := WindowOf(LocalRun(ops, l), user);
      w.Some? && now < w.value.resetAt ==> 0 <= w.value.bytes <= l.maxBytes
  {
    WindowHoldsTheBalance(ops, l, user, now);
    hide LocalRun, LocalLedger, WindowOf, Ordered;
  }

  lemma KeyFits(ops: seq<Op>, l: Limits, user: string, now: int)
    requires Usable(l) && Ordered(ops) && (ops != [] ==> ops[|ops| - 1].now <= now)
    ensures var k := KeyOf(RedisRun(ops, l), user);
      k.Key? && (k.expires.Some? ==> now < k.expires.value) ==> k.expires.Some? && 0 <= k.value <= l.maxBytes
  {
    KeyHoldsTheBalance(ops, l, user, now);
    hide RedisRun, RedisLedger, KeyOf, Ordered;
  }

  /** Whatever ran before, on any limits the service accepts, that is what both answer. */
  lemma RunsAreAnswered(ops: seq<Op>, l: Limits, user: string, bytes: nat, now: int)
    requires Usable(l) && Ordered(ops) && (ops != [] ==> ops[|ops| - 1].now <= now)
    ensures var w := WindowOf(LocalRun(ops, l), user);
      var open := w.Some? && now < w.value.resetAt;
      Answers(ConsumeWindow(w, bytes, l, now).1, if open then w.value.bytes else 0, bytes,
              if open then w.value.resetAt - now else l.windowMs, l)
    ensures var k := KeyOf(RedisRun(ops, l), user);
      var open := k.Key? && k.expires.Some? && now < k.expires.value;
      Answers(ToDecision(ConsumeScript(k, bytes, l, now).1, l), if open then k.value else 0, bytes,
              if open then k.expires.value - now else l.windowMs, l)
  {
    hide *;
    WindowFits(ops, l, user, now);
    KeyFits(ops, l, user, now);
    ConsumeLocallyIsAnswered(WindowOf(LocalRun(ops, l), user), bytes, l, now);
    ConsumeInRedisIsAnswered(KeyOf(RedisRun(ops, l), user), bytes, l, now);
  }

  /** A refund gives the bytes back, never more than are there, and only while there are any. */
  lemma RefundsLeave(w: Option<Window>, k: Key, bytes: nat, now: int)
    requires w.Some? ==> w.value.bytes >= 0
    requires k.Key? ==> k.expires.Some? && k.value >= 0
    ensures RefundWindow(w, bytes) == if w.None? then None
      else Some(Window(if bytes <= w.value.bytes then w.value.bytes - bytes else 0, w.value.resetAt))
    ensures RefundScript(k, bytes, now) == if k.Absent? || k.expires.value <= now then k
      else Key(if bytes <= k.value then k.value - bytes else 0, k.expires)
  {
  }

  lemma PruneLeaves(windows: map<string, Window>, now: int, user: string)
    ensures user in Pruned(windows, now) <==> user in windows && now < windows[user].resetAt
    ensures user in Pruned(windows, now) ==> Pruned(windows, now)[user] == windows[user]
  {
  }
}
