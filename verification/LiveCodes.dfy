/** How many emailed codes of one account and purpose are live, when requests for them overlap. */
module LiveCodes {
  import opened Prelude
  import opened EmailCodes

  function Live(s: State, to: Recipient): set<CodeId> {
    set c | c in s.codes && !s.codes[c].consumed && Recipient(s.codes[c].user, s.codes[c].purpose) == to
  }

  function Issuing(s: State, to: Recipient): set<nat> {
    set r | r in s.issuing && s.issuing[r] == to
  }

  /** At every moment of the run at most `k` codes are on their way to `to`. */
  predicate AtMostIssuing(s: State, steps: seq<Step>, to: Recipient, k: nat) {
    |Issuing(Run(s, steps), to)| <= k && (steps == [] || AtMostIssuing(s, steps[..|steps| - 1], to, k))
  }

  lemma SupersedeLive(s: State, r: nat, user: User, purpose: Purpose, to: Recipient)
    ensures var next := Apply(s, Supersede(r, user, purpose));
      && Live(next, to) <= Live(s, to) && Issuing(s, to) <= Issuing(next, to)
      && (Live(next, to) == {} || Issuing(next, to) == Issuing(s, to))
  {
    var next := Apply(s, Supersede(r, user, purpose));
    if r !in s.issuing && Recipient(user, purpose) == to {
      assert Live(next, to) == {};
    } else {
      assert Issuing(next, to) == Issuing(s, to);
    }
  }

  lemma StoreMoves(s: State, r: nat, c: CodeId, secret: string, to: Recipient)
    requires s.codes.Keys <= s.issued && r in s.issuing && c !in s.issued
    ensures var next, mine := Apply(s, Store(r, c, secret)), s.issuing[r] == to;
      && Live(next, to) == (if mine then Live(s, to) + {c} else Live(s, to)) && c !in Live(s, to)
      && Issuing(next, to) == Issuing(s, to) - {r} && (r in Issuing(s, to) <==> mine)
  {
    var next := Apply(s, Store(r, c, secret));
    assert next.codes == s.codes[c := NewCode(s.issuing[r], secret, s.now)] && c !in s.codes;
    assert next.issuing == s.issuing - {r};
    var made := NewCode(s.issuing[r], secret, s.now);
    assert Recipient(made.user, made.purpose) == s.issuing[r];
    hide Apply, NewCode;
  }

  lemma StoreLive(s: State, r: nat, c: CodeId, secret: string, to: Recipient)
    requires s.codes.Keys <= s.issued
    ensures var next := Apply(s, Store(r, c, secret));
      |Live(next, to)| + |Issuing(next, to)| == |Live(s, to)| + |Issuing(s, to)|
  {
    if r in s.issuing && c !in s.issued {
      hide *;
      StoreMoves(s, r, c, secret, to);
      WithoutOne(Issuing(s, to), r);
    } else {
      assert Apply(s, Store(r, c, secret)) == s;
    }
  }

  lemma OthersLive(s: State, step: Step, to: Recipient)
    requires !step.Supersede? && !step.Store?
    ensures Live(Apply(s, step), to) <= Live(s, to) && Issuing(Apply(s, step), to) == Issuing(s, to)
  {
  }

  /** What is live and what is on its way, together. */
  ghost predicate LiveInv(s: State, to: Recipient, k: nat) {
    s.codes.Keys <= s.issued && |Live(s, to)| + |Issuing(s, to)| <= k
  }

  lemma KeysAreIssued(s: State, step: Step)
    requires s.codes.Keys <= s.issued
    ensures Apply(s, step).codes.Keys <= Apply(s, step).issued
  {
  }

  lemma LiveStep(s: State, step: Step, to: Recipient, k: nat)
    requires LiveInv(s, to, k) && |Issuing(Apply(s, step), to)| <= k
    ensures LiveInv(Apply(s, step), to, k)
  {
    var next := Apply(s, step);
    KeysAreIssued(s, step);
    hide Apply, Live, Issuing;
    match step
    case Supersede(r, user, purpose) =>
      SupersedeLive(s, r, user, purpose, to);
      SubsetCardinality(Live(next, to), Live(s, to));
    case Store(r, c, secret) => StoreLive(s, r, c, secret, to);
    case _ =>
      OthersLive(s, step, to);
      SubsetCardinality(Live(next, to), Live(s, to));
  }

  lemma {:induction false} LiveHolds(now: int, steps: seq<Step>, to: Recipient, k: nat)
    requires AtMostIssuing(Init(now), steps, to, k)
    ensures LiveInv(Run(Init(now), steps), to, k)
  {
    if steps == [] {
      assert Live(Init(now), to) == {} && Issuing(Init(now), to) == {};
    } else {
      hide Apply, LiveInv, Issuing;
      LiveHolds(now, steps[..|steps| - 1], to, k);
      LiveStep(Run(Init(now), steps[..|steps| - 1]), steps[|steps| - 1], to, k);
    }
  }

  /** With at most `k` codes on their way at once, an account never has more than `k` live codes of one purpose. */
  lemma LiveCodesBounded(now: int, steps: seq<Step>, to: Recipient, k: nat)
    requires AtMostIssuing(Init(now), steps, to, k)
    ensures |Live(Run(Init(now), steps), to)| <= k
  {
    hide Run;
    LiveHolds(now, steps, to, k);
  }

  const STUDENT := Recipient(0, Reset)

  /** The calls from `stored` to `k` have superseded what there was, those before have stored their codes. */
  ghost predicate Waiting(s: State, stored: nat, k: nat) {
    && (forall r :: r in s.issuing <==> stored <= r < k)
    && (forall r :: r in s.issuing ==> s.issuing[r] == STUDENT)
    && (forall c :: c in s.issued <==> 0 <= c < stored)
    && (forall c :: c in s.codes <==> 0 <= c < stored)
    && (forall c :: c in s.codes ==>
          !s.codes[c].consumed && s.codes[c].user == STUDENT.user && s.codes[c].purpose == STUDENT.purpose)
  }

  lemma FewIssuing(s: State, stored: nat, k: nat)
    requires Waiting(s, stored, k)
    ensures |Issuing(s, STUDENT)| <= k
  {
    IndexSetBound(Issuing(s, STUDENT), 0, k);
  }

  lemma OneMore(s: State, steps: seq<Step>, step: Step, to: Recipient, k: nat)
    requires AtMostIssuing(s, steps, to, k) && |Issuing(Apply(Run(s, steps), step), to)| <= k
    ensures AtMostIssuing(s, steps + [step], to, k) && Run(s, steps + [step]) == Apply(Run(s, steps), step)
  {
    hide Issuing, Apply;
    RunLast(s, steps, step);
    assert (steps + [step])[..|steps|] == steps;
  }

  lemma SupersedesOne(s: State, n: nat)
    requires Waiting(s, 0, n)
    ensures Waiting(Apply(s, Supersede(n, STUDENT.user, STUDENT.purpose)), 0, n + 1)
  {
  }

  lemma StoresOne(s: State, n: nat, k: nat)
    requires n < k && Waiting(s, n, k)
    ensures Waiting(Apply(s, Store(n, n, SECRET)), n + 1, k)
  {
    var next := Apply(s, Store(n, n, SECRET));
    assert next.codes == s.codes[n := NewCode(STUDENT, SECRET, s.now)] && next.issuing == s.issuing - {n};
    assert next.issued == s.issued + {n};
    hide Apply;
  }

  lemma NoneWaiting(now: int)
    ensures Waiting(Init(now), 0, 0) && Run(Init(now), []) == Init(now)
  {
  }

  /** All of them supersede before any stores. */
  lemma {:induction false} AllSupersede(now: int, n: nat, k: nat) returns (steps: seq<Step>)
    requires n <= k
    ensures AtMostIssuing(Init(now), steps, STUDENT, k) && Waiting(Run(Init(now), steps), 0, n)
  {
    if n == 0 {
      steps := [];
      NoneWaiting(now);
      FewIssuing(Init(now), 0, 0);
    } else {
      steps := AllSupersede(now, n - 1, k);
      hide *;
      var step := Supersede(n - 1, STUDENT.user, STUDENT.purpose);
      SupersedesOne(Run(Init(now), steps), n - 1);
      FewIssuing(Apply(Run(Init(now), steps), step), 0, n);
      OneMore(Init(now), steps, step, STUDENT, k);
      steps := steps + [step];
    }
  }

  lemma {:induction false} AllStore(now: int, n: nat, k: nat) returns (steps: seq<Step>)
    requires n <= k
    ensures AtMostIssuing(Init(now), steps, STUDENT, k) && Waiting(Run(Init(now), steps), n, k)
  {
    hide *;
    if n == 0 {
      steps := AllSupersede(now, k, k);
    } else {
      steps := AllStore(now, n - 1, k);
      var step := Store(n - 1, n - 1, SECRET);
      StoresOne(Run(Init(now), steps), n - 1, k);
      FewIssuing(Apply(Run(Init(now), steps), step), n, k);
      OneMore(Init(now), steps, step, STUDENT, k);
      steps := steps + [step];
    }
  }

  lemma AllAreLive(s: State, k: nat)
    requires Waiting(s, k, k)
    ensures |Live(s, STUDENT)| >= k
  {
    IndexSetHolds(Live(s, STUDENT), 0, k);
  }

  /** The bound is exact: `k` overlapping requests for a code leave `k` of them live. */
  lemma LiveBoundIsReached(now: int, k: nat)
    ensures exists steps :: AtMostIssuing(Init(now), steps, STUDENT, k) && |Live(Run(Init(now), steps), STUDENT)| == k
  {
    hide *;
    var steps := AllStore(now, k, k);
    AllAreLive(Run(Init(now), steps), k);
    LiveCodesBounded(now, steps, STUDENT, k);
    assert AtMostIssuing(Init(now), steps, STUDENT, k) && |Live(Run(Init(now), steps), STUDENT)| == k;
  }}
