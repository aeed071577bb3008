/** What a one-time code is answered and for how long, in terms of its row and the clock alone. */
module EmailAnswers {
  import opened Prelude
  import opened EmailCodes
  import opened EmailTokens

  /** The four answers, each with its exact case, whether the code is to be spent or only checked. */
  lemma RedeemIsAnswered(code: Code, now: int, guess: string, consume: bool)
    ensures var o := Redeem(code, now, guess, consume).1;
      && (o == Accepted <==> now < code.expiresAt && code.attempts < 5 && guess == code.secret)
      && (o == Expired <==> code.expiresAt <= now)
      && (o == TooMany <==> now < code.expiresAt && code.attempts >= 5)
      && (o == Refused <==> now < code.expiresAt && code.attempts < 5 && guess != code.secret)
  {
  }

  /** What it leaves: burned when expired or capped, spent when accepted for good, a miss counted when wrong. */
  lemma RedeemLeaves(code: Code, now: int, guess: string, consume: bool)
    ensures var row := Redeem(code, now, guess, consume).0;
      var wrong := now < code.expiresAt && code.attempts < 5 && guess != code.secret;
      && (row.user, row.purpose, row.secret, row.expiresAt) == (code.user, code.purpose, code.secret, code.expiresAt)
      && row.attempts == (if wrong then code.attempts + 1 else code.attempts)
      && (row.consumed <==> code.consumed || code.expiresAt <= now || code.attempts >= 5
                            || (consume && guess == code.secret))
  {
  }

  /** Issuing a code consumes every other of its account and purpose, and touches no other; the new one is unused. */
  lemma IssueLeaves(codes: map<CodeId, Code>, to: Recipient, id: CodeId, raw: string, now: int, c: CodeId)
    ensures var t := Reissued(codes, to, id, raw, now);
      && t.Keys == codes.Keys + {id} && t[id] == Code(to.user, to.purpose, raw, now + 180_000, 0, false)
      && (c in codes && c != id ==>
            var same := codes[c].user == to.user && codes[c].purpose == to.purpose;
            t[c] == codes[c].(consumed := codes[c].consumed || same))
  {
  }

  /** The retention job takes exactly the codes that have expired. */
  lemma PurgeLeaves(s: State, c: CodeId)
    ensures var t := Apply(s, PurgeExpired);
      && (c in t.codes <==> c in s.codes && s.now <= s.codes[c].expiresAt)
      && (c in t.codes ==> t.codes[c] == s.codes[c])
  {
  }

  // ─── Three minutes ───────────────────────────────────────────────────────

  /** While the row is there, it is the one that was stored; and once purged it never comes back. */
  ghost predicate Stands(s: State, c: CodeId, secret: string, expiresAt: int) {
    && c in s.issued && s.codes.Keys <= s.issued
    && (c in s.codes ==> s.codes[c].secret == secret && s.codes[c].expiresAt == expiresAt)
  }

  lemma StandsStep(s: State, step: Step, c: CodeId, secret: string, expiresAt: int)
    requires Stands(s, c, secret, expiresAt)
    ensures Stands(Apply(s, step), c, secret, expiresAt)
  {
  }

  lemma {:induction false} StandsAll(s: State, steps: seq<Step>, c: CodeId, secret: string, expiresAt: int)
    requires Stands(s, c, secret, expiresAt)
    ensures Stands(Run(s, steps), c, secret, expiresAt)
  {
    if steps != [] {
      hide Apply, Stands;
      StandsAll(s, steps[..|steps| - 1], c, secret, expiresAt);
      StandsStep(Run(s, steps[..|steps| - 1]), steps[|steps| - 1], c, secret, expiresAt);
    }
  }

  lemma StoredForThreeMinutes(s: State, r: nat, c: CodeId, secret: string)
    requires r in s.issuing && c !in s.issued && s.codes.Keys <= s.issued
    ensures Stands(Apply(s, Store(r, c, secret)), c, secret, s.now + 180_000)
    ensures c in Apply(s, Store(r, c, secret)).codes
  {
  }

  lemma CodesAreIssued(now: int, steps: seq<Step>)
    ensures Run(Init(now), steps).codes.Keys <= Run(Init(now), steps).issued
  {
    SpentHolds(now, steps, 0);
  }

  /**
   * Under any interleaving, a call that reads an unspent code goes on to compare a guess with it exactly in the three
   * minutes after it was stored and under the cap; a call made whole accepts its secret exactly then.
   */
  lemma ThreeMinutesExactly(now: int, before: seq<Step>, r: nat, c: CodeId, secret: string, after: seq<Step>,
                            q: nat, guess: string, consume: bool)
    requires var s := Run(Init(now), before); r in s.issuing && c !in s.issued
    requires var later := Run(Apply(Run(Init(now), before), Store(r, c, secret)), after);
      c in later.codes && !later.codes[c].consumed && q !in later.requests
    ensures var stored := Run(Init(now), before).now;
      var later := Run(Apply(Run(Init(now), before), Store(r, c, secret)), after);
      var usable := later.now < stored + 180_000 && later.codes[c].attempts < 5;
      var read := Apply(later, Read(q, c, guess, consume));
      && (usable <==> q in read.requests && read.requests[q].Comparing?)
      && (Redeem(later.codes[c], later.now, guess, consume).1 == Accepted <==> usable && guess == secret)
      && (Redeem(later.codes[c], later.now, guess, consume).1 == Expired <==> stored + 180_000 <= later.now)
  {
    CodesAreIssued(now, before);
    var s := Run(Init(now), before);
    var next := Apply(s, Store(r, c, secret));
    StoredForThreeMinutes(s, r, c, secret);
    StandsAll(next, after, c, secret, s.now + 180_000);
    var later := Run(next, after);
    hide Run;
    assert later.codes[c].expiresAt == s.now + 180_000 && later.codes[c].secret == secret;
    RedeemIsAnswered(later.codes[c], later.now, guess, consume);
    hide Redeem, Stands, Superseded, Unexpired;
  }
}
