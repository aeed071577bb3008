/** What each call on books is answered and leaves, in terms of the two tables and the clock alone. */
module BookAnswers {
  import opened Prelude
  import opened BookHandover

  /** Somebody holds or awaits the book. */
  ghost predicate Wanted(s: State, b: BookId) {
    exists r :: r in s.requests && s.requests[r].book == b
                && (s.requests[r].status == Pending || s.requests[r].status == Accepted)
  }

  ghost predicate Awaited(s: State, b: BookId) {
    exists r :: r in s.requests && s.requests[r].book == b && s.requests[r].status == Pending
  }

  ghost predicate TurnedDown(s: State, b: BookId, user: User) {
    exists r :: r in s.requests && s.requests[r].book == b && s.requests[r].requester == user
                && s.requests[r].status == Declined
  }

  lemma ActiveSets(s: State, b: BookId)
    ensures Of(s.requests, b, Pending) != {} <==> Awaited(s, b)
    ensures Of(s.requests, b, Pending) + Of(s.requests, b, Accepted) != {} <==> Wanted(s, b)
  {
    var pending, accepted := Of(s.requests, b, Pending), Of(s.requests, b, Accepted);
    if Awaited(s, b) {
      var r :| r in s.requests && s.requests[r].book == b && s.requests[r].status == Pending;
      assert r in pending;
    }
    if Wanted(s, b) {
      var r :| r in s.requests && s.requests[r].book == b
        && (s.requests[r].status == Pending || s.requests[r].status == Accepted);
      assert r in pending + accepted;
    }
  }

  // ─── Asking ──────────────────────────────────────────────────────────────

  /**
   * A request succeeds exactly for a visible, available book of somebody else's that nobody holds or awaits and that
   * this user was never turned down for, whatever its department; every refusal has its case.
   */
  lemma AskIsAnswered(s: State, r: RequestId, b: BookId, user: User)
    ensures var o := Apply(s, Ask(r, b, user)).1;
      var there := b in s.books && !s.books[b].hidden;
      var open := there && s.books[b].status == Available;
      && (o == NotFound <==> !there)
      && (o == BadRequest <==>
            there && (s.books[b].status != Available || (s.books[b].donor != user && Wanted(s, b))))
      && (o == Forbidden <==>
            open && (s.books[b].donor == user || (!Wanted(s, b) && TurnedDown(s, b, user))))
      && (o == Done <==> open && s.books[b].donor != user && !Wanted(s, b) && !TurnedDown(s, b, user))
  {
    ActiveSets(s, b);
    hide Of, Wanted, Awaited;
  }

  /** A successful request adds one pending row of this user's and touches nothing else. */
  lemma AskLeaves(s: State, r: RequestId, b: BookId, user: User)
    requires Apply(s, Ask(r, b, user)).1 == Done
    ensures var t := Apply(s, Ask(r, b, user)).0;
      && t.requests == s.requests[r := Request(b, user, Pending, None, None, None, None, None)]
      && t == s.(requests := t.requests, requestIds := s.requestIds + {r})
  {
    hide Of, HasDeclined;
  }

  /** Calling a request off costs nothing: while the book is visible, its requester can ask again at once. */
  lemma CancelledCanAskAgain(s: State, b: BookId, r: RequestId, party: User, again: RequestId)
    requires Inv(s) && Apply(s, Cancel(b, r, party)).1 == Done && !s.books[b].hidden
    ensures var t := Apply(s, Cancel(b, r, party)).0; Apply(t, Ask(again, b, s.requests[r].requester)).1 == Done
  {
    EndedCanAskAgain(s, Cancel(b, r, party), b, r, again);
  }

  /** Nor does letting a reservation run out. */
  lemma ExpiredCanAskAgain(s: State, b: BookId, r: RequestId, again: RequestId)
    requires Inv(s) && On(s.requests, r, b) && s.requests[r].status == Accepted && b in s.books && !s.books[b].hidden
    requires s.requests[r].acceptedAt.Some? && s.requests[r].acceptedAt.value < s.now - 259_200_000
    ensures var t := Apply(s, ExpireStaleReservations).0; Apply(t, Ask(again, b, s.requests[r].requester)).1 == Done
  {
    assert r in Stale(s) && b in BooksOf(s.requests, Stale(s));
    assert RequestInv(s, r);
    EndedCanAskAgain(s, ExpireStaleReservations, b, r, again);
  }

  lemma EndedCanAskAgain(s: State, call: Call, b: BookId, r: RequestId, again: RequestId)
    requires Inv(s) && Fresh(s, call) && On(s.requests, r, b) && Active(s.requests[r].status)
    requires call.Cancel? || call.ExpireStaleReservations?
    requires var t := After(s, call);
      && b in t.books && b in s.books && t.books[b] == s.books[b].(status := Available) && !s.books[b].hidden
      && On(t.requests, r, b) && !Active(t.requests[r].status)
    ensures Apply(After(s, call), Ask(again, b, s.requests[r].requester)).1 == Done
  {
    var t, user := After(s, call), s.requests[r].requester;
    assert RequestInv(s, r) && BookInv(s, b);
    CallKeepsInv(s, call);
    assert BookInv(t, b);
    hide Inv;
    NoneLeft(s, call, b, r);
    AskIsAnswered(t, again, b, user);
    NotTurnedDown(s, call, b, r);
    hide *;
  }

  /** The one active request on the book is gone. */
  lemma NoneLeft(s: State, call: Call, b: BookId, r: RequestId)
    requires Inv(s) && On(s.requests, r, b) && Active(s.requests[r].status)
    requires (call.Cancel? || call.ExpireStaleReservations?) && var t := After(s, call);
      On(t.requests, r, b) && !Active(t.requests[r].status)
    ensures !Wanted(After(s, call), b)
  {
    var t := After(s, call);
    if Wanted(t, b) {
      var q :| q in t.requests && t.requests[q].book == b
        && (t.requests[q].status == Pending || t.requests[q].status == Accepted);
      assert q in s.requests && s.requests[q] == t.requests[q];
      OneActive(s, q, r);
    }
  }

  lemma NotTurnedDown(s: State, call: Call, b: BookId, r: RequestId)
    requires RequestInv(s, r) && On(s.requests, r, b) && Active(s.requests[r].status)
    requires call.Cancel? || call.ExpireStaleReservations?
    ensures !TurnedDown(After(s, call), b, s.requests[r].requester)
  {
    var t := After(s, call);
    assert forall q :: q in t.requests && t.requests[q].status == Declined ==>
      q in s.requests && s.requests[q] == t.requests[q];
  }

  // ─── Answering ───────────────────────────────────────────────────────────

  /** Accepting needs a Telegram handle, the donor, an available book and a pending request on it. */
  lemma AcceptIsAnswered(s: State, b: BookId, r: RequestId, user: User, telegram: bool)
    ensures var o := Apply(s, Accept(b, r, user, telegram)).1;
      var mine := telegram && b in s.books && s.books[b].donor == user;
      var open := mine && s.books[b].status == Available;
      var on := r in s.requests && s.requests[r].book == b;
      && (o == Done <==> open && on && s.requests[r].status == Pending)
      && (o == NotFound <==> telegram && (b !in s.books || (open && !on)))
      && (o == Forbidden <==> telegram && b in s.books && s.books[b].donor != user)
      && (o == BadRequest <==>
            || !telegram
            || (mine && (s.books[b].status != Available || (on && s.requests[r].status != Pending))))
  {
    hide Rivals, TurnAway, WithStatus;
  }

  /** Declining needs the donor and a pending request on the book. */
  lemma DeclineIsAnswered(s: State, b: BookId, r: RequestId, user: User)
    ensures var o := Apply(s, Decline(b, r, user)).1;
      var mine := b in s.books && s.books[b].donor == user;
      var on := r in s.requests && s.requests[r].book == b;
      && (o == Done <==> mine && on && s.requests[r].status == Pending)
      && (o == NotFound <==> b !in s.books || (mine && !on))
      && (o == Forbidden <==> b in s.books && s.books[b].donor != user)
      && (o == BadRequest <==> mine && on && s.requests[r].status != Pending)
  {
  }

  /** Cancelling needs one of the two parties and a request still pending or accepted. */
  lemma CancelIsAnswered(s: State, b: BookId, r: RequestId, user: User)
    ensures var o := Apply(s, Cancel(b, r, user)).1;
      var there := r in s.requests && s.requests[r].book == b && b in s.books;
      var party := there && (s.requests[r].requester == user || s.books[b].donor == user);
      var active := there && (s.requests[r].status == Pending || s.requests[r].status == Accepted);
      && (o == Done <==> party && active) && (o == NotFound <==> !there)
      && (o == Forbidden <==> there && !party) && (o == BadRequest <==> party && !active)
  {
  }

  /** Confirming the handover needs the requester and an accepted request. */
  lemma CompleteIsAnswered(s: State, b: BookId, r: RequestId, user: User)
    requires Inv(s)
    ensures var o := Apply(s, Complete(b, r, user)).1;
      var on := r in s.requests && s.requests[r].book == b;
      && (o == Done <==> on && s.requests[r].requester == user && s.requests[r].status == Accepted)
      && (o == NotFound <==> !on) && (o == Forbidden <==> on && s.requests[r].requester != user)
      && (o == BadRequest <==> on && s.requests[r].requester == user && s.requests[r].status != Accepted)
  {
    assert RequestInv(s, r);
    hide Inv;
  }

  /** What the four answers leave of the request, its book and every other row. */
  lemma AnswersLeave(s: State, call: Call, q: RequestId, c: BookId)
    requires call.Accept? || call.Decline? || call.Cancel? || call.Complete?
    requires Apply(s, call).1 == Done
    ensures var t, r, b := Apply(s, call).0, call.request, call.book;
      && t.requests.Keys == s.requests.Keys && t.books.Keys == s.books.Keys && r in s.requests && b in s.books
      && (c in s.books && c != b ==> t.books[c] == s.books[c])
      && t.books[b] == (
           if call.Accept? then s.books[b].(status := Reserved)
           else if call.Cancel? then s.books[b].(status := Available)
           else if call.Complete? then s.books[b].(status := Donated)
           else s.books[b])
      && t.requests[r] == (
           if call.Accept? then s.requests[r].(status := Accepted, resolvedAt := Some(s.now), acceptedAt := Some(s.now))
           else if call.Decline? then s.requests[r].(status := Declined, resolvedAt := Some(s.now))
           else if call.Cancel? then
             s.requests[r].(status := Cancelled, resolvedAt := Some(s.now), cancelledAt := Some(s.now))
           else s.requests[r].(status := Completed, completedAt := Some(s.now)))
      && (q in s.requests && q != r ==>
            var lost := call.Accept? && s.requests[q].book == b && s.requests[q].status == Pending;
            var away := s.requests[q].(status := Declined, resolvedAt := Some(s.now));
            t.requests[q] == if lost then away else s.requests[q])
  {
  }

  /** Exactly the reservations more than three days old end, and their books come back. */
  lemma SweepLeaves(s: State, q: RequestId, c: BookId)
    ensures var t := Apply(s, ExpireStaleReservations).0;
      && Apply(s, ExpireStaleReservations).1 == Done
      && t.requests.Keys == s.requests.Keys && t.books.Keys == s.books.Keys
      && (q in s.requests ==>
            var over := s.requests[q].(status := Expired, expiredAt := Some(s.now), resolvedAt := Some(s.now));
            t.requests[q] == if StaleBy(s.requests[q], s.now) then over else s.requests[q])
      && (c in s.books ==>
           if exists r :: r in s.requests && s.requests[r].book == c && StaleBy(s.requests[r], s.now)
           then t.books[c] == s.books[c].(status := Available) else t.books[c] == s.books[c])
  {
    forall r | r in s.requests ensures r in Stale(s) <==> StaleBy(s.requests[r], s.now) {}
    hide Stale, StaleBy;
  }

  /** Accepted more than three days ago. */
  predicate StaleBy(request: Request, now: int) {
    request.status == Accepted && request.acceptedAt.Some? && request.acceptedAt.value < now - 259_200_000
  }

  // ─── The donor's own calls ───────────────────────────────────────────────

  /** A listing is refused only for a department that does not exist. */
  lemma DonateIsAnswered(s: State, b: BookId, user: User, department: Option<MajorId>)
    ensures var (t, o) := Apply(s, Donate(b, user, department));
      && (o == Done <==> department.Some? ==> department.value in s.majors) && (o != Done ==> o == BadRequest && t == s)
      && (o == Done ==>
            t == s.(books := s.books[b := Book(user, department, Available, false)], bookIds := s.bookIds + {b}))
  {
  }

  /** Editing and deleting are the donor's, while nobody has the book or waits for it. */
  lemma EditIsAnswered(s: State, b: BookId, user: User, department: Option<Option<MajorId>>)
    ensures var (t, o) := Apply(s, EditBook(b, user, department));
      var mine := b in s.books && s.books[b].donor == user;
      var free := mine && s.books[b].status == Available && !Awaited(s, b);
      var known := department.Some? && department.value.Some? ==> department.value.value in s.majors;
      && (o == NotFound <==> b !in s.books) && (o == Forbidden <==> b in s.books && !mine)
      && (o == BadRequest <==> mine && !free) && (o == ServerError <==> free && !known)
      && (o == Done <==> free && known) && (o != Done || department.None? ==> t == s)
      && (o == Done && department.Some? ==> t == s.(books := s.books[b := s.books[b].(major := department.value)]))
  {
    ActiveSets(s, b);
    hide Of, Awaited;
  }

  lemma RemoveIsAnswered(s: State, b: BookId, user: User, r: RequestId)
    ensures var (t, o) := Apply(s, Remove(b, user));
      var mine := b in s.books && s.books[b].donor == user;
      var free := mine && s.books[b].status == Available && !Awaited(s, b);
      && (o == NotFound <==> b !in s.books) && (o == Forbidden <==> b in s.books && !mine)
      && (o == BadRequest <==> mine && !free) && (o == Done <==> free)
      && (o == Done ==> t.books == s.books - {b})
      && (o == Done ==> (r in t.requests <==> r in s.requests && s.requests[r].book != b))
      && (r in t.requests ==> r in s.requests && t.requests[r] == s.requests[r])
  {
    ActiveSets(s, b);
    hide Of, Awaited;
  }

  /** An admin deletes and hides whatever is there. */
  lemma AdminIsAnswered(s: State, b: BookId, hidden: bool, r: RequestId)
    ensures var (t, o) := Apply(s, DeleteBook(b));
      && (o == Done <==> b in s.books) && (o != Done ==> o == NotFound && t == s)
      && (o == Done ==> t.books == s.books - {b} && (r in t.requests <==> r in s.requests && s.requests[r].book != b))
      && (r in t.requests ==> r in s.requests && t.requests[r] == s.requests[r])
    ensures var (t, o) := Apply(s, SetBookHidden(b, hidden));
      && (o == Done <==> b in s.books) && (o != Done ==> o == NotFound && t == s)
      && (o == Done ==> t == s.(books := s.books[b := s.books[b].(hidden := hidden)]))
  {
  }
}
