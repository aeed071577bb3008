/**
 * The book handover of books.service.ts: a book row and its requests, moved together by whole calls.
 * The partial unique index "one pending or accepted request per book" is a consequence here, not a guard.
 */
module BookHandover {
  import opened Prelude

  type BookId = nat
  type RequestId = nat
  type User = nat
  type MajorId = nat

  datatype BookStatus = Available | Reserved | Donated
  datatype Book = Book(donor: User, major: Option<MajorId>, status: BookStatus, hidden: bool)

  datatype RequestStatus = Pending | Accepted | Declined | Cancelled | Expired | Completed
  datatype Request = Request(
    book: BookId, requester: User, status: RequestStatus,
    resolvedAt: Option<int>, acceptedAt: Option<int>, completedAt: Option<int>, cancelledAt: Option<int>,
        expiredAt: Option<int>)

  type Books = map<BookId, Book>
  type Requests = map<RequestId, Request>

  /** `bookIds` and `requestIds` are the identifiers ever handed out. */
  datatype State = State(
    now: int, majors: set<MajorId>, books: Books, requests: Requests, bookIds: set<BookId>, requestIds: set<RequestId>)

  datatype Call =
    | Wait(ms: nat)
    | Donate(book: BookId, user: User, department: Option<MajorId>)
    | EditBook(book: BookId, user: User, newDepartment: Option<Option<MajorId>>)
    | Remove(book: BookId, user: User)
    | Ask(request: RequestId, book: BookId, user: User)
    | Accept(book: BookId, request: RequestId, user: User, telegram: bool)
    | Cancel(book: BookId, request: RequestId, user: User)
    | Complete(book: BookId, request: RequestId, user: User)
    | Decline(book: BookId, request: RequestId, user: User)
    | ExpireStaleReservations
    | DeleteBook(book: BookId)
    | SetBookHidden(book: BookId, hidden: bool)

  datatype Outcome = Done | NotFound | Forbidden | BadRequest | ServerError

  const RESERVATION_MS := 3 * 24 * 60 * 60 * 1000

  // ─── The two tables ──────────────────────────────────────────────────────

  predicate Active(status: RequestStatus) {
    status.Pending? || status.Accepted?
  }

  /** The requests on a book that have a status. */
  function Of(requests: Requests, b: BookId, status: RequestStatus): set<RequestId> {
    set r | r in requests && requests[r].book == b && requests[r].status == status
  }

  predicate HasDeclined(requests: Requests, b: BookId, user: User) {
    exists r :: r in requests && requests[r].book == b && requests[r].requester == user
        && requests[r].status == Declined
  }

  /** The row is there and belongs to the book named in the path. */
  predicate On(requests: Requests, r: RequestId, b: BookId) {
    r in requests && requests[r].book == b
  }

  function WithStatus(books: Books, b: BookId, status: BookStatus): Books {
    if b in books then books[b := books[b].(status := status)] else books
  }

  /** Deleting a book takes its requests with it. */
  function Cascade(requests: Requests, b: BookId): Requests {
    map r | r in requests && requests[r].book != b :: requests[r]
  }

  function TurnedAway(request: Request, now: int): Request {
    request.(status := Declined, resolvedAt := Some(now))
  }

  /** The pending requests on a book that lose to `winner`. */
  function Rivals(requests: Requests, b: BookId, winner: RequestId): set<RequestId> {
    set r | r in requests && requests[r].book == b && requests[r].status == Pending && r != winner
  }

  function TurnAway(requests: Requests, losers: set<RequestId>, now: int): Requests {
    map r | r in requests :: if r in losers then TurnedAway(requests[r], now) else requests[r]
  }

  function Stale(s: State): set<RequestId> {
    set r | r in s.requests && s.requests[r].status == Accepted
      && s.requests[r].acceptedAt.Some? && s.requests[r].acceptedAt.value < s.now - RESERVATION_MS
  }

  function RanOut(request: Request, now: int): Request {
    request.(status := Expired, expiredAt := Some(now), resolvedAt := Some(now))
  }

  function ExpireAll(requests: Requests, stale: set<RequestId>, now: int): Requests {
    map r | r in requests :: if r in stale then RanOut(requests[r], now) else requests[r]
  }

  function BooksOf(requests: Requests, some: set<RequestId>): set<BookId> {
    set r | r in some && r in requests :: requests[r].book
  }

  function ReleaseAll(books: Books, released: set<BookId>): Books {
    map b | b in books :: if b in released then books[b].(status := Available) else books[b]
  }

  // ─── One call, one step ──────────────────────────────────────────────────

  /** A department that does not exist breaks the foreign key; none at all is the choice "Other". */
  predicate Known(s: State, department: Option<MajorId>) {
    department.Some? ==> department.value in s.majors
  }

  function DonateCall(s: State, b: BookId, user: User, department: Option<MajorId>): (State, Outcome) {
    if !Known(s, department) then (s, BadRequest)
    else (s.(books := s.books[b := Book(user, department, Available, false)], bookIds := s.bookIds + {b}), Done)
  }

  function EditCall(s: State, b: BookId, user: User, department: Option<Option<MajorId>>): (State, Outcome) {
    if b !in s.books then (s, NotFound)
    else if s.books[b].donor != user then (s, Forbidden)
    else if s.books[b].status != Available || Of(s.requests, b, Pending) != {} then (s, BadRequest)
    else if department.None? then (s, Done)
    else if !Known(s, department.value) then (s, ServerError)
    else (s.(books := s.books[b := s.books[b].(major := department.value)]), Done)
  }

  function RemoveCall(s: State, b: BookId, user: User): (State, Outcome) {
    if b !in s.books then (s, NotFound)
    else if s.books[b].donor != user then (s, Forbidden)
    else if s.books[b].status != Available || Of(s.requests, b, Pending) != {} then (s, BadRequest)
    else (s.(books := s.books - {b}, requests := Cascade(s.requests, b)), Done)
  }

  function AskCall(s: State, r: RequestId, b: BookId, user: User): (State, Outcome) {
    if b !in s.books || s.books[b].hidden then (s, NotFound)
    else if s.books[b].status != Available then (s, BadRequest)
    else if s.books[b].donor == user then (s, Forbidden)
    else if Of(s.requests, b, Pending) + Of(s.requests, b, Accepted) != {} then (s, BadRequest)
    else if HasDeclined(s.requests, b, user) then (s, Forbidden)
    else (s.(requests := s.requests[r := Request(b, user, Pending, None, None, None, None, None)],
             requestIds := s.requestIds + {r}), Done)
  }

  function AcceptCall(s: State, b: BookId, r: RequestId, user: User, telegram: bool): (State, Outcome) {
    if !telegram then (s, BadRequest)
    else if b !in s.books then (s, NotFound)
    else if s.books[b].donor != user then (s, Forbidden)
    else if s.books[b].status != Available then (s, BadRequest)
    else if !On(s.requests, r, b) then (s, NotFound)
    else if s.requests[r].status != Pending then (s, BadRequest)
    else
      var won := s.requests[r := s.requests[r].(status := Accepted, resolvedAt := Some(s.now),
                                                acceptedAt := Some(s.now))];
      (s.(books := WithStatus(s.books, b, Reserved), requests := TurnAway(won, Rivals(won, b, r), s.now)), Done)
  }

  function CancelCall(s: State, b: BookId, r: RequestId, user: User): (State, Outcome) {
    if !On(s.requests, r, b) then (s, NotFound)
    else if b !in s.books then (s, NotFound)
    else if s.requests[r].requester != user && s.books[b].donor != user then (s, Forbidden)
    else if !Active(s.requests[r].status) then (s, BadRequest)
    else (s.(
      requests := s.requests[r := s.requests[r].(status := Cancelled, cancelledAt := Some(s.now),
                                                 resolvedAt := Some(s.now))],
      books := WithStatus(s.books, b, Available)), Done)
  }

  function CompleteCall(s: State, b: BookId, r: RequestId, user: User): (State, Outcome) {
    if !On(s.requests, r, b) then (s, NotFound)
    else if s.requests[r].requester != user then (s, Forbidden)
    else if s.requests[r].status != Accepted then (s, BadRequest)
    else if b !in s.books then (s, NotFound)
    else (s.(
      requests := s.requests[r := s.requests[r].(status := Completed, completedAt := Some(s.now))],
      books := WithStatus(s.books, b, Donated)), Done)
  }

  function DeclineCall(s: State, b: BookId, r: RequestId, user: User): (State, Outcome) {
    if b !in s.books then (s, NotFound)
    else if s.books[b].donor != user then (s, Forbidden)
    else if !On(s.requests, r, b) then (s, NotFound)
    else if s.requests[r].status != Pending then (s, BadRequest)
    else (s.(requests := s.requests[r := TurnedAway(s.requests[r], s.now)]), Done)
  }

  function Sweep(s: State, stale: set<RequestId>): State {
    s.(requests := ExpireAll(s.requests, stale, s.now), books := ReleaseAll(s.books, BooksOf(s.requests, stale)))
  }

  function Apply(s: State, call: Call): (State, Outcome) {
    match call
    case Wait(ms) => (s.(now := s.now + ms), Done)
    case Donate(b, user, department) => DonateCall(s, b, user, department)
    case EditBook(b, user, department) => EditCall(s, b, user, department)
    case Remove(b, user) => RemoveCall(s, b, user)
    case Ask(r, b, user) => AskCall(s, r, b, user)
    case Accept(b, r, user, telegram) => AcceptCall(s, b, r, user, telegram)
    case Cancel(b, r, user) => CancelCall(s, b, r, user)
    case Complete(b, r, user) => CompleteCall(s, b, r, user)
    case Decline(b, r, user) => DeclineCall(s, b, r, user)
    case ExpireStaleReservations => (Sweep(s, Stale(s)), Done)
    case DeleteBook(b) =>
      if b !in s.books then (s, NotFound) else (s.(books := s.books - {b}, requests := Cascade(s.requests, b)), Done)
    case SetBookHidden(b, hidden) =>
      if b !in s.books then (s, NotFound) else (s.(books := s.books[b := s.books[b].(hidden := hidden)]), Done)
  }

  function After(s: State, call: Call): State {
    Apply(s, call).0
  }

  /** Generated identifiers are new. */
  predicate Fresh(s: State, call: Call) {
    (call.Donate? ==> call.book !in s.bookIds) && (call.Ask? ==> call.request !in s.requestIds)
  }

  function Init(now: int, majors: set<MajorId>): State {
    State(now, majors, map[], map[], {}, {})
  }

  // ─── The service ─────────────────────────────────────────────────────────

  class BooksService {
    const majors: set<MajorId>
    var now: int
    var books: Books
    var requests: Requests
    var bookIds: set<BookId>
    var requestIds: set<RequestId>

    function Value(): State
      reads this
    {
      State(now, majors, books, requests, bookIds, requestIds)
    }

    constructor (now: int, majors: set<MajorId>)
      ensures Value() == Init(now, majors)
    {
      this.majors := majors;
      this.now, books, requests, bookIds, requestIds := now, map[], map[], {}, {};
    }

    method ListBook(id: BookId, donorId: User, department: Option<MajorId>) returns (o: Outcome)
      modifies this`books, this`bookIds
      ensures (Value(), o) == Apply(old(Value()), Donate(id, donorId, department))
    {
      if department.Some? && department.value !in majors {
        return BadRequest;
      }
      books := books[id := Book(donorId, department, Available, false)];
      bookIds := bookIds + {id};
      return Done;
    }

    method UpdateBook(id: BookId, userId: User, department: Option<Option<MajorId>>) returns (o: Outcome)
      modifies this`books
      ensures (Value(), o) == Apply(old(Value()), EditBook(id, userId, department))
    {
      if id !in books {
        return NotFound;
      }
      if books[id].donor != userId {
        return Forbidden;
      }
      if books[id].status == Reserved || books[id].status == Donated {
        return BadRequest;
      }
      if Of(requests, id, Pending) != {} {
        return BadRequest;
      }
      if department.Some? {
        if department.value.Some? && department.value.value !in majors {
          return ServerError;
        }
        books := books[id := books[id].(major := department.value)];
      }
      return Done;
    }

    method RemoveOwn(id: BookId, userId: User) returns (o: Outcome)
      modifies this`books, this`requests
      ensures (Value(), o) == Apply(old(Value()), Remove(id, userId))
    {
      if id !in books {
        return NotFound;
      }
      if books[id].donor != userId {
        return Forbidden;
      }
      if books[id].status == Reserved || books[id].status == Donated {
        return BadRequest;
      }
      if Of(requests, id, Pending) != {} {
        return BadRequest;
      }
      books := books - {id};
      requests := Cascade(requests, id);
      return Done;
    }

    method RequestBook(id: RequestId, bookId: BookId, requesterId: User) returns (o: Outcome)
      modifies this`requests, this`requestIds
      ensures (Value(), o) == Apply(old(Value()), Ask(id, bookId, requesterId))
    {
      if bookId !in books || books[bookId].hidden {
        return NotFound;
      }
      var book := books[bookId];
      if book.status != Available {
        return BadRequest;
      }
      if book.donor == requesterId {
        return Forbidden;
      }
      if Of(requests, bookId, Pending) + Of(requests, bookId, Accepted) != {} {
        return BadRequest;
      }
      if exists r :: r in requests && requests[r].book == bookId && requests[r].requester == requesterId
          && requests[r].status == Declined {
        return Forbidden;
      }
      requests := requests[id := Request(bookId, requesterId, Pending, None, None, None, None, None)];
      requestIds := requestIds + {id};
      return Done;
    }

    /** Turns away, one row at a time, whoever else is still pending on the book. */
    method DeclineRivals(bookId: BookId, requestId: RequestId)
      modifies this`requests
      ensures requests == TurnAway(old(requests), Rivals(old(requests), bookId, requestId), now)
    {
      var rivals := Of(requests, bookId, Pending);
      ghost var found := rivals;
      TurnAwayNone(requests, bookId, requestId, now);
      hide *;
      while rivals != {}
        invariant rivals <= found <= old(requests).Keys
        invariant requests == TurnAway(old(requests), found - rivals - {requestId}, now)
        decreases |rivals|
      {
        var rival :| rival in rivals;
        if rival != requestId {
          TurnAwayOne(old(requests), found - rivals - {requestId}, rival, now);
          requests := requests[rival := TurnedAway(requests[rival], now)];
          assert found - (rivals - {rival}) - {requestId} == found - rivals - {requestId} + {rival};
        } else {
          assert found - (rivals - {rival}) - {requestId} == found - rivals - {requestId};
        }
        rivals := rivals - {rival};
      }
      assert found - {} - {requestId} == found - {requestId};
    }

    /** `telegram`: the donor has a handle the receiver can reach. */
    method AcceptRequest(bookId: BookId, requestId: RequestId, userId: User, telegram: bool) returns (o: Outcome)
      modifies this`books, this`requests
      ensures (Value(), o) == Apply(old(Value()), Accept(bookId, requestId, userId, telegram))
    {
      if !telegram {
        return BadRequest;
      }
      if bookId !in books {
        return NotFound;
      }
      if books[bookId].donor != userId {
        return Forbidden;
      }
      if books[bookId].status != Available {
        return BadRequest;
      }
      if !On(requests, requestId, bookId) {
        return NotFound;
      }
      if requests[requestId].status != Pending {
        return BadRequest;
      }
      requests := requests[requestId := requests[requestId].(status := Accepted, resolvedAt := Some(now),
          acceptedAt := Some(now))];
      books := books[bookId := books[bookId].(status := Reserved)];
      DeclineRivals(bookId, requestId);
      return Done;
    }

    method CancelRequest(bookId: BookId, requestId: RequestId, userId: User) returns (o: Outcome)
      modifies this`books, this`requests
      ensures (Value(), o) == Apply(old(Value()), Cancel(bookId, requestId, userId))
    {
      if !On(requests, requestId, bookId) {
        return NotFound;
      }
      if bookId !in books {
        return NotFound;
      }
      var req := requests[requestId];
      if req.requester != userId && books[bookId].donor != userId {
        return Forbidden;
      }
      if req.status != Pending && req.status != Accepted {
        return BadRequest;
      }
      requests := requests[requestId := req.(status := Cancelled, cancelledAt := Some(now), resolvedAt := Some(now))];
      books := books[bookId := books[bookId].(status := Available)];
      return Done;
    }

    /** Releases the stale reservations one transaction at a time; the tables are consistent between any two. */
    method SweepReservations() returns (expired: nat)
      requires Inv(Value())
      modifies this`books, this`requests
      ensures Value() == After(old(Value()), ExpireStaleReservations) && Inv(Value())
      ensures expired == |Stale(old(Value()))|
    {
      ghost var before := Value();
      var stale := Stale(Value());
      ghost var found := stale;
      expired := |stale|;
      SweepNone(before);
      hide *;
      while stale != {}
        invariant stale <= found == Stale(before)
        invariant Value() == Sweep(before, found - stale) && Inv(Value())
        decreases |stale|
      {
        hide *;
        var r :| r in stale;
        SweepOne(before, found - stale, r);
        Release(r);
        assert found - (stale - {r}) == found - stale + {r};
        stale := stale - {r};
      }
      assert found - stale == found;
    }

    /** One transaction of the sweep: the request expires, its book goes back on the shelf. */
    method Release(r: RequestId)
      requires r in requests
      modifies this`books, this`requests
      ensures Value() == Settled(old(Value()), r, RanOut(old(requests)[r], now))
    {
      var req := requests[r];
      requests := requests[r := req.(status := Expired, expiredAt := Some(now), resolvedAt := Some(now))];
      books := WithStatus(books, req.book, Available);
    }

    method CompleteRequest(bookId: BookId, requestId: RequestId, userId: User) returns (o: Outcome)
      modifies this`books, this`requests
      ensures (Value(), o) == Apply(old(Value()), Complete(bookId, requestId, userId))
    {
      if !On(requests, requestId, bookId) {
        return NotFound;
      }
      var req := requests[requestId];
      if req.requester != userId {
        return Forbidden;
      }
      if req.status != Accepted {
        return BadRequest;
      }
      if bookId !in books {
        return NotFound;
      }
      requests := requests[requestId := req.(status := Completed, completedAt := Some(now))];
      books := books[bookId := books[bookId].(status := Donated)];
      return Done;
    }

    method DeclineRequest(bookId: BookId, requestId: RequestId, userId: User) returns (o: Outcome)
      modifies this`requests
      ensures (Value(), o) == Apply(old(Value()), Decline(bookId, requestId, userId))
    {
      if bookId !in books {
        return NotFound;
      }
      if books[bookId].donor != userId {
        return Forbidden;
      }
      if !On(requests, requestId, bookId) {
        return NotFound;
      }
      if requests[requestId].status != Pending {
        return BadRequest;
      }
      requests := requests[requestId := TurnedAway(requests[requestId], now)];
      return Done;
    }
  }

  // ─── What every call keeps ───────────────────────────────────────────────

  function One(b: bool): nat {
    if b then 1 else 0
  }

  /** The book's status is its requests, counted. */
  ghost predicate BookInv(s: State, b: BookId) {
    b in s.books ==>
      && b in s.bookIds
      && |Of(s.requests, b, Accepted)| == One(s.books[b].status == Reserved)
      && |Of(s.requests, b, Completed)| == One(s.books[b].status == Donated)
      && |Of(s.requests, b, Pending)| <= One(s.books[b].status == Available)
  }

  /** Each timestamp is set by the step it records and by no other. */
  ghost predicate Stamped(req: Request, now: int) {
    && (req.resolvedAt == None <==> req.status == Pending)
    && (req.status == Accepted || req.status == Completed ==> req.acceptedAt.Some?)
    && (req.acceptedAt.Some? ==> req.acceptedAt.value <= now)
    && (req.completedAt.Some? <==> req.status == Completed)
    && (req.cancelledAt.Some? <==> req.status == Cancelled)
    && (req.expiredAt.Some? <==> req.status == Expired)
  }

  ghost predicate RequestInv(s: State, r: RequestId) {
    r in s.requests ==>
      var req := s.requests[r];
      && r in s.requestIds && req.book in s.books && s.books[req.book].donor != req.requester
      && (Active(req.status) ==> !HasDeclined(s.requests, req.book, req.requester))
      && Stamped(req, s.now)
  }

  ghost predicate Inv(s: State) {
    (forall b :: BookInv(s, b)) && (forall r :: RequestInv(s, r))
  }

  // ─── How one row moves the counts ────────────────────────────────────────

  predicate Is(req: Request, b: BookId, status: RequestStatus) {
    req.book == b && req.status == status
  }

  lemma OnlyOneMoves(requests: Requests, r: RequestId, row: Request, b: BookId, status: RequestStatus)
    ensures r in Of(requests, b, status) <==> r in requests && Is(requests[r], b, status)
    ensures r in Of(requests[r := row], b, status) <==> Is(row, b, status)
    ensures Of(requests[r := row], b, status) - {r} == Of(requests, b, status) - {r}
  {
  }

  lemma Moved(requests: Requests, r: RequestId, row: Request, b: BookId, status: RequestStatus)
    ensures |Of(requests[r := row], b, status)| ==
      |Of(requests, b, status)| - One(r in requests && Is(requests[r], b, status)) + One(Is(row, b, status))
  {
    hide Of, Is;
    OnlyOneMoves(requests, r, row, b, status);
    WithoutOne(Of(requests, b, status), r);
    WithoutOne(Of(requests[r := row], b, status), r);
  }

  /** A request in a status is counted there. */
  lemma Counted(requests: Requests, r: RequestId)
    requires r in requests
    ensures |Of(requests, requests[r].book, requests[r].status)| >= 1
  {
    assert r in Of(requests, requests[r].book, requests[r].status);
  }

  /** The status a book has when this is what became of its one active request. */
  function StatusFor(status: RequestStatus): BookStatus {
    match status
    case Accepted => Reserved
    case Completed => Donated
    case _ => Available
  }

  function Settled(s: State, r: RequestId, row: Request): State {
    s.(requests := s.requests[r := row], books := WithStatus(s.books, row.book, StatusFor(row.status)))
  }

  lemma SettledBook(s: State, r: RequestId, row: Request, b: BookId)
    requires Inv(s) && r in s.requests && Active(s.requests[r].status)
    requires row.book == s.requests[r].book
    requires row.status != Pending
    ensures BookInv(Settled(s, r, row), b)
  {
    hide Of;
    assert BookInv(s, b) && BookInv(s, row.book) && RequestInv(s, r);
    Counted(s.requests, r);
    Moved(s.requests, r, row, b, Pending);
    Moved(s.requests, r, row, b, Accepted);
    Moved(s.requests, r, row, b, Completed);
  }

  lemma SettledRequest(s: State, r: RequestId, row: Request, q: RequestId)
    requires Inv(s) && r in s.requests && Active(s.requests[r].status)
    requires row.book == s.requests[r].book && row.requester == s.requests[r].requester
    requires row.status != Pending && Stamped(row, s.now)
    ensures RequestInv(Settled(s, r, row), q)
  {
    hide BookInv, Stamped;
    assert RequestInv(s, q) && RequestInv(s, r);
    if q in s.requests && q != r && Active(s.requests[q].status) && s.requests[q].book == row.book {
      OneActive(s, q, r);
    }
  }

  /** The unique index: two active requests of one book are the same request. */
  lemma OneActive(s: State, q: RequestId, r: RequestId)
    requires Inv(s)
    requires q in s.requests && Active(s.requests[q].status) && r in s.requests && Active(s.requests[r].status)
    requires s.requests[q].book == s.requests[r].book
    ensures q == r
  {
    var b := s.requests[r].book;
    assert BookInv(s, b) && RequestInv(s, r);
    Counted(s.requests, q);
    Counted(s.requests, r);
    SameMember(Of(s.requests, b, s.requests[r].status), q, r);
  }

  lemma SettledInv(s: State, r: RequestId, row: Request)
    requires Inv(s) && r in s.requests && Active(s.requests[r].status)
    requires row.book == s.requests[r].book && row.requester == s.requests[r].requester
    requires row.status != Pending && Stamped(row, s.now)
    ensures Inv(Settled(s, r, row))
  {
    var next := Settled(s, r, row);
    forall b ensures BookInv(next, b) { SettledBook(s, r, row, b); }
    forall q ensures RequestInv(next, q) { SettledRequest(s, r, row, q); }
  }

  // ─── The two loops ───────────────────────────────────────────────────────

  lemma TurnAwayOne(won: Requests, declined: set<RequestId>, rival: RequestId, now: int)
    requires rival in won && rival !in declined
    ensures var sofar := TurnAway(won, declined, now);
      rival in sofar && sofar[rival := TurnedAway(sofar[rival], now)] == TurnAway(won, declined + {rival}, now)
  {
  }

  lemma TurnAwayNone(requests: Requests, b: BookId, winner: RequestId, now: int)
    ensures Rivals(requests, b, winner) == Of(requests, b, Pending) - {winner}
    ensures Of(requests, b, Pending) <= requests.Keys
    ensures TurnAway(requests, Of(requests, b, Pending) - Of(requests, b, Pending) - {winner}, now) == requests
  {
  }

  lemma SweepNone(s: State)
    ensures Sweep(s, {}) == s
  {
    assert ReleaseAll(s.books, BooksOf(s.requests, {})) == s.books;
    assert ExpireAll(s.requests, {}, s.now) == s.requests;
  }

  lemma SweepIsSettling(s: State, done: set<RequestId>, r: RequestId)
    requires r in s.requests && r !in done && s.requests[r].book in s.books
    ensures var mid := Sweep(s, done);
      && r in mid.requests && mid.requests[r] == s.requests[r]
      && Sweep(s, done + {r}) == Settled(mid, r, RanOut(s.requests[r], s.now))
  {
    var mid := Sweep(s, done);
    var b := s.requests[r].book;
    assert BooksOf(s.requests, done + {r}) == BooksOf(s.requests, done) + {b};
    assert ReleaseAll(s.books, BooksOf(s.requests, done) + {b}) == WithStatus(mid.books, b, Available);
    assert ExpireAll(s.requests, done + {r}, s.now) == mid.requests[r := RanOut(s.requests[r], s.now)];
  }

  lemma SweepOne(s: State, done: set<RequestId>, r: RequestId)
    requires Inv(s) && Inv(Sweep(s, done)) && r in Stale(s) && r !in done
    ensures var mid := Sweep(s, done);
      && r in mid.requests
      && Sweep(s, done + {r}) == Settled(mid, r, RanOut(mid.requests[r], mid.now))
      && Inv(Sweep(s, done + {r}))
  {
    assert RequestInv(s, r);
    hide BookInv, RequestInv, Of;
    SweepIsSettling(s, done, r);
    SettledInv(Sweep(s, done), r, RanOut(s.requests[r], s.now));
  }

  // ─── Every call keeps the invariant ──────────────────────────────────────

  /** The loop over rivals in `accept` never has anyone to turn away. */
  lemma NoRivals(s: State, b: BookId, r: RequestId, row: Request)
    requires Inv(s) && On(s.requests, r, b) && s.requests[r].status == Pending
    requires row.status != Pending
    ensures Rivals(s.requests[r := row], b, r) == {}
  {
    assert BookInv(s, b) && RequestInv(s, r);
    Counted(s.requests, r);
    WithoutOne(Of(s.requests, b, Pending), r);
    assert Of(s.requests, b, Pending) - {r} == {};
    assert Rivals(s.requests[r := row], b, r) <= Of(s.requests, b, Pending) - {r};
  }

  lemma AcceptSettles(s: State, b: BookId, r: RequestId, user: User, telegram: bool)
    requires Inv(s) && AcceptCall(s, b, r, user, telegram).1 == Done
    ensures var row := s.requests[r].(status := Accepted, resolvedAt := Some(s.now), acceptedAt := Some(s.now));
      AcceptCall(s, b, r, user, telegram).0 == Settled(s, r, row)
  {
    hide Inv, Rivals;
    var row := s.requests[r].(status := Accepted, resolvedAt := Some(s.now), acceptedAt := Some(s.now));
    NoRivals(s, b, r, row);
    assert TurnAway(s.requests[r := row], {}, s.now) == s.requests[r := row];
  }

  lemma AcceptKeepsInv(s: State, b: BookId, r: RequestId, user: User, telegram: bool)
    requires Inv(s)
    ensures Inv(AcceptCall(s, b, r, user, telegram).0)
  {
    if AcceptCall(s, b, r, user, telegram).1 == Done {
      assert RequestInv(s, r);
      hide Inv, Settled, Rivals;
      AcceptSettles(s, b, r, user, telegram);
      SettledInv(s, r, s.requests[r].(status := Accepted, resolvedAt := Some(s.now), acceptedAt := Some(s.now)));
    }
  }

  lemma CancelKeepsInv(s: State, b: BookId, r: RequestId, user: User)
    requires Inv(s)
    ensures Inv(CancelCall(s, b, r, user).0)
  {
    if CancelCall(s, b, r, user).1 == Done {
      assert RequestInv(s, r);
      hide Inv;
      SettledInv(s, r, s.requests[r].(status := Cancelled, cancelledAt := Some(s.now), resolvedAt := Some(s.now)));
    }
  }

  lemma CompleteKeepsInv(s: State, b: BookId, r: RequestId, user: User)
    requires Inv(s)
    ensures Inv(CompleteCall(s, b, r, user).0)
  {
    if CompleteCall(s, b, r, user).1 == Done {
      assert RequestInv(s, r);
      hide Inv;
      SettledInv(s, r, s.requests[r].(status := Completed, completedAt := Some(s.now)));
    }
  }

  /** A pending request leaves its book on the shelf. */
  lemma PendingIsAvailable(s: State, r: RequestId)
    requires Inv(s) && r in s.requests && s.requests[r].status == Pending
    ensures s.requests[r].book in s.books && s.books[s.requests[r].book].status == Available
  {
    assert RequestInv(s, r) && BookInv(s, s.requests[r].book);
    Counted(s.requests, r);
  }

  lemma DeclineKeepsInv(s: State, b: BookId, r: RequestId, user: User)
    requires Inv(s)
    ensures Inv(DeclineCall(s, b, r, user).0)
  {
    if DeclineCall(s, b, r, user).1 == Done {
      assert RequestInv(s, r);
      hide Inv;
      PendingIsAvailable(s, r);
      SettledInv(s, r, TurnedAway(s.requests[r], s.now));
      assert WithStatus(s.books, b, Available) == s.books;
    }
  }

  lemma {:induction false} SweepKeepsInv(s: State, stale: set<RequestId>)
    requires Inv(s) && stale <= Stale(s)
    ensures Inv(Sweep(s, stale))
    decreases |stale|
  {
    if stale == {} {
      SweepNone(s);
    } else {
      hide Inv, Stale;
      var r :| r in stale;
      SweepKeepsInv(s, stale - {r});
      SweepOne(s, stale - {r}, r);
      assert stale - {r} + {r} == stale;
    }
  }

  lemma AskKeepsInv(s: State, r: RequestId, b: BookId, user: User)
    requires Inv(s) && r !in s.requestIds
    ensures Inv(AskCall(s, r, b, user).0)
  {
    if AskCall(s, r, b, user).1 == Done {
      var next := AskCall(s, r, b, user).0;
      assert RequestInv(s, r);
      forall c ensures BookInv(next, c) { AskBook(s, r, b, user, c); }
      forall q ensures RequestInv(next, q) { assert RequestInv(s, q); }
    }
  }

  lemma AskBook(s: State, r: RequestId, b: BookId, user: User, c: BookId)
    requires Inv(s) && r !in s.requests && AskCall(s, r, b, user).1 == Done
    ensures BookInv(AskCall(s, r, b, user).0, c)
  {
    assert BookInv(s, c);
    hide Of, Inv;
    var row := Request(b, user, Pending, None, None, None, None, None);
    Moved(s.requests, r, row, c, Pending);
    Moved(s.requests, r, row, c, Accepted);
    Moved(s.requests, r, row, c, Completed);
  }

  lemma CascadeKeepsInv(s: State, b: BookId)
    requires Inv(s)
    ensures Inv(s.(books := s.books - {b}, requests := Cascade(s.requests, b)))
  {
    var next := s.(books := s.books - {b}, requests := Cascade(s.requests, b));
    forall c ensures BookInv(next, c) {
      assert BookInv(s, c);
      if c != b {
        assert forall status :: Of(next.requests, c, status) == Of(s.requests, c, status);
      }
    }
    forall q ensures RequestInv(next, q) { assert RequestInv(s, q); }
  }

  lemma DonateKeepsInv(s: State, b: BookId, user: User, department: Option<MajorId>)
    requires Inv(s) && b !in s.bookIds
    ensures Inv(DonateCall(s, b, user, department).0)
  {
    var next := DonateCall(s, b, user, department).0;
    assert BookInv(s, b);
    forall q ensures RequestInv(next, q) { assert RequestInv(s, q); }
    forall c ensures BookInv(next, c) {
      assert BookInv(s, c);
      if c == b {
        forall status ensures Of(s.requests, b, status) == {} {
          assert forall q :: q in s.requests ==> RequestInv(s, q);
        }
      }
    }
  }

  lemma EditKeepsInv(s: State, b: BookId, user: User, department: Option<Option<MajorId>>)
    requires Inv(s)
    ensures Inv(EditCall(s, b, user, department).0)
  {
    var next := EditCall(s, b, user, department).0;
    forall c ensures BookInv(next, c) { assert BookInv(s, c); }
    forall q ensures RequestInv(next, q) { assert RequestInv(s, q); }
  }

  lemma LabelKeepsInv(s: State, b: BookId, hidden: bool, ms: nat)
    requires Inv(s)
    ensures Inv(After(s, SetBookHidden(b, hidden))) && Inv(After(s, Wait(ms)))
  {
    var labelled, later := After(s, SetBookHidden(b, hidden)), After(s, Wait(ms));
    forall c ensures BookInv(labelled, c) && BookInv(later, c) { assert BookInv(s, c); }
    forall q ensures RequestInv(labelled, q) && RequestInv(later, q) { assert RequestInv(s, q); }
  }

  lemma CallKeepsInv(s: State, call: Call)
    requires Inv(s) && Fresh(s, call)
    ensures Inv(After(s, call))
  {
    hide Inv, DonateCall, EditCall, RemoveCall, AskCall, AcceptCall, CancelCall, CompleteCall, DeclineCall, Sweep;
    match call
    case Wait(ms) => LabelKeepsInv(s, 0, false, ms);
    case Donate(b, user, department) => DonateKeepsInv(s, b, user, department);
    case EditBook(b, user, department) => EditKeepsInv(s, b, user, department);
    case Remove(b, user) => RemoveKeepsInv(s, b, user);
    case Ask(r, b, user) => AskKeepsInv(s, r, b, user);
    case Accept(b, r, user, telegram) => AcceptKeepsInv(s, b, r, user, telegram);
    case Cancel(b, r, user) => CancelKeepsInv(s, b, r, user);
    case Complete(b, r, user) => CompleteKeepsInv(s, b, r, user);
    case Decline(b, r, user) => DeclineKeepsInv(s, b, r, user);
    case ExpireStaleReservations => SweepKeepsInv(s, Stale(s));
    case DeleteBook(b) => CascadeKeepsInv(s, b);
    case SetBookHidden(b, hidden) => LabelKeepsInv(s, b, hidden, 0);
  }

  lemma RemoveKeepsInv(s: State, b: BookId, user: User)
    requires Inv(s)
    ensures Inv(RemoveCall(s, b, user).0)
  {
    hide Inv;
    CascadeKeepsInv(s, b);
  }

  // ─── Whole runs ──────────────────────────────────────────────────────────

  function Run(s: State, calls: seq<Call>): State {
    if calls == [] then s else After(Run(s, calls[..|calls| - 1]), calls[|calls| - 1])
  }

  ghost predicate FreshRun(s: State, calls: seq<Call>) {
    calls == [] || (FreshRun(s, calls[..|calls| - 1]) && Fresh(Run(s, calls[..|calls| - 1]), calls[|calls| - 1]))
  }

  lemma {:induction false} RunKeepsInv(s: State, calls: seq<Call>)
    requires Inv(s) && FreshRun(s, calls)
    ensures Inv(Run(s, calls))
  {
    hide Inv, After, Fresh;
    if calls != [] {
      RunKeepsInv(s, calls[..|calls| - 1]);
      CallKeepsInv(Run(s, calls[..|calls| - 1]), calls[|calls| - 1]);
    }
  }

  lemma InitInv(now: int, majors: set<MajorId>)
    ensures Inv(Init(now, majors))
  {
  }

  /** In every reachable state a book's status is exactly what its requests say. */
  lemma StatusIsTheRequests(now: int, majors: set<MajorId>, calls: seq<Call>, b: BookId)
    requires FreshRun(Init(now, majors), calls)
    ensures var s := Run(Init(now, majors), calls); b in s.books ==>
      && |Of(s.requests, b, Pending)| + |Of(s.requests, b, Accepted)| <= 1
      && |Of(s.requests, b, Completed)| <= 1
      && (s.books[b].status == Reserved <==> |Of(s.requests, b, Accepted)| == 1)
      && (s.books[b].status == Donated <==> |Of(s.requests, b, Completed)| == 1)
      && (s.books[b].status == Donated ==> |Of(s.requests, b, Pending)| + |Of(s.requests, b, Accepted)| == 0)
  {
    InitInv(now, majors);
    RunKeepsInv(Init(now, majors), calls);
    assert BookInv(Run(Init(now, majors), calls), b);
  }

  // ─── Who may do what, and what stays done ────────────────────────────────

  predicate Party(s: State, r: RequestId, user: User)
    requires r in s.requests
  {
    s.requests[r].requester == user || (s.requests[r].book in s.books && s.books[s.requests[r].book].donor == user)
  }

  /** The only ways a request changes status, and whose call it takes. */
  ghost predicate Authorised(s: State, call: Call, r: RequestId, to: RequestStatus)
    requires r in s.requests
  {
    var req := s.requests[r];
    match call
    case Accept(b, q, user, _) =>
      q == r && req.status == Pending && to == Accepted && b == req.book && b in s.books && s.books[b].donor == user
          && s.books[b].status == Available
    case Decline(b, q, user) =>
      q == r && req.status == Pending && to == Declined && b == req.book && b in s.books && s.books[b].donor == user
    case Cancel(b, q, user) => q == r && Active(req.status) && to == Cancelled && b == req.book && Party(s, r, user)
    case Complete(b, q, user) => q == r && req.status == Accepted && to == Completed && b == req.book
        && req.requester == user
    case ExpireStaleReservations =>
      req.status == Accepted && to == Expired && req.acceptedAt.Some? && req.acceptedAt.value < s.now - RESERVATION_MS
    case _ => false
  }

  lemma ChangesAreAuthorised(s: State, call: Call, r: RequestId)
    requires Inv(s) && Fresh(s, call) && r in s.requests && r in After(s, call).requests
    ensures After(s, call).requests[r] == s.requests[r] || Authorised(s, call, r, After(s, call).requests[r].status)
  {
    assert RequestInv(s, r);
    if call.Accept? && AcceptCall(s, call.book, call.request, call.user, call.telegram).1 == Done {
      hide Inv, Rivals;
      AcceptSettles(s, call.book, call.request, call.user, call.telegram);
    } else {
      hide Inv, Rivals, TurnAway;
    }
  }

  /** A request appears only when its requester asks for an available, visible book of someone else's. */
  lemma RequestsAreAsked(s: State, call: Call, r: RequestId)
    requires r !in s.requests && r in After(s, call).requests
    ensures call.Ask? && call.request == r && After(s, call).requests[r].requester == call.user
    ensures After(s, call).requests[r].status == Pending
    ensures call.book in s.books && s.books[call.book].status == Available && !s.books[call.book].hidden
    ensures s.books[call.book].donor != call.user
  {
    hide Of, HasDeclined;
  }

  /** Declined, cancelled, expired or completed: the row never changes again, short of the book being deleted. */
  lemma TerminalStep(s: State, call: Call, r: RequestId, row: Request)
    requires Inv(s) && Fresh(s, call)
    requires r in s.requestIds && !Active(row.status) && (r in s.requests ==> s.requests[r] == row)
    ensures r in After(s, call).requestIds && (r in After(s, call).requests ==> After(s, call).requests[r] == row)
  {
    hide Inv, Of, HasDeclined, Rivals;
    if r in After(s, call).requests {
      if r in s.requests {
        ChangesAreAuthorised(s, call, r);
      } else {
        RequestsAreAsked(s, call, r);
      }
    }
  }

  lemma {:induction false} TerminalIsFinal(s: State, calls: seq<Call>, r: RequestId, row: Request)
    requires Inv(s) && FreshRun(s, calls)
    requires r in s.requestIds && !Active(row.status) && (r in s.requests ==> s.requests[r] == row)
    ensures var t := Run(s, calls); r in t.requestIds && (r in t.requests ==> t.requests[r] == row)
  {
    hide Inv, After, Fresh;
    if calls != [] {
      TerminalIsFinal(s, calls[..|calls| - 1], r, row);
      RunKeepsInv(s, calls[..|calls| - 1]);
      TerminalStep(Run(s, calls[..|calls| - 1]), calls[|calls| - 1], r, row);
    }
  }

  /** A deletion is the only way out of the table for a request, and it takes the whole book. */
  lemma OnlyDeletionRemoves(s: State, call: Call, b: BookId)
    requires b in s.books && b !in After(s, call).books
    ensures call.DeleteBook? || (call.Remove? && s.books[b].donor == call.user)
    ensures call.book == b
  {
    hide Of, HasDeclined, Rivals;
  }

  /** The donor's own delete never drops a request someone is waiting on, nor a handover that happened. */
  lemma RemoveDropsNothingLive(s: State, b: BookId, user: User, r: RequestId)
    requires Inv(s) && RemoveCall(s, b, user).1 == Done && On(s.requests, r, b)
    ensures s.requests[r].status in {Declined, Cancelled, Expired}
  {
    assert BookInv(s, b);
    hide Of;
    Counted(s.requests, r);
  }

  /** Once turned away from a book, a requester never has an active request on it again. */
  ghost predicate TurnedAwayFrom(s: State, b: BookId, user: User) {
    b in s.bookIds && (b in s.books ==> HasDeclined(s.requests, b, user))
  }

  lemma TurnedAwayStep(s: State, call: Call, b: BookId, user: User)
    requires Inv(s) && Fresh(s, call) && TurnedAwayFrom(s, b, user)
    ensures TurnedAwayFrom(After(s, call), b, user)
  {
    var next := After(s, call);
    if b in next.books {
      assert b in s.books by {
        if b !in s.books { hide Inv, Of, HasDeclined, Rivals; }
      }
      var r :| r in s.requests && s.requests[r].book == b && s.requests[r].requester == user
          && s.requests[r].status == Declined;
      assert RequestInv(s, r);
      hide Inv, Of, HasDeclined, Rivals;
      TerminalStep(s, call, r, s.requests[r]);
      assert r in next.requests;
      DeclinedThere(next.requests, r);
    }
  }

  lemma DeclinedThere(requests: Requests, r: RequestId)
    requires r in requests && requests[r].status == Declined
    ensures HasDeclined(requests, requests[r].book, requests[r].requester)
  {
  }

  lemma {:induction false} DeclineIsFinal(s: State, calls: seq<Call>, b: BookId, user: User, r: RequestId)
    requires Inv(s) && FreshRun(s, calls) && TurnedAwayFrom(s, b, user)
    ensures TurnedAwayFrom(Run(s, calls), b, user)
    ensures var t := Run(s, calls); On(t.requests, r, b) && t.requests[r].requester == user ==>
      !Active(t.requests[r].status)
  {
    RunKeepsInv(s, calls);
    assert RequestInv(Run(s, calls), r);
    hide Inv, After, Fresh, TurnedAwayFrom;
    if calls != [] {
      DeclineIsFinal(s, calls[..|calls| - 1], b, user, r);
      RunKeepsInv(s, calls[..|calls| - 1]);
      TurnedAwayStep(Run(s, calls[..|calls| - 1]), calls[|calls| - 1], b, user);
    }
    NotActive(Run(s, calls), b, user, r);
  }

  lemma NotActive(s: State, b: BookId, user: User, r: RequestId)
    requires RequestInv(s, r) && TurnedAwayFrom(s, b, user)
    ensures On(s.requests, r, b) && s.requests[r].requester == user ==> !Active(s.requests[r].status)
  {
  }

  lemma NothingActiveOnDonated(s: State, b: BookId, r: RequestId)
    requires Inv(s) && b in s.books && s.books[b].status == Donated
    ensures On(s.requests, r, b) ==> !Active(s.requests[r].status)
  {
    assert BookInv(s, b);
    if On(s.requests, r, b) {
      hide Of;
      Counted(s.requests, r);
    }
  }

  ghost predicate DonatedOrGone(s: State, b: BookId) {
    b in s.bookIds && (b in s.books ==> s.books[b].status == Donated)
  }

  lemma DonatedStep(s: State, call: Call, b: BookId)
    requires Inv(s) && Fresh(s, call) && DonatedOrGone(s, b)
    ensures DonatedOrGone(After(s, call), b)
  {
    if b in s.books {
      forall r ensures On(s.requests, r, b) ==> !Active(s.requests[r].status) { NothingActiveOnDonated(s, b, r); }
    }
    hide Inv, Of, HasDeclined, Rivals;
  }

  /** Donated is left only by deletion, and the identifier never comes back. */
  lemma {:induction false} DonatedIsFinal(s: State, calls: seq<Call>, b: BookId)
    requires Inv(s) && FreshRun(s, calls) && DonatedOrGone(s, b)
    ensures DonatedOrGone(Run(s, calls), b)
  {
    hide Inv, After, Fresh, DonatedOrGone;
    if calls != [] {
      DonatedIsFinal(s, calls[..|calls| - 1], b);
      RunKeepsInv(s, calls[..|calls| - 1]);
      DonatedStep(Run(s, calls[..|calls| - 1]), calls[|calls| - 1], b);
    }
  }

  /** A call that is refused changes nothing. */
  lemma RefusalsChangeNothing(s: State, call: Call)
    ensures Apply(s, call).1 != Done ==> Apply(s, call).0 == s
  {
    hide Of, HasDeclined, Rivals, TurnAway;
  }

  /** The request can be called off by either side and confirmed by its requester, and is swept once three days old. */
  ghost predicate CanEnd(s: State, b: BookId, r: RequestId)
    requires b in s.books
  {
    && On(s.requests, r, b) && s.requests[r].status == Accepted && s.requests[r].acceptedAt.Some?
    && CancelCall(s, b, r, s.books[b].donor).1 == Done
    && CancelCall(s, b, r, s.requests[r].requester).1 == Done
    && CompleteCall(s, b, r, s.requests[r].requester).1 == Done
    && (s.requests[r].acceptedAt.value < s.now - RESERVATION_MS ==>
        After(s, ExpireStaleReservations).books[b].status == Available)
  }

  /** A book somebody waits for, or has, is frozen: no edit changes what they asked for. */
  lemma WantedIsFrozen(s: State, call: Call, r: RequestId)
    requires Inv(s) && Fresh(s, call) && r in s.requests
    requires Active(s.requests[r].status) || s.requests[r].status == Completed
    ensures var b, t := s.requests[r].book, After(s, call);
      b in s.books && (b in t.books ==> (t.books[b].donor, t.books[b].major) == (s.books[b].donor, s.books[b].major))
  {
    var b := s.requests[r].book;
    assert RequestInv(s, r) && BookInv(s, b);
    Counted(s.requests, r);
    hide Inv, HasDeclined, Rivals, Stale, BooksOf;
  }

  /** A reserved book is never stuck with its one reservation. */
  lemma ReservationsCanEnd(s: State, b: BookId)
    requires Inv(s) && b in s.books && s.books[b].status == Reserved
    ensures exists r :: CanEnd(s, b, r)
  {
    assert BookInv(s, b);
    var r :| r in Of(s.requests, b, Accepted);
    assert RequestInv(s, r);
    hide Inv, BookInv, RequestInv, HasDeclined;
    assert r in Stale(s) ==> b in BooksOf(s.requests, Stale(s));
    assert CanEnd(s, b, r);
  }

  /** Nor is a pending request: its donor can answer it either way, and its requester can take it back. */
  lemma RequestsCanBeAnswered(s: State, r: RequestId)
    requires Inv(s) && r in s.requests && s.requests[r].status == Pending
    ensures var b := s.requests[r].book;
      && b in s.books
      && AcceptCall(s, b, r, s.books[b].donor, true).1 == Done
      && DeclineCall(s, b, r, s.books[b].donor).1 == Done
      && CancelCall(s, b, r, s.requests[r].requester).1 == Done
  {
    hide Inv, Rivals, TurnAway;
    PendingIsAvailable(s, r);
  }

  // ─── The expiry sweep ────────────────────────────────────────────────────

  /** After the sweep no reservation is past its three days. */
  lemma NothingStaleRemains(s: State)
    ensures Stale(After(s, ExpireStaleReservations)) == {}
  {
  }

  /** Exactly the stale requests expired; every other row is as it was. */
  lemma SweepTouchesOnlyTheStale(s: State, r: RequestId)
    ensures var t := After(s, ExpireStaleReservations);
      && t.requests.Keys == s.requests.Keys
      && (r in s.requests ==> t.requests[r] == if r in Stale(s) then RanOut(s.requests[r], s.now) else s.requests[r])
  {
    hide Stale, RanOut;
  }

  /** A book comes back exactly when its own reservation was stale; every other book is as it was. */
  lemma SweepReleasesExactly(s: State, b: BookId)
    requires Inv(s) && b in s.books
    ensures var t := After(s, ExpireStaleReservations);
      && b in t.books
      && t.books[b] == (if t.books[b].status == s.books[b].status then s.books[b] else s.books[b].(status := Available))
      && (t.books[b].status != s.books[b].status <==> Of(s.requests, b, Accepted) * Stale(s) != {})
  {
    assert BookInv(s, b);
    var released := BooksOf(s.requests, Stale(s));
    if b in released {
      var r :| r in Stale(s) && s.requests[r].book == b;
      assert r in Of(s.requests, b, Accepted);
    }
    if Of(s.requests, b, Accepted) * Stale(s) != {} {
      var r :| r in Of(s.requests, b, Accepted) * Stale(s);
      Counted(s.requests, r);
      assert b in released;
    }
  }

  // ─── Conservation: what was given was received ───────────────────────────

  /** Completed requests of one requester, and donated books of one donor, as getBookStats counts them. */
  function ReceivedBy(s: State, user: User): set<RequestId> {
    set r | r in s.requests && s.requests[r].requester == user && s.requests[r].status == Completed
  }

  function DonatedBy(s: State, user: User): set<BookId> {
    set b | b in s.books && s.books[b].donor == user && s.books[b].status == Donated
  }

  function AllReceived(s: State): set<RequestId> {
    set r | r in s.requests && s.requests[r].status == Completed
  }

  function AllDonated(s: State): set<BookId> {
    set b | b in s.books && s.books[b].status == Donated
  }

  ghost predicate Covers(s: State, users: set<User>) {
    && (forall b :: b in s.books ==> s.books[b].donor in users)
    && (forall r :: r in s.requests ==> s.requests[r].requester in users)
  }

  /** One for each donated book, nothing for the others. */
  function Marks(s: State): map<BookId, int> {
    map b | b in s.books :: One(s.books[b].status == Donated)
  }

  lemma MarksAreReceipts(s: State)
    requires Inv(s)
    ensures Total(Marks(s)) == |AllReceived(s)|
  {
    var bookOf := map r | r in AllReceived(s) :: s.requests[r].book;
    forall r | r in bookOf ensures bookOf[r] in Marks(s) { assert RequestInv(s, r); }
    forall b | b in s.books ensures Marks(s)[b] == |Fibre(bookOf, b)| {
      assert BookInv(s, b);
      assert Fibre(bookOf, b) == Of(s.requests, b, Completed);
    }
    FibresAddUp(bookOf, Marks(s));
    assert bookOf.Keys == AllReceived(s);
  }

  lemma MarksAreDonations(s: State)
    ensures Total(Marks(s)) == |AllDonated(s)|
  {
    var itself := map b | b in AllDonated(s) :: b;
    forall b | b in s.books ensures Marks(s)[b] == |Fibre(itself, b)| {
      assert Fibre(itself, b) == if b in AllDonated(s) then {b} else {};
    }
    FibresAddUp(itself, Marks(s));
    assert itself.Keys == AllDonated(s);
  }

  /** As many completed requests as donated books. */
  lemma HandoversMatch(s: State)
    requires Inv(s)
    ensures |AllReceived(s)| == |AllDonated(s)|
  {
    hide *;
    MarksAreReceipts(s);
    MarksAreDonations(s);
  }

  function DonatedFigures(s: State, users: set<User>): map<User, int> {
    map u | u in users :: |DonatedBy(s, u)|
  }

  function ReceivedFigures(s: State, users: set<User>): map<User, int> {
    map u | u in users :: |ReceivedBy(s, u)|
  }

  lemma PilesOfReceived(s: State, users: set<User>)
    requires Covers(s, users)
    ensures Total(ReceivedFigures(s, users)) == |AllReceived(s)|
  {
    var requester := map r | r in AllReceived(s) :: s.requests[r].requester;
    forall u | u in users ensures ReceivedFigures(s, users)[u] == |Fibre(requester, u)| {
      assert Fibre(requester, u) == ReceivedBy(s, u);
    }
    FibresAddUp(requester, ReceivedFigures(s, users));
    assert requester.Keys == AllReceived(s);
  }

  lemma PilesOfDonated(s: State, users: set<User>)
    requires Covers(s, users)
    ensures Total(DonatedFigures(s, users)) == |AllDonated(s)|
  {
    var donor := map b | b in AllDonated(s) :: s.books[b].donor;
    forall u | u in users ensures DonatedFigures(s, users)[u] == |Fibre(donor, u)| {
      assert Fibre(donor, u) == DonatedBy(s, u);
    }
    FibresAddUp(donor, DonatedFigures(s, users));
    assert donor.Keys == AllDonated(s);
  }

  /** Over all users, the "donated" figures of getBookStats add up to the "received" ones. */
  lemma DonatedEqualsReceived(now: int, majors: set<MajorId>, calls: seq<Call>, users: set<User>)
    requires FreshRun(Init(now, majors), calls) && Covers(Run(Init(now, majors), calls), users)
    ensures var s := Run(Init(now, majors), calls); Total(DonatedFigures(s, users)) == Total(ReceivedFigures(s, users))
  {
    InitInv(now, majors);
    hide Covers, Inv, DonatedFigures, ReceivedFigures, AllDonated, AllReceived;
    RunKeepsInv(Init(now, majors), calls);
    var s := Run(Init(now, majors), calls);
    HandoversMatch(s);
    PilesOfDonated(s, users);
    PilesOfReceived(s, users);
  }
}
