/** Moving students up a year, and what they may edit themselves: promotion.ts and users.service.ts. */
module YearPromotion {
  import opened Prelude
  import opened YearLevels

  type MajorId = string
  type UserId = nat
  type Majors = map<MajorId, string>

  datatype Profile = Profile(firstName: string, lastName: string, avatar: Option<string>)

  datatype Student = Student(
    profile: Profile,
    majorId: Option<MajorId>, year: Option<int>, stamp: Option<int>,
    telegram: Option<string>, handles: seq<string>)

  /** The fields of a profile edit that were sent. */
  datatype Edit = Edit(
    firstName: Option<string>, lastName: Option<string>, avatar: Option<string>,
    majorId: Option<MajorId>, year: Option<int>,
    telegram: Option<string>, handles: Option<seq<string>>)

  datatype Outcome = Done | NotFound | Forbidden | ServerError

  // ─── The rule ────────────────────────────────────────────────────────────

  predicate IsRolloverDue(rolloverAt: Option<int>, appliedAt: Option<int>, now: int) {
    if rolloverAt.None? then false
    else if rolloverAt.value > now then false
    else appliedAt.None? || appliedAt.value < rolloverAt.value
  }

  predicate NeedsDepartmentChoice(acronym: Option<string>, year: Option<int>) {
    IsFoundationMajor(acronym) && year == Some(2)
  }

  function Highest(acronym: Option<string>): int {
    var years := YearLevelsForMajor(if acronym.Some? then acronym.value else "");
    years[|years| - 1]
  }

  function AdvanceYearLevel(acronym: Option<string>, year: int, rollovers: int): int {
    if year + rollovers < Highest(acronym) then year + rollovers else Highest(acronym)
  }

  function AcronymOf(majors: Majors, majorId: Option<MajorId>): Option<string> {
    if majorId.Some? && majorId.value in majors then Some(majors[majorId.value]) else None
  }

  /** applyPendingPromotion on one row. */
  function Promoted(majors: Majors, s: Student, rolloverAt: Option<int>, now: int): Student {
    var acronym := AcronymOf(majors, s.majorId);
    if !IsRolloverDue(rolloverAt, s.stamp, now) then
      if s.stamp.None? && rolloverAt.Some? then s.(stamp := rolloverAt) else s
    else if NeedsDepartmentChoice(acronym, s.year) then s
    else
      var year := if s.year.Some? then Some(AdvanceYearLevel(acronym, s.year.value, 1)) else None;
      s.(stamp := rolloverAt, year := year)
  }

  /** The question getMe tells the client to ask. */
  predicate MustChoose(majors: Majors, s: Student, rolloverAt: Option<int>, now: int) {
    NeedsDepartmentChoice(AcronymOf(majors, s.majorId), s.year) && IsRolloverDue(rolloverAt, s.stamp, now)
  }

  predicate Incomplete(s: Student) {
    s.majorId.None? || s.year.None?
  }

  // ─── Telegram handles ────────────────────────────────────────────────────

  predicate IsSpace(c: char) {
    c == ' ' || 9 <= c as int <= 13
  }

  function TrimStart(s: string): string {
    if s != "" && IsSpace(s[0]) then TrimStart(s[1..]) else s
  }

  function TrimEnd(s: string): string {
    if s != "" && IsSpace(s[|s| - 1]) then TrimEnd(s[..|s| - 1]) else s
  }

  function Trim(s: string): string {
    TrimEnd(TrimStart(s))
  }

  /** The handles of a list, trimmed, without the blank ones. */
  function Cleaned(raws: seq<string>): (c: seq<string>)
    ensures "" !in c
  {
    if raws == [] then []
    else
      var handle := Trim(raws[|raws| - 1]);
      Cleaned(raws[..|raws| - 1]) + if handle == "" then [] else [handle]
  }

  lemma {:induction false} UniqueGrows<T(!new)>(s: seq<T>, x: T)
    ensures Unique(s + [x]) == if x in s then Unique(s) else Unique(s) + [x]
  {
    assert (s + [x])[..|s|] == s;
  }

  method DistinctHandles(raws: seq<string>) returns (handles: seq<string>)
    ensures handles == Unique(Cleaned(raws))
  {
    handles := [];
    for i := 0 to |raws|
      invariant handles == Unique(Cleaned(raws[..i]))
    {
      assert raws[..i + 1][..i] == raws[..i];
      var handle := Trim(raws[i]);
      if handle == "" {
        assert Cleaned(raws[..i + 1]) == Cleaned(raws[..i]);
      } else {
        assert Cleaned(raws[..i + 1]) == Cleaned(raws[..i]) + [handle];
        UniqueGrows(Cleaned(raws[..i]), handle);
      }
      if handle != "" && handle !in handles {
        handles := handles + [handle];
      }
    }
    assert raws[..|raws|] == raws;
  }

  function Selection(telegram: string): Option<string> {
    if Trim(telegram) == "" then None else Some(Trim(telegram))
  }

  function Renamed(profile: Profile, edit: Edit): Profile {
    Profile(
      if edit.firstName.Some? then edit.firstName.value else profile.firstName,
      if edit.lastName.Some? then edit.lastName.value else profile.lastName,
      if edit.avatar.Some? then edit.avatar else profile.avatar)
  }

  /** The stored avatar that an edit replaces, to be deleted once the row is written. */
  function Orphan(profile: Profile, edit: Edit): Option<string> {
    if edit.avatar.Some? && profile.avatar.Some? && profile.avatar.value != "" && profile.avatar != edit.avatar
    then profile.avatar else None
  }

  /** The names and contact half of updateMe. */
  function Contact(s: Student, edit: Edit): Student {
    var named := s.(profile := Renamed(s.profile, edit));
    if edit.handles.Some? then
      var handles := Unique(Cleaned(edit.handles.value));
      var selected := if edit.telegram.Some? then Selection(edit.telegram.value) else s.telegram;
      var kept := if selected.Some? && selected.value != "" && selected.value !in handles then None else selected;
      var first := if handles == [] then None else Some(handles[0]);
      named.(handles := handles, telegram := if kept.Some? then kept else first)
    else if edit.telegram.Some? then
      var selected := Selection(edit.telegram.value);
      named.(
        telegram := selected,
        handles := if selected.Some? && selected.value !in s.handles then s.handles + [selected.value] else s.handles)
    else named
  }

  // ─── Visits ──────────────────────────────────────────────────────────────

  /** The placement half: what is written, or why nothing is. */
  function Placement(majors: Majors, s: Student, edit: Edit, rolloverAt: Option<int>, now: int): (Student, Outcome) {
    if edit.majorId.None? && edit.year.None? then (s, Done)
    else if !Incomplete(s) && !MustChoose(majors, s, rolloverAt, now) then (s, Forbidden)
    else if edit.majorId.Some? && edit.majorId.value !in majors then (s, ServerError)
    else
      var answered := MustChoose(majors, s, rolloverAt, now) && edit.majorId.Some? && edit.majorId != s.majorId;
      (s.(majorId := if edit.majorId.Some? then edit.majorId else s.majorId,
          year := if edit.year.Some? then edit.year else s.year,
          stamp := if answered then rolloverAt else s.stamp), Done)
  }

  function Updated(majors: Majors, s: Student, edit: Edit, rolloverAt: Option<int>, now: int): (Student, Outcome) {
    var (placed, outcome) := Placement(majors, s, edit, rolloverAt, now);
    if outcome != Done then (s, outcome)
    else (Promoted(majors, Contact(placed, edit), rolloverAt, now), Done)
  }

  class UsersService {
    const majors: Majors
    var now: int
    var users: map<UserId, Student>

    constructor (majors: Majors, now: int)
      ensures this.majors == majors && this.now == now && users == map[]
    {
      this.majors, this.now, users := majors, now, map[];
    }

    method ApplyPendingPromotion(id: UserId, rolloverAt: Option<int>)
      requires id in users
      modifies this`users
      ensures users == old(users)[id := Promoted(majors, old(users)[id], rolloverAt, now)]
    {
      var user := users[id];
      var acronym := AcronymOf(majors, user.majorId);
      if !IsRolloverDue(rolloverAt, user.stamp, now) {
        if user.stamp.None? && rolloverAt.Some? {
          users := users[id := user.(stamp := rolloverAt)];
        }
        return;
      }
      if NeedsDepartmentChoice(acronym, user.year) {
        return;
      }
      var updates := user.(stamp := rolloverAt);
      if user.year.Some? {
        updates := updates.(year := Some(AdvanceYearLevel(acronym, user.year.value, 1)));
      }
      users := users[id := updates];
    }

    method GetMe(id: UserId, rolloverAt: Option<int>) returns (o: Outcome, needsChoice: bool)
      modifies this`users
      ensures o == (if id in old(users) then Done else NotFound)
      ensures id in old(users) ==> users == old(users)[id := Promoted(majors, old(users)[id], rolloverAt, now)]
      ensures id in old(users) ==>
        needsChoice == MustChoose(majors, Promoted(majors, old(users)[id], rolloverAt, now), rolloverAt, now)
      ensures id !in old(users) ==> users == old(users)
    {
      if id !in users {
        return NotFound, false;
      }
      ApplyPendingPromotion(id, rolloverAt);
      return Done, MustChoose(majors, users[id], rolloverAt, now);
    }

    /** The list and the account in use: a sent list replaces the saved one, a lone handle joins it. */
    method TelegramUpdates(current: Student, edit: Edit) returns (telegram: Option<string>, handles: seq<string>)
      ensures telegram == Contact(current, edit).telegram && handles == Contact(current, edit).handles
    {
      hide Unique, Cleaned, Trim, Selection, Renamed;
      telegram, handles := current.telegram, current.handles;
      if edit.telegram.Some? {
        telegram := Selection(edit.telegram.value);
      }
      if edit.handles.Some? {
        handles := DistinctHandles(edit.handles.value);
        if telegram.Some? && telegram.value != "" && telegram.value !in handles {
          telegram := None;
        }
        if telegram.None? && handles != [] {
          telegram := Some(handles[0]);
        }
      } else if edit.telegram.Some? && telegram.Some? && telegram.value !in current.handles {
        handles := current.handles + [telegram.value];
      }
    }

    /** The names and contact half of an edit. */
    method ContactUpdates(current: Student, edit: Edit) returns (updates: Student)
      ensures updates == Contact(current, edit)
    {
      hide Unique, Cleaned, Trim, Selection;
      var telegram, handles := TelegramUpdates(current, edit);
      var profile := current.profile;
      if edit.firstName.Some? {
        profile := profile.(firstName := edit.firstName.value);
      }
      if edit.lastName.Some? {
        profile := profile.(lastName := edit.lastName.value);
      }
      if edit.avatar.Some? {
        profile := profile.(avatar := edit.avatar);
      }
      updates := current.(profile := profile, telegram := telegram, handles := handles);
    }

    /** `orphan`: the avatar file to delete, best effort. */
    method UpdateMe(id: UserId, edit: Edit, rolloverAt: Option<int>) returns (o: Outcome, orphan: Option<string>)
      modifies this`users
      ensures id !in old(users) ==> o == NotFound && users == old(users)
      ensures orphan == if id in old(users) && o == Done then Orphan(old(users)[id].profile, edit) else None
      ensures id in old(users) ==> o == Updated(majors, old(users)[id], edit, rolloverAt, now).1
      ensures id in old(users) ==> users == old(users)[id := Updated(majors, old(users)[id], edit, rolloverAt, now).0]
    {
      hide Contact, Promoted, MustChoose;
      if id !in users {
        return NotFound, None;
      }
      var current := users[id];
      assert users[id := current] == users;
      var updates := ContactUpdates(current, edit);
      ContactCommutes(current, edit, edit.majorId, edit.year, rolloverAt);
      if edit.majorId.Some? {
        updates := updates.(majorId := edit.majorId);
      }
      if edit.year.Some? {
        updates := updates.(year := edit.year);
      }
      if edit.majorId.Some? || edit.year.Some? {
        var promotionDue := MustChoose(majors, current, rolloverAt, now);
        if !Incomplete(current) && !promotionDue {
          return Forbidden, None;
        }
        if promotionDue && edit.majorId.Some? && edit.majorId != current.majorId {
          updates := updates.(stamp := rolloverAt);
        }
      }
      if edit.majorId.Some? && edit.majorId.value !in majors {
        return ServerError, None;
      }
      assert updates == Contact(Placement(majors, current, edit, rolloverAt, now).0, edit);
      users := users[id := updates];
      var _, _ := GetMe(id, rolloverAt);
      assert old(users)[id := updates][id := Promoted(majors, updates, rolloverAt, now)] ==
          old(users)[id := Promoted(majors, updates, rolloverAt, now)];
      return Done, Orphan(current.profile, edit);
    }
  }

  /** The contact half reads nothing of the placement, and writes nothing of it. */
  lemma ContactCommutes(s: Student, edit: Edit, newMajor: Option<MajorId>, newYear: Option<int>,
                        rolloverAt: Option<int>)
    ensures var majorId := if newMajor.Some? then newMajor else s.majorId;
      var year := if newYear.Some? then newYear else s.year;
      && Contact(s.(majorId := majorId, year := year), edit) == Contact(s, edit).(majorId := majorId, year := year)
      && Contact(s.(majorId := majorId, year := year, stamp := rolloverAt), edit) ==
          Contact(s, edit).(majorId := majorId, year := year, stamp := rolloverAt)
      && (Contact(s, edit).majorId, Contact(s, edit).year, Contact(s, edit).stamp) == (s.majorId, s.year, s.stamp)
  {
    hide Unique, Cleaned, Selection;
  }

  // ─── One advance per instant ─────────────────────────────────────────────

  /** A request at a time, under whatever schedule was read then. */
  datatype Visit = Visit(now: int, rolloverAt: Option<int>, edit: Option<Edit>)

  function After(majors: Majors, s: Student, v: Visit): Student {
    if v.edit.Some? then Updated(majors, s, v.edit.value, v.rolloverAt, v.now).0
    else Promoted(majors, s, v.rolloverAt, v.now)
  }

  /** A rollover was settled: the student moved up, or answered which department they joined. */
  predicate Settles(majors: Majors, s: Student, v: Visit) {
    IsRolloverDue(v.rolloverAt, s.stamp, v.now) && After(majors, s, v).stamp != s.stamp
  }

  /** A student, and the instants that have moved them, in order. */
  datatype History = History(student: Student, advances: seq<int>)

  function Visited(majors: Majors, h: History, v: Visit): History {
    var settled := if Settles(majors, h.student, v) then [v.rolloverAt.value] else [];
    History(After(majors, h.student, v), h.advances + settled)
  }

  function Run(majors: Majors, h: History, visits: seq<Visit>): History {
    if visits == [] then h else Visited(majors, Run(majors, h, visits[..|visits| - 1]), visits[|visits| - 1])
  }

  /** No stamp is before every stamp. */
  predicate NotLater(a: Option<int>, b: Option<int>) {
    a.None? || (b.Some? && a.value <= b.value)
  }

  lemma StampNeverFalls(majors: Majors, s: Student, v: Visit)
    ensures NotLater(s.stamp, After(majors, s, v).stamp)
    ensures Settles(majors, s, v) ==>
      v.rolloverAt.Some? && After(majors, s, v).stamp == v.rolloverAt
          && (s.stamp.None? || s.stamp.value < v.rolloverAt.value) && v.rolloverAt.value <= v.now
  {
    hide Contact, AdvanceYearLevel, NeedsDepartmentChoice, AcronymOf;
    if v.edit.Some? {
      ContactKeepsPlacement(Placement(majors, s, v.edit.value, v.rolloverAt, v.now).0, v.edit.value);
    }
  }

  lemma ContactKeepsPlacement(s: Student, edit: Edit)
    ensures var t := Contact(s, edit); (t.majorId, t.year, t.stamp) == (s.majorId, s.year, s.stamp)
  {
    hide Unique, Cleaned, Selection;
  }

  ghost predicate Increasing(s: seq<int>) {
    forall i, j :: 0 <= i < j < |s| ==> s[i] < s[j]
  }

  /** The instants that moved the student strictly increase, up to the stamp. */
  ghost predicate Dated(h: History) {
    Increasing(h.advances) && forall a :: a in h.advances ==> h.student.stamp.Some? && a <= h.student.stamp.value
  }

  lemma VisitKeepsDated(majors: Majors, h: History, v: Visit)
    requires Dated(h)
    ensures Dated(Visited(majors, h, v)) && NotLater(h.student.stamp, Visited(majors, h, v).student.stamp)
  {
    hide After, Settles;
    StampNeverFalls(majors, h.student, v);
    var next := Visited(majors, h, v);
    assert forall i :: 0 <= i < |h.advances| ==> h.advances[i] in h.advances && next.advances[i] == h.advances[i];
    assert forall a :: a in next.advances ==>
        a in h.advances || (Settles(majors, h.student, v) && a == v.rolloverAt.value);
  }

  /** Over any run, under any schedules, the stamp never falls and no instant moves a student twice. */
  lemma {:induction false} NoInstantTwice(majors: Majors, h: History, visits: seq<Visit>)
    requires Dated(h)
    ensures Dated(Run(majors, h, visits)) && NotLater(h.student.stamp, Run(majors, h, visits).student.stamp)
  {
    if visits != [] {
      hide Visited, Dated;
      NoInstantTwice(majors, h, visits[..|visits| - 1]);
      VisitKeepsDated(majors, Run(majors, h, visits[..|visits| - 1]), visits[|visits| - 1]);
    }
  }

  /** A year moves on a plain visit only together with the stamp, and the stamp moves to the scheduled instant. */
  lemma YearMovesWithItsStamp(majors: Majors, s: Student, rolloverAt: Option<int>, now: int)
    ensures var t := Promoted(majors, s, rolloverAt, now);
      && t == s.(year := t.year, stamp := t.stamp)
      && (t.year != s.year ==>
            && t.stamp == rolloverAt && rolloverAt.Some? && rolloverAt.value <= now
            && (s.stamp.None? || s.stamp.value < rolloverAt.value))
  {
  }

  /** Visiting again at the same moment changes nothing. */
  lemma GetMeTwice(majors: Majors, s: Student, rolloverAt: Option<int>, now: int)
    ensures Promoted(majors, Promoted(majors, s, rolloverAt, now), rolloverAt, now) ==
      Promoted(majors, s, rolloverAt, now)
  {
  }

  // ─── Years stay real ─────────────────────────────────────────────────────

  predicate ValidYear(majors: Majors, s: Student) {
    s.year.Some? && s.majorId.Some? && s.majorId.value in majors ==>
        s.year.value in YearLevelsForMajor(majors[s.majorId.value])
  }

  lemma HighestByKind(acronym: Option<string>)
    ensures var short := acronym.Some? && (IsFoundationMajor(acronym) || IsLanguageMajor(acronym.value));
      Highest(acronym) == if short then 2 else 5
  {
    if acronym.Some? {
      LowerTwice(acronym.value);
    }
  }

  /**
   * One promotion raises a year by one, except that it never leaves the department's last year; it lowers a year
   * exactly when that lies beyond the last.
   */
  lemma AdvanceMeans(acronym: Option<string>, year: int)
    ensures AdvanceYearLevel(acronym, year, 1) <= year + 1
    ensures AdvanceYearLevel(acronym, year, 1) < year <==> year > Highest(acronym)
    ensures AdvanceYearLevel(acronym, year, 1) == year <==> year == Highest(acronym)
    ensures acronym.Some? && year in YearLevelsForMajor(acronym.value) ==>
      AdvanceYearLevel(acronym, year, 1) in YearLevelsForMajor(acronym.value)
  {
    HighestByKind(acronym);
    if acronym.Some? {
      YearsByKind(acronym.value, year);
      YearsByKind(acronym.value, AdvanceYearLevel(acronym, year, 1));
    }
  }

  /** A year that is real for its department stays real, and rises by at most one. */
  lemma VisitKeepsYearValid(majors: Majors, s: Student, rolloverAt: Option<int>, now: int)
    requires ValidYear(majors, s)
    ensures var t := Promoted(majors, s, rolloverAt, now);
      && ValidYear(majors, t)
      && (s.year.Some? <==> t.year.Some?)
      && (s.year.Some? && s.majorId.Some? && s.majorId.value in majors ==>
          s.year.value <= t.year.value <= s.year.value + 1)
  {
    if s.year.Some? && s.majorId.Some? && s.majorId.value in majors {
      var acronym := AcronymOf(majors, s.majorId);
      HighestByKind(acronym);
      YearsByKind(majors[s.majorId.value], s.year.value);
      AdvanceMeans(acronym, s.year.value);
      hide YearLevelsForMajor, Highest, AdvanceYearLevel, IsFoundationMajor;
    }
  }

  /** What one promotion makes of a year, by kind of department: real exactly from here. */
  lemma PromotedYearIsReal(majors: Majors, s: Student, rolloverAt: Option<int>, now: int)
    requires s.year.Some? && s.majorId.Some? && s.majorId.value in majors
    ensures var y, acronym := s.year.value, majors[s.majorId.value];
      var due := IsRolloverDue(rolloverAt, s.stamp, now);
      ValidYear(majors, Promoted(majors, s, rolloverAt, now)) <==>
        if IsFoundationMajor(Some(acronym)) || IsLanguageMajor(acronym) then (if due then y >= 0 else 1 <= y <= 2)
        else (if due then y >= 2 else 3 <= y <= 5)
  {
    var acronym, t := majors[s.majorId.value], Promoted(majors, s, rolloverAt, now);
    HighestByKind(Some(acronym));
    YearsByKind(acronym, s.year.value);
    YearsByKind(acronym, t.year.value);
    hide YearLevelsForMajor, Highest, IsFoundationMajor, IsLanguageMajor;
  }

  /**
   * updateMe takes a department and a year as sent, so it keeps the year real exactly when the department it
   * writes has that year, or when the promotion the same call applies moves it there: a foundation or language
   * student down to year 2, any other one up from year 2.
   */
  lemma EditKeepsYearValidExactly(majors: Majors, s: Student, edit: Edit, rolloverAt: Option<int>, now: int)
    requires Updated(majors, s, edit, rolloverAt, now).1 == Done
    ensures var t := Updated(majors, s, edit, rolloverAt, now).0;
      var p := Placement(majors, s, edit, rolloverAt, now).0;
      var due := IsRolloverDue(rolloverAt, p.stamp, now);
      ValidYear(majors, t) <==>
        (p.year.Some? && p.majorId.Some? && p.majorId.value in majors ==>
          var y, acronym := p.year.value, majors[p.majorId.value];
          if IsFoundationMajor(Some(acronym)) || IsLanguageMajor(acronym) then (if due then y >= 0 else 1 <= y <= 2)
          else (if due then y >= 2 else 3 <= y <= 5))
  {
    var p := Placement(majors, s, edit, rolloverAt, now).0;
    ContactKeepsPlacement(p, edit);
    hide Contact, Placement, AdvanceYearLevel, NeedsDepartmentChoice, IsFoundationMajor, IsLanguageMajor,
        YearLevelsForMajor;
    if p.year.Some? && p.majorId.Some? && p.majorId.value in majors {
      PromotedYearIsReal(majors, Contact(p, edit), rolloverAt, now);
    }
  }

  /**
   * For instance a first-time profile in the foundation programme with year 5; the next promotion moves that
   * student down to 2.
   */
  lemma PlacementIsTakenAsSent(majors: Majors, tc: MajorId, now: int)
    requires tc in majors && majors[tc] == "TC"
    ensures var s := Student(Profile("A", "B", None), None, None, None, None, []);
      var placed := Updated(majors, s, Edit(None, None, None, Some(tc), Some(5), None, None), None, now).0;
      && placed.majorId == Some(tc) && placed.year == Some(5) && !ValidYear(majors, placed)
      && Promoted(majors, placed, Some(now), now).year == Some(2)
  {
    assert Lower("TC") == "tc";
    assert Lower("tc") == "tc";
    HighestByKind(Some("TC"));
    assert AdvanceYearLevel(Some("TC"), 5, 1) == 2;
  }

  // ─── Who may change their own placement ──────────────────────────────────

  /**
   * A complete student who owes no answer cannot change department or year: the edit is refused and the row
   * untouched.
   */
  lemma PlacementIsGuarded(majors: Majors, s: Student, edit: Edit, rolloverAt: Option<int>, now: int)
    requires !Incomplete(s) && !MustChoose(majors, s, rolloverAt, now)
    ensures var (t, outcome) := Updated(majors, s, edit, rolloverAt, now);
      && (outcome == Forbidden <==> edit.majorId.Some? || edit.year.Some?)
      && (outcome != Done ==> t == s)
      && (t.majorId, t.year, t.stamp) == (if outcome == Done then
           (Promoted(majors, s, rolloverAt, now).majorId, Promoted(majors, s, rolloverAt, now).year,
            Promoted(majors, s, rolloverAt, now).stamp)
         else (s.majorId, s.year, s.stamp))
  {
    hide Contact, AdvanceYearLevel, NeedsDepartmentChoice, IsRolloverDue;
    ContactKeepsPlacement(s, edit);
  }

  /** The question stays open until it is answered: visits alone neither move the student nor close it. */
  lemma QuestionStaysOpen(majors: Majors, s: Student, rolloverAt: Option<int>, now: int)
    requires MustChoose(majors, s, rolloverAt, now)
    ensures Promoted(majors, s, rolloverAt, now) == s
  {
  }

  /**
   * Whatever the schedule does meanwhile: no run of plain visits touches a stamped student who is in the year the
   * question is about, or counts an advance.
   */
  lemma {:induction false} OnlyAnAnswerMovesThem(majors: Majors, h: History, visits: seq<Visit>)
    requires h.student.stamp.Some? && NeedsDepartmentChoice(AcronymOf(majors, h.student.majorId), h.student.year)
    requires forall v :: v in visits ==> v.edit.None?
    ensures Run(majors, h, visits) == h
  {
    if visits != [] {
      OnlyAnAnswerMovesThem(majors, h, visits[..|visits| - 1]);
      var v := visits[|visits| - 1];
      hide Run, AdvanceYearLevel, AcronymOf, NeedsDepartmentChoice;
      if MustChoose(majors, h.student, v.rolloverAt, v.now) {
        QuestionStaysOpen(majors, h.student, v.rolloverAt, v.now);
      }
      assert After(majors, h.student, v) == h.student && h.advances + [] == h.advances;
      assert Visited(majors, h, v) == h;
    }
  }

  /** Naming another department answers it: the rollover is settled and the same call advances nobody a second time. */
  lemma AnswerSettles(majors: Majors, s: Student, edit: Edit, rolloverAt: Option<int>, now: int)
    requires MustChoose(majors, s, rolloverAt, now)
    requires edit.majorId.Some? && edit.majorId.value in majors && edit.majorId != s.majorId
    ensures var (t, outcome) := Updated(majors, s, edit, rolloverAt, now);
      && outcome == Done && t.majorId == edit.majorId && t.stamp == rolloverAt
      && t.year == (if edit.year.Some? then edit.year else s.year)
      && !MustChoose(majors, t, rolloverAt, now)
  {
    hide Contact, AdvanceYearLevel, NeedsDepartmentChoice, AcronymOf;
    ContactKeepsPlacement(Placement(majors, s, edit, rolloverAt, now).0, edit);
  }

  /** A year sent without another department is no answer: the student stays in year 2, but the question stays open
      only when that year is 2; any other one is promoted in the same call, which closes it. */
  lemma YearAloneIsNoAnswer(majors: Majors, s: Student, edit: Edit, rolloverAt: Option<int>, now: int, year: int)
    requires MustChoose(majors, s, rolloverAt, now)
    requires edit.year == Some(year) && year >= 1 && (edit.majorId.None? || edit.majorId == s.majorId)
    ensures var (t, outcome) := Updated(majors, s, edit, rolloverAt, now);
      && outcome == Done && t.majorId == s.majorId && t.year == Some(2)
      && (MustChoose(majors, t, rolloverAt, now) <==> year == 2)
      && t.stamp == (if year == 2 then s.stamp else rolloverAt)
  {
    HighestByKind(AcronymOf(majors, s.majorId));
    hide Contact, Highest;
    ContactKeepsPlacement(Placement(majors, s, edit, rolloverAt, now).0, edit);
  }

  // ─── The student nobody has stamped ──────────────────────────────────────

  function Visits(majors: Majors, s: Student, rolloverAt: int, times: seq<int>): Student {
    if times == [] then s else Promoted(majors, Visits(majors, s, rolloverAt, times[..|times| - 1]), Some(rolloverAt),
                                        times[|times| - 1])
  }

  /** Under one schedule an unstamped student is moved by it exactly when their first visit comes after the instant:
      a visit before it stamps them with the future instant, and that instant never moves them. */
  lemma {:induction false} FirstVisitDecides(majors: Majors, s: Student, rolloverAt: int, times: seq<int>)
    requires s.stamp.None? && times != []
    requires s.year.Some? && !NeedsDepartmentChoice(AcronymOf(majors, s.majorId), s.year)
    ensures Visits(majors, s, rolloverAt, times) == s.(
      stamp := Some(rolloverAt),
      year := if times[0] < rolloverAt then s.year
          else Some(AdvanceYearLevel(AcronymOf(majors, s.majorId), s.year.value, 1)))
  {
    hide AdvanceYearLevel, AcronymOf, NeedsDepartmentChoice;
    if |times| == 1 {
      assert Visits(majors, s, rolloverAt, times[..0]) == s;
    } else {
      FirstVisitDecides(majors, s, rolloverAt, times[..|times| - 1]);
    }
  }

  // ─── The handle in use is one of the saved ones ──────────────────────────

  /** The avatar an edit has deleted is never the one the row then shows. */
  lemma OrphanIsNotInUse(majors: Majors, s: Student, edit: Edit, rolloverAt: Option<int>, now: int)
    requires Updated(majors, s, edit, rolloverAt, now).1 == Done
    ensures var t := Updated(majors, s, edit, rolloverAt, now).0;
      && (Orphan(s.profile, edit).Some? ==> Orphan(s.profile, edit) == s.profile.avatar != Some(""))
      && (Orphan(s.profile, edit).Some? ==> t.profile.avatar.Some? && t.profile.avatar != Orphan(s.profile, edit))
      && (Orphan(s.profile, edit).None? && s.profile.avatar.Some? && s.profile.avatar.value != "" ==>
          t.profile.avatar == s.profile.avatar)
  {
    hide Unique, Cleaned, Selection, AdvanceYearLevel, NeedsDepartmentChoice, IsRolloverDue, AcronymOf;
  }

  ghost predicate Coherent(s: Student) {
    && (s.telegram.Some? ==> s.telegram.value in s.handles)
    && "" !in s.handles
    && (forall i, j :: 0 <= i < j < |s.handles| ==> s.handles[i] != s.handles[j])
  }

  lemma ContactIsCoherent(s: Student, edit: Edit)
    requires Coherent(s)
    ensures var t := Contact(s, edit);
      && Coherent(t)
      && (edit.handles.Some? ==> forall h :: h in t.handles <==> h in Cleaned(edit.handles.value))
      && (edit.handles.Some? && edit.telegram.None? && s.telegram.Some? && s.telegram.value in t.handles ==>
          t.telegram == s.telegram)
      && (edit.handles.Some? && t.handles != [] ==> t.telegram.Some?)
      && (edit.handles.None? && edit.telegram.Some? ==> t.telegram == Selection(edit.telegram.value))
  {
    hide Trim;
  }

  /**
   * Every profile edit keeps the selection inside the list; a sent list keeps the selection it holds and otherwise
   * falls back to its first entry.
   */
  lemma EditKeepsHandlesCoherent(majors: Majors, s: Student, edit: Edit, rolloverAt: Option<int>, now: int)
    requires Coherent(s)
    ensures var (t, outcome) := Updated(majors, s, edit, rolloverAt, now);
      && Coherent(t)
      && (outcome == Done && edit.handles.Some? ==> forall h :: h in t.handles <==> h in Cleaned(edit.handles.value))
      && (outcome == Done && edit.handles.Some? && edit.telegram.None? && s.telegram.Some? ==>
            s.telegram.value in t.handles ==> t.telegram == s.telegram)
      && (outcome == Done && edit.handles.Some? && t.handles != [] ==> t.telegram.Some?)
      && (outcome == Done && edit.handles.None? && edit.telegram.Some? ==> t.telegram == Selection(edit.telegram.value))
  {
    hide Contact, Cleaned, Trim, Selection, AdvanceYearLevel, NeedsDepartmentChoice, IsRolloverDue, AcronymOf;
    ContactIsCoherent(Placement(majors, s, edit, rolloverAt, now).0, edit);
  }

  /** So over any run, from an account with no handle at all, the handle in use is one of the saved ones. */
  lemma {:induction false} HandlesStayCoherent(majors: Majors, h: History, visits: seq<Visit>)
    requires Coherent(h.student)
    ensures Coherent(Run(majors, h, visits).student)
  {
    if visits != [] {
      var init, last := visits[..|visits| - 1], visits[|visits| - 1];
      hide Coherent, After, Settles;
      HandlesStayCoherent(majors, h, init);
      VisitKeepsHandlesCoherent(majors, Run(majors, h, init).student, last);
    }
  }

  lemma VisitKeepsHandlesCoherent(majors: Majors, s: Student, v: Visit)
    requires Coherent(s)
    ensures Coherent(After(majors, s, v))
  {
    hide Updated, AdvanceYearLevel, NeedsDepartmentChoice, IsRolloverDue, AcronymOf;
    if v.edit.Some? {
      EditKeepsHandlesCoherent(majors, s, v.edit.value, v.rolloverAt, v.now);
    }
  }

  lemma HandlesCoherentFromTheStart(majors: Majors, s: Student, visits: seq<Visit>)
    requires s.telegram == None && s.handles == []
    ensures var t := Run(majors, History(s, []), visits).student; t.telegram.Some? ==> t.telegram.value in t.handles
  {
    HandlesStayCoherent(majors, History(s, []), visits);
    hide Run;
  }
}
