/**
 * What visits and profile edits do to a student, in terms of the row, the clock and the schedule alone, and what a
 * whole series of schedules does.
 */
module PromotionAnswers {
  import opened Prelude
  import opened YearLevels
  import opened YearPromotion

  /** The student's department goes by one of these names, in any letter case. */
  predicate Goes(majors: Majors, majorId: Option<MajorId>, names: seq<string>) {
    majorId.Some? && majorId.value in majors && exists name :: name in names && SameLetters(majors[majorId.value], name)
  }

  /** Departments whose last year is 2; every other one ends with 5. */
  lemma KindsOfMajor(majors: Majors, majorId: Option<MajorId>)
    ensures IsFoundationMajor(AcronymOf(majors, majorId)) <==> Goes(majors, majorId, ["tc", "foundation"])
    ensures Highest(AcronymOf(majors, majorId)) == if Goes(majors, majorId, ["tc", "foundation", "dfl"]) then 2 else 5
  {
    var acronym := AcronymOf(majors, majorId);
    HighestByKind(acronym);
    if acronym.Some? {
      KindsByName(acronym.value);
    }
    hide Lower, SameLetters, Highest;
  }

  function Least(a: int, b: int): int {
    if a < b then a else b
  }

  function LastYear(majors: Majors, majorId: Option<MajorId>): int {
    if Goes(majors, majorId, ["tc", "foundation", "dfl"]) then 2 else 5
  }

  /** The question is about year 2 of the foundation programme. */
  predicate Asked(majors: Majors, majorId: Option<MajorId>, year: Option<int>) {
    year == Some(2) && Goes(majors, majorId, ["tc", "foundation"])
  }

  /**
   * A visit advances a student, stamped or not, exactly when the schedule is set, has passed and is later than the
   * stamp; by one year, up to the department's last. Otherwise it only stamps an unstamped one with the schedule.
   */
  lemma PromotesExactly(majors: Majors, s: Student, rolloverAt: Option<int>, now: int)
    requires !Asked(majors, s.majorId, s.year)
    ensures var t := Promoted(majors, s, rolloverAt, now);
      if rolloverAt.Some? && rolloverAt.value <= now && (s.stamp.Some? ==> s.stamp.value < rolloverAt.value) then
        && t == s.(year := t.year, stamp := rolloverAt)
        && (s.year.None? ==> t.year.None?)
        && (s.year.Some? ==> t.year == Some(Least(s.year.value + 1, LastYear(majors, s.majorId))))
      else
        t == s.(stamp := if s.stamp.None? then rolloverAt else s.stamp)
  {
    KindsOfMajor(majors, s.majorId);
    hide Goes, Highest, AcronymOf, IsFoundationMajor;
  }

  /**
   * The question is open exactly while a foundation student in year 2 has such a schedule unsettled, and an open
   * question holds the row as it is.
   */
  lemma AsksExactly(majors: Majors, s: Student, rolloverAt: Option<int>, now: int)
    ensures MustChoose(majors, s, rolloverAt, now) <==>
      && Asked(majors, s.majorId, s.year)
      && rolloverAt.Some? && rolloverAt.value <= now && (s.stamp.Some? ==> s.stamp.value < rolloverAt.value)
    ensures Asked(majors, s.majorId, s.year) ==>
      var keeps := MustChoose(majors, s, rolloverAt, now) || s.stamp.Some?;
      Promoted(majors, s, rolloverAt, now) == if keeps then s else s.(stamp := rolloverAt)
  {
    KindsOfMajor(majors, s.majorId);
    hide Goes, Highest, AcronymOf, IsFoundationMajor;
  }

  function Instants(visits: seq<Visit>): seq<int>
    requires forall v :: v in visits ==> v.rolloverAt.Some?
  {
    seq(|visits|, i requires 0 <= i < |visits| => visits[i].rolloverAt.value)
  }

  /** Visits without edits, each after a schedule that is later than the one before and than `stamp`. */
  ghost predicate InTurn(stamp: Option<int>, visits: seq<Visit>) {
    && (forall v :: v in visits ==> v.edit.None? && v.rolloverAt.Some? && v.rolloverAt.value <= v.now)
    && (forall i, j :: 0 <= i < j < |visits| ==> visits[i].rolloverAt.value < visits[j].rolloverAt.value)
    && (stamp.Some? && visits != [] ==> stamp.value < visits[0].rolloverAt.value)
  }

  lemma OneScheduleCounts(majors: Majors, h: History, v: Visit)
    requires h.student.year.Some? && !Goes(majors, h.student.majorId, ["tc", "foundation"])
    requires v.edit.None? && v.rolloverAt.Some? && v.rolloverAt.value <= v.now
    requires h.student.stamp.Some? ==> h.student.stamp.value < v.rolloverAt.value
    ensures var year := Some(Least(h.student.year.value + 1, LastYear(majors, h.student.majorId)));
      Visited(majors, h, v) ==
        History(h.student.(year := year, stamp := v.rolloverAt), h.advances + [v.rolloverAt.value])
  {
    PromotesExactly(majors, h.student, v.rolloverAt, v.now);
    hide Goes, Promoted, LastYear, Least, Updated;
  }

  /** Every schedule counts once: a student who visits after each of a rising series is moved by each of them. */
  lemma {:induction false} EveryScheduleCounts(majors: Majors, s: Student, visits: seq<Visit>)
    requires s.year.Some? && !Goes(majors, s.majorId, ["tc", "foundation"]) && InTurn(s.stamp, visits)
    ensures Run(majors, History(s, []), visits) ==
      if visits == [] then History(s, [])
      else History(s.(year := Some(Least(s.year.value + |visits|, LastYear(majors, s.majorId))),
                      stamp := visits[|visits| - 1].rolloverAt), Instants(visits))
  {
    if visits != [] {
      var n := |visits| - 1;
      var v := visits[n];
      assert InTurn(s.stamp, visits[..n]) && v in visits;
      EveryScheduleCounts(majors, s, visits[..n]);
      var h := Run(majors, History(s, []), visits[..n]);
      assert Instants(visits) == Instants(visits[..n]) + [v.rolloverAt.value];
      assert h.student.stamp.Some? ==> h.student.stamp.value < v.rolloverAt.value;
      hide Goes, InTurn, Instants, Visited, LastYear;
      OneScheduleCounts(majors, h, v);
    }
  }

  // ─── Profile edits ───────────────────────────────────────────────────────

  /** The placement fields may be sent by whoever still lacks one of them, and by whoever is being asked. */
  predicate MayPlace(majors: Majors, s: Student, rolloverAt: Option<int>, now: int) {
    || s.majorId.None? || s.year.None?
    || (&& Asked(majors, s.majorId, s.year) && rolloverAt.Some? && rolloverAt.value <= now
        && (s.stamp.Some? ==> s.stamp.value < rolloverAt.value))
  }

  /** What an edit is answered, case by case; a refused one changes nothing. */
  lemma EditsAreAnswered(majors: Majors, s: Student, edit: Edit, rolloverAt: Option<int>, now: int)
    ensures var (t, o) := Updated(majors, s, edit, rolloverAt, now);
      var places := edit.majorId.Some? || edit.year.Some?;
      && (o == Forbidden <==> places && !MayPlace(majors, s, rolloverAt, now))
      && (o == ServerError <==>
            MayPlace(majors, s, rolloverAt, now) && edit.majorId.Some? && edit.majorId.value !in majors)
      && o != NotFound && (o != Done ==> t == s)
  {
    AsksExactly(majors, s, rolloverAt, now);
    hide Contact, Promoted, MustChoose, Asked;
  }

  /** Neither the placement nor the promotion touches names and handles. */
  lemma ContactIsStored(majors: Majors, s: Student, edit: Edit, rolloverAt: Option<int>, now: int)
    requires Updated(majors, s, edit, rolloverAt, now).1 == Done
    ensures var t, c := Updated(majors, s, edit, rolloverAt, now).0, Contact(s, edit);
      (t.profile, t.telegram, t.handles) == (c.profile, c.telegram, c.handles)
  {
    hide Unique, Cleaned, Trim, AdvanceYearLevel, MustChoose, AcronymOf, Renamed;
  }

  /** What an accepted edit stores: each name and the avatar as sent, or as they were. */
  lemma EditStoresTheProfile(majors: Majors, s: Student, edit: Edit, rolloverAt: Option<int>, now: int)
    requires Updated(majors, s, edit, rolloverAt, now).1 == Done
    ensures var p := Updated(majors, s, edit, rolloverAt, now).0.profile;
      && (if edit.firstName.Some? then edit.firstName == Some(p.firstName) else p.firstName == s.profile.firstName)
      && (if edit.lastName.Some? then edit.lastName == Some(p.lastName) else p.lastName == s.profile.lastName)
      && (if edit.avatar.Some? then p.avatar == edit.avatar else p.avatar == s.profile.avatar)
  {
    ContactIsStored(majors, s, edit, rolloverAt, now);
    hide Unique, Cleaned, Selection, Updated;
  }

  /**
   * The placement it stores: department and year as sent, or as they were, and then advanced as a visit would,
   * except that naming another department while being asked settles the schedule.
   */
  lemma EditStoresThePlacement(majors: Majors, s: Student, edit: Edit, rolloverAt: Option<int>, now: int)
    requires Updated(majors, s, edit, rolloverAt, now).1 == Done
    ensures var t := Updated(majors, s, edit, rolloverAt, now).0;
      var majorId := if edit.majorId.Some? then edit.majorId else s.majorId;
      var year := if edit.year.Some? then edit.year else s.year;
      var due := rolloverAt.Some? && rolloverAt.value <= now && (s.stamp.Some? ==> s.stamp.value < rolloverAt.value);
      var answers := due && Asked(majors, s.majorId, s.year) && edit.majorId.Some? && edit.majorId != s.majorId;
      && t.majorId == majorId
      && (if answers then t.year == year && t.stamp == rolloverAt
          else if !due then t.year == year && t.stamp == (if s.stamp.None? then rolloverAt else s.stamp)
          else if Asked(majors, majorId, year) then t.year == year && t.stamp == s.stamp
          else
            && t.stamp == rolloverAt && (year.None? ==> t.year.None?)
            && (year.Some? ==> t.year == Some(Least(year.value + 1, LastYear(majors, majorId)))))
  {
    AsksExactly(majors, s, rolloverAt, now);
    var placed := Placement(majors, s, edit, rolloverAt, now).0;
    ContactKeepsPlacement(placed, edit);
    var contacted := Contact(placed, edit);
    if !Asked(majors, contacted.majorId, contacted.year) {
      PromotesExactly(majors, contacted, rolloverAt, now);
    } else {
      AsksExactly(majors, contacted, rolloverAt, now);
    }
    hide Contact, Promoted, MustChoose, Asked, Goes;
  }

  // ─── Handles ─────────────────────────────────────────────────────────────

  predicate Blank(c: char) {
    c == ' ' || 9 <= c as int <= 13
  }

  predicate BlankFrom(s: string, lo: nat, hi: nat)
    requires hi <= |s|
  {
    forall k :: lo <= k < hi ==> Blank(s[k])
  }

  /** `h` is what is left of `raw` without the white space around it. */
  ghost predicate Stripped(raw: string, h: string) {
    exists i: nat, j: nat :: i <= j <= |raw| && h == raw[i..j] && StrippedAt(raw, i, j)
  }

  predicate StrippedAt(raw: string, i: nat, j: nat)
    requires i <= j <= |raw|
  {
    BlankFrom(raw, 0, i) && BlankFrom(raw, j, |raw|) && (i < j ==> !Blank(raw[i]) && !Blank(raw[j - 1]))
  }

  lemma {:induction false} TrimmedStart(s: string) returns (i: nat)
    ensures i <= |s| && TrimStart(s) == s[i..] && BlankFrom(s, 0, i) && (i < |s| ==> !Blank(s[i]))
  {
    i := 0;
    if s != "" && IsSpace(s[0]) {
      var n := TrimmedStart(s[1..]);
      i := n + 1;
      assert forall k :: 1 <= k < i ==> s[k] == s[1..][k - 1];
    }
  }

  lemma {:induction false} TrimmedEnd(s: string) returns (j: nat)
    ensures j <= |s| && TrimEnd(s) == s[..j] && BlankFrom(s, j, |s|) && (j > 0 ==> !Blank(s[j - 1]))
  {
    j := |s|;
    if s != "" && IsSpace(s[|s| - 1]) {
      j := TrimmedEnd(s[..|s| - 1]);
      assert forall k :: j <= k < |s| - 1 ==> s[k] == s[..|s| - 1][k];
    }
  }

  /** Trimming takes the white space at both ends, all of it, and nothing else. */
  lemma TrimStrips(raw: string)
    ensures Stripped(raw, Trim(raw))
  {
    var i := TrimmedStart(raw);
    var rest := TrimStart(raw);
    var j := TrimmedEnd(rest);
    hide TrimStart, TrimEnd, Blank;
    assert forall k :: i <= k < |raw| ==> raw[k] == rest[k - i];
    assert raw[i..i + j] == rest[..j];
    assert StrippedAt(raw, i, i + j);
  }

  lemma {:induction false} CleanedHolds(raws: seq<string>, h: string)
    ensures h in Cleaned(raws) <==> h != "" && exists raw :: raw in raws && h == Trim(raw)
  {
    if raws != [] {
      var init, last := raws[..|raws| - 1], raws[|raws| - 1];
      CleanedHolds(init, h);
      assert raws == init + [last];
      hide Trim;
      assert Cleaned(raws) == Cleaned(init) + if Trim(last) == "" then [] else [Trim(last)];
      hide Cleaned;
    }
  }

  /**
   * A sent list is stored stripped, without blanks and without repeats, and replaces the saved one; the account in
   * use is the one sent or had before, if the list holds it, and the first of the list otherwise.
   */
  lemma SentHandlesAreStored(majors: Majors, s: Student, edit: Edit, rolloverAt: Option<int>, now: int, h: string)
    requires Updated(majors, s, edit, rolloverAt, now).1 == Done && edit.handles.Some?
    ensures var t, raws := Updated(majors, s, edit, rolloverAt, now).0, edit.handles.value;
      && (h in t.handles <==> h != "" && exists raw :: raw in raws && h == Trim(raw))
      && (forall i, j :: 0 <= i < j < |t.handles| ==> t.handles[i] != t.handles[j])
      && var sent := if edit.telegram.None? then s.telegram
                     else if Trim(edit.telegram.value) == "" then None else Some(Trim(edit.telegram.value));
         t.telegram == if sent.Some? && (sent.value in t.handles || sent.value == "") then sent
                       else if t.handles == [] then None else Some(t.handles[0])
  {
    ContactIsStored(majors, s, edit, rolloverAt, now);
    CleanedHolds(edit.handles.value, h);
    hide Cleaned, Trim, Renamed, Updated;
  }

  /** A lone handle is stored stripped and joins the list; without either the row keeps its handles. */
  lemma LoneHandleJoins(majors: Majors, s: Student, edit: Edit, rolloverAt: Option<int>, now: int)
    requires Updated(majors, s, edit, rolloverAt, now).1 == Done && edit.handles.None?
    ensures var t := Updated(majors, s, edit, rolloverAt, now).0;
      if edit.telegram.None? then (t.telegram, t.handles) == (s.telegram, s.handles)
      else
        var h := Trim(edit.telegram.value);
        && t.telegram == (if h == "" then None else Some(h))
        && t.handles == (if h == "" || h in s.handles then s.handles else s.handles + [h])
  {
    ContactIsStored(majors, s, edit, rolloverAt, now);
    hide Unique, Cleaned, Trim, Renamed, Updated;
  }
}
