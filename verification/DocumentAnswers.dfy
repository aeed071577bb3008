/**
 * What each call on documents is answered and stores, in terms of the request, the rows and the clock alone; and
 * that an upload is shown to nobody its owner did not ask for.
 */
module DocumentAnswers {
  import opened Prelude
  import opened StorageRef
  import opened YearLevels
  import opened DocumentVisibility
  import opened DocumentReview
  import opened DocumentHistory

  // ─── Who is granted what ─────────────────────────────────────────────────

  /** The viewer's complete profile is one of the pairs. */
  predicate InCohort(audience: seq<Entry>, v: Viewer) {
    v.majorId.Some? && v.yearLevel.Some? && Entry(v.majorId.value, v.yearLevel.value) in audience
  }

  /** Published and open to this viewer, seen from outside. */
  predicate OpenTo(u: Upload, v: Viewer, now: int) {
    && u.status == Active && !u.hidden && (u.expiresAt.Some? ==> now < u.expiresAt.value)
    && (u.audience == [] || InCohort(u.audience, v))
  }

  /**
   * Signing grants a file to its uploader and to admins in whatever state it is, and to others exactly when it is
   * published in an upload open to them; what it signs is the preview if asked for and there, else the file itself.
   */
  lemma GrantsExactly(uploads: Uploads, files: Files, f: FileId, v: Viewer, now: int, variant: Variant)
    ensures SignFileAccess(uploads, files, f, v, now, variant) ==
      if f !in files || files[f].upload !in uploads then None
      else
        var u, file := uploads[files[f].upload], files[f];
        if v.admin || u.uploader == Some(v.id)
           || (OpenTo(u, v, now) && file.status == Active && !file.hidden)
        then ParseRef(if variant.Preview? && file.previewKey.Some? then file.previewKey else file.storageKey)
        else None
  {
    hide ParseRef;
    if f in files && files[f].upload in uploads {
      AudienceTestsDiffer(uploads[files[f].upload].audience, v);
    }
  }

  /** The detail page exists for active uploads, for those two and for whom they are open; outsiders see less of it. */
  lemma DetailExactly(uploads: Uploads, files: Files, u: UploadId, v: Viewer, now: int, f: FileId)
    ensures var shown := FindOne(uploads, files, u, v, now);
      && (shown.Some? <==>
            && u in uploads && uploads[u].status == Active
            && (v.admin || uploads[u].uploader == Some(v.id) || OpenTo(uploads[u], v, now)))
      && (shown.Some? ==> (f in shown.value <==>
            && f in files && files[f].upload == u
            && (v.admin || uploads[u].uploader == Some(v.id) || (files[f].status == Active && !files[f].hidden))))
  {
    if u in uploads {
      AudienceTestsDiffer(uploads[u].audience, v);
    }
  }

  /**
   * A list shows published files only: on one's own list those of uploads in the status asked for, if one is, hidden
   * and expired ones included; on any other those of active uploads open to the viewer.
   */
  lemma FeedExactly(majors: Majors, uploads: Uploads, files: Files, q: Query, v: Viewer, now: int, f: FileId)
    requires Linked(uploads, files) && AllResolved(majors, uploads)
    ensures f in FindAll(uploads, files, q, v, now) <==>
      && f in files && files[f].status == Active && !files[f].hidden && files[f].upload in q.matching
      && var u := uploads[files[f].upload];
         && (q.uploaderId.Some? ==> u.uploader == q.uploaderId)
         && (if q.uploaderId == Some(v.id) then q.status.Some? ==> u.status == q.status.value
             else
               && u.status == Active && !u.hidden && (u.expiresAt.Some? ==> now < u.expiresAt.value)
               && (v.admin || u.uploader == Some(v.id) || u.audience == [] || InCohort(u.audience, v)))
  {
    if f in files {
      var u := uploads[files[f].upload];
      BrowseFilterIsCanView(majors, u, v, now);
      AudienceTestsDiffer(u.audience, v);
      hide Resolved;
    }
  }

  // ─── What a new upload stores ────────────────────────────────────────────

  predicate Language(majors: Majors, majorId: MajorId) {
    majorId in majors && SameLetters(majors[majorId], "dfl")
  }

  predicate Foundation(majors: Majors, majorId: MajorId) {
    majorId in majors && (SameLetters(majors[majorId], "tc") || SameLetters(majors[majorId], "foundation"))
  }

  /** A cohort there can be students in. */
  predicate Real(majors: Majors, e: Entry) {
    && e.majorId in majors && !Language(majors, e.majorId)
    && (if Foundation(majors, e.majorId) then 1 <= e.yearLevel <= 2 else 3 <= e.yearLevel <= 5)
  }

  /** What the two kinds of department offer. */
  predicate Offered(majors: Majors, majorId: MajorId, docType: DocType) {
    if Language(majors, majorId)
    then docType in {Grammar, Vocabulary, Speaking, Listening, Reading, Writing, PracticeExercises, ExamPreparation,
                     Other}
    else docType in {Note, TD, TP, Project, Lesson, Thesis, ExamPreparation, Other}
  }

  /** The audience asked for, each pair once; none at all in a language course. */
  ghost predicate AsAsked(majors: Majors, majorId: MajorId, asked: seq<Entry>, stored: seq<Entry>) {
    && (Language(majors, majorId) ==> stored == [])
    && (!Language(majors, majorId) ==> forall e :: e in stored <==> e in asked)
    && (forall i, j :: 0 <= i < j < |stored| ==> stored[i] != stored[j])
  }

  lemma KindsOf(majors: Majors, majorId: MajorId, docType: DocType)
    requires majorId in majors
    ensures IsLanguageMajor(majors[majorId]) <==> Language(majors, majorId)
    ensures IsFoundationMajor(Some(majors[majorId])) <==> Foundation(majors, majorId)
    ensures Suits(majors[majorId], docType) <==> Offered(majors, majorId, docType)
  {
    KindsByName(majors[majorId]);
    hide IsLanguageMajor, IsFoundationMajor, SameLetters;
  }

  lemma RealMeans(majors: Majors, e: Entry)
    ensures RealCohort(majors, e) <==> Real(majors, e)
  {
    if e.majorId in majors {
      KindsOf(majors, e.majorId, Other);
      YearsByKind(majors[e.majorId], e.yearLevel);
    }
    hide IsLanguageMajor, IsFoundationMajor, Language, Foundation, YearLevelsForMajor;
  }

  lemma ResolveMeans(majors: Majors, majorId: MajorId, asked: seq<Entry>)
    requires majorId in majors
    ensures var stored := Resolve(majors, majors[majorId], asked);
      && (stored.Some? <==> Language(majors, majorId) || forall e :: e in asked ==> Real(majors, e))
      && (stored.Some? ==> AsAsked(majors, majorId, asked, stored.value))
  {
    KindsOf(majors, majorId, Other);
    forall e ensures RealCohort(majors, e) <==> Real(majors, e) { RealMeans(majors, e); }
    hide IsLanguageMajor, RealCohort, Real, Language;
  }

  /** A request whose files can be looked at: there are some, and department, type and audience are in order. */
  predicate MayUpload(s: State, meta: Meta, batch: Batch) {
    && (batch.direct != [] || batch.stagedIds != [])
    && meta.majorId in s.majors && Offered(s.majors, meta.majorId, meta.docType)
    && (Language(s.majors, meta.majorId) || forall e :: e in meta.audience ==> Real(s.majors, e))
  }

  predicate MineToClaim(s: State, user: UserId, batch: Batch) {
    forall id :: id in batch.stagedIds ==> id in s.staged && s.staged[id].uploader == user
  }

  lemma InOrderMeans(s: State, meta: Meta, batch: Batch)
    ensures InOrder(s, meta, batch) <==> MayUpload(s, meta, batch)
  {
    if meta.majorId in s.majors {
      KindsOf(s.majors, meta.majorId, meta.docType);
      ResolveMeans(s.majors, meta.majorId, meta.audience);
    }
    hide Suits, Resolve, Offered, Language, Real, AsAsked;
  }

  /** What a new upload is answered. */
  lemma UploadIsAnswered(s: State, u: UploadId, user: UserId, meta: Meta, batch: Batch)
    requires Fresh(s, UploadMany(u, user, meta, batch))
    ensures var o := Apply(s, UploadMany(u, user, meta, batch)).1;
      var goes := MayUpload(s, meta, batch) && MineToClaim(s, user, batch);
      && (o == BadRequest <==> !goes)
      && (o == FileRefused <==> goes && exists sent :: sent in batch.direct && !sent.accepted)
      && (o == Done <==> goes && forall sent :: sent in batch.direct ==> sent.accepted)
  {
    InOrderMeans(s, meta, batch);
    if InOrder(s, meta, batch) {
      var audience := Resolve(s.majors, s.majors[meta.majorId], meta.audience).value;
      var created := Created(s, u, NewUpload(user, meta, audience));
      SaveLeaves(created, u, user, batch, Active);
    }
    hide Suits, Resolve, MayUpload, Save;
  }

  /**
   * Whatever becomes of its files, a new upload that is written is as sent: its owner, department, type and expiry,
   * the audience asked for, pending and not hidden.
   */
  lemma UploadIsStored(s: State, u: UploadId, user: UserId, meta: Meta, batch: Batch)
    requires Fresh(s, UploadMany(u, user, meta, batch)) && u !in s.uploads
    ensures var t := After(s, UploadMany(u, user, meta, batch));
      && (u in t.uploads <==> MayUpload(s, meta, batch))
      && (u in t.uploads ==>
            var row := t.uploads[u];
            && row.uploader == Some(user) && row.majorId == meta.majorId && row.docType == meta.docType
            && row.expiresAt == meta.expiresAt && row.status == Pending && !row.hidden
            && AsAsked(s.majors, meta.majorId, meta.audience, row.audience))
  {
    InOrderMeans(s, meta, batch);
    if InOrder(s, meta, batch) {
      ResolveMeans(s.majors, meta.majorId, meta.audience);
      var audience := Resolve(s.majors, s.majors[meta.majorId], meta.audience).value;
      SaveLeavesUploads(Created(s, u, NewUpload(user, meta, audience)), u, user, batch, Active);
    }
    hide Suits, Resolve, MayUpload, Save, AsAsked;
  }

  // ─── What files are stored as ────────────────────────────────────────────

  /** A row for the object put there, visible, with its rendition if it has one. */
  predicate Holds(file: File, u: UploadId, status: Status, storageKey: string, previewKey: Option<string>) {
    && file.upload == u && file.status == status && !file.hidden
    && file.storageKey == Some("documents/" + storageKey)
    && file.previewKey == (if previewKey.Some? && previewKey.value != "" then Some("documents/" + previewKey.value)
                           else None)
  }

  lemma SentIsSaved(s: State, u: UploadId, user: UserId, batch: Batch, status: Status, i: nat)
    requires FreshRows(s, batch) && MineToClaim(s, user, batch) && i < Through(batch.direct)
    ensures var t, sent := Save(s, u, user, batch, status).0, batch.direct[i];
      sent.id in t.files && Holds(t.files[sent.id], u, status, sent.storageKey, sent.previewKey)
  {
    var rows := SentRows(Landing(batch.direct), u, status);
    SentHold(Landing(batch.direct), u, status);
    ClaimDecides(s, u, user, batch, status);
    hide Unique, AddRows, Holds, SentRows, Claim;
    RowLands(Claim(s, u, user, batch, status).value, rows, i);
  }

  lemma ClaimedLands(s: State, u: UploadId, user: UserId, batch: Batch, status: Status, i: nat)
    requires FreshRows(s, batch) && MineToClaim(s, user, batch) && i < |Unique(batch.stagedIds)|
    ensures var t, staged := Claim(s, u, user, batch, status), s.staged[Unique(batch.stagedIds)[i]];
      && t.Some? && batch.ids[i] in t.value.files
      && Holds(t.value.files[batch.ids[i]], u, status, staged.storageKey, staged.previewKey)
  {
    var unique := Unique(batch.stagedIds);
    ClaimDecides(s, u, user, batch, status);
    var rows := ClaimedRows(s.staged, unique, batch.ids, u, status);
    RowsHold(s.staged, unique, batch.ids, u, status);
    hide Unique, AddRows, Holds, ClaimedRows;
    RowLands(s, rows, i);
  }

  lemma SentAreNew(s: State, u: UploadId, user: UserId, batch: Batch, status: Status)
    requires FreshRows(s, batch) && Claim(s, u, user, batch, status).Some?
    ensures var claimed, sent := Claim(s, u, user, batch, status).value, SentRows(Landing(batch.direct), u, status);
      NewIds(claimed.fileIds, sent) && forall id :: id in batch.ids ==> id in claimed.fileIds
  {
    ClaimAdds(s, u, user, batch, status);
    hide Claim, Unique;
  }

  lemma ClaimedIsSaved(s: State, u: UploadId, user: UserId, batch: Batch, status: Status, i: nat)
    requires FreshRows(s, batch) && MineToClaim(s, user, batch) && i < |Unique(batch.stagedIds)|
    ensures var t, staged := Save(s, u, user, batch, status).0, s.staged[Unique(batch.stagedIds)[i]];
      batch.ids[i] in t.files && Holds(t.files[batch.ids[i]], u, status, staged.storageKey, staged.previewKey)
  {
    ClaimedLands(s, u, user, batch, status, i);
    SentAreNew(s, u, user, batch, status);
    assert batch.ids[i] in batch.ids;
    hide FreshRows, Unique, AddRows, Holds, Claim, SentRows, NewIds, Landing;
    RowsKeepOld(Claim(s, u, user, batch, status).value, SentRows(Landing(batch.direct), u, status), batch.ids[i]);
  }

  /**
   * When the claim goes through, every claimed file is stored as it was staged, and every sent one before the first
   * refused; they land pending in an active upload, and active in any other, a new one included.
   */
  lemma FilesAreStored(s: State, call: Call, i: nat)
    requires Fresh(s, call) && (call.UploadMany? || call.AddFiles?) && MineToClaim(s, call.user, call.batch)
    requires call.UploadMany? ==> MayUpload(s, call.meta, call.batch)
    requires call.AddFiles? ==> Owns(s, call.upload, call.user)
    ensures var files, b := After(s, call).files, call.batch;
      var status := if call.AddFiles? && s.uploads[call.upload].status == Active then Pending else Active;
      && (i < |b.direct| && (forall j :: 0 <= j <= i ==> b.direct[j].accepted) ==>
            && b.direct[i].id in files
            && Holds(files[b.direct[i].id], call.upload, status, b.direct[i].storageKey, b.direct[i].previewKey))
      && (i < |Unique(b.stagedIds)| ==>
            var staged := s.staged[Unique(b.stagedIds)[i]];
            && b.ids[i] in files
            && Holds(files[b.ids[i]], call.upload, status, staged.storageKey, staged.previewKey))
  {
    var status := if call.AddFiles? && s.uploads[call.upload].status == Active then Pending else Active;
    var b := call.batch;
    assert b.stagedIds == [] ==> |Unique(b.stagedIds)| == 0;
    var s0 := SavingStarts(s, call);
    hide Save, Holds, MayUpload, Suits, Resolve, Unique, FreshRows, MineToClaim, Fresh;
    if i < |b.direct| && forall j :: 0 <= j <= i ==> b.direct[j].accepted {
      SentIsSaved(s0, call.upload, call.user, b, status, i);
    }
    if i < |Unique(b.stagedIds)| {
      ClaimedIsSaved(s0, call.upload, call.user, b, status, i);
    }
  }

  /** Where such a call stands when it starts to save, and what it makes of that. */
  lemma SavingStarts(s: State, call: Call) returns (s0: State)
    requires Fresh(s, call) && (call.UploadMany? || call.AddFiles?) && MineToClaim(s, call.user, call.batch)
    requires call.UploadMany? ==> MayUpload(s, call.meta, call.batch)
    requires call.AddFiles? ==> Owns(s, call.upload, call.user)
    ensures FreshRows(s0, call.batch) && MineToClaim(s0, call.user, call.batch) && s0.staged == s.staged
    ensures var status := if call.AddFiles? && s.uploads[call.upload].status == Active then Pending else Active;
      call.batch.direct != [] || call.batch.stagedIds != [] ==>
        After(s, call).files == Save(s0, call.upload, call.user, call.batch, status).0.files
  {
    s0 := s;
    if call.UploadMany? {
      InOrderMeans(s, call.meta, call.batch);
      var audience := Resolve(s.majors, s.majors[call.meta.majorId], call.meta.audience).value;
      s0 := Created(s, call.upload, NewUpload(call.user, call.meta, audience));
    }
    hide Save, MayUpload, Suits, Resolve, Unique;
  }

  lemma RowsHold(staged: map<StagedId, Staged>, unique: seq<StagedId>, ids: seq<FileId>, u: UploadId, status: Status)
    requires (forall id :: id in unique ==> id in staged) && |unique| <= |ids|
    ensures var rows := ClaimedRows(staged, unique, ids, u, status);
      |rows| == |unique| && forall i :: 0 <= i < |rows| ==>
        var one := staged[unique[i]];
        rows[i].id == ids[i] && Holds(rows[i].file, u, status, one.storageKey, one.previewKey)
  {
  }

  lemma SentHold(direct: seq<Sent>, u: UploadId, status: Status)
    ensures var rows := SentRows(direct, u, status);
      |rows| == |direct| && forall i :: 0 <= i < |rows| ==>
        rows[i].id == direct[i].id && Holds(rows[i].file, u, status, direct[i].storageKey, direct[i].previewKey)
  {
  }

  /** What an addition is answered; it reopens the review only when nothing was refused. */
  lemma AdditionIsAnswered(s: State, u: UploadId, user: UserId, batch: Batch, v: UploadId)
    requires Fresh(s, AddFiles(u, user, batch))
    ensures var (t, o) := Apply(s, AddFiles(u, user, batch));
      var some := batch.direct != [] || batch.stagedIds != [];
      var mine := some && u in s.uploads && s.uploads[u].uploader == Some(user);
      var goes := mine && MineToClaim(s, user, batch);
      && (o == NotFound <==> some && u !in s.uploads)
      && (o == Forbidden <==> some && u in s.uploads && !mine)
      && (o == BadRequest <==> !some || (mine && !goes))
      && (o == FileRefused <==> goes && exists sent :: sent in batch.direct && !sent.accepted)
      && (o == Done <==> goes && forall sent :: sent in batch.direct ==> sent.accepted)
      && t.uploads.Keys == s.uploads.Keys
      && (v in s.uploads ==>
            var reopens := v == u && o == Done && s.uploads[v].status != Active;
            t.uploads[v] == if reopens then s.uploads[v].(status := Pending) else s.uploads[v])
  {
    if u in s.uploads {
      SaveLeaves(s, u, user, batch, ArrivalStatus(s.uploads[u]));
      SaveLeavesUploads(s, u, user, batch, ArrivalStatus(s.uploads[u]));
    }
    hide Save, FreshRows;
  }

  // ─── Edits ───────────────────────────────────────────────────────────────

  /** The department an edit leaves. */
  function Becomes(s: State, u: UploadId, patch: Patch): MajorId
    requires u in s.uploads
  {
    if patch.majorId.Some? then patch.majorId.value else s.uploads[u].majorId
  }

  /** The audience it is resolved from. */
  function Asks(s: State, u: UploadId, patch: Patch): seq<Entry>
    requires u in s.uploads
  {
    if patch.audience.Some? then patch.audience.value else s.uploads[u].audience
  }

  /** What an edit may not send. */
  predicate Unfit(s: State, u: UploadId, patch: Patch)
    requires u in s.uploads
  {
    var majorId := Becomes(s, u, patch);
    || majorId !in s.majors
    || (patch.docType.Some? && !Offered(s.majors, majorId, patch.docType.value))
    || (&& (patch.majorId.Some? || patch.audience.Some?) && !Language(s.majors, majorId)
        && exists e :: e in Asks(s, u, patch) && !Real(s.majors, e))
    || (&& patch.expiresAt.Some? && patch.expiresAt.value != s.uploads[u].expiresAt
        && patch.expiresAt.value.Some? && patch.expiresAt.value.value <= s.now)
  }

  /** In every reachable state an edit is answered like this. */
  lemma EditIsAnswered(s: State, u: UploadId, user: UserId, patch: Patch)
    requires Inv(s)
    ensures var (t, o) := Apply(s, Update(u, user, patch));
      && (o == NotFound <==> u !in s.uploads)
      && (o == Forbidden <==> u in s.uploads && s.uploads[u].uploader != Some(user))
      && (o == BadRequest <==> u in s.uploads && s.uploads[u].uploader == Some(user) && Unfit(s, u, patch))
      && (o == Done <==> u in s.uploads && s.uploads[u].uploader == Some(user) && !Unfit(s, u, patch))
      && (o != Done ==> t == s)
  {
    if u in s.uploads {
      AudienceOf(s, u);
      var majorId := Becomes(s, u, patch);
      if majorId in s.majors {
        KindsOf(s.majors, majorId, if patch.docType.Some? then patch.docType.value else Other);
        ResolveMeans(s.majors, majorId, Asks(s, u, patch));
      }
    }
    hide Inv, Suits, Resolve, Resolved, Offered, Language, Real, AsAsked, Reopened;
  }

  /**
   * An accepted edit stores each field as sent or as it was; an audience or department sent re-resolves the
   * audience; a rejected upload is pending again.
   */
  lemma EditIsStored(s: State, u: UploadId, user: UserId, patch: Patch)
    requires Inv(s) && Apply(s, Update(u, user, patch)).1 == Done
    ensures var t, was := After(s, Update(u, user, patch)), s.uploads[u];
      var row := t.uploads[u];
      && t == s.(uploads := s.uploads[u := row])
      && row.majorId == Becomes(s, u, patch) && row.uploader == was.uploader && row.hidden == was.hidden
      && row.docType == (if patch.docType.Some? then patch.docType.value else was.docType)
      && row.expiresAt == (if patch.expiresAt.Some? then patch.expiresAt.value else was.expiresAt)
      && row.status == (if was.status == Active then Active else Pending)
      && (if patch.majorId.Some? || patch.audience.Some?
          then AsAsked(s.majors, row.majorId, Asks(s, u, patch), row.audience)
          else row.audience == was.audience)
  {
    AudienceOf(s, u);
    ResolveMeans(s.majors, Becomes(s, u, patch), Asks(s, u, patch));
    hide Inv, Suits, Resolve, Resolved, Language, Real, AsAsked;
  }

  // ─── The other calls ─────────────────────────────────────────────────────

  /** Deleting and hiding an upload are its owner's; an admin deletes any. */
  lemma UploadCallsAreAnswered(s: State, u: UploadId, user: UserId, hidden: bool, f: FileId)
    ensures var there, mine := u in s.uploads, u in s.uploads && s.uploads[u].uploader == Some(user);
      var (gone, deleted), (any, byAdmin) := Apply(s, Delete(u, user)), Apply(s, DeleteDocument(u));
      var (shown, hid) := Apply(s, SetHidden(u, user, hidden));
      && (deleted == Done <==> mine) && (deleted == NotFound <==> !there) && (deleted == Forbidden <==> there && !mine)
      && (byAdmin == Done <==> there) && (byAdmin == NotFound <==> !there)
      && (hid == Done <==> mine) && (hid == NotFound <==> !there) && (hid == Forbidden <==> there && !mine)
      && shown == (if mine then s.(uploads := s.uploads[u := s.uploads[u].(hidden := hidden)]) else s)
      && any == (if there then any else s) && gone == (if mine then any else s)
      && (there ==>
            && any.uploads == s.uploads - {u} && any == s.(uploads := any.uploads, files := any.files)
            && (f in any.files <==> f in s.files && s.files[f].upload != u)
            && (f in any.files ==> any.files[f] == s.files[f]))
  {
  }

  /** Removing and hiding a file are its upload's owner's. */
  lemma FileCallsAreAnswered(s: State, f: FileId, user: UserId, hidden: bool, g: FileId, v: UploadId)
    ensures var there := f in s.files && s.files[f].upload in s.uploads;
      var mine := there && s.uploads[s.files[f].upload].uploader == Some(user);
      var (left, removed), (shown, hid) := Apply(s, RemoveFile(f, user)), Apply(s, SetFileHidden(f, user, hidden));
      && (removed == Done <==> mine) && (removed == NotFound <==> !there) && (removed == Forbidden <==> there && !mine)
      && (hid == Done <==> mine) && (hid == NotFound <==> !there) && (hid == Forbidden <==> there && !mine)
      && (!mine ==> left == s && shown == s)
      && (mine ==>
            && (g in left.files <==> g in s.files && g != f) && (g in left.files ==> left.files[g] == s.files[g])
            && shown.files == s.files[f := s.files[f].(hidden := hidden)]
            && (v in left.uploads ==> v in s.uploads && left.uploads[v] == s.uploads[v])
            && (v in s.uploads && v != s.files[f].upload ==> v in left.uploads)
            && shown.uploads.Keys == s.uploads.Keys
            && (v in s.uploads ==>
                  var touched := if v == s.files[f].upload then shown.uploads[v].hidden else s.uploads[v].hidden;
                  shown.uploads[v] == s.uploads[v].(hidden := touched)))
  {
    if f in s.files && s.files[f].upload in s.uploads {
      var u := s.files[f].upload;
      WithoutOne(FilesOf(s.files, u), f);
      if g in s.files && g != f && s.files[g].upload == u {
        assert g in FilesOf(s.files, u) - {f};
      }
    }
    hide Unhidden;
  }

  /** A verdict needs something pending and a reviewer of its department. */
  lemma VerdictsAreAnswered(s: State, u: UploadId, f: FileId, reviewer: Reviewer)
    ensures var pending := u in s.uploads && s.uploads[u].status == Pending;
      var may := pending && (reviewer.admin || s.uploads[u].majorId in reviewer.majorIds);
      var (published, yes), (refused, no) := Apply(s, ApproveGroup(u, reviewer)), Apply(s, RejectGroup(u, reviewer));
      && (yes == Done <==> may) && (yes == NothingPending <==> !pending) && (yes == Forbidden <==> pending && !may)
      && no == yes && (!may ==> published == s && refused == s)
      && (may ==>
            && published.uploads == s.uploads[u := s.uploads[u].(status := Active)]
            && refused.uploads == s.uploads[u := s.uploads[u].(status := Rejected)]
            && published.files == refused.files == s.files)
    ensures var pending := f in s.files && s.files[f].status == Pending && s.files[f].upload in s.uploads;
      var may := pending && (reviewer.admin || s.uploads[s.files[f].upload].majorId in reviewer.majorIds);
      var (published, yes), (refused, no) := Apply(s, ApproveFile(f, reviewer)), Apply(s, RejectFile(f, reviewer));
      && (yes == Done <==> may) && (yes == NothingPending <==> !pending) && (yes == Forbidden <==> pending && !may)
      && no == yes && (!may ==> published == s && refused == s)
      && (may ==>
            && published.files == s.files[f := s.files[f].(status := Active)]
            && refused.files == s.files[f := s.files[f].(status := Rejected)]
            && published.uploads == refused.uploads == s.uploads)
  {
  }

  // ─── Nobody the owner did not ask for ────────────────────────────────────

  /** The row is as it was, but for status and hiding, or is gone for good. */
  predicate SameTerms(s: State, u: UploadId, row: Upload) {
    && u in s.uploadIds
    && (u in s.uploads ==>
          var now := s.uploads[u];
          (now.uploader, now.majorId, now.audience, now.expiresAt) ==
            (row.uploader, row.majorId, row.audience, row.expiresAt))
  }

  lemma TermsStep(s: State, call: Call, u: UploadId, row: Upload)
    requires Fresh(s, call) && SameTerms(s, u, row) && !(call.Update? && call.upload == u)
    ensures SameTerms(After(s, call), u, row)
  {
    hide Resolve, Suits, Save, FilesOf, Unhidden, FreshRows;
    if call.UploadMany? {
      CreateChangesNoOther(s, call, u);
    } else if call.AddFiles? {
      AddingChangesStatus(s, call, u);
    }
  }

  lemma {:induction false} TermsStand(s: State, calls: seq<Call>, u: UploadId, row: Upload)
    requires FreshRun(s, calls) && SameTerms(s, u, row)
    requires forall call :: call in calls ==> !(call.Update? && call.upload == u)
    ensures SameTerms(Run(s, calls), u, row)
  {
    hide After, Fresh, SameTerms;
    if calls != [] {
      TermsStand(s, calls[..|calls| - 1], u, row);
      TermsStep(Run(s, calls[..|calls| - 1]), calls[|calls| - 1], u, row);
    }
  }

  lemma HonouredBy(majors: Majors, majorId: MajorId, asked: seq<Entry>, stored: seq<Entry>, v: Viewer)
    requires AsAsked(majors, majorId, asked, stored)
    ensures stored == [] || InCohort(stored, v) ==> Language(majors, majorId) || asked == [] || InCohort(asked, v)
  {
    hide Language;
    assert asked != [] ==> asked[0] in asked;
  }

  /**
   * Over any run that follows and does not edit it, a stranger is granted a file of an upload only if its owner
   * asked for everyone or for the stranger's cohort, or the department is a language course; and before its expiry.
   */
  lemma AudienceIsHonoured(s: State, u: UploadId, user: UserId, meta: Meta, batch: Batch, calls: seq<Call>,
                           f: FileId, v: Viewer, variant: Variant)
    requires Fresh(s, UploadMany(u, user, meta, batch)) && u !in s.uploads
    requires u in After(s, UploadMany(u, user, meta, batch)).uploads
    requires FreshRun(After(s, UploadMany(u, user, meta, batch)), calls)
    requires forall call :: call in calls ==> !(call.Update? && call.upload == u)
    requires !v.admin && v.id != user
    ensures var t := Run(After(s, UploadMany(u, user, meta, batch)), calls);
      f in t.files && t.files[f].upload == u && SignFileAccess(t.uploads, t.files, f, v, t.now, variant).Some? ==>
        && (Language(s.majors, meta.majorId) || meta.audience == [] || InCohort(meta.audience, v))
        && (meta.expiresAt.Some? ==> t.now < meta.expiresAt.value)
  {
    UploadIsStored(s, u, user, meta, batch);
    var start := After(s, UploadMany(u, user, meta, batch));
    CreatedIsKnown(s, UploadMany(u, user, meta, batch));
    InOrderMeans(s, meta, batch);
    var row := start.uploads[u];
    hide Apply, Language, MayUpload, Fresh, AsAsked, InCohort, Run;
    TermsStand(start, calls, u, row);
    var t := Run(start, calls);
    GrantsExactly(t.uploads, t.files, f, v, t.now, variant);
    HonouredBy(s.majors, meta.majorId, meta.audience, row.audience, v);
    hide SignFileAccess, ParseRef;
  }
}
