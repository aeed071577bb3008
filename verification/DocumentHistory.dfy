/** What the review of documents promises, call by call and over whole runs. */
module DocumentHistory {
  import opened Prelude
  import opened StorageRef
  import opened YearLevels
  import opened DocumentVisibility
  import opened DocumentReview

  // ─── Whose verdict changes what ──────────────────────────────────────────

  /** An upload changes status by a moderator's verdict on a pending one, or by its owner's edit of a rejected one. */
  ghost predicate UploadChangeAllowed(s: State, call: Call, u: UploadId, to: Status)
    requires u in s.uploads
  {
    var row := s.uploads[u];
    match to
    case Active =>
      call.ApproveGroup? && call.upload == u && row.status == Pending && CanModerate(call.reviewer, row.majorId)
    case Rejected =>
      call.RejectGroup? && call.upload == u && row.status == Pending && CanModerate(call.reviewer, row.majorId)
    case Pending =>
      (call.Update? || call.AddFiles?) && call.upload == u && row.status == Rejected && row.uploader == Some(call.user)
  }

  lemma CreateChangesNoOther(s: State, call: Call, u: UploadId)
    requires Fresh(s, call) && call.UploadMany? && u in s.uploadIds
    ensures u in After(s, call).uploadIds
    ensures u in After(s, call).uploads <==> u in s.uploads
    ensures u in s.uploads ==> After(s, call).uploads[u] == s.uploads[u]
  {
    hide Resolve, Suits, Save;
    if call.meta.majorId in s.majors {
      var resolved := Resolve(s.majors, s.majors[call.meta.majorId], call.meta.audience);
      if resolved.Some? {
        var created := Created(s, call.upload, NewUpload(call.user, call.meta, resolved.value));
        SaveLeavesUploads(created, call.upload, call.user, call.batch, Active);
      }
    }
  }

  lemma AddingChangesStatus(s: State, call: Call, u: UploadId)
    requires Fresh(s, call) && call.AddFiles? && u in s.uploadIds
    ensures var t := After(s, call);
      && u in t.uploadIds && (u in t.uploads <==> u in s.uploads)
      && (u in s.uploads ==>
            || t.uploads[u] == s.uploads[u]
            || (u == call.upload && s.uploads[u].uploader == Some(call.user) && t.uploads[u] == Reopened(s.uploads[u])))
  {
    hide Save;
    if call.upload in s.uploads {
      SaveLeavesUploads(s, call.upload, call.user, call.batch, ArrivalStatus(s.uploads[call.upload]));
    }
  }

  lemma UploadChanges(s: State, call: Call, u: UploadId)
    requires Fresh(s, call) && u in s.uploads && u in s.uploadIds && u in After(s, call).uploads
    ensures var to := After(s, call).uploads[u].status;
      to == s.uploads[u].status || UploadChangeAllowed(s, call, u, to)
  {
    hide Resolve, Suits, Save, FilesOf, Unhidden, FreshRows;
    if call.UploadMany? {
      CreateChangesNoOther(s, call, u);
    } else if call.AddFiles? {
      AddingChangesStatus(s, call, u);
    }
  }

  lemma NoOtherNewUpload(s: State, call: Call, u: UploadId)
    requires Fresh(s, call) && u in s.uploadIds
    ensures u in After(s, call).uploadIds && (u in After(s, call).uploads ==> u in s.uploads)
  {
    hide Resolve, Suits, Save, FilesOf, Unhidden, FreshRows;
    if call.UploadMany? {
      CreateChangesNoOther(s, call, u);
    } else if call.AddFiles? {
      AddingChangesStatus(s, call, u);
    }
  }

  /** Once an upload is active it stays active for as long as it exists. */
  ghost predicate ActiveOrGone(s: State, u: UploadId) {
    u in s.uploadIds && (u in s.uploads ==> s.uploads[u].status == Active)
  }

  lemma ActiveStep(s: State, call: Call, u: UploadId)
    requires Fresh(s, call) && ActiveOrGone(s, u)
    ensures ActiveOrGone(After(s, call), u)
  {
    hide After;
    NoOtherNewUpload(s, call, u);
    if u in After(s, call).uploads {
      UploadChanges(s, call, u);
    }
  }

  lemma {:induction false} ActiveIsFinal(s: State, calls: seq<Call>, u: UploadId)
    requires FreshRun(s, calls) && ActiveOrGone(s, u)
    ensures ActiveOrGone(Run(s, calls), u)
  {
    hide After, Fresh, ActiveOrGone;
    if calls != [] {
      ActiveIsFinal(s, calls[..|calls| - 1], u);
      ActiveStep(Run(s, calls[..|calls| - 1]), calls[|calls| - 1], u);
    }
  }

  // ─── Files that were there stay as they were ─────────────────────────────

  lemma {:induction false} RowsKeepOld(s: State, rows: seq<Row>, f: FileId)
    requires NewIds(s.fileIds, rows) && f in s.files && f in s.fileIds
    ensures var t := AddRows(s, rows);
      && f in t.files && t.files[f] == s.files[f]
      && (forall id :: id in t.fileIds ==> id in s.fileIds || exists i :: 0 <= i < |rows| && rows[i].id == id)
  {
    if rows != [] {
      RowsKeepOld(s, rows[..|rows| - 1], f);
    }
  }

  lemma SaveKeepsOld(s: State, u: UploadId, user: UserId, batch: Batch, status: Status, f: FileId)
    requires FreshRows(s, batch) && f in s.files && f in s.fileIds
    ensures var t := Save(s, u, user, batch, status).0; f in t.files && t.files[f] == s.files[f]
  {
    var claimed := Claim(s, u, user, batch, status);
    if claimed.Some? {
      var rows := ClaimedRows(s.staged, Unique(batch.stagedIds), batch.ids, u, status);
      AddRowsFrame(s, rows);
      hide Unique, NewFile, AddRows;
      RowsKeepOld(s, rows, f);
      RowsKeepOld(claimed.value, SentRows(Landing(batch.direct), u, status), f);
    }
  }

  lemma CreatingKeepsOld(s: State, call: Call, f: FileId)
    requires Fresh(s, call) && call.UploadMany? && f in s.files && f in s.fileIds
    ensures f in After(s, call).files && After(s, call).files[f] == s.files[f]
  {
    hide Resolve, Suits, Save;
    if call.meta.majorId in s.majors {
      var resolved := Resolve(s.majors, s.majors[call.meta.majorId], call.meta.audience);
      if resolved.Some? {
        var created := Created(s, call.upload, NewUpload(call.user, call.meta, resolved.value));
        SaveKeepsOld(created, call.upload, call.user, call.batch, Active, f);
      }
    }
  }

  ghost predicate FileChangeAllowed(s: State, call: Call, f: FileId, to: Status)
    requires f in s.files
  {
    && s.files[f].status == Pending && s.files[f].upload in s.uploads
    && ((call.ApproveFile? && to == Active) || (call.RejectFile? && to == Rejected))
    && call.file == f && CanModerate(call.reviewer, s.uploads[s.files[f].upload].majorId)
  }

  /** A file changes status once: pending, then a moderator's verdict. Its upload and its objects never change. */
  lemma FileChanges(s: State, call: Call, f: FileId)
    requires Fresh(s, call) && f in s.files && f in s.fileIds && f in After(s, call).files
    ensures var before, after := s.files[f], After(s, call).files[f];
      && (after.upload, after.storageKey, after.previewKey) == (before.upload, before.storageKey, before.previewKey)
      && (after.status == before.status || FileChangeAllowed(s, call, f, after.status))
  {
    hide Resolve, Suits, Save, FilesOf, Unhidden;
    if call.UploadMany? {
      CreatingKeepsOld(s, call, f);
    } else if call.AddFiles? && call.upload in s.uploads {
      SaveKeepsOld(s, call.upload, call.user, call.batch, ArrivalStatus(s.uploads[call.upload]), f);
    }
  }

  // ─── Clearances ──────────────────────────────────────────────────────────

  /**
   * A clearance enters the history only by the verdict of a reviewer of the upload's department on something
   * pending.
   */
  lemma ClearancesAreAuthorised(s: State, call: Call, e: Event)
    requires Fresh(s, call) && !e.Added? && e in After(s, call).log && e !in s.log
    ensures call.ApproveGroup? || call.ApproveFile?
    ensures e.reviewer == call.reviewer.id
    ensures call.ApproveGroup? ==>
      && e == ClearedGroup(call.upload, call.reviewer.id)
      && call.upload in s.uploads && s.uploads[call.upload].status == Pending
      && CanModerate(call.reviewer, s.uploads[call.upload].majorId)
    ensures call.ApproveFile? ==>
      && e == ClearedFile(call.file, call.reviewer.id)
      && call.file in s.files && s.files[call.file].status == Pending && s.files[call.file].upload in s.uploads
      && CanModerate(call.reviewer, s.uploads[s.files[call.file].upload].majorId)
  {
    hide Resolve, Suits, Save, FilesOf, Unhidden;
    if call.UploadMany? {
      CreatingLogsArrivals(s, call, e);
    } else if call.AddFiles? && call.upload in s.uploads {
      SaveLogsArrivals(s, call.upload, call.user, call.batch, ArrivalStatus(s.uploads[call.upload]), e);
    }
  }

  lemma {:induction false} RowsLogArrivals(s: State, rows: seq<Row>, e: Event)
    requires !e.Added?
    ensures e in AddRows(s, rows).log <==> e in s.log
  {
    if rows != [] {
      RowsLogArrivals(s, rows[..|rows| - 1], e);
    }
  }

  lemma SaveLogsArrivals(s: State, u: UploadId, user: UserId, batch: Batch, status: Status, e: Event)
    requires Enough(batch) && !e.Added?
    ensures e in Save(s, u, user, batch, status).0.log <==> e in s.log
  {
    hide AddRows, SentRows, ClaimedRows;
    var claimed := Claim(s, u, user, batch, status);
    if claimed.Some? {
      RowsLogArrivals(s, ClaimedRows(s.staged, Unique(batch.stagedIds), batch.ids, u, status), e);
      RowsLogArrivals(claimed.value, SentRows(Landing(batch.direct), u, status), e);
    }
  }

  lemma CreatingLogsArrivals(s: State, call: Call, e: Event)
    requires Fresh(s, call) && call.UploadMany? && !e.Added?
    ensures e in After(s, call).log <==> e in s.log
  {
    hide Resolve, Suits, Save;
    if call.meta.majorId in s.majors {
      var resolved := Resolve(s.majors, s.majors[call.meta.majorId], call.meta.audience);
      if resolved.Some? {
        var created := Created(s, call.upload, NewUpload(call.user, call.meta, resolved.value));
        SaveLogsArrivals(created, call.upload, call.user, call.batch, Active, e);
      }
    }
  }

  // ─── Nothing unreviewed is published ─────────────────────────────────────

  lemma InvMeans(s: State)
    requires Inv(s)
    ensures Linked(s.uploads, s.files) && AllResolved(s.majors, s.uploads)
  {
    forall f | f in s.files ensures s.files[f].upload in s.uploads { assert FileInv(s, f); }
    forall u | u in s.uploads ensures Resolved(s.majors, s.uploads[u].audience) { assert UploadInv(s, u); }
  }

  /**
   * In every reachable state: an active file of an active upload arrived and was cleared after, alone or with
   * its upload; pending and rejected files sit in active uploads only.
   */
  lemma FilesAreReviewed(now: int, majors: Majors, calls: seq<Call>, f: FileId)
    requires FreshRun(Init(now, majors), calls)
    ensures var s := Run(Init(now, majors), calls);
      f in s.files ==>
        var u := s.files[f].upload;
        && u in s.uploads
        && (s.files[f].status == Active && s.uploads[u].status == Active ==> Reviewed(s.log, f, u))
        && (s.files[f].status != Active ==> s.uploads[u].status == Active)
  {
    InitInv(now, majors);
    RunKeepsInv(Init(now, majors), calls);
    var s := Run(Init(now, majors), calls);
    assert FileInv(s, f);
    hide Inv, Run, Reviewed;
    if f in s.files {
      ReviewedIsClearedSince(s.log, f, s.files[f].upload);
    }
  }

  /** Whatever signing grants to someone other than its uploader or an admin arrived, and was cleared after. */
  lemma NothingUnreviewedIsGranted(
      now: int, majors: Majors, calls: seq<Call>, f: FileId, v: Viewer, variant: Variant)
    requires FreshRun(Init(now, majors), calls)
    ensures var s := Run(Init(now, majors), calls);
      SignFileAccess(s.uploads, s.files, f, v, s.now, variant).Some? && !Privileged(s.uploads[s.files[f].upload], v) ==>
        Reviewed(s.log, f, s.files[f].upload)
  {
    FilesAreReviewed(now, majors, calls, f);
    hide Run, CanView, ParseRef, Reviewed;
  }

  /**
   * In every reachable state the feed shows only what signing grants, and on anyone else's list only what was
   * cleared.
   */
  lemma FeedIsGrantedAndReviewed(
      now: int, majors: Majors, calls: seq<Call>, q: Query, v: Viewer, f: FileId, variant: Variant)
    requires FreshRun(Init(now, majors), calls)
    ensures var s := Run(Init(now, majors), calls); Linked(s.uploads, s.files)
    ensures var s := Run(Init(now, majors), calls);
      f in FindAll(s.uploads, s.files, q, v, s.now) ==>
        && SignFileAccess(s.uploads, s.files, f, v, s.now, variant) == ParseRef(ChosenRef(s.files[f], variant))
        && (!OwnList(q, v) ==> Reviewed(s.log, f, s.files[f].upload))
  {
    InitInv(now, majors);
    RunKeepsInv(Init(now, majors), calls);
    var s := Run(Init(now, majors), calls);
    InvMeans(s);
    FilesAreReviewed(now, majors, calls, f);
    hide Inv, Run, ParseRef, SqlVisible, SignFileAccess, ChosenRef, Resolved, Reviewed;
    if f in FindAll(s.uploads, s.files, q, v, s.now) {
      FeedIsGranted(s.majors, s.uploads, s.files, q, v, s.now, f, variant);
    }
  }

  // ─── Calls refused halfway ───────────────────────────────────────────────

  /** A new upload that passes every check made before its row is written. */
  predicate InOrder(s: State, meta: Meta, batch: Batch) {
    && (batch.direct != [] || batch.stagedIds != [])
    && meta.majorId in s.majors && Suits(s.majors[meta.majorId], meta.docType)
    && Resolve(s.majors, s.majors[meta.majorId], meta.audience).Some?
  }

  predicate Owns(s: State, u: UploadId, user: UserId) {
    u in s.uploads && s.uploads[u].uploader == Some(user)
  }

  predicate AllAccepted(direct: seq<Sent>) {
    forall sent :: sent in direct ==> sent.accepted
  }

  /** The claim goes through, and there is something to claim or the first file sent is accepted. */
  predicate SavesSome(s: State, user: UserId, batch: Batch) {
    && Claimable(s.staged, user, batch.stagedIds)
    && (batch.stagedIds != [] || (batch.direct != [] && batch.direct[0].accepted))
  }

  /**
   * A new upload in order whose staged files cannot be claimed or one of whose sent files is refused, and an
   * addition one of whose sent files is refused after something was saved.
   */
  predicate RefusedHalfway(s: State, call: Call) {
    match call
    case UploadMany(_, user, meta, batch) =>
      InOrder(s, meta, batch) && !(Claimable(s.staged, user, batch.stagedIds) && AllAccepted(batch.direct))
    case AddFiles(u, user, batch) =>
      Owns(s, u, user) && SavesSome(s, user, batch) && !AllAccepted(batch.direct)
    case _ => false
  }

  function RowIds(rows: seq<Row>): set<FileId> {
    set row | row in rows :: row.id
  }

  function SentIds(direct: seq<Sent>): set<FileId> {
    set sent | sent in direct :: sent.id
  }

  function Elements(ids: seq<FileId>): set<FileId> {
    set id | id in ids
  }

  /** The rows a request writes: all the claimed ones and the sent ones before the first refused, or none. */
  function SavedIds(s: State, user: UserId, batch: Batch): set<FileId> {
    if !Claimable(s.staged, user, batch.stagedIds) then {}
    else Elements(batch.ids) + SentIds(Landing(batch.direct))
  }

  lemma ThroughAll(direct: seq<Sent>)
    ensures Through(direct) < |direct| <==> !AllAccepted(direct)
  {
    assert Through(direct) < |direct| ==> direct[Through(direct)] in direct;
  }

  lemma SomeLand(direct: seq<Sent>)
    ensures Landing(direct) != [] <==> direct != [] && direct[0].accepted
  {
  }

  lemma {:induction false} RowsAdd(s: State, rows: seq<Row>)
    ensures AddRows(s, rows).files.Keys == s.files.Keys + RowIds(rows)
    ensures AddRows(s, rows).fileIds == s.fileIds + RowIds(rows)
  {
    if rows != [] {
      RowsAdd(s, rows[..|rows| - 1]);
      assert rows == rows[..|rows| - 1] + [rows[|rows| - 1]];
      assert RowIds(rows) == RowIds(rows[..|rows| - 1]) + {rows[|rows| - 1].id};
    }
  }

  lemma IdsOfClaimed(staged: map<StagedId, Staged>, unique: seq<StagedId>, ids: seq<FileId>, u: UploadId,
                     status: Status)
    requires (forall id :: id in unique ==> id in staged) && |unique| == |ids|
    ensures RowIds(ClaimedRows(staged, unique, ids, u, status)) == Elements(ids)
  {
    var rows := ClaimedRows(staged, unique, ids, u, status);
    forall i | 0 <= i < |ids| ensures ids[i] in RowIds(rows) { assert rows[i] in rows; }
  }

  lemma IdsOfSent(direct: seq<Sent>, u: UploadId, status: Status)
    ensures RowIds(SentRows(direct, u, status)) == SentIds(direct)
  {
    var rows := SentRows(direct, u, status);
    forall i | 0 <= i < |direct| ensures direct[i].id in RowIds(rows) { assert rows[i] in rows; }
  }

  lemma ClaimDecides(s: State, u: UploadId, user: UserId, batch: Batch, status: Status)
    requires Enough(batch)
    ensures Claim(s, u, user, batch, status).Some? <==> Claimable(s.staged, user, batch.stagedIds)
    ensures Claim(s, u, user, batch, status).Some? ==>
      Claim(s, u, user, batch, status).value.staged == s.staged - set id | id in batch.stagedIds
  {
    var unique := Unique(batch.stagedIds);
    assert (set id | id in unique) == set id | id in batch.stagedIds;
    assert Claimable(s.staged, user, unique) <==> Claimable(s.staged, user, batch.stagedIds);
    hide AddRows, Unique, ClaimedRows;
    if Claimable(s.staged, user, unique) {
      AddRowsFrame(s, ClaimedRows(s.staged, unique, batch.ids, u, status));
    }
  }

  lemma ClaimAdds(s: State, u: UploadId, user: UserId, batch: Batch, status: Status)
    requires FreshRows(s, batch)
    ensures var claimed := Claim(s, u, user, batch, status);
      claimed.Some? ==>
        && claimed.value.files.Keys == s.files.Keys + Elements(batch.ids)
        && claimed.value.fileIds == s.fileIds + Elements(batch.ids)
  {
    hide AddRows, Unique, ClaimedRows, RowIds, Elements;
    var unique := Unique(batch.stagedIds);
    if Claimable(s.staged, user, unique) {
      RowsAdd(s, ClaimedRows(s.staged, unique, batch.ids, u, status));
      IdsOfClaimed(s.staged, unique, batch.ids, u, status);
    }
  }

  /** What a request's files leave, refused or not. */
  lemma SaveLeaves(s: State, u: UploadId, user: UserId, batch: Batch, status: Status)
    requires FreshRows(s, batch)
    ensures var (t, o) := Save(s, u, user, batch, status);
      && t.files.Keys == s.files.Keys + SavedIds(s, user, batch)
      && t.fileIds == s.fileIds + SavedIds(s, user, batch)
      && t.staged == (if Claimable(s.staged, user, batch.stagedIds)
                      then s.staged - set id | id in batch.stagedIds else s.staged)
      && o == (if !Claimable(s.staged, user, batch.stagedIds) then BadRequest
               else if AllAccepted(batch.direct) then Done else FileRefused)
  {
    ThroughAll(batch.direct);
    ClaimDecides(s, u, user, batch, status);
    ClaimAdds(s, u, user, batch, status);
    hide FreshRows, Claim, AddRows, SentRows, Claimable, Landing, AllAccepted, Through, RowIds, SentIds, Elements;
    var claimed := Claim(s, u, user, batch, status);
    if claimed.Some? {
      var sent := SentRows(Landing(batch.direct), u, status);
      AddRowsFrame(claimed.value, sent);
      RowsAdd(claimed.value, sent);
      IdsOfSent(Landing(batch.direct), u, status);
    }
  }

  lemma SavesSomeMeans(s: State, user: UserId, batch: Batch)
    requires FreshRows(s, batch)
    ensures SavesSome(s, user, batch) <==> SavedIds(s, user, batch) != {}
    ensures SavedIds(s, user, batch) !! s.fileIds
  {
    SomeLand(batch.direct);
    if SavesSome(s, user, batch) {
      if batch.stagedIds != [] {
        assert batch.stagedIds[0] in Unique(batch.stagedIds);
        assert batch.ids[0] in SavedIds(s, user, batch);
      } else {
        assert Landing(batch.direct)[0].id in SavedIds(s, user, batch);
      }
    }
  }

  /** A refused call leaves a trace exactly when it is one of these. */
  lemma RefusalsLeaveExactly(s: State, call: Call)
    requires Fresh(s, call)
    ensures var (t, o) := Apply(s, call); o != Done && t != s <==> RefusedHalfway(s, call)
  {
    if call.AddFiles? && call.batch.direct == [] && call.batch.stagedIds == [] {
      assert !SavesSome(s, call.user, call.batch);
    }
    hide Resolve, Suits, Save, AllAccepted, SavesSome, SavedIds, FilesOf, Unhidden;
    if call.UploadMany? {
      if InOrder(s, call.meta, call.batch) {
        var audience := Resolve(s.majors, s.majors[call.meta.majorId], call.meta.audience).value;
        var created := Created(s, call.upload, NewUpload(call.user, call.meta, audience));
        SaveLeaves(created, call.upload, call.user, call.batch, Active);
        SaveLeavesUploads(created, call.upload, call.user, call.batch, Active);
        assert call.upload in After(s, call).uploadIds && call.upload !in s.uploadIds;
      }
    } else if call.AddFiles? && Owns(s, call.upload, call.user) {
      SaveLeaves(s, call.upload, call.user, call.batch, ArrivalStatus(s.uploads[call.upload]));
      SavesSomeMeans(s, call.user, call.batch);
      NothingSaved(s, call.upload, call.user, call.batch, ArrivalStatus(s.uploads[call.upload]));
    }
  }

  lemma NothingSaved(s: State, u: UploadId, user: UserId, batch: Batch, status: Status)
    requires Enough(batch)
    ensures !SavesSome(s, user, batch) ==> Save(s, u, user, batch, status).0 == s
  {
    SomeLand(batch.direct);
    assert Claimable(s.staged, user, Unique(batch.stagedIds)) <==> Claimable(s.staged, user, batch.stagedIds);
    assert s.staged - {} == s.staged;
  }

  /**
   * The trace: the row of the new upload, pending; the claimed files and the sent ones before the first refused,
   * each a row of the upload; and nothing else but the staged files that were claimed.
   */
  lemma RefusalsLeaveTheRowsSaved(s: State, call: Call, f: FileId)
    requires Inv(s) && Fresh(s, call) && RefusedHalfway(s, call)
    ensures var (t, o) := Apply(s, call);
      && o == (if Claimable(s.staged, call.user, call.batch.stagedIds) then FileRefused else BadRequest)
      && t.uploads == (if call.AddFiles? then s.uploads else
           var audience := Resolve(s.majors, s.majors[call.meta.majorId], call.meta.audience).value;
           s.uploads[call.upload := NewUpload(call.user, call.meta, audience)])
      && t.files.Keys == s.files.Keys + SavedIds(s, call.user, call.batch)
      && (f in s.files ==> t.files[f] == s.files[f])
      && (f in SavedIds(s, call.user, call.batch) ==> t.files[f].upload == call.upload)
      && t.staged == (if Claimable(s.staged, call.user, call.batch.stagedIds)
                      then s.staged - set id | id in call.batch.stagedIds else s.staged)
  {
    assert FileInv(s, f);
    hide Inv, Resolve, Suits, Save, AllAccepted, SavesSome, SavedIds, FreshRows;
    var s0 := if call.AddFiles? then s else
      var audience := Resolve(s.majors, s.majors[call.meta.majorId], call.meta.audience).value;
      Created(s, call.upload, NewUpload(call.user, call.meta, audience));
    var status := if call.AddFiles? then ArrivalStatus(s.uploads[call.upload]) else Active;
    SaveLeaves(s0, call.upload, call.user, call.batch, status);
    SaveLeavesUploads(s0, call.upload, call.user, call.batch, status);
    SaveGoesTo(s0, call.upload, call.user, call.batch, status, f);
    SavesSomeMeans(s, call.user, call.batch);
    if f in s.files {
      SaveKeepsOld(s0, call.upload, call.user, call.batch, status, f);
    }
  }

  // ─── Uploads without files ───────────────────────────────────────────────

  const FIRST_DAY := Init(0, map["gic" := "GIC"])
  const META := Meta("gic", Other, [], None)

  /** A student whose one staged file was never there, or is someone else's. */
  const NO_SUCH_FILE := UploadMany(0, 7, META, Batch([0], [0], []))

  /** A student whose one file is over the quota. */
  const OVER_QUOTA := UploadMany(0, 7, META, Batch([], [], [Sent(0, "a", None, false)]))

  /** Two files added to an upload, of which the second is over the quota. */
  const FIRST_FILE := UploadMany(0, 7, META, Batch([], [], [Sent(0, "a", None, true)]))
  const SECOND_REFUSED := AddFiles(0, 7, Batch([], [], [Sent(1, "b", None, true), Sent(2, "c", None, false)]))

  const WITH_ONE := State(
    0, FIRST_DAY.majors, map[0 := NewUpload(7, META, [])], map[0 := NewFile(0, Active, "a", None)], map[], {0}, {0},
    [Added(0)])

  lemma OneOfOne(x: nat)
    ensures Unique([x]) == [x]
  {
    assert [x][..0] == [];
  }

  /** It happens on the very first call: the upload is refused, and there it is, with no files. */
  lemma EmptyUploadHappens()
    ensures Fresh(FIRST_DAY, NO_SUCH_FILE) && Apply(FIRST_DAY, NO_SUCH_FILE).1 == BadRequest
    ensures 0 in After(FIRST_DAY, NO_SUCH_FILE).uploads && FilesOf(After(FIRST_DAY, NO_SUCH_FILE).files, 0) == {}
  {
    OneOfOne(0);
    assert 0 in NO_SUCH_FILE.batch.stagedIds && !Claimable(FIRST_DAY.staged, 7, [0]);
    assert InOrder(FIRST_DAY, META, NO_SUCH_FILE.batch);
    LeavesNothingButItsRow(NO_SUCH_FILE);
  }

  /** And so it does when the one file sent is over the quota. */
  lemma EmptyUploadHappensOverQuota()
    ensures Fresh(FIRST_DAY, OVER_QUOTA) && Apply(FIRST_DAY, OVER_QUOTA).1 == FileRefused
    ensures 0 in After(FIRST_DAY, OVER_QUOTA).uploads && FilesOf(After(FIRST_DAY, OVER_QUOTA).files, 0) == {}
  {
    assert OVER_QUOTA.batch.direct[0] in OVER_QUOTA.batch.direct;
    assert InOrder(FIRST_DAY, META, OVER_QUOTA.batch);
    assert SavedIds(FIRST_DAY, 7, OVER_QUOTA.batch) == {} by { SomeLand(OVER_QUOTA.batch.direct); }
    LeavesNothingButItsRow(OVER_QUOTA);
  }

  lemma LeavesNothingButItsRow(call: Call)
    requires Fresh(FIRST_DAY, call) && call.UploadMany? && RefusedHalfway(FIRST_DAY, call)
    requires SavedIds(FIRST_DAY, call.user, call.batch) == {}
    ensures call.upload in After(FIRST_DAY, call).uploads && FilesOf(After(FIRST_DAY, call).files, call.upload) == {}
    ensures Apply(FIRST_DAY, call).1 ==
      if Claimable(map[], call.user, call.batch.stagedIds) then FileRefused else BadRequest
  {
    InitInv(0, FIRST_DAY.majors);
    hide Apply, Inv, InOrder, AllAccepted, SavedIds, Fresh;
    RefusalsLeaveTheRowsSaved(FIRST_DAY, call, 0);
  }

  /** Nor does a refused addition take back what it had saved. */
  lemma RefusedAdditionHappens()
    ensures Fresh(FIRST_DAY, FIRST_FILE) && Fresh(After(FIRST_DAY, FIRST_FILE), SECOND_REFUSED)
    ensures var s := After(FIRST_DAY, FIRST_FILE);
      Apply(s, SECOND_REFUSED).1 == FileRefused && FilesOf(After(s, SECOND_REFUSED).files, 0) == {0, 1}
  {
    FirstFileLands();
    SecondIsRefused();
    hide Apply, Inv, RefusedHalfway, SavedIds, NewFile;
    RefusalsLeaveTheRowsSaved(WITH_ONE, SECOND_REFUSED, 0);
    RefusalsLeaveTheRowsSaved(WITH_ONE, SECOND_REFUSED, 1);
    assert WITH_ONE.files[0].upload == 0 by { FileOfItsUpload(0, Active, "a", None); }
  }

  lemma SecondIsRefused()
    ensures Inv(WITH_ONE) && Fresh(WITH_ONE, SECOND_REFUSED) && RefusedHalfway(WITH_ONE, SECOND_REFUSED)
    ensures SavedIds(WITH_ONE, 7, SECOND_REFUSED.batch) == {1}
  {
    var direct := SECOND_REFUSED.batch.direct;
    assert direct[1] in direct && Landing(direct) == [direct[0]];
    assert FileInv(WITH_ONE, 0) && UploadInv(WITH_ONE, 0);
  }

  lemma FileOfItsUpload(u: UploadId, status: Status, storageKey: string, previewKey: Option<string>)
    ensures NewFile(u, status, storageKey, previewKey).upload == u
  {
  }

  lemma FirstFileLands()
    ensures Fresh(FIRST_DAY, FIRST_FILE) && After(FIRST_DAY, FIRST_FILE) == WITH_ONE
  {
    assert Landing(FIRST_FILE.batch.direct) == FIRST_FILE.batch.direct;
    assert SentRows(FIRST_FILE.batch.direct, 0, Active)[..0] == [];
  }

  /** Uploads born empty by such a refusal to which nothing was added since. */
  ghost function LeftEmpty(s: State, calls: seq<Call>): set<UploadId>
    requires FreshRun(s, calls)
  {
    if calls == [] then {}
    else
      var init, call := calls[..|calls| - 1], calls[|calls| - 1];
      LeftEmptyBy(Run(s, init), call, LeftEmpty(s, init))
  }

  /** An addition counts even when it was refused halfway. */
  function LeftEmptyBy(s: State, call: Call, before: set<UploadId>): set<UploadId> {
    match call
    case UploadMany(u, user, meta, batch) =>
      if InOrder(s, meta, batch) && !SavesSome(s, user, batch) then before + {u} else before
    case AddFiles(u, user, batch) =>
      if Owns(s, u, user) && SavesSome(s, user, batch) then before - {u} else before
    case _ => before
  }

  ghost predicate Filled(s: State, u: UploadId) {
    exists f :: f in s.files && s.files[f].upload == u
  }

  lemma {:induction false} RowLands(s: State, rows: seq<Row>, i: nat)
    requires i < |rows| && forall j, k :: 0 <= j < k < |rows| ==> rows[j].id != rows[k].id
    ensures rows[i].id in AddRows(s, rows).files && AddRows(s, rows).files[rows[i].id] == rows[i].file
  {
    if i < |rows| - 1 {
      RowLands(s, rows[..|rows| - 1], i);
    }
  }

  lemma {:induction false} RowsGoTo(s: State, rows: seq<Row>, u: UploadId, f: FileId)
    requires forall row :: row in rows ==> row.file.upload == u
    ensures f in AddRows(s, rows).files ==>
      AddRows(s, rows).files[f].upload == u || (f in s.files && AddRows(s, rows).files[f] == s.files[f])
  {
    if rows != [] {
      RowsGoTo(s, rows[..|rows| - 1], u, f);
    }
  }

  lemma SaveGoesTo(s: State, u: UploadId, user: UserId, batch: Batch, status: Status, f: FileId)
    requires Enough(batch)
    ensures var t := Save(s, u, user, batch, status).0;
      f in t.files ==> t.files[f].upload == u || (f in s.files && t.files[f] == s.files[f])
  {
    var claimed := Claim(s, u, user, batch, status);
    if claimed.Some? {
      hide Unique, AddRows;
      RowsGoTo(s, ClaimedRows(s.staged, Unique(batch.stagedIds), batch.ids, u, status), u, f);
      RowsGoTo(claimed.value, SentRows(Landing(batch.direct), u, status), u, f);
    }
  }

  /** Saving a batch fills its upload exactly when something is saved, and no other. */
  lemma SaveFills(s: State, u: UploadId, user: UserId, batch: Batch, status: Status, v: UploadId)
    requires FreshRows(s, batch) && forall f :: f in s.files ==> f in s.fileIds
    ensures var t := Save(s, u, user, batch, status).0;
      && (Filled(t, u) <==> Filled(s, u) || SavesSome(s, user, batch))
      && (v != u ==> (Filled(t, v) <==> Filled(s, v)))
  {
    var t := Save(s, u, user, batch, status).0;
    hide Save, FreshRows, SavesSome, SavedIds;
    SaveLeaves(s, u, user, batch, status);
    SavesSomeMeans(s, user, batch);
    if SavesSome(s, user, batch) {
      var f :| f in SavedIds(s, user, batch);
      SaveGoesTo(s, u, user, batch, status, f);
      assert t.files[f].upload == u;
    }
    if v != u || !SavesSome(s, user, batch) {
      FilledAsBefore(s, u, user, batch, status, v);
      FilledAsBefore(s, u, user, batch, status, u);
    }
  }

  lemma FilledAsBefore(s: State, u: UploadId, user: UserId, batch: Batch, status: Status, v: UploadId)
    requires FreshRows(s, batch) && (forall f :: f in s.files ==> f in s.fileIds)
    ensures var t := Save(s, u, user, batch, status).0;
      && (Filled(s, v) ==> Filled(t, v))
      && (v != u || !SavesSome(s, user, batch) ==> (Filled(t, v) <==> Filled(s, v)))
  {
    var t := Save(s, u, user, batch, status).0;
    hide Save, FreshRows, SavesSome;
    if !SavesSome(s, user, batch) {
      NothingSaved(s, u, user, batch, status);
    } else if v != u && Filled(t, v) {
      var f :| f in t.files && t.files[f].upload == v;
      SaveGoesTo(s, u, user, batch, status, f);
    }
    if Filled(s, v) {
      var f :| f in s.files && s.files[f].upload == v;
      SaveKeepsOld(s, u, user, batch, status, f);
    }
  }

  lemma CreatingFills(s: State, call: Call, v: UploadId)
    requires Inv(s) && Fresh(s, call) && call.UploadMany?
    ensures var t := After(s, call);
      && (call.upload in t.uploads <==> InOrder(s, call.meta, call.batch))
      && (call.upload in t.uploads ==> (Filled(t, call.upload) <==> SavesSome(s, call.user, call.batch)))
      && (v != call.upload && v in t.uploads ==> v in s.uploads && (Filled(t, v) <==> Filled(s, v)))
  {
    forall f | f in s.files ensures f in s.fileIds && s.files[f].upload in s.uploads { assert FileInv(s, f); }
    assert UploadInv(s, call.upload);
    hide Inv, Resolve, Suits, Save;
    if InOrder(s, call.meta, call.batch) {
      var audience := Resolve(s.majors, s.majors[call.meta.majorId], call.meta.audience).value;
      var created := Created(s, call.upload, NewUpload(call.user, call.meta, audience));
      SaveFills(created, call.upload, call.user, call.batch, Active, v);
      SaveLeavesUploads(created, call.upload, call.user, call.batch, Active);
      assert !Filled(created, call.upload) && (Filled(created, v) <==> Filled(s, v));
      assert SavesSome(created, call.user, call.batch) == SavesSome(s, call.user, call.batch);
      hide Filled, FreshRows, SavesSome;
    }
  }

  lemma AddingFills(s: State, call: Call, v: UploadId)
    requires Inv(s) && Fresh(s, call) && call.AddFiles?
    ensures var t, adds := After(s, call), Owns(s, call.upload, call.user) && SavesSome(s, call.user, call.batch);
      && (v in t.uploads ==> v in s.uploads)
      && (Filled(t, v) <==> Filled(s, v) || (v == call.upload && adds))
  {
    forall f | f in s.files ensures f in s.fileIds { assert FileInv(s, f); }
    hide Inv, Save;
    if Owns(s, call.upload, call.user) {
      SaveFills(s, call.upload, call.user, call.batch, ArrivalStatus(s.uploads[call.upload]), v);
      SaveLeavesUploads(s, call.upload, call.user, call.batch, ArrivalStatus(s.uploads[call.upload]));
    }
  }

  /** Removing files never leaves an upload empty: the last one takes the upload with it. */
  lemma RemovalLeavesNoEmptyUpload(s: State, f: FileId, user: UserId)
    requires RemoveFileCall(s, f, user).1 == Done
    ensures var t, u := RemoveFileCall(s, f, user).0, s.files[f].upload;
      && f !in t.files
      && (u in t.uploads <==> exists g :: g in s.files && g != f && s.files[g].upload == u)
      && (u in t.uploads ==> Filled(t, u))
  {
    var t, u := RemoveFileCall(s, f, user).0, s.files[f].upload;
    WithoutOne(FilesOf(s.files, u), f);
    if g :| g in s.files && g != f && s.files[g].upload == u {
      assert g in FilesOf(s.files, u) - {f};
      assert u in t.uploads ==> g in t.files;
    } else {
      assert FilesOf(s.files, u) - {f} == {};
    }
  }

  lemma RemovingKeepsFilled(s: State, f: FileId, user: UserId, v: UploadId)
    requires v in RemoveFileCall(s, f, user).0.uploads
    ensures v in s.uploads && (Filled(RemoveFileCall(s, f, user).0, v) <==> Filled(s, v))
  {
    var (t, o) := RemoveFileCall(s, f, user);
    if o == Done {
      RemovalLeavesNoEmptyUpload(s, f, user);
      hide FilesOf;
      if g :| g in s.files && s.files[g].upload == v && v != s.files[f].upload {
        assert g in t.files;
      }
    }
  }

  /** No other call gives an upload its first file or takes its last. */
  lemma OthersKeepFilled(s: State, call: Call, v: UploadId)
    requires Inv(s) && Fresh(s, call) && !call.UploadMany? && !call.AddFiles? && v in After(s, call).uploads
    ensures v in s.uploads && (Filled(After(s, call), v) <==> Filled(s, v))
  {
    hide Inv, Suits, Resolve, Unhidden;
    var t := After(s, call);
    if call.RemoveFile? {
      RemovingKeepsFilled(s, call.file, call.user, v);
    } else {
      hide FilesOf;
      assert v in s.uploads;
      if Filled(s, v) {
        var f :| f in s.files && s.files[f].upload == v;
        assert f in t.files && t.files[f].upload == v;
      }
    }
  }

  ghost predicate EmptyInv(s: State, left: set<UploadId>) {
    left <= s.uploadIds && forall u :: u in s.uploads ==> (u in left <==> !Filled(s, u))
  }

  lemma EmptyStepOne(s: State, call: Call, left: set<UploadId>, u: UploadId)
    requires Inv(s) && Fresh(s, call) && EmptyInv(s, left) && u in After(s, call).uploads
    ensures u in LeftEmptyBy(s, call, left) <==> !Filled(After(s, call), u)
  {
    assert UploadInv(s, u);
    hide Inv, InOrder, SavesSome, Owns, Filled;
    if call.UploadMany? {
      hide Apply;
      CreatingFills(s, call, u);
    } else if call.AddFiles? {
      hide Apply;
      AddingFills(s, call, u);
    } else {
      OthersKeepFilled(s, call, u);
    }
  }

  lemma CreatedIsKnown(s: State, call: Call)
    requires Fresh(s, call) && call.UploadMany?
    ensures InOrder(s, call.meta, call.batch) ==> call.upload in After(s, call).uploadIds
  {
    hide Resolve, Suits, Save;
    if InOrder(s, call.meta, call.batch) {
      var audience := Resolve(s.majors, s.majors[call.meta.majorId], call.meta.audience).value;
      SaveLeavesUploads(Created(s, call.upload, NewUpload(call.user, call.meta, audience)), call.upload, call.user,
                        call.batch, Active);
    }
  }

  lemma EmptyStep(s: State, call: Call, left: set<UploadId>)
    requires Inv(s) && Fresh(s, call) && EmptyInv(s, left)
    ensures EmptyInv(After(s, call), LeftEmptyBy(s, call, left))
  {
    if call.UploadMany? {
      CreatedIsKnown(s, call);
    }
    hide Inv, InOrder, SavesSome, Owns, Fresh, Apply, Filled;
    forall u | u in left ensures u in After(s, call).uploadIds { NoOtherNewUpload(s, call, u); }
    forall u | u in After(s, call).uploads ensures u in LeftEmptyBy(s, call, left) <==> !Filled(After(s, call), u) {
      EmptyStepOne(s, call, left, u);
    }
  }

  lemma {:induction false} EmptyHolds(now: int, majors: Majors, calls: seq<Call>)
    requires FreshRun(Init(now, majors), calls)
    ensures EmptyInv(Run(Init(now, majors), calls), LeftEmpty(Init(now, majors), calls))
  {
    if calls != [] {
      var s, init, call := Init(now, majors), calls[..|calls| - 1], calls[|calls| - 1];
      EmptyHolds(now, majors, init);
      InitInv(now, majors);
      RunKeepsInv(s, init);
      hide Inv, EmptyInv, LeftEmptyBy, Fresh, After;
      EmptyStep(Run(s, init), call, LeftEmpty(s, init));
    }
  }

  /**
   * In every reachable state an upload has no file exactly when its creation was refused, by the claim or, with
   * nothing to claim, at the first file sent, and nothing was added since.
   */
  lemma EmptyUploadsExactly(now: int, majors: Majors, calls: seq<Call>, u: UploadId)
    requires FreshRun(Init(now, majors), calls) && u in Run(Init(now, majors), calls).uploads
    ensures FilesOf(Run(Init(now, majors), calls).files, u) == {} <==> u in LeftEmpty(Init(now, majors), calls)
  {
    EmptyHolds(now, majors, calls);
    var s := Run(Init(now, majors), calls);
    hide Run, LeftEmpty;
    if FilesOf(s.files, u) != {} {
      var f :| f in FilesOf(s.files, u);
      assert f in s.files && s.files[f].upload == u;
    } else {
      assert forall f :: f in s.files && s.files[f].upload == u ==> f in FilesOf(s.files, u);
    }
  }

  // ─── What single calls promise ───────────────────────────────────────────

  /** A claim takes all the staged files named or none: it succeeds exactly when every one is the caller's, each becomes
      one file holding the same object, and none of them can be claimed again. */
  lemma ClaimIsAllOrNothing(
      s: State, u: UploadId, user: UserId, batch: Batch, status: Status, i: nat, other: UserId)
    requires FreshRows(s, batch) && i < |Unique(batch.stagedIds)|
    ensures var claimed, ids := Claim(s, u, user, batch, status), batch.stagedIds;
      var one := Unique(ids)[i];
      && (claimed.Some? <==> forall id :: id in ids ==> id in s.staged && s.staged[id].uploader == user)
      && (claimed.Some? ==>
            && batch.ids[i] in claimed.value.files
            && claimed.value.files[batch.ids[i]] ==
                NewFile(u, status, s.staged[one].storageKey, s.staged[one].previewKey)
            && claimed.value.staged.Keys == s.staged.Keys - (set id | id in ids)
            && !Claimable(claimed.value.staged, other, ids))
  {
    var claimed, unique := Claim(s, u, user, batch, status), Unique(batch.stagedIds);
    if claimed.Some? {
      var rows := ClaimedRows(s.staged, unique, batch.ids, u, status);
      hide NewFile, Unique, AddRows;
      RowLands(s, rows, i);
      AddRowsFrame(s, rows);
      assert (set id | id in unique) == set id | id in batch.stagedIds;
      assert unique[i] in batch.stagedIds;
    }
  }

  /** The ref written for a claimed file resolves to its object exactly when the object's key is safe. */
  lemma ClaimedRefResolves(u: UploadId, status: Status, storageKey: string, previewKey: Option<string>)
    ensures var ref := ChosenRef(NewFile(u, status, storageKey, previewKey), Download);
      ParseRef(ref) == Some(Ref("documents", storageKey)) <==> IsSafeKeySegment(storageKey)
  {
    assert IsBucketLabel("documents") && !HasDouble("documents", '.');
    assert Print(Ref("documents", storageKey)) == InBucket(storageKey);
    hide ParseRef, IsSafeKeySegment, HasDouble, IsBucketLabel, Print, InBucket;
    PrintedParsesBack("documents", storageKey);
  }

  /**
   * A successful edit touches one upload, keeps its owner and its hiding, and moves its expiry only into the
   * future.
   */
  lemma EditIsBounded(s: State, u: UploadId, user: UserId, patch: Patch, v: UploadId)
    requires UpdateCall(s, u, user, patch).1 == Done
    ensures var t := UpdateCall(s, u, user, patch).0;
      && u in s.uploads && t == s.(uploads := t.uploads) && t.uploads.Keys == s.uploads.Keys
      && (v in s.uploads && v != u ==> t.uploads[v] == s.uploads[v])
      && t.uploads[u].uploader == s.uploads[u].uploader == Some(user) && t.uploads[u].hidden == s.uploads[u].hidden
      && (|| t.uploads[u].expiresAt == s.uploads[u].expiresAt
          || t.uploads[u].expiresAt.None?
          || t.uploads[u].expiresAt.value > s.now)
      && (patch.majorId.None? && patch.audience.None? ==> t.uploads[u].audience == s.uploads[u].audience)
      && (patch.audience.Some? ==> forall e :: e in t.uploads[u].audience ==> e in patch.audience.value)
  {
    hide RealCohort, Suits;
  }

  /**
   * Showing a file brings its folder back; hiding the last visible one takes the folder with it; nothing else moves
   * it.
   */
  lemma FolderFollowsItsFiles(s: State, f: FileId, user: UserId, hidden: bool)
    requires SetFileHiddenCall(s, f, user, hidden).1 == Done
    ensures var t, u := SetFileHiddenCall(s, f, user, hidden).0, s.files[f].upload;
      && t.files[f].hidden == hidden
      && (!hidden ==> !t.uploads[u].hidden)
      && (hidden ==> (t.uploads[u].hidden <==>
            s.uploads[u].hidden || forall g :: g in t.files && t.files[g].upload == u ==> t.files[g].hidden))
  {
    var t, u := SetFileHiddenCall(s, f, user, hidden).0, s.files[f].upload;
    if !hidden {
      assert f in Unhidden(t.files, u);
    } else if Unhidden(t.files, u) != {} {
      var g :| g in Unhidden(t.files, u);
      assert g in t.files && t.files[g].upload == u && !t.files[g].hidden;
    } else {
      assert forall g :: g in t.files && t.files[g].upload == u && !t.files[g].hidden ==> g in Unhidden(t.files, u);
    }
  }
}
