/**
 * How a document gets reviewed: uploads and their files, from staging to publication, through the calls of
 * documents.service.ts and the reviewers' calls of admin.service.ts. The log is a history kept for the proofs.
 */
module DocumentReview {
  import opened Prelude
  import opened StorageRef
  import opened YearLevels
  import opened DocumentVisibility

  type StagedId = nat

  datatype Staged = Staged(uploader: UserId, storageKey: string, previewKey: Option<string>)
  datatype Reviewer = Reviewer(id: UserId, admin: bool, majorIds: set<MajorId>)

  datatype Event =
    | Added(file: FileId)
    | ClearedFile(file: FileId, reviewer: UserId)
    | ClearedGroup(upload: UploadId, reviewer: UserId)

  datatype State = State(
    now: int, majors: Majors, uploads: Uploads, files: Files, staged: map<StagedId, Staged>,
    /** Every identifier ever handed out. */
    uploadIds: set<UploadId>, fileIds: set<FileId>,
    log: seq<Event>)

  /** A row of `documents` about to be saved. */
  datatype Row = Row(id: FileId, file: File)

  /** What a new upload says of itself. */
  datatype Meta = Meta(majorId: MajorId, docType: DocType, audience: seq<Entry>, expiresAt: Option<int>)

  /** The fields of an edit that were sent. */
  datatype Patch = Patch(
    majorId: Option<MajorId>, docType: Option<DocType>, audience: Option<seq<Entry>>, expiresAt: Option<Option<int>>)

  /**
   * A file sent inside the request itself: where its object and its rendition are put, and whether the byte quota,
   * the vetting and the storage let it through.
   */
  datatype Sent = Sent(id: FileId, storageKey: string, previewKey: Option<string>, accepted: bool)

  /** The files of a request: staged ones by name, with the identifiers their rows get, and sent ones. */
  datatype Batch = Batch(stagedIds: seq<StagedId>, ids: seq<FileId>, direct: seq<Sent>)

  datatype Call =
    | Wait(ms: nat)
    | Stage(stagedId: StagedId, user: UserId, storageKey: string, previewKey: Option<string>)
    | UploadMany(upload: UploadId, user: UserId, meta: Meta, batch: Batch)
    | AddFiles(upload: UploadId, user: UserId, batch: Batch)
    | Update(upload: UploadId, user: UserId, patch: Patch)
    | RemoveFile(file: FileId, user: UserId)
    | SetFileHidden(file: FileId, user: UserId, hidden: bool)
    | SetHidden(upload: UploadId, user: UserId, hidden: bool)
    | Delete(upload: UploadId, user: UserId)
    | DeleteDocument(upload: UploadId)
    | ApproveGroup(upload: UploadId, reviewer: Reviewer)
    | RejectGroup(upload: UploadId, reviewer: Reviewer)
    | ApproveFile(file: FileId, reviewer: Reviewer)
    | RejectFile(file: FileId, reviewer: Reviewer)

  /** FileRefused stands for whatever quota, vetting or storage answers. */
  datatype Outcome = Done | NothingPending | NotFound | Forbidden | BadRequest | FileRefused

  // ─── Rows ────────────────────────────────────────────────────────────────

  function InBucket(key: string): string {
    "documents/" + key
  }

  function NewFile(u: UploadId, status: Status, storageKey: string, previewKey: Option<string>): File {
    File(u, status, false, Some(InBucket(storageKey)),
         if previewKey.Some? && previewKey.value != "" then Some(InBucket(previewKey.value)) else None)
  }

  function AddRow(s: State, row: Row): State {
    s.(files := s.files[row.id := row.file], fileIds := s.fileIds + {row.id}, log := s.log + [Added(row.id)])
  }

  function AddRows(s: State, rows: seq<Row>): State {
    if rows == [] then s else AddRow(AddRows(s, rows[..|rows| - 1]), rows[|rows| - 1])
  }

  predicate Claimable(staged: map<StagedId, Staged>, user: UserId, ids: seq<StagedId>) {
    forall id :: id in ids ==> id in staged && staged[id].uploader == user
  }

  /** The rows the query for the caller's staged files finds. */
  function Found(staged: map<StagedId, Staged>, user: UserId, ids: seq<StagedId>): set<StagedId> {
    set id | id in ids && id in staged && staged[id].uploader == user
  }

  /** The rows made of claimed staged files, in the order the form listed them. */
  function ClaimedRows(
      staged: map<StagedId, Staged>, unique: seq<StagedId>, ids: seq<FileId>, u: UploadId, status: Status): seq<Row>
    requires (forall id :: id in unique ==> id in staged) && |unique| <= |ids|
  {
    seq(|unique|, i requires 0 <= i < |unique| =>
      Row(ids[i], NewFile(u, status, staged[unique[i]].storageKey, staged[unique[i]].previewKey)))
  }

  function SentRow(sent: Sent, u: UploadId, status: Status): Row {
    Row(sent.id, NewFile(u, status, sent.storageKey, sent.previewKey))
  }

  function SentRows(direct: seq<Sent>, u: UploadId, status: Status): seq<Row> {
    seq(|direct|, i requires 0 <= i < |direct| => SentRow(direct[i], u, status))
  }

  /** How many files get through before the first that does not. */
  function Through(direct: seq<Sent>): (n: nat)
    ensures n <= |direct|
    ensures forall i :: 0 <= i < n ==> direct[i].accepted
    ensures n < |direct| ==> !direct[n].accepted
  {
    if direct == [] || !direct[0].accepted then 0 else 1 + Through(direct[1..])
  }

  /** The files that get through, in the order sent. */
  function Landing(direct: seq<Sent>): seq<Sent> {
    direct[..Through(direct)]
  }

  predicate Enough(batch: Batch) {
    |Unique(batch.stagedIds)| <= |batch.ids|
  }

  /** claimStagedFiles: all of them, or none. */
  function Claim(s: State, u: UploadId, user: UserId, batch: Batch, status: Status): Option<State>
    requires Enough(batch)
  {
    var unique := Unique(batch.stagedIds);
    if !Claimable(s.staged, user, unique) then None
    else
      Some(AddRows(s, ClaimedRows(s.staged, unique, batch.ids, u, status)).(staged := s.staged - set id | id in unique))
  }

  /** The claim, and then the files sent with the request, one by one: the first one refused ends the call. */
  function Save(s: State, u: UploadId, user: UserId, batch: Batch, status: Status): (State, Outcome)
    requires Enough(batch)
  {
    match Claim(s, u, user, batch, status)
    case None => (s, BadRequest)
    case Some(claimed) =>
      (AddRows(claimed, SentRows(Landing(batch.direct), u, status)),
       if Through(batch.direct) < |batch.direct| then FileRefused else Done)
  }

  function Unhidden(files: Files, u: UploadId): set<FileId> {
    set f | f in FilesOf(files, u) && !files[f].hidden
  }

  function Reopened(upload: Upload): Upload {
    if upload.status == Active then upload else upload.(status := Pending)
  }

  /** A file lands pending in an active upload, and active in one whose own review still covers it. */
  function ArrivalStatus(upload: Upload): Status {
    if upload.status == Active then Pending else Active
  }

  function Cascade(s: State, u: UploadId): State {
    s.(uploads := s.uploads - {u}, files := map f | f in s.files && s.files[f].upload != u :: s.files[f])
  }

  predicate CanModerate(reviewer: Reviewer, majorId: MajorId) {
    reviewer.admin || majorId in reviewer.majorIds
  }

  // ─── Calls ───────────────────────────────────────────────────────────────

  function Created(s: State, u: UploadId, row: Upload): State {
    s.(uploads := s.uploads[u := row], uploadIds := s.uploadIds + {u})
  }

  /** A department course and a language course each offer their own list; exam preparation and other are on both. */
  predicate Shared(docType: DocType) {
    docType in [ExamPreparation, Other]
  }

  predicate ForLanguages(docType: DocType) {
    docType in [Grammar, Vocabulary, Speaking, Listening, Reading, Writing, PracticeExercises]
  }

  /** assertDocType. */
  predicate Suits(acronym: string, docType: DocType) {
    Shared(docType) || (ForLanguages(docType) <==> IsLanguageMajor(acronym))
  }

  function UploadManyCall(s: State, u: UploadId, user: UserId, meta: Meta, batch: Batch): (State, Outcome)
    requires Enough(batch)
  {
    if batch.direct == [] && batch.stagedIds == [] then (s, BadRequest)
    else if meta.majorId !in s.majors then (s, BadRequest)
    else if !Suits(s.majors[meta.majorId], meta.docType) then (s, BadRequest)
    else
      var resolved := Resolve(s.majors, s.majors[meta.majorId], meta.audience);
      if resolved.None? then (s, BadRequest)
      else
        var created := Created(s, u, NewUpload(user, meta, resolved.value));
        // The upload row is already saved when the claim or a file is refused.
        Save(created, u, user, batch, Active)
  }

  function NewUpload(user: UserId, meta: Meta, audience: seq<Entry>): Upload {
    Upload(Some(user), meta.majorId, meta.docType, Pending, audience, meta.expiresAt, false)
  }

  function AddFilesCall(s: State, u: UploadId, user: UserId, batch: Batch): (State, Outcome)
    requires Enough(batch)
  {
    if batch.direct == [] && batch.stagedIds == [] then (s, BadRequest)
    else if u !in s.uploads then (s, NotFound)
    else if s.uploads[u].uploader != Some(user) then (s, Forbidden)
    else
      var (saved, outcome) := Save(s, u, user, batch, ArrivalStatus(s.uploads[u]));
      if outcome != Done then (saved, outcome)
      else (saved.(uploads := s.uploads[u := Reopened(s.uploads[u])]), Done)
  }

  function OrElse<T>(sent: Option<T>, current: T): T {
    if sent.Some? then sent.value else current
  }

  function UpdateCall(s: State, u: UploadId, user: UserId, patch: Patch): (State, Outcome) {
    if u !in s.uploads then (s, NotFound)
    else if s.uploads[u].uploader != Some(user) then (s, Forbidden)
    else
      var upload := s.uploads[u];
      var majorId := OrElse(patch.majorId, upload.majorId);
      if (patch.majorId.Some? || patch.docType.Some? || patch.audience.Some?)
          && majorId !in s.majors then (s, BadRequest)
      else if patch.docType.Some? && !Suits(s.majors[majorId], patch.docType.value) then (s, BadRequest)
      else
        var resolved :=
          if patch.majorId.Some? || patch.audience.Some?
          then Resolve(s.majors, s.majors[majorId], OrElse(patch.audience, upload.audience))
          else Some(upload.audience);
        if resolved.None? then (s, BadRequest)
        else
          var expiry := OrElse(patch.expiresAt, upload.expiresAt);
          if expiry != upload.expiresAt && expiry.Some? && expiry.value <= s.now then (s, BadRequest)
          else
            var docType := OrElse(patch.docType, upload.docType);
            var edited := upload.(majorId := majorId, docType := docType, audience := resolved.value,
                                  expiresAt := expiry);
            (s.(uploads := s.uploads[u := Reopened(edited)]), Done)
  }

  function DeleteCall(s: State, u: UploadId, user: UserId): (State, Outcome) {
    if u !in s.uploads then (s, NotFound)
    else if s.uploads[u].uploader != Some(user) then (s, Forbidden)
    else (Cascade(s, u), Done)
  }

  function RemoveFileCall(s: State, f: FileId, user: UserId): (State, Outcome) {
    if f !in s.files || s.files[f].upload !in s.uploads then (s, NotFound)
    else if s.uploads[s.files[f].upload].uploader != Some(user) then (s, Forbidden)
    else if |FilesOf(s.files, s.files[f].upload)| <= 1 then DeleteCall(s, s.files[f].upload, user)
    else (s.(files := s.files - {f}), Done)
  }

  function SetFileHiddenCall(s: State, f: FileId, user: UserId, hidden: bool): (State, Outcome) {
    if f !in s.files || s.files[f].upload !in s.uploads then (s, NotFound)
    else if s.uploads[s.files[f].upload].uploader != Some(user) then (s, Forbidden)
    else
      var u := s.files[f].upload;
      var files := s.files[f := s.files[f].(hidden := hidden)];
      var visible := Unhidden(files, u);
      var folder :=
        if hidden && |visible| == 0 && !s.uploads[u].hidden then s.uploads[u].(hidden := true)
        else if !hidden && |visible| > 0 && s.uploads[u].hidden then s.uploads[u].(hidden := false)
        else s.uploads[u];
      (s.(files := files, uploads := s.uploads[u := folder]), Done)
  }

  function ApproveGroupCall(s: State, u: UploadId, reviewer: Reviewer): (State, Outcome) {
    if u !in s.uploads || s.uploads[u].status != Pending then (s, NothingPending)
    else if !CanModerate(reviewer, s.uploads[u].majorId) then (s, Forbidden)
    else (s.(uploads := s.uploads[u := s.uploads[u].(status := Active)],
             log := s.log + [ClearedGroup(u, reviewer.id)]), Done)
  }

  function RejectGroupCall(s: State, u: UploadId, reviewer: Reviewer): (State, Outcome) {
    if u !in s.uploads || s.uploads[u].status != Pending then (s, NothingPending)
    else if !CanModerate(reviewer, s.uploads[u].majorId) then (s, Forbidden)
    else (s.(uploads := s.uploads[u := s.uploads[u].(status := Rejected)]), Done)
  }

  function ReviewFileCall(s: State, f: FileId, reviewer: Reviewer, approve: bool): (State, Outcome) {
    if f !in s.files || s.files[f].status != Pending || s.files[f].upload !in s.uploads then (s, NothingPending)
    else if !CanModerate(reviewer, s.uploads[s.files[f].upload].majorId) then (s, Forbidden)
    else if approve then
      (s.(files := s.files[f := s.files[f].(status := Active)], log := s.log + [ClearedFile(f, reviewer.id)]), Done)
    else (s.(files := s.files[f := s.files[f].(status := Rejected)]), Done)
  }

  /** Generated identifiers are new, and there are enough of them. */
  ghost predicate Fresh(s: State, call: Call) {
    match call
    case UploadMany(u, _, _, batch) => u !in s.uploadIds && FreshRows(s, batch)
    case AddFiles(_, _, batch) => FreshRows(s, batch)
    case Stage(id, _, _, _) => id !in s.staged
    case _ => true
  }

  ghost predicate FreshRows(s: State, batch: Batch) {
    var ids, direct := batch.ids, batch.direct;
    && |ids| == |Unique(batch.stagedIds)|
    && (forall i, j :: 0 <= i < j < |ids| ==> ids[i] != ids[j])
    && (forall i, j :: 0 <= i < j < |direct| ==> direct[i].id != direct[j].id)
    && (forall i, j :: 0 <= i < |ids| && 0 <= j < |direct| ==> ids[i] != direct[j].id)
    && (forall i :: 0 <= i < |ids| ==> ids[i] !in s.fileIds)
    && (forall i :: 0 <= i < |direct| ==> direct[i].id !in s.fileIds)
  }

  ghost function Apply(s: State, call: Call): (State, Outcome)
    requires Fresh(s, call)
  {
    match call
    case Wait(ms) => (s.(now := s.now + ms), Done)
    case Stage(id, user, storageKey, previewKey) =>
      (s.(staged := s.staged[id := Staged(user, storageKey, previewKey)]), Done)
    case UploadMany(u, user, meta, batch) => UploadManyCall(s, u, user, meta, batch)
    case AddFiles(u, user, batch) => AddFilesCall(s, u, user, batch)
    case Update(u, user, patch) => UpdateCall(s, u, user, patch)
    case RemoveFile(f, user) => RemoveFileCall(s, f, user)
    case SetFileHidden(f, user, hidden) => SetFileHiddenCall(s, f, user, hidden)
    case SetHidden(u, user, hidden) =>
      if u !in s.uploads then (s, NotFound)
      else if s.uploads[u].uploader != Some(user) then (s, Forbidden)
      else (s.(uploads := s.uploads[u := s.uploads[u].(hidden := hidden)]), Done)
    case Delete(u, user) => DeleteCall(s, u, user)
    case DeleteDocument(u) => if u !in s.uploads then (s, NotFound) else (Cascade(s, u), Done)
    case ApproveGroup(u, reviewer) => ApproveGroupCall(s, u, reviewer)
    case RejectGroup(u, reviewer) => RejectGroupCall(s, u, reviewer)
    case ApproveFile(f, reviewer) => ReviewFileCall(s, f, reviewer, true)
    case RejectFile(f, reviewer) => ReviewFileCall(s, f, reviewer, false)
  }

  ghost function After(s: State, call: Call): State
    requires Fresh(s, call)
  {
    Apply(s, call).0
  }

  function Init(now: int, majors: Majors): State {
    State(now, majors, map[], map[], map[], {}, {}, [])
  }

  // ─── The service ─────────────────────────────────────────────────────────

  class DocumentsService {
    const majors: Majors
    var now: int
    var uploads: Uploads
    var files: Files
    var staged: map<StagedId, Staged>
    ghost var uploadIds: set<UploadId>
    ghost var fileIds: set<FileId>
    ghost var log: seq<Event>

    ghost function Value(): State
      reads this
    {
      State(now, majors, uploads, files, staged, uploadIds, fileIds, log)
    }

    constructor (now: int, majors: Majors)
      ensures Value() == Init(now, majors)
    {
      this.now, this.majors, uploads, files, staged := now, majors, map[], map[], map[];
      uploadIds, fileIds, log := {}, {}, [];
    }

    method SaveRow(row: Row)
      modifies this`files, this`fileIds, this`log
      ensures Value() == AddRow(old(Value()), row)
    {
      files := files[row.id := row.file];
      fileIds, log := fileIds + {row.id}, log + [Added(row.id)];
    }

    method SaveRows(rows: seq<Row>)
      modifies this`files, this`fileIds, this`log
      ensures Value() == AddRows(old(Value()), rows)
    {
      hide AddRow;
      for i := 0 to |rows|
        invariant Value() == AddRows(old(Value()), rows[..i])
      {
        SaveRow(rows[i]);
        assert rows[..i + 1][..i] == rows[..i];
      }
      assert rows[..|rows|] == rows;
    }

    /** Claims the caller's staged files into rows of `upload`, all or none of them. */
    method ClaimStagedFiles(upload: UploadId, uploaderId: UserId, batch: Batch, status: Status) returns (ok: bool)
      requires |batch.ids| == |Unique(batch.stagedIds)|
      modifies this`files, this`staged, this`fileIds, this`log
      ensures ok == Claim(old(Value()), upload, uploaderId, batch, status).Some?
      ensures Value() == if ok then Claim(old(Value()), upload, uploaderId, batch, status).value else old(Value())
    {
      var unique := Unique(batch.stagedIds);
      AllFound(staged, uploaderId, unique);
      if |Found(staged, uploaderId, unique)| != |unique| {
        return false;
      }
      SaveRows(ClaimedRows(staged, unique, batch.ids, upload, status));
      staged := staged - (set id | id in unique);
      return true;
    }

    /** Saves the files sent, one by one, until one is refused. */
    method SaveSent(direct: seq<Sent>, upload: UploadId, status: Status) returns (ok: bool)
      modifies this`files, this`fileIds, this`log
      ensures ok == (Through(direct) == |direct|)
      ensures Value() == AddRows(old(Value()), SentRows(Landing(direct), upload, status))
    {
      assert SentRows(direct[..0], upload, status) == [];
      hide AddRow, SentRow, SentRows;
      for i := 0 to |direct|
        invariant i <= Through(direct)
        invariant Value() == AddRows(old(Value()), SentRows(direct[..i], upload, status))
      {
        if !direct[i].accepted {
          return false;
        }
        SaveRow(SentRow(direct[i], upload, status));
        SentOneMore(direct, i, upload, status);
      }
      return true;
    }

    /** The files of a request, claimed and then sent; the first one refused ends it. */
    method SaveBatch(upload: UploadId, uploaderId: UserId, batch: Batch, status: Status) returns (o: Outcome)
      requires |batch.ids| == |Unique(batch.stagedIds)|
      modifies this`files, this`staged, this`fileIds, this`log
      ensures (Value(), o) == Save(old(Value()), upload, uploaderId, batch, status)
    {
      hide Claim, AddRows, SentRows, Landing, Through;
      var ok := ClaimStagedFiles(upload, uploaderId, batch, status);
      if !ok {
        return BadRequest;
      }
      ok := SaveSent(batch.direct, upload, status);
      return if ok then Done else FileRefused;
    }

    method CreateUpload(id: UploadId, uploaderId: UserId, meta: Meta, batch: Batch) returns (o: Outcome)
      requires Fresh(Value(), UploadMany(id, uploaderId, meta, batch))
      modifies this
      ensures (Value(), o) == Apply(old(Value()), UploadMany(id, uploaderId, meta, batch))
    {
      hide Save, Suits, Resolve;
      if batch.direct == [] && batch.stagedIds == [] {
        return BadRequest;
      }
      if meta.majorId !in majors {
        return BadRequest;
      }
      if !Suits(majors[meta.majorId], meta.docType) {
        return BadRequest;
      }
      var resolved := ResolveAudience(majors, majors[meta.majorId], meta.audience);
      if resolved.None? {
        return BadRequest;
      }
      uploads := uploads[id := NewUpload(uploaderId, meta, resolved.value)];
      uploadIds := uploadIds + {id};
      o := SaveBatch(id, uploaderId, batch, Active);
    }

    method AddMoreFiles(upload: UploadId, userId: UserId, batch: Batch) returns (o: Outcome)
      requires Fresh(Value(), AddFiles(upload, userId, batch))
      modifies this
      ensures (Value(), o) == Apply(old(Value()), AddFiles(upload, userId, batch))
    {
      hide Save;
      if batch.direct == [] && batch.stagedIds == [] {
        return BadRequest;
      }
      if upload !in uploads {
        return NotFound;
      }
      if uploads[upload].uploader != Some(userId) {
        return Forbidden;
      }
      var status := if uploads[upload].status == Active then Pending else Active;
      o := SaveBatch(upload, userId, batch, status);
      if o != Done {
        return;
      }
      SaveLeavesUploads(old(Value()), upload, userId, batch, status);
      if uploads[upload].status != Active {
        uploads := uploads[upload := uploads[upload].(status := Pending)];
      } else {
        assert uploads[upload := uploads[upload]] == uploads;
      }
    }

    method Edit(upload: UploadId, userId: UserId, patch: Patch) returns (o: Outcome)
      modifies this`uploads
      ensures (Value(), o) == Apply(old(Value()), Update(upload, userId, patch))
    {
      hide Suits, Resolve, Resolved;
      if upload !in uploads {
        return NotFound;
      }
      var row := uploads[upload];
      if row.uploader != Some(userId) {
        return Forbidden;
      }
      var patched := row;
      if patch.docType.Some? {
        patched := patched.(docType := patch.docType.value);
      }
      if patch.majorId.Some? {
        patched := patched.(majorId := patch.majorId.value);
      }
      if patch.majorId.Some? || patch.docType.Some? || patch.audience.Some? {
        if patched.majorId !in majors {
          return BadRequest;
        }
        var acronym := majors[patched.majorId];
        if patch.docType.Some? && !Suits(acronym, patch.docType.value) {
          return BadRequest;
        }
        if patch.majorId.Some? || patch.audience.Some? {
          var resolved := ResolveAudience(majors, acronym, OrElse(patch.audience, row.audience));
          if resolved.None? {
            return BadRequest;
          }
          patched := patched.(audience := resolved.value);
        }
      }
      if patch.expiresAt.Some? {
        var next := patch.expiresAt.value;
        if next != row.expiresAt && next.Some? && next.value <= now {
          return BadRequest;
        }
        patched := patched.(expiresAt := next);
      }
      if row.status != Active {
        patched := patched.(status := Pending);
      }
      uploads := uploads[upload := patched];
      return Done;
    }

    method DeleteUpload(upload: UploadId, userId: UserId) returns (o: Outcome)
      modifies this`uploads, this`files
      ensures (Value(), o) == Apply(old(Value()), Delete(upload, userId))
    {
      if upload !in uploads {
        return NotFound;
      }
      if uploads[upload].uploader != Some(userId) {
        return Forbidden;
      }
      uploads := uploads - {upload};
      files := map f | f in files && files[f].upload != upload :: files[f];
      return Done;
    }

    /** Removing the last file takes the upload with it. */
    method RemoveOneFile(file: FileId, userId: UserId) returns (o: Outcome)
      modifies this`uploads, this`files
      ensures (Value(), o) == Apply(old(Value()), RemoveFile(file, userId))
    {
      if file !in files {
        return NotFound;
      }
      var upload := files[file].upload;
      if upload !in uploads {
        return NotFound;
      }
      if uploads[upload].uploader != Some(userId) {
        return Forbidden;
      }
      var count := |FilesOf(files, upload)|;
      if count <= 1 {
        o := DeleteUpload(upload, userId);
        return;
      }
      files := files - {file};
      return Done;
    }

    method HideFile(file: FileId, userId: UserId, hidden: bool) returns (o: Outcome)
      modifies this`uploads, this`files
      ensures (Value(), o) == Apply(old(Value()), SetFileHidden(file, userId, hidden))
    {
      if file !in files {
        return NotFound;
      }
      var id := files[file].upload;
      if id !in uploads {
        return NotFound;
      }
      var upload := uploads[id];
      if upload.uploader != Some(userId) {
        return Forbidden;
      }
      files := files[file := files[file].(hidden := hidden)];
      var visible := |Unhidden(files, id)|;
      if hidden && visible == 0 && !upload.hidden {
        uploads := uploads[id := upload.(hidden := true)];
      } else if !hidden && visible > 0 && upload.hidden {
        uploads := uploads[id := upload.(hidden := false)];
      } else {
        assert uploads[id := upload] == uploads;
      }
      return Done;
    }

    method ApproveDocumentGroup(upload: UploadId, reviewer: Reviewer) returns (o: Outcome)
      modifies this`uploads, this`log
      ensures (Value(), o) == Apply(old(Value()), ApproveGroup(upload, reviewer))
    {
      if upload !in uploads || uploads[upload].status != Pending {
        return NothingPending;
      }
      if !CanModerate(reviewer, uploads[upload].majorId) {
        return Forbidden;
      }
      uploads := uploads[upload := uploads[upload].(status := Active)];
      log := log + [ClearedGroup(upload, reviewer.id)];
      return Done;
    }

    method RejectDocumentGroup(upload: UploadId, reviewer: Reviewer) returns (o: Outcome)
      modifies this`uploads
      ensures (Value(), o) == Apply(old(Value()), RejectGroup(upload, reviewer))
    {
      if upload !in uploads || uploads[upload].status != Pending {
        return NothingPending;
      }
      if !CanModerate(reviewer, uploads[upload].majorId) {
        return Forbidden;
      }
      uploads := uploads[upload := uploads[upload].(status := Rejected)];
      return Done;
    }

    method ReviewOneFile(file: FileId, reviewer: Reviewer, approve: bool) returns (o: Outcome)
      modifies this`files, this`log
      ensures var verdict := if approve then ApproveFile(file, reviewer) else RejectFile(file, reviewer);
        (Value(), o) == Apply(old(Value()), verdict)
    {
      if file !in files || files[file].status != Pending || files[file].upload !in uploads {
        return NothingPending;
      }
      if !CanModerate(reviewer, uploads[files[file].upload].majorId) {
        return Forbidden;
      }
      files := files[file := files[file].(status := if approve then Active else Rejected)];
      if approve {
        log := log + [ClearedFile(file, reviewer.id)];
      }
      return Done;
    }
  }

  lemma SentOneMore(direct: seq<Sent>, i: nat, u: UploadId, status: Status)
    requires i < |direct|
    ensures SentRows(direct[..i + 1], u, status) == SentRows(direct[..i], u, status) + [SentRow(direct[i], u, status)]
    ensures SentRows(direct[..i + 1], u, status)[..i] == SentRows(direct[..i], u, status)
  {
  }

  /** Counting the rows found is enough to know that none was missing. */
  lemma AllFound(staged: map<StagedId, Staged>, user: UserId, unique: seq<StagedId>)
    requires forall i, j :: 0 <= i < j < |unique| ==> unique[i] != unique[j]
    ensures |Found(staged, user, unique)| == |unique| <==> Claimable(staged, user, unique)
  {
    var asked := set id | id in unique;
    DistinctCardinality(unique);
    if Claimable(staged, user, unique) {
      assert Found(staged, user, unique) == asked;
    } else {
      var id :| id in unique && !(id in staged && staged[id].uploader == user);
      assert Found(staged, user, unique) <= asked - {id};
      hide Found, Claimable;
      WithoutOne(asked, id);
      SubsetCardinality(Found(staged, user, unique), asked - {id});
    }
  }

  // ─── Cleared since it was added ──────────────────────────────────────────

  predicate Clears(e: Event, f: FileId, u: UploadId) {
    (e.ClearedFile? && e.file == f) || (e.ClearedGroup? && e.upload == u)
  }

  /** Reading the history backwards, a clearance of the file or of its upload comes before the file's arrival. */
  predicate ClearedSince(log: seq<Event>, f: FileId, u: UploadId) {
    log != [] &&
    var last := log[|log| - 1];
    (Clears(last, f, u) || (last != Added(f) && ClearedSince(log[..|log| - 1], f, u)))
  }

  /** Event `j` clears the file, and the file does not arrive at or after it. */
  predicate ClearedAt(log: seq<Event>, f: FileId, u: UploadId, j: nat) {
    j < |log| && Clears(log[j], f, u) && forall k :: j <= k < |log| ==> log[k] != Added(f)
  }

  lemma {:induction false} ClearedSinceShows(log: seq<Event>, f: FileId, u: UploadId) returns (j: nat)
    requires ClearedSince(log, f, u)
    ensures ClearedAt(log, f, u, j)
  {
    if Clears(log[|log| - 1], f, u) {
      j := |log| - 1;
    } else {
      j := ClearedSinceShows(log[..|log| - 1], f, u);
      assert forall k :: j <= k < |log| - 1 ==> log[k] == log[..|log| - 1][k];
    }
  }

  lemma {:induction false} ClearedAtSuffices(log: seq<Event>, f: FileId, u: UploadId, j: nat)
    requires ClearedAt(log, f, u, j)
    ensures ClearedSince(log, f, u)
  {
    if j < |log| - 1 {
      assert forall k :: j <= k < |log| - 1 ==> log[k] == log[..|log| - 1][k];
      ClearedAtSuffices(log[..|log| - 1], f, u, j);
    }
  }

  /** The file arrived, was cleared after, alone or with its upload, and has not arrived again. */
  predicate Reviewed(log: seq<Event>, f: FileId, u: UploadId) {
    exists i: nat, j: nat :: i < j < |log| && log[i] == Added(f) && ClearedAt(log, f, u, j)
  }

  lemma ReviewedIsClearedSince(log: seq<Event>, f: FileId, u: UploadId)
    ensures Reviewed(log, f, u) <==> Added(f) in log && ClearedSince(log, f, u)
  {
    if Added(f) in log && ClearedSince(log, f, u) {
      var i: nat :| i < |log| && log[i] == Added(f);
      var j := ClearedSinceShows(log, f, u);
      assert i < j;
    } else if Reviewed(log, f, u) {
      var i: nat, j: nat :| i < j < |log| && log[i] == Added(f) && ClearedAt(log, f, u, j);
      ClearedAtSuffices(log, f, u, j);
    }
  }

  lemma ClearedAppend(log: seq<Event>, e: Event, f: FileId, u: UploadId)
    ensures ClearedSince(log + [e], f, u) <==> Clears(e, f, u) || (e != Added(f) && ClearedSince(log, f, u))
  {
    assert (log + [e])[..|log|] == log;
  }

  // ─── What every call keeps ───────────────────────────────────────────────

  /** A pending or rejected file sits in an active upload; an active file in an active upload was cleared. */
  ghost predicate FileInv(s: State, f: FileId) {
    f in s.files ==>
      var file := s.files[f];
      && f in s.fileIds && Added(f) in s.log && file.upload in s.uploads
      && (file.status != Active ==> s.uploads[file.upload].status == Active)
      && (file.status == Active && s.uploads[file.upload].status == Active ==> ClearedSince(s.log, f, file.upload))
  }

  ghost predicate UploadInv(s: State, u: UploadId) {
    u in s.uploads ==>
      u in s.uploadIds && s.uploads[u].majorId in s.majors && Resolved(s.majors, s.uploads[u].audience)
  }

  ghost predicate Inv(s: State) {
    (forall f :: FileInv(s, f)) && (forall u :: UploadInv(s, u))
  }

  // ─── New files ───────────────────────────────────────────────────────────

  predicate Arriving(uploads: Uploads, row: Row) {
    row.file.upload in uploads && row.file.status == ArrivalStatus(uploads[row.file.upload])
  }

  lemma RowKeepsInv(s: State, row: Row)
    requires Inv(s) && row.id !in s.fileIds && Arriving(s.uploads, row)
    ensures Inv(AddRow(s, row))
  {
    hide ClearedSince;
    var next := AddRow(s, row);
    forall f ensures FileInv(next, f) {
      assert FileInv(s, f);
      if f in s.files {
        ClearedAppend(s.log, Added(row.id), f, s.files[f].upload);
      }
    }
    forall u ensures UploadInv(next, u) { assert UploadInv(s, u); }
  }

  predicate NewIds(fileIds: set<FileId>, rows: seq<Row>) {
    && (forall i, j :: 0 <= i < j < |rows| ==> rows[i].id != rows[j].id)
    && (forall i :: 0 <= i < |rows| ==> rows[i].id !in fileIds)
  }

  lemma {:induction false} RowsKeepInv(s: State, rows: seq<Row>)
    requires Inv(s) && NewIds(s.fileIds, rows) && forall row :: row in rows ==> Arriving(s.uploads, row)
    ensures var t := AddRows(s, rows);
      && Inv(t)
      && t == s.(files := t.files, fileIds := t.fileIds, log := t.log)
      && (forall id :: id in t.fileIds ==> id in s.fileIds || exists i :: 0 <= i < |rows| && rows[i].id == id)
      && (forall f :: f in s.files && f in s.fileIds ==> f in t.files && t.files[f] == s.files[f])
  {
    hide Inv, Arriving;
    if rows != [] {
      RowsKeepInv(s, rows[..|rows| - 1]);
      RowKeepsInv(AddRows(s, rows[..|rows| - 1]), rows[|rows| - 1]);
    }
  }

  lemma ClaimKeepsInv(s: State, u: UploadId, user: UserId, batch: Batch, status: Status)
    requires Inv(s) && FreshRows(s, batch) && u in s.uploads && status == ArrivalStatus(s.uploads[u])
    ensures var claimed := Claim(s, u, user, batch, status);
      claimed.Some? ==>
        && Inv(claimed.value) && claimed.value.uploads == s.uploads
        && (forall i :: 0 <= i < |batch.direct| ==> batch.direct[i].id !in claimed.value.fileIds)
  {
    var claimed := Claim(s, u, user, batch, status);
    if claimed.Some? {
      var rows := ClaimedRows(s.staged, Unique(batch.stagedIds), batch.ids, u, status);
      assert forall row :: row in rows ==> Arriving(s.uploads, row);
      hide Inv, Arriving, Unique, ClaimedRows, NewFile, Claimable;
      RowsKeepInv(s, rows);
      UnstagingKeepsInv(AddRows(s, rows), claimed.value.staged);
    }
  }

  lemma SaveKeepsInv(s: State, u: UploadId, user: UserId, batch: Batch, status: Status)
    requires Inv(s) && FreshRows(s, batch) && u in s.uploads
    requires status == ArrivalStatus(s.uploads[u])
    ensures Inv(Save(s, u, user, batch, status).0)
  {
    var sent := SentRows(Landing(batch.direct), u, status);
    assert forall row :: row in sent ==> Arriving(s.uploads, row);
    ClaimKeepsInv(s, u, user, batch, status);
    hide Inv, Arriving, Claim, NewFile;
    var claimed := Claim(s, u, user, batch, status);
    if claimed.Some? {
      assert NewIds(claimed.value.fileIds, sent);
      RowsKeepInv(claimed.value, sent);
    }
  }

  lemma {:induction false} AddRowsFrame(s: State, rows: seq<Row>)
    ensures var t := AddRows(s, rows);
      t == s.(files := t.files, fileIds := t.fileIds, log := t.log) && s.fileIds <= t.fileIds
  {
    if rows != [] {
      AddRowsFrame(s, rows[..|rows| - 1]);
    }
  }

  /** Saving files leaves the uploads alone. */
  lemma SaveLeavesUploads(s: State, u: UploadId, user: UserId, batch: Batch, status: Status)
    requires Enough(batch)
    ensures var t := Save(s, u, user, batch, status).0;
      t == s.(files := t.files, staged := t.staged, fileIds := t.fileIds, log := t.log) && s.fileIds <= t.fileIds
  {
    hide AddRows, SentRows, ClaimedRows;
    var claimed := Claim(s, u, user, batch, status);
    if claimed.Some? {
      AddRowsFrame(s, ClaimedRows(s.staged, Unique(batch.stagedIds), batch.ids, u, status));
      AddRowsFrame(claimed.value, SentRows(Landing(batch.direct), u, status));
    }
  }

  lemma UnstagingKeepsInv(s: State, staged: map<StagedId, Staged>)
    requires Inv(s)
    ensures Inv(s.(staged := staged))
  {
    var t := s.(staged := staged);
    forall f ensures FileInv(t, f) { assert FileInv(s, f); }
    forall u ensures UploadInv(t, u) { assert UploadInv(s, u); }
  }

  // ─── Every call ──────────────────────────────────────────────────────────

  lemma CreatingKeepsInv(s: State, u: UploadId, row: Upload)
    requires Inv(s) && u !in s.uploadIds && row.majorId in s.majors && Resolved(s.majors, row.audience)
    ensures Inv(Created(s, u, row))
  {
    var t := Created(s, u, row);
    assert UploadInv(s, u);
    forall f ensures FileInv(t, f) { assert FileInv(s, f); }
    forall v ensures UploadInv(t, v) { assert UploadInv(s, v); }
  }

  lemma ResolveResolves(majors: Majors, acronym: string, audience: seq<Entry>)
    ensures Resolve(majors, acronym, audience).Some? ==> Resolved(majors, Resolve(majors, acronym, audience).value)
  {
  }

  lemma UploadManyKeepsInv(s: State, u: UploadId, user: UserId, meta: Meta, batch: Batch)
    requires Inv(s) && u !in s.uploadIds && FreshRows(s, batch)
    ensures Inv(UploadManyCall(s, u, user, meta, batch).0)
  {
    if meta.majorId in s.majors {
      var resolved := Resolve(s.majors, s.majors[meta.majorId], meta.audience);
      ResolveResolves(s.majors, s.majors[meta.majorId], meta.audience);
      if resolved.Some? {
        hide Inv, Resolved, Resolve, Save, Suits;
        var row := NewUpload(user, meta, resolved.value);
        CreatingKeepsInv(s, u, row);
        SaveKeepsInv(Created(s, u, row), u, user, batch, Active);
      }
    }
  }

  /** A change to one upload that leaves it active or not as it was, or takes it from active. */
  lemma EditingKeepsInv(s: State, u: UploadId, row: Upload)
    requires Inv(s) && u in s.uploads && row.majorId in s.majors && Resolved(s.majors, row.audience)
    requires row.status == Active <==> s.uploads[u].status == Active
    ensures Inv(s.(uploads := s.uploads[u := row]))
  {
    var t := s.(uploads := s.uploads[u := row]);
    forall f ensures FileInv(t, f) { assert FileInv(s, f); }
    forall v ensures UploadInv(t, v) { assert UploadInv(s, v) && UploadInv(s, u); }
  }

  lemma AudienceOf(s: State, u: UploadId)
    requires Inv(s) && u in s.uploads
    ensures Resolved(s.majors, s.uploads[u].audience) && s.uploads[u].majorId in s.majors && u in s.uploadIds
  {
    assert UploadInv(s, u);
  }

  lemma AddFilesKeepsInv(s: State, u: UploadId, user: UserId, batch: Batch)
    requires Inv(s) && FreshRows(s, batch)
    ensures Inv(AddFilesCall(s, u, user, batch).0)
  {
    if u in s.uploads {
      AudienceOf(s, u);
      hide Inv, Resolved, FreshRows, Save;
      var status := ArrivalStatus(s.uploads[u]);
      SaveKeepsInv(s, u, user, batch, status);
      SaveLeavesUploads(s, u, user, batch, status);
      EditingKeepsInv(Save(s, u, user, batch, status).0, u, Reopened(s.uploads[u]));
    }
  }

  lemma UpdateKeepsInv(s: State, u: UploadId, user: UserId, patch: Patch)
    requires Inv(s)
    ensures Inv(UpdateCall(s, u, user, patch).0)
  {
    var (next, outcome) := UpdateCall(s, u, user, patch);
    if outcome == Done {
      var upload := s.uploads[u];
      var majorId := OrElse(patch.majorId, upload.majorId);
      AudienceOf(s, u);
      hide Inv, Resolved, Resolve, Suits;
      ResolveResolves(s.majors, s.majors[majorId], OrElse(patch.audience, upload.audience));
      EditingKeepsInv(s, u, next.uploads[u]);
    }
  }

  lemma CascadeKeepsInv(s: State, u: UploadId)
    requires Inv(s)
    ensures Inv(Cascade(s, u))
  {
    var t := Cascade(s, u);
    forall f ensures FileInv(t, f) { assert FileInv(s, f); }
    forall v ensures UploadInv(t, v) { assert UploadInv(s, v); }
  }

  lemma FileChangeKeepsInv(s: State, f: FileId, hidden: bool)
    requires Inv(s) && f in s.files
    ensures Inv(s.(files := s.files - {f})) && Inv(s.(files := s.files[f := s.files[f].(hidden := hidden)]))
  {
    var gone, shown := s.(files := s.files - {f}), s.(files := s.files[f := s.files[f].(hidden := hidden)]);
    forall g ensures FileInv(gone, g) && FileInv(shown, g) { assert FileInv(s, g); }
    forall u ensures UploadInv(gone, u) && UploadInv(shown, u) { assert UploadInv(s, u); }
  }

  lemma RemoveFileKeepsInv(s: State, f: FileId, user: UserId)
    requires Inv(s)
    ensures Inv(RemoveFileCall(s, f, user).0)
  {
    if f in s.files {
      hide Inv, Cascade, FilesOf;
      FileChangeKeepsInv(s, f, false);
      CascadeKeepsInv(s, s.files[f].upload);
    }
  }

  lemma SetFileHiddenKeepsInv(s: State, f: FileId, user: UserId, hidden: bool)
    requires Inv(s)
    ensures Inv(SetFileHiddenCall(s, f, user, hidden).0)
  {
    var (next, outcome) := SetFileHiddenCall(s, f, user, hidden);
    if outcome == Done {
      var u := s.files[f].upload;
      AudienceOf(s, u);
      hide Inv, Resolved, Unhidden;
      FileChangeKeepsInv(s, f, hidden);
      EditingKeepsInv(s.(files := next.files), u, next.uploads[u]);
    }
  }

  lemma ApproveGroupKeepsInv(s: State, u: UploadId, reviewer: Reviewer)
    requires Inv(s)
    ensures Inv(ApproveGroupCall(s, u, reviewer).0)
  {
    hide ClearedSince;
    var (next, outcome) := ApproveGroupCall(s, u, reviewer);
    if outcome == Done {
      forall f ensures FileInv(next, f) {
        assert FileInv(s, f);
        if f in s.files {
          ClearedAppend(s.log, ClearedGroup(u, reviewer.id), f, s.files[f].upload);
        }
      }
      forall v ensures UploadInv(next, v) { assert UploadInv(s, v); }
    }
  }

  lemma RejectGroupKeepsInv(s: State, u: UploadId, reviewer: Reviewer)
    requires Inv(s)
    ensures Inv(RejectGroupCall(s, u, reviewer).0)
  {
    if RejectGroupCall(s, u, reviewer).1 == Done {
      AudienceOf(s, u);
      hide Inv, Resolved;
      EditingKeepsInv(s, u, s.uploads[u].(status := Rejected));
    }
  }

  lemma ReviewKeepsFile(s: State, f: FileId, reviewer: Reviewer, approve: bool, g: FileId)
    requires FileInv(s, f) && FileInv(s, g) && ReviewFileCall(s, f, reviewer, approve).1 == Done
    ensures FileInv(ReviewFileCall(s, f, reviewer, approve).0, g)
  {
    hide ClearedSince;
    if g in s.files {
      ClearedAppend(s.log, ClearedFile(f, reviewer.id), g, s.files[g].upload);
    }
  }

  lemma ReviewFileKeepsInv(s: State, f: FileId, reviewer: Reviewer, approve: bool)
    requires Inv(s)
    ensures Inv(ReviewFileCall(s, f, reviewer, approve).0)
  {
    var (next, outcome) := ReviewFileCall(s, f, reviewer, approve);
    if outcome == Done {
      assert FileInv(s, f);
      forall g ensures FileInv(next, g) {
        assert FileInv(s, g);
        ReviewKeepsFile(s, f, reviewer, approve, g);
      }
      forall u ensures UploadInv(next, u) { assert UploadInv(s, u); }
    }
  }

  lemma OthersKeepInv(s: State, call: Call)
    requires Inv(s) && Fresh(s, call)
    requires call.Wait? || call.Stage? || call.SetHidden? || call.Delete? || call.DeleteDocument?
    ensures Inv(After(s, call))
  {
    if call.SetHidden? && call.upload in s.uploads {
      AudienceOf(s, call.upload);
      EditingKeepsInv(s, call.upload, s.uploads[call.upload].(hidden := call.hidden));
    } else if call.Delete? || call.DeleteDocument? {
      CascadeKeepsInv(s, call.upload);
    } else if call.Stage? {
      UnstagingKeepsInv(s, After(s, call).staged);
    } else if call.Wait? {
      forall f ensures FileInv(After(s, call), f) { assert FileInv(s, f); }
      forall u ensures UploadInv(After(s, call), u) { assert UploadInv(s, u); }
    }
  }

  lemma CallKeepsInv(s: State, call: Call)
    requires Inv(s) && Fresh(s, call)
    ensures Inv(After(s, call))
  {
    hide Inv, FreshRows, UploadManyCall, AddFilesCall, UpdateCall, RemoveFileCall, SetFileHiddenCall;
    hide ApproveGroupCall, RejectGroupCall, ReviewFileCall, Cascade;
    match call
    case UploadMany(u, user, meta, batch) => UploadManyKeepsInv(s, u, user, meta, batch);
    case AddFiles(u, user, batch) => AddFilesKeepsInv(s, u, user, batch);
    case Update(u, user, patch) => UpdateKeepsInv(s, u, user, patch);
    case RemoveFile(f, user) => RemoveFileKeepsInv(s, f, user);
    case SetFileHidden(f, user, hidden) => SetFileHiddenKeepsInv(s, f, user, hidden);
    case ApproveGroup(u, reviewer) => ApproveGroupKeepsInv(s, u, reviewer);
    case RejectGroup(u, reviewer) => RejectGroupKeepsInv(s, u, reviewer);
    case ApproveFile(f, reviewer) => ReviewFileKeepsInv(s, f, reviewer, true);
    case RejectFile(f, reviewer) => ReviewFileKeepsInv(s, f, reviewer, false);
    case _ => OthersKeepInv(s, call);
  }

  // ─── Whole runs ──────────────────────────────────────────────────────────

  ghost predicate FreshRun(s: State, calls: seq<Call>)
    decreases |calls|, 0
  {
    calls == [] || (FreshRun(s, calls[..|calls| - 1]) && Fresh(Run(s, calls[..|calls| - 1]), calls[|calls| - 1]))
  }

  ghost function Run(s: State, calls: seq<Call>): State
    requires FreshRun(s, calls)
    decreases |calls|, 1
  {
    if calls == [] then s else After(Run(s, calls[..|calls| - 1]), calls[|calls| - 1])
  }

  lemma {:induction false} RunKeepsInv(s: State, calls: seq<Call>)
    requires Inv(s) && FreshRun(s, calls)
    ensures Inv(Run(s, calls))
  {
    hide Inv, After, Fresh;
    if calls != [] {
      RunKeepsInv(s, calls[..|calls| - 1]);
      CallKeepsInv(Run(s, calls[..|calls| - 1]), calls[|calls| - 1]);
    }
  }

  lemma InitInv(now: int, majors: Majors)
    ensures Inv(Init(now, majors))
  {
  }
}
