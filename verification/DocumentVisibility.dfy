/**
 * Who may see a document: the SQL filter of the feed, the in-memory check of the detail page and the gate
 * in front of signing are three copies of one rule in documents.service.ts.
 */
module DocumentVisibility {
  import opened Prelude
  import opened StorageRef
  import opened YearLevels

  type UserId = nat
  type UploadId = nat
  type FileId = nat
  type MajorId = string

  /** What the query binds for a viewer without a department or year. */
  const NIL_MAJOR: MajorId := "00000000-0000-0000-0000-000000000000"
  const NO_YEAR := -1

  datatype Entry = Entry(majorId: MajorId, yearLevel: int)
  datatype Status = Pending | Active | Rejected
  datatype DocType =
    | Note | TD | TP | Project | Lesson | Thesis
    | Grammar | Vocabulary | Speaking | Listening | Reading | Writing | PracticeExercises
    | ExamPreparation | Other
  datatype Upload = Upload(
    uploader: Option<UserId>, majorId: MajorId, docType: DocType, status: Status,
    audience: seq<Entry>, expiresAt: Option<int>, hidden: bool)
  datatype File = File(
    upload: UploadId, status: Status, hidden: bool, storageKey: Option<string>, previewKey: Option<string>)
  datatype Viewer = Viewer(id: UserId, admin: bool, majorId: Option<MajorId>, yearLevel: Option<int>)
  datatype Variant = Download | Preview

  type Uploads = map<UploadId, Upload>
  type Files = map<FileId, File>

  /** Every file's upload exists: the foreign key. */
  ghost predicate Linked(uploads: Uploads, files: Files) {
    forall f :: f in files ==> files[f].upload in uploads
  }

  // ─── The rule, three times ───────────────────────────────────────────────

  predicate Expired(u: Upload, now: int) {
    u.expiresAt.Some? && u.expiresAt.value <= now
  }

  /** The pair the query looks for in the stored audience. */
  function ViewerEntry(v: Viewer): Entry {
    var major := if v.majorId.Some? then v.majorId.value else NIL_MAJOR;
    var year := if v.yearLevel.Some? then v.yearLevel.value else NO_YEAR;
    Entry(major, year)
  }

  /** applyVisibility, as the condition it adds to the query. */
  predicate SqlVisible(u: Upload, v: Viewer, now: int, includeExpired: bool) {
    var notExpired := includeExpired || u.expiresAt.None? || u.expiresAt.value > now;
    var notHidden := includeExpired || !u.hidden;
    if v.admin then notExpired && notHidden
    else notExpired && notHidden && (u.uploader == Some(v.id) || |u.audience| == 0 || ViewerEntry(v) in u.audience)
  }

  predicate CanView(u: Upload, v: Viewer, now: int) {
    if v.admin then true
    else if u.uploader == Some(v.id) then true
    else if Expired(u, now) then false
    else if u.hidden then false
    else if |u.audience| == 0 then true
    else exists e :: e in u.audience && v.majorId == Some(e.majorId) && v.yearLevel == Some(e.yearLevel)
  }

  predicate Privileged(u: Upload, v: Viewer) {
    u.uploader == Some(v.id) || v.admin
  }

  predicate Published(f: File) {
    f.status == Active && !f.hidden
  }

  function FilesOf(files: Files, u: UploadId): set<FileId> {
    set f | f in files && files[f].upload == u
  }

  /** `viewer` is absent on a feed card. */
  function VisibleFiles(uploads: Uploads, files: Files, u: UploadId, viewer: Option<Viewer>): set<FileId>
    requires u in uploads
  {
    if viewer.Some? && Privileged(uploads[u], viewer.value) then FilesOf(files, u)
    else set f | f in FilesOf(files, u) && Published(files[f])
  }

  function FindOne(uploads: Uploads, files: Files, u: UploadId, v: Viewer, now: int): Option<set<FileId>> {
    if u !in uploads || uploads[u].status != Active then None
    else if !CanView(uploads[u], v, now) then None
    else Some(VisibleFiles(uploads, files, u, Some(v)))
  }

  /** A list request; `matching` are the uploads that pass its other filters and fall on the page asked for. */
  datatype Query = Query(uploaderId: Option<UserId>, status: Option<Status>, matching: set<UploadId>)

  predicate OwnList(q: Query, v: Viewer) {
    q.uploaderId == Some(v.id)
  }

  predicate Listed(uploads: Uploads, files: Files, u: UploadId, q: Query, v: Viewer, now: int)
    requires u in uploads
  {
    var own := OwnList(q, v);
    && (if own && q.status.None? then true else uploads[u].status == (if own then q.status.value else Active))
    && (exists f :: f in files && files[f].upload == u && Published(files[f]))
    && SqlVisible(uploads[u], v, now, own)
    && (q.uploaderId.Some? ==> uploads[u].uploader == q.uploaderId)
    && u in q.matching
  }

  /** The files on the cards of one page of the feed; the join keeps only published files. */
  function FindAll(uploads: Uploads, files: Files, q: Query, v: Viewer, now: int): set<FileId>
    requires Linked(uploads, files)
  {
    set f | f in files && Published(files[f]) && Listed(uploads, files, files[f].upload, q, v, now)
      && f in VisibleFiles(uploads, files, files[f].upload, None)
  }

  function ChosenRef(f: File, variant: Variant): Option<string> {
    if variant == Preview && f.previewKey.Some? then f.previewKey else f.storageKey
  }

  /** signFileAccess up to the signature: the object it would sign, or a refusal. */
  function SignFileAccess(uploads: Uploads, files: Files, f: FileId, v: Viewer, now: int,
                          variant: Variant): Option<Ref> {
    if f !in files then None
    else if files[f].upload !in uploads then None
    else
      var u := uploads[files[f].upload];
      if !CanView(u, v, now) then None
      else if u.status != Active && !Privileged(u, v) then None
      else if (files[f].status != Active || files[f].hidden) && !Privileged(u, v) then None
      else ParseRef(ChosenRef(files[f], variant))
  }

  predicate Usable(f: File, variant: Variant) {
    ParseRef(ChosenRef(f, variant)).Some?
  }

  // ─── Where the copies agree ──────────────────────────────────────────────

  /**
   * The two audience tests differ on exactly one input: a viewer with a gap in the profile, and the fallback pair
   * in the list.
   */
  lemma AudienceTestsDiffer(audience: seq<Entry>, v: Viewer)
    ensures ((ViewerEntry(v) in audience) <==>
      (exists e :: e in audience && v.majorId == Some(e.majorId) && v.yearLevel == Some(e.yearLevel)))
        <==> ((v.majorId.Some? && v.yearLevel.Some?) || ViewerEntry(v) !in audience)
  {
    if v.majorId.Some? && v.yearLevel.Some? && ViewerEntry(v) in audience {
      var e := ViewerEntry(v);
      assert v.majorId == Some(e.majorId) && v.yearLevel == Some(e.yearLevel);
    }
  }

  /** The acronyms of the majors in the database; generated identifiers are never the nil one. */
  type Majors = m: map<MajorId, string> | NIL_MAJOR !in m witness map[]

  /** A pair some student can be in: a real department, not a language course, and one of its years. */
  predicate RealCohort(majors: Majors, e: Entry) {
    e.majorId in majors && !IsLanguageMajor(majors[e.majorId]) && e.yearLevel in YearLevelsForMajor(majors[e.majorId])
  }

  ghost predicate Resolved(majors: Majors, audience: seq<Entry>) {
    (forall e :: e in audience ==> RealCohort(majors, e))
        && (forall i, j :: 0 <= i < j < |audience| ==> audience[i] != audience[j])
  }

  /** resolveAudience: what is stored, or nothing when the request is refused. */
  function Resolve(majors: Majors, acronym: string, audience: seq<Entry>): Option<seq<Entry>> {
    if IsLanguageMajor(acronym) then Some([])
    else if forall e :: e in audience ==> RealCohort(majors, e) then Some(Unique(audience))
    else None
  }

  method ResolveAudience(majors: Majors, acronym: string, audience: seq<Entry>) returns (r: Option<seq<Entry>>)
    ensures r == Resolve(majors, acronym, audience)
    ensures r.Some? ==> Resolved(majors, r.value)
    ensures r.Some? && !IsLanguageMajor(acronym) ==> forall e :: e in r.value <==> e in audience
  {
    if IsLanguageMajor(acronym) {
      return Some([]);
    }
    var unique: seq<Entry> := [];
    for i := 0 to |audience|
      invariant unique == Unique(audience[..i])
    {
      assert audience[..i + 1][..i] == audience[..i];
      if audience[i] !in unique {
        unique := unique + [audience[i]];
      }
    }
    assert audience[..|audience|] == audience;
    for i := 0 to |unique|
      invariant forall j :: 0 <= j < i ==> unique[j].majorId in majors
    {
      if unique[i].majorId !in majors {
        assert unique[i] in audience;
        return None;
      }
    }
    for i := 0 to |unique|
      invariant forall j :: 0 <= j < i ==> RealCohort(majors, unique[j])
    {
      var acronymOf := majors[unique[i].majorId];
      if IsLanguageMajor(acronymOf) || unique[i].yearLevel !in YearLevelsForMajor(acronymOf) {
        assert unique[i] in audience;
        return None;
      }
    }
    return Some(unique);
  }

  /** No resolved audience holds the fallback pair of an incomplete profile. */
  lemma ResolvedNeverHoldsTheGap(majors: Majors, audience: seq<Entry>, v: Viewer)
    requires Resolved(majors, audience)
    ensures (v.majorId.Some? && v.yearLevel.Some?) || ViewerEntry(v) !in audience
  {
    var e := ViewerEntry(v);
    if e in audience {
      assert RealCohort(majors, e);
      YearsByKind(majors[e.majorId], e.yearLevel);
    }
  }

  /**
   * On what resolveAudience stores, the browse filter accepts an upload exactly when canView does and it is neither
   * expired nor hidden.
   */
  lemma BrowseFilterIsCanView(majors: Majors, u: Upload, v: Viewer, now: int)
    requires Resolved(majors, u.audience)
    ensures SqlVisible(u, v, now, false) <==> CanView(u, v, now) && !Expired(u, now) && !u.hidden
  {
    ResolvedNeverHoldsTheGap(majors, u.audience, v);
    AudienceTestsDiffer(u.audience, v);
  }

  /** For any stored audience the two disagree exactly here. */
  lemma BrowseFilterDisagrees(u: Upload, v: Viewer, now: int)
    ensures (SqlVisible(u, v, now, false) <==> CanView(u, v, now) && !Expired(u, now) && !u.hidden)
        <==> (Privileged(u, v) || Expired(u, now) || u.hidden || (v.majorId.Some? && v.yearLevel.Some?)
            || ViewerEntry(v) !in u.audience)
  {
    AudienceTestsDiffer(u.audience, v);
  }

  ghost predicate AllResolved(majors: Majors, uploads: Uploads) {
    forall u :: u in uploads ==> Resolved(majors, uploads[u].audience)
  }

  /** Whatever the feed shows a viewer, and its ref can be used, signing grants to that viewer at that moment. */
  lemma FeedIsGranted(majors: Majors, uploads: Uploads, files: Files, q: Query, v: Viewer, now: int, f: FileId,
                      variant: Variant)
    requires Linked(uploads, files) && AllResolved(majors, uploads)
    requires f in FindAll(uploads, files, q, v, now)
    ensures SignFileAccess(uploads, files, f, v, now, variant) == ParseRef(ChosenRef(files[f], variant))
  {
    hide ParseRef, Resolved;
    var u := uploads[files[f].upload];
    if !OwnList(q, v) {
      BrowseFilterIsCanView(majors, u, v, now);
    }
  }

  /** For a file of an active upload, the detail page lists it exactly when signing grants it. */
  lemma DetailIsGranted(uploads: Uploads, files: Files, f: FileId, v: Viewer, now: int, variant: Variant)
    requires Linked(uploads, files) && f in files && uploads[files[f].upload].status == Active
    requires Usable(files[f], variant)
    ensures var shown := FindOne(uploads, files, files[f].upload, v, now);
      SignFileAccess(uploads, files, f, v, now, variant).Some? <==> shown.Some? && f in shown.value
  {
    hide ParseRef, CanView;
  }

  /** A detail page shows files of the upload asked for and nothing else, each of which signing grants. */
  lemma DetailShowsOnlyItsOwn(uploads: Uploads, files: Files, u: UploadId, v: Viewer, now: int, f: FileId,
                              variant: Variant)
    requires FindOne(uploads, files, u, v, now).Some? && f in FindOne(uploads, files, u, v, now).value
    ensures f in files && files[f].upload == u
    ensures SignFileAccess(uploads, files, f, v, now, variant) == ParseRef(ChosenRef(files[f], variant))
  {
    hide ParseRef, CanView;
  }

  /** What the browse feed shows of an upload, its detail page shows too. */
  lemma FeedIsInDetail(majors: Majors, uploads: Uploads, files: Files, q: Query, v: Viewer, now: int, f: FileId)
    requires Linked(uploads, files) && AllResolved(majors, uploads) && !OwnList(q, v)
    requires f in FindAll(uploads, files, q, v, now)
    ensures var shown := FindOne(uploads, files, files[f].upload, v, now); shown.Some? && f in shown.value
  {
    hide Resolved;
    BrowseFilterIsCanView(majors, uploads[files[f].upload], v, now);
  }

  /** Someone who is neither the uploader nor an admin is granted a file exactly when it is published, in a published
      upload that is neither hidden nor expired, open to everyone or to their cohort, and its ref can be used. */
  lemma StrangersAreGranted(uploads: Uploads, files: Files, f: FileId, v: Viewer, now: int, variant: Variant)
    requires Linked(uploads, files) && f in files && !Privileged(uploads[files[f].upload], v)
    ensures var u := uploads[files[f].upload];
      SignFileAccess(uploads, files, f, v, now, variant).Some? <==>
        && u.status == Active && !u.hidden && !Expired(u, now)
        && files[f].status == Active && !files[f].hidden
        && (u.audience == [] || (v.majorId.Some? && v.yearLevel.Some?
            && Entry(v.majorId.value, v.yearLevel.value) in u.audience))
        && Usable(files[f], variant)
  {
    hide ParseRef;
    AudienceTestsDiffer(uploads[files[f].upload].audience, v);
  }
}
