/** Which uploads hold a document type their department offers: assertDocType, call by call and over whole runs. */
module DocumentTypes {
  import opened Prelude
  import opened YearLevels
  import opened DocumentVisibility
  import opened DocumentReview

  /** A department and a language course, in either order. */
  predicate Crosses(majors: Majors, was: MajorId, becomes: MajorId) {
    was in majors && becomes in majors && (IsLanguageMajor(majors[was]) <==> !IsLanguageMajor(majors[becomes]))
  }

  predicate TypeSuits(majors: Majors, row: Upload) {
    row.majorId in majors && Suits(majors[row.majorId], row.docType)
  }

  /** An upload starts with a type its department offers, refused halfway or not. */
  lemma NewUploadSuits(s: State, u: UploadId, user: UserId, meta: Meta, batch: Batch)
    requires Enough(batch) && u !in s.uploads
    ensures var t := UploadManyCall(s, u, user, meta, batch).0; u in t.uploads ==> TypeSuits(t.majors, t.uploads[u])
  {
    hide Resolve, Suits, Save;
    if meta.majorId in s.majors {
      var resolved := Resolve(s.majors, s.majors[meta.majorId], meta.audience);
      if resolved.Some? {
        SaveLeavesUploads(Created(s, u, NewUpload(user, meta, resolved.value)), u, user, batch, Active);
      }
    }
  }

  /**
   * A successful edit leaves a suitable type exactly when it sends one, when both kinds of department offer the one
   * there, or when it was suitable and the upload stays among departments or among language courses, or was not and
   * the upload crosses over.
   */
  lemma DocTypeSuitsExactly(s: State, u: UploadId, user: UserId, patch: Patch)
    requires Inv(s) && UpdateCall(s, u, user, patch).1 == Done
    ensures var was, t := s.uploads[u], UpdateCall(s, u, user, patch).0;
      TypeSuits(t.majors, t.uploads[u]) <==>
        || patch.docType.Some? || Shared(was.docType)
        || (TypeSuits(s.majors, was) <==> !Crosses(s.majors, was.majorId, OrElse(patch.majorId, was.majorId)))
  {
    AudienceOf(s, u);
    hide Inv, Resolve, Shared, ForLanguages, IsLanguageMajor;
  }

  // ─── Whole runs ──────────────────────────────────────────────────────────

  /** Uploads that crossed over an odd number of times since their type was last sent. */
  ghost function Strayed(s: State, calls: seq<Call>): set<UploadId>
    requires FreshRun(s, calls)
  {
    if calls == [] then {}
    else
      var init, call := calls[..|calls| - 1], calls[|calls| - 1];
      StrayedBy(Run(s, init), call, Strayed(s, init))
  }

  function StrayedBy(s: State, call: Call, before: set<UploadId>): set<UploadId> {
    match call
    case Update(u, user, patch) =>
      if UpdateCall(s, u, user, patch).1 != Done then before
      else if patch.docType.Some? then before - {u}
      else if !Crosses(s.majors, s.uploads[u].majorId, OrElse(patch.majorId, s.uploads[u].majorId)) then before
      else if u in before then before - {u} else before + {u}
    case _ => before
  }

  lemma SavingKeepsTypes(s: State, call: Call, v: UploadId)
    requires Fresh(s, call) && (call.UploadMany? || call.AddFiles?)
    ensures var t := After(s, call);
      && t.majors == s.majors && s.uploadIds <= t.uploadIds
      && (v in t.uploads && (call.UploadMany? ==> v != call.upload) ==>
            && v in s.uploads
            && (t.uploads[v].majorId, t.uploads[v].docType) == (s.uploads[v].majorId, s.uploads[v].docType))
  {
    hide Resolve, Suits, Save;
    if call.UploadMany? && call.meta.majorId in s.majors {
      var resolved := Resolve(s.majors, s.majors[call.meta.majorId], call.meta.audience);
      if resolved.Some? {
        var created := Created(s, call.upload, NewUpload(call.user, call.meta, resolved.value));
        SaveLeavesUploads(created, call.upload, call.user, call.batch, Active);
      }
    } else if call.AddFiles? && call.upload in s.uploads {
      SaveLeavesUploads(s, call.upload, call.user, call.batch, ArrivalStatus(s.uploads[call.upload]));
    }
  }

  lemma OthersKeepTypes(s: State, call: Call, v: UploadId)
    requires Fresh(s, call) && !call.Update? && v in After(s, call).uploads && (call.UploadMany? ==> v != call.upload)
    ensures v in s.uploads
    ensures var was, becomes := s.uploads[v], After(s, call).uploads[v];
      (becomes.majorId, becomes.docType) == (was.majorId, was.docType)
  {
    hide Resolve, Suits, Save, FilesOf, Unhidden, FreshRows;
    if call.UploadMany? || call.AddFiles? {
      hide *;
      SavingKeepsTypes(s, call, v);
    }
  }

  lemma MajorsStay(s: State, call: Call)
    requires Fresh(s, call)
    ensures After(s, call).majors == s.majors && s.uploadIds <= After(s, call).uploadIds
  {
    hide Resolve, Suits, Save, FilesOf, Unhidden, FreshRows;
    if call.UploadMany? || call.AddFiles? {
      SavingKeepsTypes(s, call, call.upload);
    }
  }

  ghost predicate TypeInv(s: State, strayed: set<UploadId>) {
    && strayed <= s.uploadIds
    && forall u :: u in s.uploads ==>
         (TypeSuits(s.majors, s.uploads[u]) <==> Shared(s.uploads[u].docType) || u !in strayed)
  }

  lemma TypeStepOne(s: State, call: Call, strayed: set<UploadId>, v: UploadId)
    requires Inv(s) && Fresh(s, call) && TypeInv(s, strayed) && v in After(s, call).uploads
    ensures var row := After(s, call).uploads[v];
      TypeSuits(s.majors, row) <==> Shared(row.docType) || v !in StrayedBy(s, call, strayed)
  {
    MajorsStay(s, call);
    assert UploadInv(s, v);
    if call.UploadMany? && v == call.upload {
      NewUploadSuits(s, v, call.user, call.meta, call.batch);
    } else if call.Update? {
      hide Inv, Resolve, Crosses, TypeSuits, Suits, Shared;
      if UpdateCall(s, call.upload, call.user, call.patch).1 == Done {
        DocTypeSuitsExactly(s, call.upload, call.user, call.patch);
      }
    } else {
      hide Inv, After;
      OthersKeepTypes(s, call, v);
    }
  }

  lemma TypeStep(s: State, call: Call, strayed: set<UploadId>)
    requires Inv(s) && Fresh(s, call) && TypeInv(s, strayed)
    ensures TypeInv(After(s, call), StrayedBy(s, call, strayed))
  {
    MajorsStay(s, call);
    var next := After(s, call);
    assert StrayedBy(s, call, strayed) <= s.uploadIds by {
      if call.Update? && call.upload in s.uploads {
        AudienceOf(s, call.upload);
      }
    }
    hide Inv, Fresh, After, TypeSuits, Shared, StrayedBy;
    forall u | u in next.uploads
      ensures TypeSuits(next.majors, next.uploads[u]) <==>
        Shared(next.uploads[u].docType) || u !in StrayedBy(s, call, strayed)
    {
      TypeStepOne(s, call, strayed, u);
    }
  }

  lemma {:induction false} TypesHold(now: int, majors: Majors, calls: seq<Call>)
    requires FreshRun(Init(now, majors), calls)
    ensures TypeInv(Run(Init(now, majors), calls), Strayed(Init(now, majors), calls))
  {
    if calls != [] {
      var s, init, call := Init(now, majors), calls[..|calls| - 1], calls[|calls| - 1];
      TypesHold(now, majors, init);
      InitInv(now, majors);
      RunKeepsInv(s, init);
      hide Inv, TypeInv, StrayedBy, Fresh, After;
      TypeStep(Run(s, init), call, Strayed(s, init));
    }
  }

  /**
   * In every reachable state an upload's type is one its department does not offer exactly when only one kind of
   * department offers it and the upload crossed over an odd number of times since the type was last sent.
   */
  lemma UnsuitedUploadsExactly(now: int, majors: Majors, calls: seq<Call>, u: UploadId)
    requires FreshRun(Init(now, majors), calls) && u in Run(Init(now, majors), calls).uploads
    ensures var row := Run(Init(now, majors), calls).uploads[u];
      !TypeSuits(majors, row) <==> !Shared(row.docType) && u in Strayed(Init(now, majors), calls)
  {
    TypesHold(now, majors, calls);
    RunKeepsMajors(Init(now, majors), calls);
  }

  lemma {:induction false} RunKeepsMajors(s: State, calls: seq<Call>)
    requires FreshRun(s, calls)
    ensures Run(s, calls).majors == s.majors
  {
    if calls != [] {
      hide Fresh, After;
      RunKeepsMajors(s, calls[..|calls| - 1]);
      MajorsStay(Run(s, calls[..|calls| - 1]), calls[|calls| - 1]);
    }
  }

  // ─── A lost type ─────────────────────────────────────────────────────────

  const TWO_MAJORS := Init(0, map["gic" := "GIC", "dfl" := "DFL"])
  const NOTES := UploadMany(
    0, 7, Meta("gic", Note, [], None), Batch([], [], [Sent(0, "a", None, true)]))
  const MOVED := Update(0, 7, Patch(Some("dfl"), None, None, None))

  lemma NotesLand()
    ensures Fresh(TWO_MAJORS, NOTES)
    ensures var s := After(TWO_MAJORS, NOTES);
      && s.majors == TWO_MAJORS.majors && s.now == 0 && s.uploads == map[0 := NewUpload(7, NOTES.meta, [])]
  {
    assert Lower("GIC") == "gic";
    assert Landing(NOTES.batch.direct) == NOTES.batch.direct;
  }

  lemma NotesMove(s: State)
    requires s.majors == TWO_MAJORS.majors && s.uploads == map[0 := NewUpload(7, NOTES.meta, [])]
    ensures var (t, o) := UpdateCall(s, 0, 7, MOVED.patch);
      && o == Done && t.majors == s.majors && 0 in t.uploads
      && t.uploads[0].majorId == "dfl" && t.uploads[0].docType == Note && !TypeSuits(t.majors, t.uploads[0])
  {
    assert Lower("GIC") == "gic" && Lower("DFL") == "dfl";
    assert "gic"[0] != "dfl"[0];
  }

  lemma TwoCalls(s: State, first: Call, second: Call)
    requires Fresh(s, first) && Fresh(After(s, first), second)
    ensures FreshRun(s, [first, second]) && Run(s, [first, second]) == After(After(s, first), second)
  {
    hide Fresh, After;
    assert [first, second][..1] == [first] && [first][..0] == [];
    assert FreshRun(s, [first]) && Run(s, [first]) == After(s, first);
  }

  /** For instance lecture notes moved to the language department. */
  lemma DocTypeIsLost()
    ensures FreshRun(TWO_MAJORS, [NOTES, MOVED])
    ensures var s := Run(TWO_MAJORS, [NOTES, MOVED]);
      && 0 in s.uploads && s.uploads[0].majorId == "dfl" && s.uploads[0].docType == Note
      && !TypeSuits(s.majors, s.uploads[0])
  {
    NotesLand();
    var s := After(TWO_MAJORS, NOTES);
    assert Fresh(s, MOVED) && After(s, MOVED) == UpdateCall(s, 0, 7, MOVED.patch).0;
    hide *;
    NotesMove(s);
    TwoCalls(TWO_MAJORS, NOTES, MOVED);
  }
}
