/** The teacher dashboard (pages/Dashboard.tsx): saving a session from its form and its list
    of pending videos, opening a session for editing, merging a scanned grade sheet into a
    class roster, and deleting students and classes. The database calls go through
    `Store.Database`; an upload is the `upload` oracle, asked with the position of the
    pending entry it resolves. */
module Dashboard {
  import opened Wrappers
  import opened Strings
  import opened Seqs
  import opened Types
  import opened Store
  import opened Gemini

  datatype VideoFile = VideoFile(name: string)

  /** An entry of the video list being authored: a pasted link or a file to upload. */
  datatype PendingVideo = Link(url: string) | Upload(file: VideoFile)

  /** The label the form shows for an entry, and names in the abort alert. */
  function Display(v: PendingVideo): string
  {
    match v
    case Link(u) => u
    case Upload(f) => f.name
  }

  /** The upload of entry `i` fails: it returns no URL or an empty one (both abort). */
  predicate Fails(pending: seq<PendingVideo>, upload: nat -> Option<string>, i: nat)
    requires i < |pending|
  {
    pending[i].Upload? && !Truthy(upload(i))
  }

  /** The first entry at or after `from` whose upload fails. */
  function FirstFailureFrom(pending: seq<PendingVideo>, upload: nat -> Option<string>, from: nat): (r: Option<nat>)
    ensures r.Some? ==> from <= r.value < |pending| && Fails(pending, upload, r.value)
    ensures r.Some? ==> forall j :: from <= j < r.value ==> !Fails(pending, upload, j)
    ensures r.None? ==> forall j :: from <= j < |pending| ==> !Fails(pending, upload, j)
    decreases |pending| - from
  {
    if from >= |pending| then None
    else if Fails(pending, upload, from) then Some(from)
    else FirstFailureFrom(pending, upload, from + 1)
  }

  function FirstFailure(pending: seq<PendingVideo>, upload: nat -> Option<string>): Option<nat>
  {
    FirstFailureFrom(pending, upload, 0)
  }

  /** The URL entry `i` resolves to: its link, or what its upload returned. */
  function ResolvedUrl(v: PendingVideo, uploaded: Option<string>): string
  {
    match v
    case Link(u) => u
    case Upload(_) => uploaded.GetOr("")
  }

  function ResolvedUrls(pending: seq<PendingVideo>, upload: nat -> Option<string>): (r: seq<string>)
    ensures |r| == |pending| && forall i :: 0 <= i < |pending| ==> r[i] == ResolvedUrl(pending[i], upload(i))
  {
    seq(|pending|, i requires 0 <= i < |pending| => ResolvedUrl(pending[i], upload(i)))
  }

  /** The positions among the first `n` entries that are files, in order: the uploads a
      resolution that reaches entry `n` has asked for. */
  function UploadPositions(pending: seq<PendingVideo>, n: nat): seq<nat>
    requires n <= |pending|
    decreases n
  {
    if n == 0 then [] else UploadPositions(pending, n - 1) + (if pending[n - 1].Upload? then [n - 1] else [])
  }

  /** The positions asked for are exactly the files among the first `n` entries, each once
      and in increasing order. */
  lemma {:induction false} UploadPositionsExact(pending: seq<PendingVideo>, n: nat)
    requires n <= |pending|
    ensures var r := UploadPositions(pending, n);
      (forall k :: 0 <= k < |r| ==> r[k] < n && pending[r[k]].Upload?) &&
      (forall i :: 0 <= i < n && pending[i].Upload? ==> i in r) &&
      (forall a, b :: 0 <= a < b < |r| ==> r[a] < r[b])
    decreases n
  {
    if n > 0 {
      var p := UploadPositions(pending, n - 1);
      var tail: seq<nat> := if pending[n - 1].Upload? then [n - 1] else [];
      UploadPositionsExact(pending, n - 1);
      assert UploadPositions(pending, n) == p + tail;
      assert forall k :: 0 <= k < |p| ==> UploadPositions(pending, n)[k] == p[k];
      assert forall k :: |p| <= k < |p| + |tail| ==> UploadPositions(pending, n)[k] == n - 1;
      assert forall i :: 0 <= i < n - 1 && pending[i].Upload? ==> i in p;
    }
  }

  datatype Resolution = Resolved(urls: seq<string>) | UploadFailed(index: nat, display: string)

  /** The resolution loop of `handleCreateSession`: entries are resolved strictly in order;
      the first failed upload stops it, so no later entry is uploaded. */
  method ResolvePending(pending: seq<PendingVideo>, upload: nat -> Option<string>)
    returns (r: Resolution, attempted: seq<nat>)
    ensures FirstFailure(pending, upload).None? ==>
      r == Resolved(ResolvedUrls(pending, upload)) && attempted == UploadPositions(pending, |pending|)
    ensures FirstFailure(pending, upload).Some? ==>
      var k := FirstFailure(pending, upload).value;
      r == UploadFailed(k, Display(pending[k])) && attempted == UploadPositions(pending, k + 1)
  {
    var urls: seq<string> := [];
    attempted := [];
    var i := 0;
    while i < |pending|
      invariant 0 <= i <= |pending|
      invariant |urls| == i && forall j :: 0 <= j < i ==> urls[j] == ResolvedUrl(pending[j], upload(j))
      invariant FirstFailure(pending, upload) == FirstFailureFrom(pending, upload, i)
      invariant attempted == UploadPositions(pending, i)
      decreases |pending| - i
    {
      if pending[i].Link? {
        urls := urls + [pending[i].url];
      } else {
        attempted := attempted + [i];
        var uploaded := upload(i);
        if !Truthy(uploaded) {
          assert Fails(pending, upload, i);
          assert attempted == UploadPositions(pending, i + 1);
          return UploadFailed(i, pending[i].file.name), attempted;
        }
        urls := urls + [uploaded.value];
      }
      i := i + 1;
    }
    assert urls == ResolvedUrls(pending, upload);
    assert FirstFailureFrom(pending, upload, i).None?;
    r := Resolved(urls);
  }

  /** Without a failure every file resolves to a non-empty URL, at its own position. */
  lemma ResolvedUploadsAreReal(pending: seq<PendingVideo>, upload: nat -> Option<string>)
    requires FirstFailure(pending, upload).None?
    ensures forall i :: 0 <= i < |pending| && pending[i].Upload? ==>
      upload(i).Some? && ResolvedUrls(pending, upload)[i] == upload(i).value != ""
  {
    var urls := ResolvedUrls(pending, upload);
    forall i | 0 <= i < |pending| && pending[i].Upload?
      ensures upload(i).Some? && urls[i] == upload(i).value != ""
    {
      assert !Fails(pending, upload, i);
      assert urls[i] == ResolvedUrl(pending[i], upload(i));
    }
  }

  /** A list of links only resolves to its links, asking for no upload. */
  lemma LinksResolveToThemselves(pending: seq<PendingVideo>, upload: nat -> Option<string>)
    requires forall i :: 0 <= i < |pending| ==> pending[i].Link?
    ensures FirstFailure(pending, upload).None?
    ensures forall i :: 0 <= i < |pending| ==> ResolvedUrls(pending, upload)[i] == pending[i].url
    ensures UploadPositions(pending, |pending|) == []
  {
    assert forall j :: 0 <= j < |pending| ==> !Fails(pending, upload, j);
    NoUploads(pending, |pending|);
  }

  lemma {:induction false} NoUploads(pending: seq<PendingVideo>, n: nat)
    requires n <= |pending| && forall i :: 0 <= i < |pending| ==> pending[i].Link?
    ensures UploadPositions(pending, n) == []
    decreases n
  {
    if n > 0 {
      NoUploads(pending, n - 1);
    }
  }

  /** The session form (`newSession`, a `Partial<Session>`). */
  datatype SessionForm = SessionForm(
    id: Option<string>,
    classId: Option<string>,
    title: Option<string>,
    description: Option<string>,
    date: Option<string>,
    pdfUrl: Option<string>,
    aiNotes: Option<string>,
    isHighlight: Option<bool>)

  /** A required field of the form is missing (or empty). */
  predicate MissingField(form: SessionForm)
  {
    !Truthy(form.title) || !Truthy(form.classId) || !Truthy(form.date)
  }

  /** The object `handleCreateSession` hands to `saveSession`. */
  function DraftOf(form: SessionForm, urls: seq<string>): (d: SessionDraft)
    ensures d.videoUrls == Some(urls) && d.videoUrl.None?
    ensures d.description == Some(OrEmpty(form.description)) && d.pdfUrl == Some(OrEmpty(form.pdfUrl))
    ensures d.aiNotes == Some(OrEmpty(form.aiNotes))
    ensures d.isHighlight == Some(form.isHighlight == Some(true))
    ensures Truthy(d.id) <==> Truthy(form.id)
    ensures Truthy(form.id) ==> d.id == form.id
    ensures d.classId == form.classId && d.title == form.title && d.date == form.date
  {
    SessionDraft(
      if Truthy(form.id) then form.id else None,
      form.classId, form.title, Some(OrEmpty(form.description)), None, Some(urls),
      Some(OrEmpty(form.pdfUrl)), form.date, Some(OrEmpty(form.aiNotes)),
      Some(form.isHighlight == Some(true)))
  }

  /** The local list after a save: an edit replaces the session with the same key where it
      stands, a creation puts the new session first. */
  function ApplySaved(sessions: seq<Session>, editing: bool, saved: Session): (r: seq<Session>)
    ensures editing ==> |r| == |sessions|
    ensures editing ==> forall i :: 0 <= i < |sessions| ==> r[i] == if sessions[i].id == saved.id then saved else sessions[i]
    ensures !editing ==> |r| == |sessions| + 1 && r[0] == saved && r[1..] == sessions
  {
    if editing then seq(|sessions|, i requires 0 <= i < |sessions| => if sessions[i].id == saved.id then saved else sessions[i])
    else [saved] + sessions
  }

  /** An edit changes no session but the edited one. */
  lemma ApplyEditKeepsOthers(sessions: seq<Session>, saved: Session, other: Session)
    requires other in sessions && other.id != saved.id
    ensures other in ApplySaved(sessions, true, saved)
  {
    var r := ApplySaved(sessions, true, saved);
    var k :| 0 <= k < |sessions| && sessions[k] == other;
    assert r[k] == other;
  }

  /** How `handleCreateSession` ends. */
  datatype SaveOutcome =
    | MissingFields
    | NoVideos
    | UploadAborted(display: string)
    | SaveFailed
    | Saved(session: Session)

  /** `handleCreateSession`: validation, resolution of the pending videos in order, one
      `saveSession`, and the local list update. Validation failures and a failed upload
      return before `saveSession`, leaving the database and the list as they were. */
  method HandleCreateSession(db: Database, form: SessionForm, pending: seq<PendingVideo>,
                             upload: nat -> Option<string>, faults: SaveFaults, newId: string,
                             sessions: seq<Session>)
    returns (outcome: SaveOutcome, uploads: seq<nat>, list: seq<Session>)
    requires db.Valid()
    modifies db`sessionRows, db`videoRows
    ensures db.Valid()
    ensures MissingField(form) ==>
      outcome == MissingFields && uploads == [] && list == sessions && unchanged(db)
    ensures !MissingField(form) && |pending| == 0 ==>
      outcome == NoVideos && uploads == [] && list == sessions && unchanged(db)
    ensures !MissingField(form) && |pending| > 0 && FirstFailure(pending, upload).Some? ==>
      var k := FirstFailure(pending, upload).value;
      outcome == UploadAborted(Display(pending[k])) && uploads == UploadPositions(pending, k + 1) &&
      list == sessions && unchanged(db)
    ensures !MissingField(form) && |pending| > 0 && FirstFailure(pending, upload).None? ==>
      var d := DraftOf(form, ResolvedUrls(pending, upload));
      var (res, rows) := SaveParent(old(db.sessionRows), d, faults, newId);
      uploads == UploadPositions(pending, |pending|) && db.sessionRows == rows &&
      if res.Ok? && res.value.Some? then
        var s := MapSessionFromDB(res.value.value).(videoUrls := Some(ReturnedUrls(d)));
        outcome == Saved(s) && list == ApplySaved(sessions, Truthy(form.id), s) &&
        db.videoRows == ChildRowsAfter(old(db.videoRows), d, res.value.value.id, faults)
      else
        outcome == SaveFailed && list == sessions && db.videoRows == old(db.videoRows)
  {
    if MissingField(form) {
      return MissingFields, [], sessions;
    }
    if |pending| == 0 {
      return NoVideos, [], sessions;
    }
    var resolution;
    resolution, uploads := ResolvePending(pending, upload);
    if resolution.UploadFailed? {
      return UploadAborted(resolution.display), uploads, sessions;
    }
    var d := DraftOf(form, resolution.urls);
    var saved, _ := db.SaveSession(d, faults, newId);
    if saved.None? {
      return SaveFailed, uploads, sessions;
    }
    outcome := Saved(saved.value);
    list := ApplySaved(sessions, Truthy(form.id), saved.value);
  }

  /** `handleOpenSessionModal` for an existing session: the form takes the session's fields
      and every stored URL becomes a link entry, in order. */
  function OpenForEdit(s: Session): (r: (SessionForm, seq<PendingVideo>))
    ensures r.0.id == Some(s.id) && r.0.classId == Some(s.classId) && r.0.title == Some(s.title)
    ensures r.0.date == Some(s.date) && r.0.isHighlight == Some(s.isHighlight)
    ensures r.0.description == Some(s.description) && r.0.pdfUrl == s.pdfUrl && r.0.aiNotes == s.aiNotes
    ensures |r.1| == |s.videoUrls.GetOr([])|
    ensures forall i :: 0 <= i < |r.1| ==> r.1[i] == Link(s.videoUrls.GetOr([])[i])
  {
    var urls := s.videoUrls.GetOr([]);
    (SessionForm(Some(s.id), Some(s.classId), Some(s.title), Some(s.description), Some(s.date),
                 s.pdfUrl, s.aiNotes, Some(s.isHighlight)),
     seq(|urls|, i requires 0 <= i < |urls| => Link(urls[i])))
  }

  /** `handleOpenSessionModal` for a new session: the selected class, today's date, not a
      highlight, and no video yet. */
  function OpenForCreate(selectedClassId: Option<string>, today: string): (r: (SessionForm, seq<PendingVideo>))
    ensures r.1 == [] && r.0.id.None? && r.0.date == Some(today) && r.0.isHighlight == Some(false)
    ensures Truthy(selectedClassId) ==> r.0.classId == selectedClassId
    ensures !Truthy(selectedClassId) ==> r.0.classId.None?
  {
    (SessionForm(None, if Truthy(selectedClassId) then selectedClassId else None, None, None,
                 Some(today), None, None, Some(false)), [])
  }

  /** Re-saving an opened session unchanged asks for no upload and sends its stored list
      back as it is, as an update of the same key that keeps the description, the PDF link
      and the notes. */
  lemma ResaveNeedsNoUpload(s: Session, upload: nat -> Option<string>)
    ensures var (form, pending) := OpenForEdit(s);
      FirstFailure(pending, upload).None? && UploadPositions(pending, |pending|) == [] &&
      ResolvedUrls(pending, upload) == s.videoUrls.GetOr([]) &&
      (s.id != "" ==> DraftOf(form, ResolvedUrls(pending, upload)).id == Some(s.id)) &&
      DraftOf(form, ResolvedUrls(pending, upload)).description == Some(s.description) &&
      DraftOf(form, ResolvedUrls(pending, upload)).pdfUrl == Some(OrEmpty(s.pdfUrl)) &&
      DraftOf(form, ResolvedUrls(pending, upload)).aiNotes == Some(OrEmpty(s.aiNotes))
  {
    var (form, pending) := OpenForEdit(s);
    LinksResolveToThemselves(pending, upload);
  }

  /** A session with no stored list cannot be re-saved without adding a video. */
  lemma ResaveWithoutListBlocked(s: Session)
    requires s.videoUrls.None? || s.videoUrls == Some([])
    ensures |OpenForEdit(s).1| == 0
  {
  }

  // ---------------------------------------------------------------------------------------
  // Grade merge

  /** `name.toLowerCase().trim()`: the form in which roster and sheet names are compared. */
  function Normalize(name: string): string
  {
    Trim(ToLower(name))
  }

  /** Two names compare equal when their normal forms agree. */
  predicate SameName(a: string, b: string)
  {
    Normalize(a) == Normalize(b)
  }

  function NameKeys(roster: seq<Student>): (r: seq<string>)
    ensures |r| == |roster| && forall i :: 0 <= i < |roster| ==> r[i] == Normalize(roster[i].name)
  {
    seq(|roster|, i requires 0 <= i < |roster| => Normalize(roster[i].name))
  }

  /** The first position at or after `from` that holds `key`. */
  function MatchFrom(keys: seq<string>, key: string, from: nat): (r: Option<nat>)
    ensures r.Some? ==> from <= r.value < |keys| && keys[r.value] == key
    ensures r.Some? ==> forall j :: from <= j < r.value ==> keys[j] != key
    ensures r.None? ==> forall j :: from <= j < |keys| ==> keys[j] != key
    decreases |keys| - from
  {
    if from >= |keys| then None
    else if keys[from] == key then Some(from)
    else MatchFrom(keys, key, from + 1)
  }

  /** The position of the first roster student whose name compares equal to `name`. */
  function MatchIndex(roster: seq<Student>, name: string): (r: Option<nat>)
    ensures r.Some? ==> r.value < |roster| && SameName(roster[r.value].name, name)
    ensures r.Some? ==> forall j :: 0 <= j < r.value ==> !SameName(roster[j].name, name)
    ensures r.None? ==> forall j :: 0 <= j < |roster| ==> !SameName(roster[j].name, name)
  {
    MatchFrom(NameKeys(roster), Normalize(name), 0)
  }

  /** `students.find(...)`: the student at the first matching position. */
  function FindMatch(roster: seq<Student>, name: string): (r: Option<Student>)
    ensures r.Some? <==> MatchIndex(roster, name).Some?
    ensures r.Some? ==> r.value == roster[MatchIndex(roster, name).value]
  {
    match MatchIndex(roster, name)
    case None => None
    case Some(k) => Some(roster[k])
  }

  /** A sheet value counts only when positive; otherwise the roster's value is kept, and a
      student that is not on the roster gets 0. */
  function MergeNote(scanned: int, existing: Option<int>): (r: int)
    ensures scanned > 0 ==> r == scanned
    ensures scanned <= 0 && existing.Some? ==> r == existing.value
    ensures scanned <= 0 && existing.None? ==> r == 0
  {
    if scanned > 0 then scanned else existing.GetOr(0)
  }

  /** Merging is idempotent: scanning the same sheet again after a merge changes no grade. */
  lemma MergeNoteIdempotent(scanned: int, existing: Option<int>)
    ensures MergeNote(scanned, Some(MergeNote(scanned, existing))) == MergeNote(scanned, existing)
  {
  }

  function NoteOf(match_: Option<Student>, k: nat): Option<int>
    requires 1 <= k <= 3
  {
    match match_
    case None => None
    case Some(s) => Some(if k == 1 then s.note1 else if k == 2 then s.note2 else s.note3)
  }

  /** The student sent for one sheet row: the sheet's name verbatim, the merged grades, and
      the matched student's key when there is a match. */
  function MergePayload(classId: string, roster: seq<Student>, scan: ScannedRow): (p: StudentDraft)
    ensures p.classId == Some(classId) && p.name == Some(scan.name)
    ensures p.id.Some? <==> FindMatch(roster, scan.name).Some?
    ensures p.id.Some? ==> p.id.value == FindMatch(roster, scan.name).value.id
  {
    var m := FindMatch(roster, scan.name);
    StudentDraft(
      if m.Some? then Some(m.value.id) else None,
      Some(classId), Some(scan.name),
      Some(MergeNote(scan.note1, NoteOf(m, 1))),
      Some(MergeNote(scan.note2, NoteOf(m, 2))),
      Some(MergeNote(scan.note3, NoteOf(m, 3))))
  }

  /** The payloads of the whole sheet, in sheet order, all matched against the same roster. */
  function MergePlan(classId: string, roster: seq<Student>, scans: seq<ScannedRow>): (r: seq<StudentDraft>)
    ensures |r| == |scans| && forall i :: 0 <= i < |scans| ==> r[i] == MergePayload(classId, roster, scans[i])
  {
    seq(|scans|, i requires 0 <= i < |scans| => MergePayload(classId, roster, scans[i]))
  }

  /** The `students` table after the upserts of `payloads`, one after the other; upsert `i`
      comes back with `faults(i)` and inserts under `newIds(i)`. */
  function ApplyUpserts(rows: seq<StudentRow>, payloads: seq<StudentDraft>,
                        faults: nat -> Option<DbError>, newIds: nat -> string): seq<StudentRow>
    decreases |payloads|
  {
    if |payloads| == 0 then rows
    else
      var n := |payloads| - 1;
      UpsertStudent(ApplyUpserts(rows, payloads[..n], faults, newIds), StudentPayloadOf(payloads[n]), faults(n), newIds(n)).1
  }

  /** `handleMergeScannedData`: nothing without a selected class; otherwise one
      `saveStudent` per sheet row in sheet order (a failed one does not stop the others),
      then the roster is fetched again. */
  method MergeScannedData(db: Database, selectedClassId: Option<string>, roster: seq<Student>,
                          scans: seq<ScannedRow>, faults: nat -> Option<DbError>,
                          newIds: nat -> string, fetchFault: Option<DbError>)
    returns (sent: seq<StudentDraft>, refreshed: Option<seq<Student>>)
    requires db.Valid()
    modifies db`studentRows
    ensures db.Valid()
    ensures !Truthy(selectedClassId) ==> sent == [] && refreshed.None? && unchanged(db)
    ensures Truthy(selectedClassId) ==>
      var classId := selectedClassId.value;
      sent == MergePlan(classId, roster, scans) &&
      db.studentRows == ApplyUpserts(old(db.studentRows), sent, faults, newIds) &&
      refreshed == Some(if fetchFault.None? then MapStudents(StudentsOfClass(db.studentRows, classId)) else [])
  {
    if !Truthy(selectedClassId) {
      return [], None;
    }
    var classId := selectedClassId.value;
    ghost var plan := MergePlan(classId, roster, scans);
    sent := [];
    var i := 0;
    while i < |scans|
      invariant 0 <= i <= |scans|
      invariant db.Valid()
      invariant sent == plan[..i]
      invariant db.studentRows == ApplyUpserts(old(db.studentRows), sent, faults, newIds)
    {
      var payload := MergePayload(classId, roster, scans[i]);
      ghost var before := db.studentRows;
      var _ := db.SaveStudent(payload, faults(i), newIds(i));
      assert db.studentRows == UpsertStudent(before, StudentPayloadOf(payload), faults(i), newIds(|sent|)).1;
      ApplyUpsertsSnoc(old(db.studentRows), sent, payload, faults, newIds);
      assert payload == plan[i];
      PrefixSnoc(plan, i);
      sent := sent + [payload];
      i := i + 1;
    }
    assert plan[..i] == plan;
    var students, _ := db.GetStudents(classId, fetchFault);
    refreshed := Some(students);
  }

  lemma ApplyUpsertsSnoc(rows: seq<StudentRow>, payloads: seq<StudentDraft>, p: StudentDraft,
                         faults: nat -> Option<DbError>, newIds: nat -> string)
    ensures ApplyUpserts(rows, payloads + [p], faults, newIds) ==
      UpsertStudent(ApplyUpserts(rows, payloads, faults, newIds), StudentPayloadOf(p), faults(|payloads|), newIds(|payloads|)).1
  {
    assert (payloads + [p])[..|payloads|] == payloads;
  }

  /** A sheet row with no match on the roster is sent as a new student with the sheet's
      (non-negative) grades as they are. */
  lemma UnmatchedRowIsNew(classId: string, roster: seq<Student>, scan: ScannedRow)
    requires FindMatch(roster, scan.name).None?
    requires scan.note1 >= 0 && scan.note2 >= 0 && scan.note3 >= 0
    ensures var p := MergePayload(classId, roster, scan);
      p.id.None? && p.note1 == Some(scan.note1) && p.note2 == Some(scan.note2) && p.note3 == Some(scan.note3)
  {
    var m := FindMatch(roster, scan.name);
    assert NoteOf(m, 1) == None && NoteOf(m, 2) == None && NoteOf(m, 3) == None;
  }

  /** A matched student keeps every grade the sheet leaves at 0 and takes every positive one. */
  lemma MatchedRowMerges(classId: string, roster: seq<Student>, scan: ScannedRow, s: Student)
    requires FindMatch(roster, scan.name) == Some(s)
    ensures var p := MergePayload(classId, roster, scan);
      p.id == Some(s.id) &&
      p.note1 == Some(if scan.note1 > 0 then scan.note1 else s.note1) &&
      p.note2 == Some(if scan.note2 > 0 then scan.note2 else s.note2) &&
      p.note3 == Some(if scan.note3 > 0 then scan.note3 else s.note3)
  {
  }

  /** Matching ignores case and surrounding blanks ... */
  lemma MatchIgnoresCaseAndBlanks(s: Student)
    requires s.name == "Jane Doe"
    ensures FindMatch([s], "  jane DOE ").Some?
  {
    NormalizeJane();
    NormalizePadded();
    assert SameName(s.name, "  jane DOE ");
  }

  /** ... and nothing more. */
  lemma MatchNeedsSameLetters(s: Student)
    requires s.name == "Jane Doe"
    ensures FindMatch([s], "J. Doe").None?
  {
    NormalizeJane();
    NormalizeInitial();
    assert |Normalize("Jane Doe")| != |Normalize("J. Doe")|;
    assert !SameName(s.name, "J. Doe");
  }

  /** The comparison depends on the sheet name only through its normal form: re-casing or
      re-padding it changes no match. */
  lemma MatchUsesNormalForm(roster: seq<Student>, name: string)
    ensures MatchIndex(roster, name) == MatchIndex(roster, Normalize(name))
  {
    NormalizeIdempotent(name);
  }

  /** A normal form is its own normal form. */
  lemma NormalizeIdempotent(name: string)
    ensures Normalize(Normalize(name)) == Normalize(name)
  {
    var t := Normalize(name);
    assert ToLower(t) == t by {
      var k := TrimSlice(ToLower(name));
      LowerSliceFixed(name, k, |t|);
    }
    TrimTrimmed(t);
  }

  /** A slice of a lower-cased string is already lower case. */
  lemma LowerSliceFixed(name: string, k: nat, n: nat)
    requires k + n <= |name|
    ensures ToLower(ToLower(name)[k..k + n]) == ToLower(name)[k..k + n]
  {
    var t := ToLower(name)[k..k + n];
    forall i | 0 <= i < n
      ensures ToLower(t)[i] == t[i]
    {
      assert t[i] == LowerChar(name[k + i]);
    }
  }

  /** Trimming a trimmed string changes nothing. */
  lemma TrimTrimmed(t: string)
    requires |t| > 0 ==> !IsSpace(t[0]) && !IsSpace(t[|t| - 1])
    ensures Trim(t) == t
  {
    if |t| > 0 {
      TrimPadded("", t, "");
      assert "" + t + "" == t;
    }
  }

  lemma NormalizeJane()
    ensures Normalize("Jane Doe") == "jane doe"
  {
    assert ToLower("Jane Doe") == "jane doe";
    TrimIdentity("jane doe");
  }

  lemma NormalizePadded()
    ensures Normalize("  jane DOE ") == "jane doe"
  {
    assert ToLower("  jane DOE ") == "  " + "jane doe" + " ";
    TrimPadded("  ", "jane doe", " ");
  }

  lemma NormalizeInitial()
    ensures Normalize("J. Doe") == "j. doe"
  {
    assert ToLower("J. Doe") == "j. doe";
    TrimIdentity("j. doe");
  }

  /** A roster row that was added on the page and never saved carries a `temp-` key: a sheet
      row matching it is sent without a key, so the database inserts a new student. */
  lemma TempMatchInserts(classId: string, roster: seq<Student>, scan: ScannedRow, s: Student)
    requires FindMatch(roster, scan.name) == Some(s) && StartsWith(s.id, "temp-")
    ensures StudentPayloadOf(MergePayload(classId, roster, scan)).id.None?
  {
  }

  // ---------------------------------------------------------------------------------------
  // Deletes

  function OtherStudent(id: string): Student -> bool
  {
    (s: Student) => s.id != id
  }

  /** `students.filter(s => s.id !== id)`: the other students, as often as listed and in
      their order. */
  function RemoveStudent(students: seq<Student>, id: string): (r: seq<Student>)
    ensures forall s :: s in r <==> s in students && s.id != id
    ensures forall s :: multiset(r)[s] == if s.id != id then multiset(students)[s] else 0
    ensures IsSubseq(r, students)
    ensures |r| <= |students|
  {
    FilterSubseq(students, OtherStudent(id));
    Filter(students, OtherStudent(id))
  }

  /** `handleDeleteStudent`: a `temp-` row exists only on the page and is dropped there
      without a call; any other row is dropped when the delete succeeds. */
  method HandleDeleteStudent(db: Database, students: seq<Student>, id: string, fault: Option<DbError>)
    returns (list: seq<Student>, called: bool)
    requires db.Valid()
    modifies db`studentRows
    ensures db.Valid()
    ensures StartsWith(id, "temp-") ==> !called && list == RemoveStudent(students, id) && unchanged(db)
    ensures !StartsWith(id, "temp-") ==> (called &&
      list == (if fault.None? then RemoveStudent(students, id) else students) &&
      db.studentRows == (if fault.None? then StudentsWithout(old(db.studentRows), id) else old(db.studentRows)))
  {
    if StartsWith(id, "temp-") {
      return RemoveStudent(students, id), false;
    }
    var ok := db.DeleteStudent(id, fault);
    called := true;
    list := if ok then RemoveStudent(students, id) else students;
  }

  function OtherClass(id: string): ClassGroup -> bool
  {
    (c: ClassGroup) => c.id != id
  }

  function OutsideClass(id: string): Session -> bool
  {
    (s: Session) => s.classId != id
  }

  /** `classes.filter(c => c.id !== id)`: the other classes, as often as listed and in their
      order. */
  function RemoveClass(classes: seq<ClassGroup>, id: string): (r: seq<ClassGroup>)
    ensures forall c :: c in r <==> c in classes && c.id != id
    ensures forall c :: multiset(r)[c] == if c.id != id then multiset(classes)[c] else 0
    ensures IsSubseq(r, classes)
  {
    FilterSubseq(classes, OtherClass(id));
    Filter(classes, OtherClass(id))
  }

  /** `sessions.filter(s => s.classId !== id)`: the sessions of the other classes, as often as
      listed and in their order. */
  function SessionsNotOfClass(sessions: seq<Session>, id: string): (r: seq<Session>)
    ensures forall s :: s in r <==> s in sessions && s.classId != id
    ensures forall s :: multiset(r)[s] == if s.classId != id then multiset(sessions)[s] else 0
    ensures IsSubseq(r, sessions)
  {
    FilterSubseq(sessions, OutsideClass(id));
    Filter(sessions, OutsideClass(id))
  }

  /** `handleDeleteClass`: when the delete succeeds the class and its sessions leave the
      page's lists; otherwise both stay as they were. */
  method HandleDeleteClass(db: Database, classes: seq<ClassGroup>, sessions: seq<Session>,
                           id: string, fault: Option<DbError>)
    returns (classList: seq<ClassGroup>, sessionList: seq<Session>)
    modifies db`classRows
    ensures fault.None? ==>
      classList == RemoveClass(classes, id) && sessionList == SessionsNotOfClass(sessions, id) &&
      db.classRows == ClassesWithout(old(db.classRows), id)
    ensures fault.Some? ==> classList == classes && sessionList == sessions && unchanged(db)
  {
    var ok := db.DeleteClass(id, fault);
    if ok {
      classList, sessionList := RemoveClass(classes, id), SessionsNotOfClass(sessions, id);
    } else {
      classList, sessionList := classes, sessions;
    }
  }
}
