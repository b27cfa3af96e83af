/** The data-access layer (services/store.ts): the mappers from database rows to the portal's
    records, the read-path merge of a session's primary video with its `session_videos` rows,
    and the writes of sessions, students and activities. The database is an in-memory object
    with one sequence per table; every call that goes over the network takes the error it
    may come back with (`fault`), and every insert takes the key the database generates
    (`newId`): an insert whose key is already taken fails, as a primary-key violation does. */
module Store {
  import opened Wrappers
  import opened Strings
  import opened Seqs
  import opened Types

  datatype DbError = DbError(code: string, message: string)

  /** What a call leaves on the console or in an alert box. */
  datatype Notice = Warned(text: string) | Logged(text: string, error: DbError) | Alerted(text: string)

  /** Table rows; a column that can hold NULL is an `Option`. */
  datatype ClassRow = ClassRow(id: string, name: string, description: Option<string>)

  datatype SessionRow = SessionRow(
    id: string,
    classId: Option<string>,
    title: Option<string>,
    description: Option<string>,
    videoUrl: Option<string>,
    pdfUrl: Option<string>,
    date: Option<string>,
    aiNotes: Option<string>,
    isHighlight: Option<bool>)

  /** A row of `session_videos`: one non-primary video of a session. */
  datatype VideoRow = VideoRow(sessionId: string, url: string)

  datatype StudentRow = StudentRow(
    id: string,
    classId: Option<string>,
    name: Option<string>,
    note1: Option<int>,
    note2: Option<int>,
    note3: Option<int>)

  datatype ActivityRow = ActivityRow(
    id: string,
    title: Option<string>,
    date: Option<string>,
    description: Option<string>,
    imageUrl: Option<string>,
    pdfUrl: Option<string>)

  // ---------------------------------------------------------------------------------------
  // Mappers

  function MapClassFromDB(row: ClassRow): (c: ClassGroup)
  {
    ClassGroup(row.id, row.name, OrEmpty(row.description))
  }

  /** The mapper does not set `videoUrls`; a NULL text column reads as `''` and a NULL
      `is_highlight` as `false`. */
  function MapSessionFromDB(row: SessionRow): (s: Session)
    ensures s.id == row.id && s.videoUrls.None?
    ensures s.videoUrl == OrEmpty(row.videoUrl) && s.description == OrEmpty(row.description)
    ensures s.isHighlight <==> row.isHighlight == Some(true)
    ensures s.pdfUrl == row.pdfUrl && s.aiNotes == row.aiNotes
  {
    Session(row.id, OrEmpty(row.classId), OrEmpty(row.title), OrEmpty(row.description),
            OrEmpty(row.videoUrl), None, row.pdfUrl, OrEmpty(row.date), row.aiNotes,
            row.isHighlight == Some(true))
  }

  /** `Number(x) || 0`: a NULL grade reads as 0. */
  function MapStudentFromDB(row: StudentRow): (s: Student)
    ensures s.id == row.id && s.name == OrEmpty(row.name)
    ensures s.note1 == row.note1.GetOr(0) && s.note2 == row.note2.GetOr(0) && s.note3 == row.note3.GetOr(0)
  {
    Student(row.id, OrEmpty(row.classId), OrEmpty(row.name),
            row.note1.GetOr(0), row.note2.GetOr(0), row.note3.GetOr(0))
  }

  function MapActivityFromDB(row: ActivityRow): (a: Activity)
    ensures a.imageUrl == Some(OrEmpty(row.imageUrl)) && a.pdfUrl == Some(OrEmpty(row.pdfUrl))
  {
    Activity(row.id, OrEmpty(row.title), OrEmpty(row.date), OrEmpty(row.description),
             Some(OrEmpty(row.imageUrl)), Some(OrEmpty(row.pdfUrl)))
  }

  /** PostgreSQL's "undefined table" and PostgREST's "table not in schema cache". */
  predicate IsTableMissingError(e: DbError)
  {
    e.code == "42P01" || e.code == "PGRST205"
  }

  // ---------------------------------------------------------------------------------------
  // Read path: composing `videoUrls`

  /** The filter of the merge: `url && url.trim() !== ''`. */
  predicate IsUsableUrl(u: string)
  {
    u != "" && !IsBlank(u)
  }

  function UsableUrls(urls: seq<string>): (r: seq<string>)
    ensures forall i :: 0 <= i < |r| ==> IsUsableUrl(r[i])
    ensures forall u :: u in r <==> u in urls && IsUsableUrl(u)
    ensures IsSubseq(r, urls)
  {
    FilterSubseq(urls, IsUsableUrl);
    Filter(urls, IsUsableUrl)
  }

  /** The child rows of session `sid`, in the order the table returns them. */
  function VideosOf(rows: seq<VideoRow>, sid: string): (r: seq<VideoRow>)
    ensures forall v :: v in r <==> v in rows && v.sessionId == sid
    decreases |rows|
  {
    if |rows| == 0 then []
    else (if rows[0].sessionId == sid then [rows[0]] else []) + VideosOf(rows[1..], sid)
  }

  /** The child rows of every other session. */
  function VideosNotOf(rows: seq<VideoRow>, sid: string): (r: seq<VideoRow>)
    ensures forall v :: v in r <==> v in rows && v.sessionId != sid
    decreases |rows|
  {
    if |rows| == 0 then []
    else (if rows[0].sessionId != sid then [rows[0]] else []) + VideosNotOf(rows[1..], sid)
  }

  /** Selecting a session's rows keeps their relative order: it distributes over `+`. */
  lemma {:induction false} VideosOfConcat(a: seq<VideoRow>, b: seq<VideoRow>, sid: string)
    ensures VideosOf(a + b, sid) == VideosOf(a, sid) + VideosOf(b, sid)
    decreases |a|
  {
    if |a| == 0 {
      assert a + b == b;
    } else {
      assert (a + b)[1..] == a[1..] + b;
      VideosOfConcat(a[1..], b, sid);
    }
  }

  /** Rows tagged with `sid` belong to `sid` and to no other session. */
  lemma {:induction false} VideosOfTag(tag: string, urls: seq<string>, sid: string)
    ensures VideosOf(Tag(tag, urls), sid) == if sid == tag then Tag(tag, urls) else []
    decreases |urls|
  {
    if |urls| > 0 {
      assert Tag(tag, urls)[1..] == Tag(tag, urls[1..]);
      VideosOfTag(tag, urls[1..], sid);
    }
  }

  function UrlsOf(rows: seq<VideoRow>): (r: seq<string>)
    ensures |r| == |rows| && forall i :: 0 <= i < |rows| ==> r[i] == rows[i].url
  {
    seq(|rows|, i requires 0 <= i < |rows| => rows[i].url)
  }

  /** `urls.map(url => ({ session_id: sid, url }))`. */
  function Tag(sid: string, urls: seq<string>): (r: seq<VideoRow>)
    ensures |r| == |urls| && forall i :: 0 <= i < |urls| ==> r[i] == VideoRow(sid, urls[i])
  {
    seq(|urls|, i requires 0 <= i < |urls| => VideoRow(sid, urls[i]))
  }

  /** The extra videos of session `sid`: the `url`s of the child rows that belong to it, in
      row order; none at all when the `session_videos` fetch failed. */
  function RelatedUrls(extras: Option<seq<VideoRow>>, sid: string): (r: seq<string>)
    ensures extras.None? ==> r == []
    ensures extras.Some? ==> r == UrlsOf(VideosOf(extras.value, sid))
  {
    match extras
    case None => []
    case Some(rows) => UrlsOf(VideosOf(rows, sid))
  }

  /** The extras are the URLs of exactly the session's rows, and they follow row order: two
      batches of rows give the first batch's extras followed by the second's. */
  lemma RelatedUrlsOfRows(a: seq<VideoRow>, b: seq<VideoRow>, sid: string)
    ensures forall u :: u in RelatedUrls(Some(a), sid) <==> exists v :: v in a && v.sessionId == sid && v.url == u
    ensures RelatedUrls(Some(a + b), sid) == RelatedUrls(Some(a), sid) + RelatedUrls(Some(b), sid)
  {
    assert RelatedUrls(Some(a + b), sid) == RelatedUrls(Some(a), sid) + RelatedUrls(Some(b), sid) by {
      VideosOfConcat(a, b, sid);
      UrlsOfConcat(VideosOf(a, sid), VideosOf(b, sid));
    }
    forall u
      ensures u in RelatedUrls(Some(a), sid) <==> exists v :: v in a && v.sessionId == sid && v.url == u
    {
      UrlsOfMember(VideosOf(a, sid), u);
    }
  }

  lemma UrlsOfConcat(x: seq<VideoRow>, y: seq<VideoRow>)
    ensures UrlsOf(x + y) == UrlsOf(x) + UrlsOf(y)
  {
  }

  lemma UrlsOfMember(rows: seq<VideoRow>, u: string)
    ensures u in UrlsOf(rows) <==> exists v :: v in rows && v.url == u
  {
    if u in UrlsOf(rows) {
      var i :| 0 <= i < |rows| && UrlsOf(rows)[i] == u;
      assert rows[i] in rows;
    }
    if exists v :: v in rows && v.url == u {
      var v :| v in rows && v.url == u;
      var j :| 0 <= j < |rows| && rows[j] == v;
      assert UrlsOf(rows)[j] == u;
    }
  }

  /** `[...new Set([primary, ...related].filter(usable))]`: no blank entry, no duplicate,
      exactly the usable URLs offered, and a usable primary comes first. */
  function ComposeVideoUrls(primary: string, related: seq<string>): (r: seq<string>)
    ensures forall i :: 0 <= i < |r| ==> IsUsableUrl(r[i])
    ensures Distinct(r)
    ensures forall u :: u in r <==> (u == primary || u in related) && IsUsableUrl(u)
    ensures IsUsableUrl(primary) ==> |r| > 0 && r[0] == primary
  {
    var all := [primary] + related;
    assert forall u :: u in all <==> u == primary || u in related;
    if IsUsableUrl(primary) then
      UsableHeadFirst(primary, related);
      Dedupe(UsableUrls(all))
    else
      Dedupe(UsableUrls(all))
  }

  /** De-duplication keeps the first occurrence, so a usable primary leads the list. */
  lemma UsableHeadFirst(primary: string, related: seq<string>)
    requires IsUsableUrl(primary)
    ensures Dedupe(UsableUrls([primary] + related)) == [primary] + Dedupe(Without(UsableUrls(related), primary))
  {
    FilterConcat([primary], related, IsUsableUrl);
    assert UsableUrls([primary]) == [primary];
    DedupeCons(primary, UsableUrls(related));
  }

  /** The first-occurrence order of the composed list: a usable primary, then the usable
      extras with the primary's own copies and later repeats removed. */
  lemma ComposeFirstOccurrence(primary: string, related: seq<string>)
    requires IsUsableUrl(primary)
    ensures ComposeVideoUrls(primary, related) == [primary] + Dedupe(Without(UsableUrls(related), primary))
  {
    UsableHeadFirst(primary, related);
  }

  /** The round trip of the video list: a list of distinct usable URLs, split into its head
      and its tail, composes back to itself. */
  lemma ComposeDecompose(urls: seq<string>)
    requires |urls| > 0 && Distinct(urls)
    requires forall i :: 0 <= i < |urls| ==> IsUsableUrl(urls[i])
    ensures ComposeVideoUrls(urls[0], urls[1..]) == urls
  {
    ComposeNormalizes(urls);
    assert UsableUrls(urls) == urls by {
      FilterAll(urls, IsUsableUrl);
    }
    DedupeDistinct(urls);
  }

  /** Normalisation as a round trip law: whatever list is decomposed, composing gives its
      usable URLs without duplicates, in first-occurrence order. */
  lemma ComposeNormalizes(urls: seq<string>)
    requires |urls| > 0
    ensures ComposeVideoUrls(urls[0], urls[1..]) == Dedupe(UsableUrls(urls))
  {
    assert [urls[0]] + urls[1..] == urls;
  }

  /** One session of `getSessions`' result: the mapped row with its composed video list. */
  function ComposeSession(row: SessionRow, extras: Option<seq<VideoRow>>): Session
  {
    var session := MapSessionFromDB(row);
    session.(videoUrls := Some(ComposeVideoUrls(session.videoUrl, RelatedUrls(extras, row.id))))
  }

  // ---------------------------------------------------------------------------------------
  // Write path: the session payload

  /** `Partial<Session> & { videoUrls?: string[] }`, the argument of `saveSession`. */
  datatype SessionDraft = SessionDraft(
    id: Option<string>,
    classId: Option<string>,
    title: Option<string>,
    description: Option<string>,
    videoUrl: Option<string>,
    videoUrls: Option<seq<string>>,
    pdfUrl: Option<string>,
    date: Option<string>,
    aiNotes: Option<string>,
    isHighlight: Option<bool>)

  /** The object sent to the `sessions` table; `None` is a key left `undefined`. */
  datatype SessionPayload = SessionPayload(
    classId: Option<string>,
    title: Option<string>,
    description: Option<string>,
    videoUrl: string,
    pdfUrl: Option<string>,
    date: Option<string>,
    aiNotes: Option<string>,
    isHighlight: Option<bool>)

  /** The stored primary video: the first of `videoUrls` when that list is non-empty,
      otherwise `videoUrl`, otherwise `''`. */
  function PrimaryVideoUrl(d: SessionDraft): (u: string)
    ensures d.videoUrls.Some? && |d.videoUrls.value| > 0 ==> u == d.videoUrls.value[0]
    ensures !(d.videoUrls.Some? && |d.videoUrls.value| > 0) ==> u == OrEmpty(d.videoUrl)
  {
    if d.videoUrls.Some? && |d.videoUrls.value| > 0 then d.videoUrls.value[0] else OrEmpty(d.videoUrl)
  }

  function SessionPayloadOf(d: SessionDraft): (p: SessionPayload)
    ensures p.videoUrl == PrimaryVideoUrl(d)
    ensures p.isHighlight == Some(d.isHighlight == Some(true))
  {
    SessionPayload(d.classId, d.title, d.description, PrimaryVideoUrl(d), d.pdfUrl, d.date,
                   d.aiNotes, Some(d.isHighlight == Some(true)))
  }

  /** The `videoUrls` of the object `saveSession` returns: the caller's list verbatim when
      there is one (duplicates included), otherwise the primary alone if it is not empty. */
  function ReturnedUrls(d: SessionDraft): (r: seq<string>)
    ensures d.videoUrls.Some? ==> r == d.videoUrls.value
    ensures d.videoUrls.None? ==> r == if PrimaryVideoUrl(d) != "" then [PrimaryVideoUrl(d)] else []
  {
    if d.videoUrls.Some? then d.videoUrls.value
    else if PrimaryVideoUrl(d) != "" then [PrimaryVideoUrl(d)] else []
  }

  /** Splitting the list into the `video_url` column and the child rows loses nothing: the
      stored primary followed by the tail is the list again. Without a list the primary is
      the draft's own `videoUrl`, so it always comes from the draft. */
  lemma PrimaryAndTailRebuildList(d: SessionDraft)
    ensures d.videoUrls.Some? && |d.videoUrls.value| > 0 ==>
      [SessionPayloadOf(d).videoUrl] + d.videoUrls.value[1..] == d.videoUrls.value
    ensures SessionPayloadOf(d).videoUrl != "" ==>
      SessionPayloadOf(d).videoUrl in d.videoUrls.GetOr([]) || d.videoUrl == Some(SessionPayloadOf(d).videoUrl)
  {
    if d.videoUrls.Some? && |d.videoUrls.value| > 0 {
      assert d.videoUrls.value == [d.videoUrls.value[0]] + d.videoUrls.value[1..];
    }
  }

  /** The returned list leads with the stored primary; it is empty only when an empty list
      was sent, or when no list was sent and there is no primary. */
  lemma ReturnedLeadsWithPrimary(d: SessionDraft)
    ensures ReturnedUrls(d) != [] ==> ReturnedUrls(d)[0] == PrimaryVideoUrl(d)
    ensures ReturnedUrls(d) == [] <==> d.videoUrls == Some([]) || (d.videoUrls.None? && PrimaryVideoUrl(d) == "")
  {
  }

  /** The failed-write condition that triggers the one retry without `is_highlight`. */
  predicate IsHighlightColumnError(e: DbError)
  {
    e.code == "PGRST204" || Contains(e.message, "is_highlight")
  }

  const DuplicateKey := DbError("23505", "duplicate key value violates unique constraint")

  /** An inserted row: an `undefined` key leaves the column NULL. */
  function NewSessionRow(id: string, p: SessionPayload): (row: SessionRow)
  {
    SessionRow(id, p.classId, p.title, p.description, Some(p.videoUrl), p.pdfUrl, p.date,
               p.aiNotes, p.isHighlight)
  }

  function Pick<T>(given: Option<T>, prior: Option<T>): Option<T>
  {
    if given.Some? then given else prior
  }

  /** An updated row: an `undefined` key leaves the column as it was. */
  function UpdatedSessionRow(row: SessionRow, p: SessionPayload): (r: SessionRow)
    ensures r.id == row.id && r.videoUrl == Some(p.videoUrl)
  {
    SessionRow(row.id, Pick(p.classId, row.classId), Pick(p.title, row.title),
               Pick(p.description, row.description), Some(p.videoUrl), Pick(p.pdfUrl, row.pdfUrl),
               Pick(p.date, row.date), Pick(p.aiNotes, row.aiNotes),
               Pick(p.isHighlight, row.isHighlight))
  }

  function SessionIds(rows: seq<SessionRow>): (ids: seq<string>)
    ensures |ids| == |rows| && forall i :: 0 <= i < |rows| ==> ids[i] == rows[i].id
  {
    seq(|rows|, i requires 0 <= i < |rows| => rows[i].id)
  }

  /** The row with key `id`, if any. */
  function FindSession(rows: seq<SessionRow>, id: string): (r: Option<SessionRow>)
    ensures r.Some? ==> r.value in rows && r.value.id == id
    ensures r.None? ==> id !in SessionIds(rows)
  {
    if |rows| == 0 then None
    else if rows[0].id == id then Some(rows[0])
    else
      var r := FindSession(rows[1..], id);
      assert SessionIds(rows) == [rows[0].id] + SessionIds(rows[1..]);
      r
  }

  function UpdateSessions(rows: seq<SessionRow>, id: string, p: SessionPayload): (r: seq<SessionRow>)
    ensures |r| == |rows|
    ensures forall i :: 0 <= i < |rows| ==> r[i] == if rows[i].id == id then UpdatedSessionRow(rows[i], p) else rows[i]
  {
    seq(|rows|, i requires 0 <= i < |rows| => if rows[i].id == id then UpdatedSessionRow(rows[i], p) else rows[i])
  }

  /** One `update ... eq('id', id)` or `insert` followed by `.select().maybeSingle()`: the
      response, and the `sessions` table afterwards. An update that matches no row answers
      with no data. */
  function WriteSession(rows: seq<SessionRow>, id: Option<string>, p: SessionPayload,
                        fault: Option<DbError>, newId: string): (out: (Result<Option<SessionRow>, DbError>, seq<SessionRow>))
    ensures out.0.Err? || out.0.value.None? ==> out.1 == rows
    ensures out.0.Ok? && out.0.value.None? <==> fault.None? && Truthy(id) && id.value !in SessionIds(rows)
    ensures out.0.Ok? && out.0.value.Some? ==> out.0.value.value in out.1
    ensures Distinct(SessionIds(rows)) ==> Distinct(SessionIds(out.1))
    // an update rewrites the rows with that key and keeps every other row in place
    ensures fault.None? && Truthy(id) && id.value in SessionIds(rows) ==>
      out.0 == Ok(Some(UpdatedSessionRow(FindSession(rows, id.value).value, p))) &&
      |out.1| == |rows| &&
      forall i :: 0 <= i < |rows| ==> out.1[i] == if rows[i].id == id.value then UpdatedSessionRow(rows[i], p) else rows[i]
    // an insert under a fresh key appends the new row after the existing ones
    ensures fault.None? && !Truthy(id) && newId !in SessionIds(rows) ==>
      out.0.Ok? && out.0.value.Some? && out.0.value.value.id == newId && out.1 == rows + [out.0.value.value]
  {
    if fault.Some? then (Err(fault.value), rows)
    else if Truthy(id) then
      match FindSession(rows, id.value)
      case None => (Ok(None), rows)
      case Some(row) =>
        var updated := UpdateSessions(rows, id.value, p);
        assert SessionIds(updated) == SessionIds(rows);
        assert exists i :: 0 <= i < |rows| && rows[i] == row;
        (Ok(Some(UpdatedSessionRow(row, p))), updated)
    else if newId in SessionIds(rows) then (Err(DuplicateKey), rows)
    else
      var row := NewSessionRow(newId, p);
      assert SessionIds(rows + [row]) == SessionIds(rows) + [newId];
      (Ok(Some(row)), rows + [row])
  }

  /** The failures the calls of one `saveSession` come back with. */
  datatype SaveFaults = SaveFaults(
    first: Option<DbError>,
    retry: Option<DbError>,
    clearFails: bool,
    extras: Option<DbError>)

  /** The parent write of `saveSession`: the first attempt, and when it fails for the
      `is_highlight` column, one more without that key. */
  function SaveParent(rows: seq<SessionRow>, d: SessionDraft, faults: SaveFaults, newId: string):
    (out: (Result<Option<SessionRow>, DbError>, seq<SessionRow>))
  {
    var p := SessionPayloadOf(d);
    var (res, rows1) := WriteSession(rows, d.id, p, faults.first, newId);
    if res.Err? && IsHighlightColumnError(res.error) then
      WriteSession(rows1, d.id, p.(isHighlight := None), faults.retry, newId)
    else (res, rows1)
  }

  /** The `session_videos` table after a successful parent write: only a list of more than
      one video touches it; then an update first clears the session's old rows (that delete
      is not checked) and the tail of the list is inserted in one call. */
  function ChildRowsAfter(rows: seq<VideoRow>, d: SessionDraft, savedId: string, faults: SaveFaults): seq<VideoRow>
  {
    if d.videoUrls.Some? && |d.videoUrls.value| > 1 then
      var cleared := if Truthy(d.id) && !faults.clearFails then VideosNotOf(rows, d.id.value) else rows;
      cleared + (if faults.extras.None? then Tag(savedId, d.videoUrls.value[1..]) else [])
    else rows
  }

  /** A list of at most one video leaves the child rows as they were, stale ones included. */
  lemma ShortListKeepsChildRows(rows: seq<VideoRow>, d: SessionDraft, savedId: string, faults: SaveFaults)
    requires d.videoUrls.None? || |d.videoUrls.value| <= 1
    ensures ChildRowsAfter(rows, d, savedId, faults) == rows
  {
  }

  /** A successful save of more than one video leaves the saved session with exactly the
      tail of the list as child rows, in order, and every other session's rows untouched. */
  lemma SavedChildRows(rows: seq<VideoRow>, d: SessionDraft, savedId: string, faults: SaveFaults)
    requires d.videoUrls.Some? && |d.videoUrls.value| > 1
    requires faults.extras.None? && !faults.clearFails
    requires Truthy(d.id) ==> savedId == d.id.value
    requires !Truthy(d.id) ==> VideosOf(rows, savedId) == []
    ensures VideosOf(ChildRowsAfter(rows, d, savedId, faults), savedId) == Tag(savedId, d.videoUrls.value[1..])
    ensures forall sid :: sid != savedId ==> VideosOf(ChildRowsAfter(rows, d, savedId, faults), sid) == VideosOf(rows, sid)
  {
    var tail := Tag(savedId, d.videoUrls.value[1..]);
    var cleared := if Truthy(d.id) then VideosNotOf(rows, savedId) else rows;
    assert ChildRowsAfter(rows, d, savedId, faults) == cleared + tail;
    VideosOfConcat(cleared, tail, savedId);
    VideosOfTag(savedId, d.videoUrls.value[1..], savedId);
    if Truthy(d.id) {
      VideosOfNotOfSame(rows, savedId);
    }
    forall sid | sid != savedId
      ensures VideosOf(ChildRowsAfter(rows, d, savedId, faults), sid) == VideosOf(rows, sid)
    {
      VideosOfConcat(cleared, tail, sid);
      VideosOfTag(savedId, d.videoUrls.value[1..], sid);
      if Truthy(d.id) {
        VideosOfNotOf(rows, savedId, sid);
      }
    }
  }

  /** Clearing a session's rows leaves none of them. */
  lemma {:induction false} VideosOfNotOfSame(rows: seq<VideoRow>, sid: string)
    ensures VideosOf(VideosNotOf(rows, sid), sid) == []
    decreases |rows|
  {
    if |rows| > 0 {
      VideosOfNotOfSame(rows[1..], sid);
      var head := if rows[0].sessionId != sid then [rows[0]] else [];
      VideosOfConcat(head, VideosNotOf(rows[1..], sid), sid);
    }
  }

  /** Clearing one session's rows does not change another session's rows. */
  lemma {:induction false} VideosOfNotOf(rows: seq<VideoRow>, cleared: string, sid: string)
    requires cleared != sid
    ensures VideosOf(VideosNotOf(rows, cleared), sid) == VideosOf(rows, sid)
    decreases |rows|
  {
    if |rows| > 0 {
      VideosOfNotOf(rows[1..], cleared, sid);
      var head := if rows[0].sessionId != cleared then [rows[0]] else [];
      VideosOfConcat(head, VideosNotOf(rows[1..], cleared), sid);
    }
  }

  /** Saving a list of distinct usable URLs as a session whose key no child row carries yet,
      then composing that session from the child table, gives the list back: provided the
      table returns rows in insertion order, which the source does not request. */
  lemma ComposeAfterSave(rows: seq<VideoRow>, sid: string, urls: seq<string>)
    requires |urls| > 0 && Distinct(urls)
    requires forall i :: 0 <= i < |urls| ==> IsUsableUrl(urls[i])
    requires VideosOf(rows, sid) == []
    ensures ComposeVideoUrls(urls[0], RelatedUrls(Some(rows + Tag(sid, urls[1..])), sid)) == urls
  {
    RelatedAfterInsert(rows, sid, urls[1..]);
    ComposeDecompose(urls);
  }

  /** Inserting tagged rows for a session that had none makes them its extras, in order. */
  lemma RelatedAfterInsert(rows: seq<VideoRow>, sid: string, tail: seq<string>)
    requires VideosOf(rows, sid) == []
    ensures RelatedUrls(Some(rows + Tag(sid, tail)), sid) == tail
  {
    var tagged := Tag(sid, tail);
    assert VideosOf(rows + tagged, sid) == tagged by {
      VideosOfConcat(rows, tagged, sid);
      VideosOfTag(sid, tail, sid);
      assert [] + tagged == tagged;
    }
    assert UrlsOf(tagged) == tail;
  }

  const NoFaults := SaveFaults(None, None, false, None)

  /** Without faults, a draft with no key is inserted under the generated key. */
  lemma SaveInserts(rows: seq<SessionRow>, d: SessionDraft, newId: string)
    requires !Truthy(d.id) && newId !in SessionIds(rows)
    ensures SaveParent(rows, d, NoFaults, newId) ==
      (Ok(Some(NewSessionRow(newId, SessionPayloadOf(d)))), rows + [NewSessionRow(newId, SessionPayloadOf(d))])
  {
  }

  /** Without faults, a draft whose key is stored updates that row, and only the rows with
      that key change. */
  lemma SaveUpdates(rows: seq<SessionRow>, d: SessionDraft, newId: string)
    requires Truthy(d.id) && FindSession(rows, d.id.value).Some?
    ensures var out := SaveParent(rows, d, NoFaults, newId);
      out.0 == Ok(Some(UpdatedSessionRow(FindSession(rows, d.id.value).value, SessionPayloadOf(d)))) &&
      |out.1| == |rows| &&
      forall i :: 0 <= i < |rows| ==>
        out.1[i] == if rows[i].id == d.id.value then UpdatedSessionRow(rows[i], SessionPayloadOf(d)) else rows[i]
  {
    assert d.id.value in SessionIds(rows);
    var out := WriteSession(rows, d.id, SessionPayloadOf(d), None, newId);
    assert out.0.Ok?;
    assert SaveParent(rows, d, NoFaults, newId) == out;
  }

  /** The video list a stored row composes to: its primary merged with its extras. */
  lemma ComposeStored(row: SessionRow, extras: seq<VideoRow>, primary: string)
    requires row.videoUrl == Some(primary)
    ensures ComposeSession(row, Some(extras)).videoUrls == Some(ComposeVideoUrls(primary, RelatedUrls(Some(extras), row.id)))
  {
  }

  /** The round trip of the whole store: saving a new session with a list of distinct usable
      URLs and reading the session back composes exactly that list (child rows are assumed to
      come back in insertion order). */
  lemma SaveNewThenCompose(rows: seq<SessionRow>, videos: seq<VideoRow>, d: SessionDraft, newId: string)
    requires !Truthy(d.id) && newId !in SessionIds(rows)
    requires VideosOf(videos, newId) == []
    requires d.videoUrls.Some? && |d.videoUrls.value| > 0 && Distinct(d.videoUrls.value)
    requires forall i :: 0 <= i < |d.videoUrls.value| ==> IsUsableUrl(d.videoUrls.value[i])
    ensures var (res, stored) := SaveParent(rows, d, NoFaults, newId);
      res.Ok? && res.value.Some? && res.value.value in stored && res.value.value.id == newId &&
      ComposeSession(res.value.value, Some(ChildRowsAfter(videos, d, newId, NoFaults))).videoUrls == d.videoUrls
  {
    var urls := d.videoUrls.value;
    SaveInserts(rows, d, newId);
    var row := NewSessionRow(newId, SessionPayloadOf(d));
    var children := ChildRowsAfter(videos, d, newId, NoFaults);
    if |urls| > 1 {
      assert children == videos + Tag(newId, urls[1..]);
      RelatedAfterInsert(videos, newId, urls[1..]);
    } else {
      assert children == videos;
      assert RelatedUrls(Some(children), newId) == [] == urls[1..];
    }
    ComposeStored(row, children, urls[0]);
    ComposeDecompose(urls);
  }

  /** Updating a session to a single video leaves its old child rows in place, so the next
      read brings the old extras back. */
  lemma StaleExtrasReturn(rows: seq<SessionRow>, kept: string, stale: string, d: SessionDraft)
    requires Truthy(d.id) && FindSession(rows, d.id.value).Some?
    requires IsUsableUrl(kept) && IsUsableUrl(stale) && kept != stale
    requires d.videoUrls == Some([kept])
    ensures var res := SaveParent(rows, d, NoFaults, "").0;
      res.Ok? && res.value.Some? &&
      ComposeSession(res.value.value, Some(ChildRowsAfter(Tag(d.id.value, [stale]), d, d.id.value, NoFaults))).videoUrls
        == Some([kept, stale])
  {
    var sid := d.id.value;
    SaveUpdates(rows, d, "");
    var row := UpdatedSessionRow(FindSession(rows, sid).value, SessionPayloadOf(d));
    assert row.id == sid && row.videoUrl == Some(kept);
    StaleCompose(row, kept, stale, d);
  }

  lemma StaleCompose(row: SessionRow, kept: string, stale: string, d: SessionDraft)
    requires IsUsableUrl(kept) && IsUsableUrl(stale) && kept != stale
    requires d.videoUrls == Some([kept]) && row.videoUrl == Some(kept)
    ensures ComposeSession(row, Some(ChildRowsAfter(Tag(row.id, [stale]), d, row.id, NoFaults))).videoUrls
      == Some([kept, stale])
  {
    var children := Tag(row.id, [stale]);
    ShortListKeepsChildRows(children, d, row.id, NoFaults);
    SingleRelated(row.id, stale);
    ComposePair(kept, stale);
    ComposeStored(row, children, kept);
  }

  lemma SingleRelated(sid: string, u: string)
    ensures RelatedUrls(Some(Tag(sid, [u])), sid) == [u]
  {
    RelatedAfterInsert([], sid, [u]);
    assert [] + Tag(sid, [u]) == Tag(sid, [u]);
  }

  lemma ComposePair(a: string, b: string)
    requires IsUsableUrl(a) && IsUsableUrl(b) && a != b
    ensures ComposeVideoUrls(a, [b]) == [a, b]
  {
    assert [a, b][1..] == [b];
    ComposeDecompose([a, b]);
  }

  /** The session `saveSession` returns keeps the caller's duplicates; reading it back
      removes them. */
  lemma ReturnedKeepsDuplicates(rows: seq<SessionRow>, videos: seq<VideoRow>, u: string, d: SessionDraft, newId: string)
    requires IsUsableUrl(u)
    requires !Truthy(d.id) && newId !in SessionIds(rows) && VideosOf(videos, newId) == []
    requires d.videoUrls == Some([u, u])
    ensures ReturnedUrls(d) == [u, u]
    ensures var res := SaveParent(rows, d, NoFaults, newId).0;
      res.Ok? && res.value.Some? &&
      ComposeSession(res.value.value, Some(ChildRowsAfter(videos, d, newId, NoFaults))).videoUrls == Some([u])
  {
    SaveInserts(rows, d, newId);
    var row := NewSessionRow(newId, SessionPayloadOf(d));
    var children := ChildRowsAfter(videos, d, newId, NoFaults);
    assert RelatedUrls(Some(children), newId) == [u] by {
      assert [u, u][1..] == [u];
      assert children == videos + Tag(newId, [u]);
      RelatedAfterInsert(videos, newId, [u]);
    }
    assert ComposeVideoUrls(u, [u]) == [u] by {
      ComposeFirstOccurrence(u, [u]);
      assert UsableUrls([u]) == [u];
      assert Without([u], u) == [];
    }
    ComposeStored(row, children, u);
  }

  // ---------------------------------------------------------------------------------------
  // Students

  /** `Partial<Student>`, the argument of `saveStudent`. */
  datatype StudentDraft = StudentDraft(
    id: Option<string>,
    classId: Option<string>,
    name: Option<string>,
    note1: Option<int>,
    note2: Option<int>,
    note3: Option<int>)

  datatype StudentPayload = StudentPayload(
    id: Option<string>,
    classId: Option<string>,
    name: Option<string>,
    note1: int,
    note2: int,
    note3: int)

  /** Missing grades are sent as 0 (`?? 0`); the key is sent only when there is one and it is
      not a client-side placeholder (`temp-...`). */
  function StudentPayloadOf(s: StudentDraft): (p: StudentPayload)
    ensures p.classId == s.classId && p.name == s.name
    ensures p.note1 == s.note1.GetOr(0) && p.note2 == s.note2.GetOr(0) && p.note3 == s.note3.GetOr(0)
    ensures p.id.Some? <==> Truthy(s.id) && !StartsWith(s.id.value, "temp-")
    ensures p.id.Some? ==> p.id == s.id
  {
    StudentPayload(
      if Truthy(s.id) && !StartsWith(s.id.value, "temp-") then s.id else None,
      s.classId, s.name, s.note1.GetOr(0), s.note2.GetOr(0), s.note3.GetOr(0))
  }

  function StudentIds(rows: seq<StudentRow>): (ids: seq<string>)
    ensures |ids| == |rows| && forall i :: 0 <= i < |rows| ==> ids[i] == rows[i].id
  {
    seq(|rows|, i requires 0 <= i < |rows| => rows[i].id)
  }

  /** The row an upsert writes: `upsert([payload])` names every payload column, so a key left
      `undefined` is written as NULL. */
  function UpsertedStudentRow(id: string, p: StudentPayload): (row: StudentRow)
  {
    StudentRow(id, p.classId, p.name, Some(p.note1), Some(p.note2), Some(p.note3))
  }

  function ReplaceStudent(rows: seq<StudentRow>, row: StudentRow): (r: seq<StudentRow>)
    ensures |r| == |rows|
    ensures forall i :: 0 <= i < |rows| ==> r[i] == if rows[i].id == row.id then row else rows[i]
  {
    seq(|rows|, i requires 0 <= i < |rows| => if rows[i].id == row.id then row else rows[i])
  }

  /** One `upsert([payload]).select().maybeSingle()` on `students`: a payload with a key
      overwrites that row or creates it; one without a key inserts under a generated key. */
  function UpsertStudent(rows: seq<StudentRow>, p: StudentPayload, fault: Option<DbError>, newId: string):
    (out: (Result<StudentRow, DbError>, seq<StudentRow>))
    ensures out.0.Err? ==> out.1 == rows
    ensures out.0.Ok? ==> out.0.value in out.1
    ensures out.0.Ok? && p.id.Some? ==> out.0.value.id == p.id.value
  {
    if fault.Some? then (Err(fault.value), rows)
    else if p.id.Some? then
      var row := UpsertedStudentRow(p.id.value, p);
      if row.id in StudentIds(rows) then
        assert exists i :: 0 <= i < |rows| && rows[i].id == row.id;
        (Ok(row), ReplaceStudent(rows, row))
      else (Ok(row), rows + [row])
    else if newId in StudentIds(rows) then (Err(DuplicateKey), rows)
    else
      var row := UpsertedStudentRow(newId, p);
      (Ok(row), rows + [row])
  }

  /** What a student saved through `saveStudent` reads back as: grades the draft left out
      come back as 0, and a kept key comes back unchanged. */
  lemma SaveStudentReadBack(rows: seq<StudentRow>, s: StudentDraft, newId: string)
    requires newId !in StudentIds(rows)
    ensures var (res, _) := UpsertStudent(rows, StudentPayloadOf(s), None, newId);
      res.Ok? &&
      var back := MapStudentFromDB(res.value);
      back.note1 == s.note1.GetOr(0) && back.note2 == s.note2.GetOr(0) && back.note3 == s.note3.GetOr(0) &&
      back.name == OrEmpty(s.name) &&
      back.id == (if Truthy(s.id) && !StartsWith(s.id.value, "temp-") then s.id.value else newId)
  {
  }

  function StudentsOfClass(rows: seq<StudentRow>, classId: string): (r: seq<StudentRow>)
    ensures forall x :: x in r <==> x in rows && x.classId == Some(classId)
    decreases |rows|
  {
    if |rows| == 0 then []
    else (if rows[0].classId == Some(classId) then [rows[0]] else []) + StudentsOfClass(rows[1..], classId)
  }

  function StudentsWithout(rows: seq<StudentRow>, id: string): (r: seq<StudentRow>)
    ensures forall x :: x in r <==> x in rows && x.id != id
    decreases |rows|
  {
    if |rows| == 0 then []
    else (if rows[0].id != id then [rows[0]] else []) + StudentsWithout(rows[1..], id)
  }

  function MapStudents(rows: seq<StudentRow>): (r: seq<Student>)
    ensures |r| == |rows| && forall i :: 0 <= i < |rows| ==> r[i] == MapStudentFromDB(rows[i])
  {
    seq(|rows|, i requires 0 <= i < |rows| => MapStudentFromDB(rows[i]))
  }

  function ClassesWithout(rows: seq<ClassRow>, id: string): (r: seq<ClassRow>)
    ensures forall x :: x in r <==> x in rows && x.id != id
    decreases |rows|
  {
    if |rows| == 0 then []
    else (if rows[0].id != id then [rows[0]] else []) + ClassesWithout(rows[1..], id)
  }

  // ---------------------------------------------------------------------------------------
  // Activities

  /** `Partial<Activity>`, the argument of `saveActivity`. */
  datatype ActivityDraft = ActivityDraft(
    id: Option<string>,
    title: Option<string>,
    date: Option<string>,
    description: Option<string>,
    imageUrl: Option<string>,
    pdfUrl: Option<string>)

  /** The payload object before its `undefined` keys are deleted. */
  function ActivityFields(a: ActivityDraft): (m: map<string, Option<string>>)
    ensures m.Keys == {"title", "date", "description", "image_url", "pdf_url"}
  {
    map["title" := a.title, "date" := a.date, "description" := a.description,
        "image_url" := a.imageUrl, "pdf_url" := a.pdfUrl]
  }

  function Column(payload: map<string, Option<string>>, key: string): Option<string>
  {
    if key in payload then payload[key] else None
  }

  function ActivityIds(rows: seq<ActivityRow>): (ids: seq<string>)
    ensures |ids| == |rows| && forall i :: 0 <= i < |rows| ==> ids[i] == rows[i].id
  {
    seq(|rows|, i requires 0 <= i < |rows| => rows[i].id)
  }

  function NewActivityRow(id: string, payload: map<string, Option<string>>): ActivityRow
  {
    ActivityRow(id, Column(payload, "title"), Column(payload, "date"), Column(payload, "description"),
                Column(payload, "image_url"), Column(payload, "pdf_url"))
  }

  function UpdatedActivityRow(row: ActivityRow, payload: map<string, Option<string>>): (r: ActivityRow)
    ensures r.id == row.id
  {
    ActivityRow(row.id, Pick(Column(payload, "title"), row.title), Pick(Column(payload, "date"), row.date),
                Pick(Column(payload, "description"), row.description),
                Pick(Column(payload, "image_url"), row.imageUrl), Pick(Column(payload, "pdf_url"), row.pdfUrl))
  }

  function FindActivity(rows: seq<ActivityRow>, id: string): (r: Option<ActivityRow>)
    ensures r.Some? ==> r.value in rows && r.value.id == id
    ensures r.None? ==> id !in ActivityIds(rows)
  {
    if |rows| == 0 then None
    else if rows[0].id == id then Some(rows[0])
    else
      var r := FindActivity(rows[1..], id);
      assert ActivityIds(rows) == [rows[0].id] + ActivityIds(rows[1..]);
      r
  }

  function UpdateActivities(rows: seq<ActivityRow>, id: string, payload: map<string, Option<string>>): (r: seq<ActivityRow>)
    ensures |r| == |rows|
    ensures forall i :: 0 <= i < |rows| ==> r[i] == if rows[i].id == id then UpdatedActivityRow(rows[i], payload) else rows[i]
  {
    seq(|rows|, i requires 0 <= i < |rows| => if rows[i].id == id then UpdatedActivityRow(rows[i], payload) else rows[i])
  }

  /** The payload after `Object.keys(payload).forEach(key => payload[key] === undefined && delete payload[key])`. */
  function Defined(fields: map<string, Option<string>>): (m: map<string, Option<string>>)
    ensures forall k :: k in m <==> k in fields && fields[k].Some?
    ensures forall k :: k in m ==> m[k] == fields[k]
  {
    map k | k in fields && fields[k].Some? :: fields[k]
  }

  /** One `update ... eq('id', id)` or `insert` on `activities` followed by `.select()`: the
      row it answers with (none when an update matches no row), and the table afterwards. */
  function WriteActivity(rows: seq<ActivityRow>, id: Option<string>, payload: map<string, Option<string>>,
                         fault: Option<DbError>, newId: string): (out: (Result<Option<ActivityRow>, DbError>, seq<ActivityRow>))
    ensures out.0.Err? || out.0.value.None? ==> out.1 == rows
    ensures out.0.Ok? && out.0.value.None? <==> fault.None? && Truthy(id) && id.value !in ActivityIds(rows)
    ensures out.0.Ok? && out.0.value.Some? ==> out.0.value.value in out.1
    ensures Distinct(ActivityIds(rows)) ==> Distinct(ActivityIds(out.1))
    // an update rewrites the rows with that key and keeps every other row in place
    ensures fault.None? && Truthy(id) && id.value in ActivityIds(rows) ==>
      out.0 == Ok(Some(UpdatedActivityRow(FindActivity(rows, id.value).value, payload))) &&
      |out.1| == |rows| &&
      forall i :: 0 <= i < |rows| ==> out.1[i] == if rows[i].id == id.value then UpdatedActivityRow(rows[i], payload) else rows[i]
    // an insert under a fresh key appends the new row after the existing ones
    ensures fault.None? && !Truthy(id) && newId !in ActivityIds(rows) ==>
      out.0.Ok? && out.0.value.Some? && out.0.value.value.id == newId && out.1 == rows + [out.0.value.value]
  {
    if fault.Some? then (Err(fault.value), rows)
    else if Truthy(id) then
      match FindActivity(rows, id.value)
      case None => (Ok(None), rows)
      case Some(row) =>
        var updated := UpdateActivities(rows, id.value, payload);
        assert ActivityIds(updated) == ActivityIds(rows);
        assert exists i :: 0 <= i < |rows| && rows[i] == row;
        (Ok(Some(UpdatedActivityRow(row, payload))), updated)
    else if newId in ActivityIds(rows) then (Err(DuplicateKey), rows)
    else
      var row := NewActivityRow(newId, payload);
      assert ActivityIds(rows + [row]) == ActivityIds(rows) + [newId];
      (Ok(Some(row)), rows + [row])
  }

  /** Because the `undefined` keys are deleted first, an update leaves the columns the draft
      does not mention as they were instead of clearing them, in the returned row and in the
      stored one; rows with another key are kept. */
  lemma ActivityUpdateKeepsUnset(rows: seq<ActivityRow>, a: ActivityDraft, newId: string)
    requires Truthy(a.id) && FindActivity(rows, a.id.value).Some?
    ensures var out := WriteActivity(rows, a.id, Defined(ActivityFields(a)), None, newId);
      var prior := FindActivity(rows, a.id.value).value;
      out.0 == Ok(Some(ActivityRow(prior.id, Pick(a.title, prior.title), Pick(a.date, prior.date),
                                 Pick(a.description, prior.description), Pick(a.imageUrl, prior.imageUrl),
                                 Pick(a.pdfUrl, prior.pdfUrl)))) &&
      |out.1| == |rows| &&
      forall i :: 0 <= i < |rows| ==>
        out.1[i] == if rows[i].id == a.id.value
                    then ActivityRow(rows[i].id, Pick(a.title, rows[i].title), Pick(a.date, rows[i].date),
                                     Pick(a.description, rows[i].description), Pick(a.imageUrl, rows[i].imageUrl),
                                     Pick(a.pdfUrl, rows[i].pdfUrl))
                    else rows[i]
  {
    assert a.id.value in ActivityIds(rows);
    var m := Defined(ActivityFields(a));
    var out := WriteActivity(rows, a.id, m, None, newId);
    UpdatedFromDraft(FindActivity(rows, a.id.value).value, a);
    forall i | 0 <= i < |rows|
      ensures out.1[i] == if rows[i].id == a.id.value then UpdatedActivityRow(rows[i], m) else rows[i]
    {
    }
    forall i | 0 <= i < |rows| && rows[i].id == a.id.value
      ensures UpdatedActivityRow(rows[i], m) ==
        ActivityRow(rows[i].id, Pick(a.title, rows[i].title), Pick(a.date, rows[i].date),
                    Pick(a.description, rows[i].description), Pick(a.imageUrl, rows[i].imageUrl),
                    Pick(a.pdfUrl, rows[i].pdfUrl))
    {
      UpdatedFromDraft(rows[i], a);
    }
  }

  /** Updating a row with a draft's defined fields takes each mentioned field from the draft
      and keeps the others. */
  lemma UpdatedFromDraft(row: ActivityRow, a: ActivityDraft)
    ensures UpdatedActivityRow(row, Defined(ActivityFields(a))) ==
      ActivityRow(row.id, Pick(a.title, row.title), Pick(a.date, row.date), Pick(a.description, row.description),
                  Pick(a.imageUrl, row.imageUrl), Pick(a.pdfUrl, row.pdfUrl))
  {
    var m := Defined(ActivityFields(a));
    assert Column(m, "title") == a.title && Column(m, "date") == a.date;
    assert Column(m, "description") == a.description;
    assert Column(m, "image_url") == a.imageUrl && Column(m, "pdf_url") == a.pdfUrl;
  }

  /** An inserted activity stores the draft's fields, a field left out as NULL. */
  lemma ActivityInsertStoresDraft(rows: seq<ActivityRow>, a: ActivityDraft, newId: string)
    requires !Truthy(a.id) && newId !in ActivityIds(rows)
    ensures var (res, after) := WriteActivity(rows, a.id, Defined(ActivityFields(a)), None, newId);
      var row := ActivityRow(newId, a.title, a.date, a.description, a.imageUrl, a.pdfUrl);
      res == Ok(Some(row)) && after == rows + [row]
  {
    var m := Defined(ActivityFields(a));
    assert Column(m, "title") == a.title && Column(m, "date") == a.date;
    assert Column(m, "description") == a.description;
    assert Column(m, "image_url") == a.imageUrl && Column(m, "pdf_url") == a.pdfUrl;
  }

  /** The alert `saveActivity` shows for a failed write. */
  function ActivityErrorAlert(e: DbError): string
  {
    if e.code == "42P01" then "Database Error: 'activities' table missing. Please run the SQL setup script."
    else if e.code == "42501" then "Permission Denied: RLS policy is blocking the save. Please check Supabase settings."
    else "Database Error: " + (if e.message != "" then e.message else "Unknown error")
  }

  const NoDataAlert := "UPDATE FAILED: The database rejected the change."

  /** The `undefined`-key deletion loop: the keys with a value, with those values. */
  method StripUndefined(fields: map<string, Option<string>>) returns (payload: map<string, Option<string>>)
    ensures payload == Defined(fields)
  {
    payload := fields;
    var keys := fields.Keys;
    while keys != {}
      invariant keys <= fields.Keys
      invariant keys <= payload.Keys
      invariant forall k :: k in payload ==> k in fields && payload[k] == fields[k]
      invariant forall k :: k in fields && k !in keys ==> (k in payload <==> fields[k].Some?)
      decreases keys
    {
      var k :| k in keys;
      if payload[k].None? {
        payload := payload - {k};
      }
      keys := keys - {k};
    }
    assert payload.Keys == Defined(fields).Keys;
  }

  // ---------------------------------------------------------------------------------------
  // The database

  class Database {
    var classRows: seq<ClassRow>
    var sessionRows: seq<SessionRow>
    var videoRows: seq<VideoRow>
    var studentRows: seq<StudentRow>
    var activityRows: seq<ActivityRow>

    /** The `id` columns are primary keys. */
    ghost predicate Valid()
      reads this
    {
      Distinct(SessionIds(sessionRows)) && Distinct(StudentIds(studentRows)) && Distinct(ActivityIds(activityRows))
    }

    constructor (classes: seq<ClassRow>, sessions: seq<SessionRow>, videos: seq<VideoRow>,
                 students: seq<StudentRow>, activities: seq<ActivityRow>)
      requires Distinct(SessionIds(sessions)) && Distinct(StudentIds(students)) && Distinct(ActivityIds(activities))
      ensures Valid()
      ensures classRows == classes && sessionRows == sessions && videoRows == videos
      ensures studentRows == students && activityRows == activities
    {
      classRows, sessionRows, videoRows := classes, sessions, videos;
      studentRows, activityRows := students, activities;
    }

    /** `getSessions`: the sessions newest first, each with its composed video list. A failed
        `sessions` fetch gives no sessions at all; a failed `session_videos` fetch leaves
        every session with its primary video only. */
    method GetSessions(sessionsFault: Option<DbError>, videosFault: Option<DbError>)
      returns (r: seq<Session>, notices: seq<Notice>)
      ensures sessionsFault.Some? ==> r == []
      ensures sessionsFault.Some? ==>
        notices == [if IsTableMissingError(sessionsFault.value) then Warned("Supabase: \"sessions\" table missing.")
                    else Logged("Error fetching sessions", sessionsFault.value)]
      ensures sessionsFault.None? ==>
        |r| == |sessionRows| &&
        forall i :: 0 <= i < |r| ==>
          r[i] == ComposeSession(sessionRows[|sessionRows| - 1 - i], if videosFault.None? then Some(videoRows) else None)
      ensures sessionsFault.None? ==>
        notices == if videosFault.Some? && !IsTableMissingError(videosFault.value)
                   then [Logged("Error fetching extra videos", videosFault.value)] else []
    {
      if sessionsFault.Some? {
        if IsTableMissingError(sessionsFault.value) {
          notices := [Warned("Supabase: \"sessions\" table missing.")];
        } else {
          notices := [Logged("Error fetching sessions", sessionsFault.value)];
        }
        return [], notices;
      }
      var newestFirst := Reverse(sessionRows);
      var extras: Option<seq<VideoRow>> := if videosFault.None? then Some(videoRows) else None;
      notices := [];
      if videosFault.Some? && !IsTableMissingError(videosFault.value) {
        notices := [Logged("Error fetching extra videos", videosFault.value)];
      }
      r := seq(|newestFirst|, i requires 0 <= i < |newestFirst| => ComposeSession(newestFirst[i], extras));
    }

    /** One parent write; the `sessions` table changes as `WriteSession` says. */
    method WriteSessionRow(id: Option<string>, p: SessionPayload, fault: Option<DbError>, newId: string)
      returns (res: Result<Option<SessionRow>, DbError>)
      requires Valid()
      modifies this`sessionRows
      ensures Valid()
      ensures (res, sessionRows) == WriteSession(old(sessionRows), id, p, fault, newId)
    {
      var out := WriteSession(sessionRows, id, p, fault, newId);
      res, sessionRows := out.0, out.1;
    }

    /** `delete().eq('session_id', sid)` on `session_videos`; its result is not checked. */
    method ClearVideos(sid: string, fails: bool)
      modifies this`videoRows
      ensures videoRows == if fails then old(videoRows) else VideosNotOf(old(videoRows), sid)
    {
      if !fails {
        videoRows := VideosNotOf(videoRows, sid);
      }
    }

    /** One bulk `insert` into `session_videos`: all rows or none. */
    method InsertVideos(rows: seq<VideoRow>, fault: Option<DbError>) returns (err: Option<DbError>)
      modifies this`videoRows
      ensures err == fault
      ensures videoRows == if fault.None? then old(videoRows) + rows else old(videoRows)
    {
      err := fault;
      if fault.None? {
        videoRows := videoRows + rows;
      }
    }

    /** The parent write of `saveSession`, with its one retry without `is_highlight`; the
        `sessions` table changes as `SaveParent` says. */
    method WriteParent(d: SessionDraft, faults: SaveFaults, newId: string)
      returns (res: Result<Option<SessionRow>, DbError>, notices: seq<Notice>)
      requires Valid()
      modifies this`sessionRows
      ensures Valid()
      ensures (res, sessionRows) == SaveParent(old(sessionRows), d, faults, newId)
    {
      var p := SessionPayloadOf(d);
      notices := [];
      res := WriteSessionRow(d.id, p, faults.first, newId);
      if res.Err? && IsHighlightColumnError(res.error) {
        notices := [Warned("Column 'is_highlight' missing in DB. Retrying save without it.")];
        assert SaveParent(old(sessionRows), d, faults, newId) ==
               WriteSession(sessionRows, d.id, p.(isHighlight := None), faults.retry, newId);
        res := WriteSessionRow(d.id, p.(isHighlight := None), faults.retry, newId);
        if res.Ok? {
          notices := notices + [Warned("Session saved without highlight feature due to schema mismatch.")];
        }
      }
      if res.Err? {
        notices := notices + [Logged("Error saving session", res.error)];
      }
    }

    /** The child writes of `saveSession` once the parent row `savedId` is stored; the
        `session_videos` table changes as `ChildRowsAfter` says. */
    method WriteChildren(d: SessionDraft, savedId: string, faults: SaveFaults) returns (notices: seq<Notice>)
      modifies this`videoRows
      ensures videoRows == ChildRowsAfter(old(videoRows), d, savedId, faults)
      ensures (d.videoUrls.Some? && |d.videoUrls.value| > 1 && faults.extras.Some? &&
               IsTableMissingError(faults.extras.value)) ==> notices == [Alerted(ExtrasTableAlert)]
    {
      notices := [];
      if d.videoUrls.Some? && |d.videoUrls.value| > 1 {
        if Truthy(d.id) {
          ClearVideos(d.id.value, faults.clearFails);
        }
        var err := InsertVideos(Tag(savedId, d.videoUrls.value[1..]), faults.extras);
        if err.Some? {
          if IsTableMissingError(err.value) {
            notices := [Alerted(ExtrasTableAlert)];
          } else {
            notices := [Logged("Error saving extra videos", err.value)];
          }
        }
      }
    }

    /** `saveSession`. The parent write goes as `SaveParent` says; when it fails or returns no
        row, the result is null and no child row is touched. Otherwise the child rows change
        as `ChildRowsAfter` says and the returned session carries `ReturnedUrls`. */
    method SaveSession(d: SessionDraft, faults: SaveFaults, newId: string)
      returns (r: Option<Session>, notices: seq<Notice>)
      requires Valid()
      modifies this`sessionRows, this`videoRows
      ensures Valid()
      ensures sessionRows == SaveParent(old(sessionRows), d, faults, newId).1
      ensures var res := SaveParent(old(sessionRows), d, faults, newId).0;
        if res.Ok? && res.value.Some? then
          r == Some(MapSessionFromDB(res.value.value).(videoUrls := Some(ReturnedUrls(d)))) &&
          videoRows == ChildRowsAfter(old(videoRows), d, res.value.value.id, faults)
        else
          r.None? && videoRows == old(videoRows)
      ensures (r.Some? && d.videoUrls.Some? && |d.videoUrls.value| > 1 && faults.extras.Some? &&
               IsTableMissingError(faults.extras.value)) ==> Alerted(ExtrasTableAlert) in notices
    {
      var res;
      res, notices := WriteParent(d, faults, newId);
      if res.Err? || res.value.None? {
        return None, notices;
      }
      var saved := MapSessionFromDB(res.value.value);
      var more := WriteChildren(d, res.value.value.id, faults);
      notices := notices + more;
      r := Some(saved.(videoUrls := Some(ReturnedUrls(d))));
    }

    /** `getStudents(classId)`: the class's students (a failed fetch gives none). */
    method GetStudents(classId: string, fault: Option<DbError>) returns (r: seq<Student>, notices: seq<Notice>)
      ensures fault.Some? ==> r == []
      ensures fault.None? ==> r == MapStudents(StudentsOfClass(studentRows, classId)) && notices == []
      ensures fault.Some? && IsTableMissingError(fault.value) ==> notices == [Warned("Supabase: \"students\" table missing.")]
    {
      if fault.Some? {
        if IsTableMissingError(fault.value) {
          notices := [Warned("Supabase: \"students\" table missing.")];
        } else {
          notices := [Logged("Error fetching students", fault.value)];
        }
        return [], notices;
      }
      r, notices := MapStudents(StudentsOfClass(studentRows, classId)), [];
    }

    /** One upsert on `students`; the table changes as `UpsertStudent` says. */
    method UpsertStudentRow(p: StudentPayload, fault: Option<DbError>, newId: string)
      returns (res: Result<StudentRow, DbError>)
      requires Valid()
      modifies this`studentRows
      ensures Valid()
      ensures (res, studentRows) == UpsertStudent(old(studentRows), p, fault, newId)
    {
      if fault.Some? {
        return Err(fault.value);
      }
      var key := if p.id.Some? then p.id.value else newId;
      if p.id.None? && newId in StudentIds(studentRows) {
        return Err(DuplicateKey);
      }
      var row := UpsertedStudentRow(key, p);
      if key in StudentIds(studentRows) {
        assert StudentIds(ReplaceStudent(studentRows, row)) == StudentIds(studentRows);
        studentRows := ReplaceStudent(studentRows, row);
      } else {
        assert StudentIds(studentRows + [row]) == StudentIds(studentRows) + [key];
        studentRows := studentRows + [row];
      }
      res := Ok(row);
    }

    /** `saveStudent`: the payload rules of `StudentPayloadOf`, one upsert, and the stored row
        mapped back (null on failure). */
    method SaveStudent(s: StudentDraft, fault: Option<DbError>, newId: string) returns (r: Option<Student>)
      requires Valid()
      modifies this`studentRows
      ensures Valid()
      ensures var out := UpsertStudent(old(studentRows), StudentPayloadOf(s), fault, newId);
        studentRows == out.1 && r == if out.0.Ok? then Some(MapStudentFromDB(out.0.value)) else None
    {
      var res := UpsertStudentRow(StudentPayloadOf(s), fault, newId);
      r := if res.Ok? then Some(MapStudentFromDB(res.value)) else None;
    }

    /** `deleteStudent`: true exactly when the delete went through; deleting a key that is not
        there succeeds too. */
    method DeleteStudent(id: string, fault: Option<DbError>) returns (ok: bool)
      requires Valid()
      modifies this`studentRows
      ensures Valid()
      ensures ok <==> fault.None?
      ensures studentRows == if ok then StudentsWithout(old(studentRows), id) else old(studentRows)
    {
      ok := fault.None?;
      if ok {
        StudentsWithoutKeepsKeys(studentRows, id);
        studentRows := StudentsWithout(studentRows, id);
      }
    }

    /** `deleteClass`: removes the class row only; nothing cascades in the model. */
    method DeleteClass(id: string, fault: Option<DbError>) returns (ok: bool)
      modifies this`classRows
      ensures ok <==> fault.None?
      ensures classRows == if ok then ClassesWithout(old(classRows), id) else old(classRows)
    {
      ok := fault.None?;
      if ok {
        classRows := ClassesWithout(classRows, id);
      }
    }

    /** One write on `activities`; the table changes as `WriteActivity` says. */
    method WriteActivityRow(id: Option<string>, payload: map<string, Option<string>>, fault: Option<DbError>, newId: string)
      returns (res: Result<Option<ActivityRow>, DbError>)
      requires Valid()
      modifies this`activityRows
      ensures Valid()
      ensures (res, activityRows) == WriteActivity(old(activityRows), id, payload, fault, newId)
    {
      var out := WriteActivity(activityRows, id, payload, fault, newId);
      res, activityRows := out.0, out.1;
    }

    /** `saveActivity`: the fields left `undefined` are dropped, one write is made, and a
        failure, or an update that matches no row, gives no activity and an alert. */
    method SaveActivity(a: ActivityDraft, fault: Option<DbError>, newId: string)
      returns (r: Option<Activity>, notices: seq<Notice>)
      requires Valid()
      modifies this`activityRows
      ensures Valid()
      ensures var (res, rows) := WriteActivity(old(activityRows), a.id, Defined(ActivityFields(a)), fault, newId);
        activityRows == rows &&
        (res.Err? ==> r.None? && notices == [Logged("Error saving activity", res.error), Alerted(ActivityErrorAlert(res.error))]) &&
        (res.Ok? && res.value.None? ==> r.None? && notices == [Alerted(NoDataAlert)]) &&
        (res.Ok? && res.value.Some? ==> r == Some(MapActivityFromDB(res.value.value)) && notices == [])
    {
      var payload := StripUndefined(ActivityFields(a));
      var res := WriteActivityRow(a.id, payload, fault, newId);
      if res.Err? {
        return None, [Logged("Error saving activity", res.error), Alerted(ActivityErrorAlert(res.error))];
      }
      if res.value.None? {
        return None, [Alerted(NoDataAlert)];
      }
      r, notices := Some(MapActivityFromDB(res.value.value)), [];
    }
  }

  const ExtrasTableAlert := "Warning: 'session_videos' table missing. Only the first video was saved. Run SQL script to fix."

  lemma {:induction false} StudentsWithoutKeepsKeys(rows: seq<StudentRow>, id: string)
    requires Distinct(StudentIds(rows))
    ensures Distinct(StudentIds(StudentsWithout(rows, id)))
    decreases |rows|
  {
    if |rows| > 0 {
      var ids := StudentIds(rows);
      assert StudentIds(rows[1..]) == ids[1..];
      StudentsWithoutKeepsKeys(rows[1..], id);
      var rest := StudentsWithout(rows[1..], id);
      if rows[0].id != id {
        assert StudentsWithout(rows, id) == [rows[0]] + rest;
        assert rows[0].id !in StudentIds(rest) by {
          DistinctHead(ids);
          WithoutIdsKept(rows[1..], id, rows[0].id);
        }
        KeysCons(rows[0], rest);
      } else {
        assert StudentsWithout(rows, id) == rest;
      }
    }
  }

  lemma KeysCons(row: StudentRow, rest: seq<StudentRow>)
    requires Distinct(StudentIds(rest)) && row.id !in StudentIds(rest)
    ensures Distinct(StudentIds([row] + rest))
  {
    DistinctCons(row.id, StudentIds(rest));
    assert StudentIds([row] + rest) == [row.id] + StudentIds(rest);
  }

  /** A delete introduces no key: one absent before is absent after. */
  lemma WithoutIdsKept(rows: seq<StudentRow>, id: string, x: string)
    requires x !in StudentIds(rows)
    ensures x !in StudentIds(StudentsWithout(rows, id))
  {
    var r := StudentsWithout(rows, id);
    forall k | 0 <= k < |r|
      ensures StudentIds(r)[k] != x
    {
      assert r[k] in r;
      IdOfMember(rows, r[k]);
    }
  }

  lemma IdOfMember(rows: seq<StudentRow>, x: StudentRow)
    requires x in rows
    ensures x.id in StudentIds(rows)
  {
    var ids := StudentIds(rows);
    assert forall i :: 0 <= i < |rows| && rows[i] == x ==> ids[i] == x.id;
  }
}
