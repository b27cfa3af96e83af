# Training portal: sessions, videos and grades

A model of the logic inside a small teacher/student portal. Teachers publish training
sessions, each with an ordered list of videos. They keep a gradebook per class and can merge
a grade sheet read by an AI service into it. Students browse the sessions of their class by
month. A public landing page shows a carousel of highlighted sessions.

The model has these parts:

- `Store` (`store.dfy`) is the data-access layer: an in-memory `Database` class with one
  sequence per table (`classes`, `sessions`, `session_videos`, `students`, `activities`).
  - Every network call takes the error it may come back with as a parameter. Every insert
    takes the key the database would generate, and an insert under a key already in use
    fails like a primary-key violation.
  - The read path composes a session's `videoUrls` from its primary `video_url` and its
    `session_videos` rows.
  - The write path stores `videoUrls[0]` as the primary and the tail as child rows. The
    parent write is retried once without `is_highlight`.
  - It also holds the student payload rules and the activity save, which deletes the
    `undefined` keys.
- `Dashboard` (`dashboard.dfy`) is the teacher's page:
  - saving a session: validation, then resolving the pending videos in order against an
    upload oracle, aborting on the first failed upload, then the store call and the update
    of the local list;
  - opening a session for editing;
  - the grade-sheet merge: case-folded, trimmed, first-match name lookup, positive-only
    grade override, one upsert per sheet row;
  - deleting students and classes.
- `Portal` (`portal.dfy`) is the student's page: the class sessions, the month chips, the
  month filter and the resets on class navigation.
- `Landing` (`landing.dfy`) is the carousel selection with its fallback, the modular slide
  index, the current slide's URL and the class label.
- `Views` (`views.dfy`) holds the helpers that all three pages define identically:
  `getEmbedUrl`, the expanded-card toggle and the per-card video fallback.
- `Gemini` (`gemini.dfy`) is the post-processing of the AI replies: the roster lines, and
  code-fence removal before `JSON.parse`. The reply itself and the parser are inputs.
- `Types`, `Strings`, `Seqs` and `Wrappers` hold the shared pieces:
  - the portal's records;
  - the JavaScript string built-ins used (`trim`, `toLowerCase`, `includes`, `replace`,
    `split`, `startsWith`, string `<`);
  - `filter`, `[...new Set(...)]` and `reverse` on sequences;
  - `Option` and `Result`.

Two kinds of code are modelled differently:

- Code that changes state step by step is written as methods. This covers the database
  writes, `saveSession`, `saveActivity`'s key-deletion loop, the upload loop of
  `handleCreateSession` and the save loop of `handleMergeScannedData`. Each method is proved
  against a function that describes the new state, such as `SaveParent`, `ChildRowsAfter`,
  `WriteActivity` and `ApplyUpserts`.
- Code made of `filter`/`map`/`Set` expressions is written as functions, with lemmas about
  them.

## Model

| member | source | states |
|---|---|---|
| `Store.MapSessionFromDB` | services/store.ts:12-22 | The key is kept. A NULL `description` or `video_url` reads as `''`. `isHighlight` is true only for a stored `true`. `pdfUrl` and `aiNotes` pass through. No `videoUrls` is set. |
| `Store.MapStudentFromDB` | services/store.ts:24-31 | A NULL name reads as `''` and a NULL grade reads as 0. |
| `Store.MapActivityFromDB` | services/store.ts:33-40 | A NULL image or PDF column reads as `''`. |
| `Store.UsableUrls` | services/store.ts:146 | Keeps exactly the entries that are neither empty nor all white space, in their original relative order. |
| `Store.VideosOf` | services/store.ts:141 | Selects exactly the child rows whose `session_id` is the given session. |
| `Store.VideosOfConcat` | services/store.ts:141 | Selecting a session's rows distributes over concatenation, so the row order is kept. |
| `Store.VideosOfTag` | services/store.ts:260-263 | Rows tagged with a session belong to that session and to no other. |
| `Store.RelatedUrlsOfRows` | services/store.ts:140-142 | The extras are the `url`s of exactly the session's rows, and they follow row order: two batches of rows give the first batch's extras followed by the second's. A failed fetch gives no extras (`RelatedUrls`). |
| `Store.ComposeVideoUrls` | services/store.ts:144-149 | No blank entry and no duplicate. Its members are exactly the usable URLs among the primary and the extras. A usable primary comes first. |
| `Store.UsableHeadFirst` | services/store.ts:146-149 | With a usable primary, de-duplication keeps the primary and drops its later copies. |
| `Store.ComposeFirstOccurrence` | services/store.ts:144-149 | The exact first-occurrence order: the primary, then the usable extras without the primary and without repeats. |
| `Store.ComposeDecompose` | services/store.ts:144-149 | A list of distinct usable URLs, split into head and tail, composes back to itself. |
| `Store.ComposeNormalizes` | services/store.ts:146-149 | Any non-empty list, split into head and tail, composes to its usable entries de-duplicated. |
| `Store.Database.GetSessions` | services/store.ts:110-152 | A failed `sessions` fetch gives `[]` and a warning or a log. Otherwise every session appears newest first with its composed list. A failed `session_videos` fetch keeps only the primary, and is logged unless the table is missing. |
| `Store.PrimaryAndTailRebuildList` | services/store.ts:192-194 | The stored `video_url` followed by the tail of the list is the list again, so splitting it into the parent column and the child rows loses nothing. A non-empty primary always comes from the draft's list or its `videoUrl`. |
| `Store.SessionPayloadOf` | services/store.ts:196-205 | `video_url` is the primary; `is_highlight` is `isHighlight \|\| false`. |
| `Store.ReturnedLeadsWithPrimary` | services/store.ts:279 | The returned list leads with the stored primary. It is empty exactly when an empty list was sent, or when no list was sent and there is no primary. |
| `Store.WriteSession` | services/store.ts:210-225 | A failed write, or an update that matches no row, leaves the table unchanged. "No data" happens exactly for an update of a missing key. An update of a stored key returns the updated row, rewrites the rows with that key and keeps every other row in place. An insert under a fresh key appends exactly the returned row. A returned row is in the table. Keys stay distinct. |
| `Store.Database.WriteParent` | services/store.ts:227-250 | Performs the first write and, after a `PGRST204` or `is_highlight` error, exactly one retry without `is_highlight`. The table ends as `SaveParent` says. |
| `Store.ShortListKeepsChildRows` | services/store.ts:254 | A list of at most one video leaves `session_videos` untouched, stale rows included. |
| `Store.SavedChildRows` | services/store.ts:254-267 | After saving more than one video, the saved session's child rows are exactly the tail of the list, in order and tagged with its key. Every other session's rows are untouched. |
| `Store.VideosOfNotOfSame` | services/store.ts:256-258 | The pre-insert delete removes every old row of the session. |
| `Store.VideosOfNotOf` | services/store.ts:256-258 | The pre-insert delete touches no other session's rows. |
| `Store.Database.ClearVideos` | services/store.ts:257 | An unchecked delete by `session_id`. |
| `Store.Database.InsertVideos` | services/store.ts:265-267 | One bulk insert, all rows or none, reporting its error. |
| `Store.Database.WriteChildren` | services/store.ts:253-276 | Child rows change as `ChildRowsAfter` says. A missing `session_videos` table raises the warning alert. |
| `Store.Database.SaveSession` | services/store.ts:190-282 | A failed parent write, or one that returns no row, gives null and leaves the child rows untouched. Otherwise the child rows follow `ChildRowsAfter` and the result is the mapped row carrying `ReturnedUrls`. |
| `Store.RelatedAfterInsert` | services/store.ts:260-267 | Rows inserted for a session that had none become its extras, in order. |
| `Store.ComposeAfterSave` | services/store.ts:254-267 | Inserting the tail of a distinct usable list, then composing, gives the list back. |
| `Store.SaveInserts` | services/store.ts:218-224 | Without faults, a draft with no key is inserted under the generated key. |
| `Store.SaveUpdates` | services/store.ts:211-217 | Without faults, a draft whose key is stored returns that row updated with the payload; in the table only the rows with that key change, and every other session keeps its place and contents. |
| `Store.SaveNewThenCompose` | services/store.ts:110-282 | Round trip: saving a new session with a distinct usable list and reading it back gives the same list. |
| `Store.StaleExtrasReturn` | services/store.ts:254-258 | Updating a session to a single video leaves its old extras, and the next read brings them back. |
| `Store.ReturnedKeepsDuplicates` | services/store.ts:279 | The returned session for `[u, u]` carries `[u, u]`, while reading it back gives `[u]`. |
| `Store.StudentPayloadOf` | services/store.ts:330-342 | Missing grades are sent as 0. The key is sent exactly when present, non-empty and not starting with `temp-`. |
| `Store.UpsertStudent` | services/store.ts:344-348 | A failed upsert leaves the table unchanged. A stored row is in the table. A payload key is the stored row's key. |
| `Store.SaveStudentReadBack` | services/store.ts:330-356 | A saved student reads back with omitted grades as 0. It keeps its key unless that key was a `temp-` one, in which case it gets the generated key. |
| `Store.Database.SaveStudent` | services/store.ts:330-356 | Makes one upsert of `StudentPayloadOf` and maps the stored row back. A failure gives null. |
| `Store.Database.UpsertStudentRow` | services/store.ts:344-348 | The table changes as `UpsertStudent` says, and keys stay distinct. |
| `Store.StudentsOfClass` | services/store.ts:297-302 | Exactly the rows of the class. |
| `Store.Database.GetStudents` | services/store.ts:297-313 | The mapped rows of the class. A failed fetch gives `[]`, with a warning when the table is missing. |
| `Store.StudentsWithout` | services/store.ts:358-362 | Exactly the rows with a different key. |
| `Store.StudentsWithoutKeepsKeys` | services/store.ts:358-362 | A delete keeps the student keys distinct. |
| `Store.Database.DeleteStudent` | services/store.ts:358-369 | True exactly when the call succeeds, in which case the key's rows are gone. |
| `Store.Database.DeleteClass` | services/store.ts:97-108 | True exactly when the call succeeds, in which case the class row is gone. |
| `Store.ActivityFields` | services/store.ts:405-411 | The payload has exactly the five columns. |
| `Store.Defined` | services/store.ts:414 | Exactly the keys whose value is defined, with their values. |
| `Store.StripUndefined` | services/store.ts:414 | The deletion loop leaves exactly `Defined(fields)`. |
| `Store.WriteActivity` | services/store.ts:423-446 | A failure, or an update of a missing key, leaves the table unchanged. "No data" happens exactly for an update of a missing key. An update of a stored key returns the updated row, rewrites the rows with that key and keeps every other row in place. An insert under a fresh key appends exactly the returned row. A returned row is stored. Keys stay distinct. |
| `Store.ActivityUpdateKeepsUnset` | services/store.ts:413-434 | An update overwrites only the columns the draft defines and keeps the others, both in the returned row and in the stored row; rows with another key are kept as they were. |
| `Store.ActivityInsertStoresDraft` | services/store.ts:436-442 | An insert stores the draft's fields and appends the row. |
| `Store.Database.SaveActivity` | services/store.ts:403-477 | Makes one write of the defined fields. An error is logged and alerted by its code (`42P01`, `42501`, or the message). No data gives the RLS alert and null. |
| `Views.EmbedOtherUnchanged` | pages/Dashboard.tsx:404-418 | A link that is neither Dropbox nor Drive, including `''`, is embedded unchanged. |
| `Views.EmbedDropboxLink` | pages/Landing.tsx:46-48 | For a share link whose host and `?dl=0` are the first of their kind, the host is swapped and the flag dropped, with the rest kept. |
| `Views.EmbedDriveLink` | pages/StudentPortal.tsx:124-127 | A Drive link has its first `/view` turned into `/preview`, with the rest kept. |
| `Views.EmbedDriveWithoutView` | pages/Landing.tsx:49-52 | A Drive link without `/view` is unchanged. |
| `Views.ToggleExpansion` | pages/StudentPortal.tsx:88-98 | The id's membership flips and every other id is kept. |
| `Views.ToggleExpansionTwice` | pages/Dashboard.tsx:89-99 | Toggling twice restores the set. |
| `Views.ToggleExpansionCommutes` | pages/StudentPortal.tsx:88-98 | Toggles of two cards commute. |
| `Views.DisplayedVideos` | pages/StudentPortal.tsx:290 | A card shows `videoUrls` when it is non-empty, else `[videoUrl]`, so never nothing. |
| `Views.DisplayedComposed` | pages/Dashboard.tsx:684-685 | A fetched session's card shows its composed list. It falls back only when that list is empty, and then the primary is blank. |
| `Landing.Highlights` | pages/Landing.tsx:26-29 | Exactly the highlighted sessions with a video (`videoUrl` longer than 5 or a non-empty list), each as often as fetched and in fetched order. |
| `Landing.WithVideo` | pages/Landing.tsx:33-34 | Exactly the sessions with a video, each as often as fetched and in fetched order. |
| `Landing.CarouselSessions` | pages/Landing.tsx:25-38 | Always in fetched order. When a highlight exists, exactly the highlights, each as often as fetched. Otherwise at most 5 non-highlighted sessions with a video. |
| `Landing.CarouselFallbackIsPrefix` | pages/Landing.tsx:32-36 | The fallback is the start of the sessions with a video, in fetched order, and all of them when fewer than 5. |
| `Landing.CarouselFallbackFull` | pages/Landing.tsx:33-35 | With at least 5 candidates the fallback holds 5. |
| `Landing.ActivitySlice` | pages/Landing.tsx:22 | The first `min(3, n)` activities. |
| `Landing.Next` | pages/Landing.tsx:59-61 | Stays below n, steps forward, and wraps from the last slide to 0. |
| `Landing.Prev` | pages/Landing.tsx:63-65 | Stays below n, steps back, and wraps from 0 to the last slide. |
| `Landing.NextPrevInverse` | pages/Landing.tsx:59-65 | Next and previous undo each other. |
| `Landing.CurrentIsFirstDisplayed` | pages/Landing.tsx:71-76 | The slide's URL is the first of the videos its card would show. |
| `Landing.CurrentHasVideo` | pages/Landing.tsx:71-76 | On a carousel the page built, the slide has a non-empty URL or a non-empty list. |
| `Landing.FindClass` | pages/Landing.tsx:68 | Returns the first class with the key, or none when no class has it. |
| `Landing.ClassName` | pages/Landing.tsx:67-69 | The matching class's name when it is not empty; `General` when there is no match or the name is empty. Never empty. |
| `Portal.ToggleMonth` | pages/StudentPortal.tsx:80-86 | A present month is removed, with the others kept in order. An absent one is appended. |
| `Portal.WithoutSubseq` | pages/StudentPortal.tsx:83 | Removing a month keeps the others in their order. |
| `Portal.ToggleMonthTwice` | pages/StudentPortal.tsx:80-86 | Selecting and then unselecting a month restores the selection. |
| `Portal.ToggleMonthDistinct` | pages/StudentPortal.tsx:80-86 | Toggling never duplicates a month. |
| `Portal.SessionsOfClass` | pages/StudentPortal.tsx:102 | Exactly the class's sessions, each as often as fetched and in fetched order. |
| `Portal.CurrentClassSessions` | pages/StudentPortal.tsx:101-103 | Empty when no class is selected. Otherwise exactly the selected class's sessions, each as often as fetched and in fetched order. |
| `Portal.MonthKey` | pages/StudentPortal.tsx:107 | The first 7 characters of the date, or the whole date when shorter. |
| `Portal.Sort` | pages/StudentPortal.tsx:108 | `.sort()` on distinct strings: ascending in string order, with the same elements. |
| `Portal.AvailableMonths` | pages/StudentPortal.tsx:106-108 | Each month of the current sessions exactly once, in strictly descending order. |
| `Portal.ReversedAscending` | pages/StudentPortal.tsx:108 | `.reverse()` of the ascending list is descending and distinct. |
| `Portal.AvailableMonthsUnique` | pages/StudentPortal.tsx:106-108 | Any descending list of exactly those months is `availableMonths`. |
| `Portal.SessionsInMonths` | pages/StudentPortal.tsx:113 | Exactly the sessions whose month is selected, each as often as listed and in their relative order. |
| `Portal.FilteredSessions` | pages/StudentPortal.tsx:111-114 | No selected month shows all. Otherwise exactly the sessions of the selected months, each as often as listed and in their relative order. |
| `Portal.AllMonthsShowAll` | pages/StudentPortal.tsx:106-114 | Selecting every chip shows the same list as selecting none, for any list of sessions. |
| `Portal.SelectClass` | pages/StudentPortal.tsx:64-69 | Selects the class and opens the sessions tab. Clears the months and the expanded set, and leaves the roster. |
| `Portal.BackToClasses` | pages/StudentPortal.tsx:71-78 | Clears the class, the roster, the months and the expanded set. |
| `Portal.SelectShowsWholeClass` | pages/StudentPortal.tsx:64-69 | Right after selecting, the whole class is listed. |
| `Portal.BackShowsNothing` | pages/StudentPortal.tsx:71-75 | After going back, no session and no month is offered. |
| `Gemini.NonEmpty` | services/gemini.ts:105 | Exactly the non-empty lines. |
| `Gemini.NameLinesClean` | services/gemini.ts:105 | Every extracted name is non-empty, has no white space at either end and contains no line break. |
| `Gemini.NamesRoundTrip` | services/gemini.ts:105 | Clean names written one per line and then extracted give the same names back. |
| `Gemini.NamesOfLines` | services/gemini.ts:105 | Names come line by line, in order, and blank lines give none. |
| `Gemini.ExtractStudentNames` | services/gemini.ts:85-110 | A missing client gives "AI Service Unavailable". An SDK failure is rethrown with the extractor's prefix. A reply gives its name lines. |
| `Gemini.CleanHasNoFence` | services/gemini.ts:146-147 | No "```" is left after the cleanup. |
| `Gemini.FencedReply` | services/gemini.ts:147 | A fenced JSON block without back-ticks or padding cleans to its body. |
| `Gemini.ExtractGrades` | services/gemini.ts:112-154 | A missing client gives "AI Service Unavailable". An SDK or parse failure gets the grade prefix. A successful parse of the cleaned text is the result, and every success is one. |
| `Dashboard.FirstFailureFrom` | pages/Dashboard.tsx:212-228 | Finds the first entry at or after the given position whose upload returns nothing or `''`, or none when no later entry fails. |
| `Dashboard.ResolvedUrls` | pages/Dashboard.tsx:211-229 | Resolved URL i is entry i's link, or its upload's result. |
| `Dashboard.UploadPositionsExact` | pages/Dashboard.tsx:216-217 | The uploads asked for are exactly the file entries, in order. |
| `Dashboard.ResolvePending` | pages/Dashboard.tsx:211-229 | Resolves in order. With no failure it returns every URL and has uploaded every file. With one, it stops at the first failure, naming its display, with only the files up to it uploaded. |
| `Dashboard.ResolvedUploadsAreReal` | pages/Dashboard.tsx:217-222 | Without a failure, every file resolves to a non-empty upload result. |
| `Dashboard.LinksResolveToThemselves` | pages/Dashboard.tsx:213-214 | Links pass through and ask for no upload. |
| `Dashboard.DraftOf` | pages/Dashboard.tsx:231-244 | The `saveSession` argument: the resolved list, optional texts as `''`, highlight `\|\| false`, and the key only when set. |
| `Dashboard.ApplySaved` | pages/Dashboard.tsx:248-254 | An edit replaces the session with the saved key in place. A creation prepends the saved session. |
| `Dashboard.ApplyEditKeepsOthers` | pages/Dashboard.tsx:251 | An edit keeps every other session. |
| `Dashboard.HandleCreateSession` | pages/Dashboard.tsx:196-266 | A missing title, class or date, or an empty pending list, returns before any upload or write. A failed upload aborts with no write. Otherwise it makes one `saveSession`, and the list is updated only when a session comes back. |
| `Dashboard.OpenForEdit` | pages/Dashboard.tsx:129-150 | The form takes every field the handler copies: key, class, title, description, date, PDF link, notes and highlight flag. Every stored URL becomes a link entry, in order. |
| `Dashboard.OpenForCreate` | pages/Dashboard.tsx:151-159 | The selected class, today's date, not highlighted, no videos. |
| `Dashboard.ResaveNeedsNoUpload` | pages/Dashboard.tsx:129-150 | Re-saving an opened session asks for no upload and sends its list back unchanged, under its key, with its description, and with its PDF link and notes (`''` when absent). |
| `Dashboard.ResaveWithoutListBlocked` | pages/Dashboard.tsx:144 | A session without a list opens with no video entries. |
| `Dashboard.MatchIndex` | pages/Dashboard.tsx:481 | Finds the first roster position whose lower-cased, trimmed name equals the sheet name's, or none when no position matches. |
| `Dashboard.FindMatch` | pages/Dashboard.tsx:481 | `find` returns the student at that first position. |
| `Dashboard.MatchIgnoresCaseAndBlanks` | pages/Dashboard.tsx:481 | "  jane DOE " matches "Jane Doe". |
| `Dashboard.MatchNeedsSameLetters` | pages/Dashboard.tsx:481 | "J. Doe" does not match "Jane Doe". |
| `Dashboard.MatchUsesNormalForm` | pages/Dashboard.tsx:481 | A sheet name matches only through its lower-cased, trimmed form: matching the name and matching its normal form give the same position. |
| `Dashboard.NormalizeIdempotent` | pages/Dashboard.tsx:481 | The normal form of a normal form is itself. |
| `Dashboard.MergeNoteIdempotent` | pages/Dashboard.tsx:486-488 | Merging is idempotent: scanning the same grade again after a merge changes nothing. A positive sheet grade wins, a non-positive one keeps the roster's value, and a new student gets 0 (`MergeNote`). |
| `Dashboard.MergePayload` | pages/Dashboard.tsx:483-493 | The sheet name verbatim and the selected class. The key is set exactly when a match exists, and then it is the match's key. |
| `Dashboard.UnmatchedRowIsNew` | pages/Dashboard.tsx:483-493 | An unmatched row is sent without a key, with its non-negative grades verbatim. |
| `Dashboard.MatchedRowMerges` | pages/Dashboard.tsx:486-493 | A matched row carries the match's key and merges each grade. |
| `Dashboard.TempMatchInserts` | pages/Dashboard.tsx:491-495 | A match that was never saved (`temp-` key) is sent without a key, so it is inserted anew. |
| `Dashboard.MergePlan` | pages/Dashboard.tsx:480-494 | One payload per sheet row, in sheet order, all matched against the pre-merge roster. |
| `Dashboard.MergeScannedData` | pages/Dashboard.tsx:474-508 | Without a class it does nothing. Otherwise it sends exactly `MergePlan`, each upsert in turn, and then fetches the roster again. |
| `Dashboard.RemoveStudent` | pages/Dashboard.tsx:446 | Exactly the students with another key, each as often as listed and in their order. |
| `Dashboard.HandleDeleteStudent` | pages/Dashboard.tsx:444-451 | A `temp-` row is dropped locally with no call. Any other row is dropped when the delete succeeds. |
| `Dashboard.RemoveClass` | pages/Dashboard.tsx:124 | Exactly the classes with another key, each as often as listed and in their order. |
| `Dashboard.SessionsNotOfClass` | pages/Dashboard.tsx:125 | Exactly the sessions of other classes, each as often as listed and in their order. |
| `Dashboard.HandleDeleteClass` | pages/Dashboard.tsx:121-127 | After a successful delete the class and its sessions leave the lists. Otherwise nothing changes. |
| `Strings.Trim` | services/store.ts:146 | `trim()` has no white space at either end. |
| `Strings.BlankIffAllSpace` | services/store.ts:146 | `trim() === ''` holds exactly when every character is white space. |
| `Strings.TrimPadded` | pages/Dashboard.tsx:481 | Trimming removes exactly the padding around a string with non-space ends. |
| `Strings.ToLower` | pages/Dashboard.tsx:481 | Lower-cases character by character and keeps the length. |
| `Strings.IndexOf` | pages/Dashboard.tsx:407 | Returns the first occurrence, or none when there is no occurrence. |
| `Strings.ReplaceFirst` | pages/Dashboard.tsx:408 | `replace` with a string pattern changes only the first occurrence. |
| `Strings.ReplaceFirstAt` | pages/Dashboard.tsx:412 | Replacing at a known first occurrence keeps both sides. |
| `Strings.Split` | services/gemini.ts:105 | The pieces contain no separator, and there is at least one piece. |
| `Strings.JoinSplit` | services/gemini.ts:105 | Joining the pieces of a split gives the text back. |
| `Strings.SplitJoin` | services/gemini.ts:105 | Splitting joined separator-free pieces gives the pieces back. |
| `Strings.LexLessTransitive` | pages/StudentPortal.tsx:108 | String order is transitive. |
| `Strings.LexLessTotal` | pages/StudentPortal.tsx:108 | String order is total on distinct strings. |
| `Seqs.Filter` | services/store.ts:146 | `filter` keeps exactly the passing elements, as often as they occur. |
| `Seqs.FilterSubseq` | services/store.ts:141 | `filter` keeps relative order. |
| `Seqs.FilterConcat` | services/store.ts:146 | `filter` distributes over concatenation. |
| `Seqs.Dedupe` | services/store.ts:149 | `[...new Set(s)]` has no duplicate and the same members. |
| `Seqs.DedupeCons` | services/store.ts:149 | The first occurrence is kept and later copies go. |
| `Seqs.DedupeDistinct` | services/store.ts:149 | A list without duplicates is unchanged. |
| `Seqs.Reverse` | pages/StudentPortal.tsx:108 | `reverse()` maps positions i and n-1-i. |

## Left out

- Network and storage I/O (Supabase, the storage bucket, the AI SDK) are not modelled. The model takes their results or errors as parameters: `fault`, `faults`, `newId`, `upload`, `AiReply` and `parse`.
- Concurrency (`Promise.all` fetches, `async` interleavings) is not modelled; the fetched data are inputs.
- The React layer is not modelled: JSX, modals, effects and the spinner flags.
- App.tsx, components/Navbar.tsx, pages/ActivityDetails.tsx and pages/StudentProfile.tsx are not part of this model. They hold routing, presentation and a password comparison.
- `uploadSessionVideo` is not modelled. Its file naming uses the clock and randomness, and its alerts and public-URL lookup are I/O. It is replaced by the `upload` oracle, indexed by the position of the pending entry. A thrown upload and a null one both count as failure, as the caller treats them alike.
- `JSON.parse` is the `parse` parameter, and its rows are taken as integer grades.
- `generateSessionContent`, `getApiKey`, the prompts, `fileToBase64`, `compressImage` and FileReader are not modelled. They are SDK calls, environment lookups and browser image I/O.
- `calculateAverage` (float division and `toFixed`) and `formatMonthLabel` (locale dates) are not modelled.
- `getClasses`, `getClass`, `saveClass`, `deleteSession`, `getStudent`, `getActivities`, `getActivity` and `deleteActivity` are not modelled. They are single queries with no logic beyond the mappers and the error branches shown by the modelled calls.
- `console.log` payload-size messages and the extra "saved without highlight" warnings are not stated in contracts. The rows record notices only where they decide behaviour.
- `Store.NoDataAlert` is the first line of the multi-line RLS alert text.
- `Store.Database.GetStudents`: the database's ordering by name is not modelled; students come back in table order.
- `Store.Database.GetSessions`: "newest first" is taken as the reverse of the table order, standing in for `created_at` descending. Child rows are assumed to come back in insertion order, which the query does not request.
- `Store.MapSessionFromDB`: a NULL `class_id`, `title` or `date` reads as `''`, where JavaScript would keep `null`.
- `Store.MapStudentFromDB`: a NULL `class_id` reads as `''`, where JavaScript would keep `null`. Stored grades are integers, so a fractional `Number(data.note1)` (and the other two grades) is not represented.
- `Store.MapActivityFromDB`: a NULL `title` or `date` reads as `''`, where JavaScript would keep `null`.
- Stored student grades are integers throughout (`StudentRow`, `Student`, `StudentDraft`); the JavaScript numbers could be fractional.
- `Strings.ToLower`: only ASCII letters are folded. `toLowerCase` folds all of Unicode.
- `Strings.IsSpace`: characters are code points, whereas JavaScript strings are UTF-16 code units. The two agree on the Basic Multilingual Plane.
- `Portal.Sort` is proved only for the distinct strings it is applied to, which come from a `Set`.
- `Landing.Next`: requires a non-empty carousel. The buttons are shown only when there is more than one slide; with an empty carousel JavaScript would compute `NaN`.
- `Landing.Prev`: requires a non-empty carousel, for the same reason as `Landing.Next`.
- The activity size guard of the dashboard form is not modelled; it is a UI check outside the store.
- Pending-video ids and `handleRemovePendingVideo` are not modelled. They only identify list entries in the form.
