/** The public landing page (pages/Landing.tsx): which sessions the video carousel shows,
    how its index moves, and the labels it reads. */
module Landing {
  import opened Wrappers
  import opened Types
  import opened Views
  import opened Seqs

  /** A session the carousel can play: a legacy link longer than five characters, or a
      non-empty video list. */
  predicate HasVideo(s: Session)
  {
    |s.videoUrl| > 5 || (s.videoUrls.Some? && |s.videoUrls.value| > 0)
  }

  predicate PlayableHighlight(s: Session)
  {
    s.isHighlight && HasVideo(s)
  }

  /** The highlighted sessions that have a video, each as often as fetched and in fetched
      order. */
  function Highlights(sessions: seq<Session>): (r: seq<Session>)
    ensures forall s :: s in r <==> s in sessions && s.isHighlight && HasVideo(s)
    ensures forall s :: multiset(r)[s] == if s.isHighlight && HasVideo(s) then multiset(sessions)[s] else 0
    ensures IsSubseq(r, sessions)
    ensures |r| <= |sessions|
  {
    FilterSubseq(sessions, PlayableHighlight);
    Filter(sessions, PlayableHighlight)
  }

  /** The sessions that have a video, each as often as fetched and in fetched order. */
  function WithVideo(sessions: seq<Session>): (r: seq<Session>)
    ensures forall s :: s in r <==> s in sessions && HasVideo(s)
    ensures forall s :: multiset(r)[s] == if HasVideo(s) then multiset(sessions)[s] else 0
    ensures IsSubseq(r, sessions)
    ensures |r| <= |sessions|
  {
    FilterSubseq(sessions, HasVideo);
    Filter(sessions, HasVideo)
  }

  /** The carousel: the highlighted sessions with a video; when there is none, the first
      five sessions with a video. */
  function CarouselSessions(sessions: seq<Session>): (r: seq<Session>)
    ensures forall s :: s in r ==> s in sessions && HasVideo(s)
    ensures IsSubseq(r, sessions)
    ensures (exists s :: s in sessions && s.isHighlight && HasVideo(s)) ==>
      (forall s :: s in r <==> s in sessions && s.isHighlight && HasVideo(s)) &&
      forall s :: multiset(r)[s] == if s.isHighlight && HasVideo(s) then multiset(sessions)[s] else 0
    ensures !(exists s :: s in sessions && s.isHighlight && HasVideo(s)) ==>
      |r| <= 5 && forall s :: s in r ==> !s.isHighlight
  {
    var highlights := Highlights(sessions);
    if |highlights| == 0 then
      var all := WithVideo(sessions);
      var r := if |all| <= 5 then all else all[..5];
      assert forall s :: s in r ==> s in all;
      PrefixSubseq(all, sessions, |r|);
      assert all[..|r|] == r;
      r
    else
      assert highlights[0] in highlights;
      highlights
  }

  /** The fallback keeps the order of the feed: it is the start of the sessions with video. */
  lemma CarouselFallbackIsPrefix(sessions: seq<Session>)
    requires Highlights(sessions) == []
    ensures var r := CarouselSessions(sessions);
      r == WithVideo(sessions)[..|r|] && (|r| < 5 ==> r == WithVideo(sessions))
  {
  }

  /** With more than five playable sessions and no highlight, the carousel holds five. */
  lemma CarouselFallbackFull(sessions: seq<Session>)
    requires Highlights(sessions) == [] && |WithVideo(sessions)| >= 5
    ensures |CarouselSessions(sessions)| == 5
  {
  }

  /** `fetchedActivities.slice(0, 3)`. */
  function ActivitySlice(activities: seq<Activity>): (r: seq<Activity>)
    ensures |r| == if |activities| < 3 then |activities| else 3
    ensures r == activities[..|r|]
  {
    if |activities| < 3 then activities else activities[..3]
  }

  /** `nextVideo`. */
  function Next(i: nat, n: nat): (r: nat)
    requires n > 0
    ensures r < n
    ensures i < n - 1 ==> r == i + 1
    ensures i == n - 1 ==> r == 0
  {
    (i + 1) % n
  }

  /** `prevVideo`. */
  function Prev(i: nat, n: nat): (r: nat)
    requires n > 0
    ensures r < n
    ensures 0 < i < n ==> r == i - 1
    ensures i == 0 ==> r == n - 1
  {
    (i - 1 + n) % n
  }

  /** Stepping forward and back again returns to the same slide, and back then forward too. */
  lemma NextPrevInverse(i: nat, n: nat)
    requires i < n
    ensures Prev(Next(i, n), n) == i
    ensures Next(Prev(i, n), n) == i
  {
  }

  /** `getCurrentVideoUrl`: nothing past the end; otherwise the first of the session's list,
      or its legacy link. */
  function CurrentVideoUrl(carousel: seq<Session>, i: nat): (r: string)
  {
    if i >= |carousel| then ""
    else
      var s := carousel[i];
      if s.videoUrls.Some? && |s.videoUrls.value| > 0 then s.videoUrls.value[0] else s.videoUrl
  }

  /** The slide plays the first of the videos a session card shows. */
  lemma CurrentIsFirstDisplayed(carousel: seq<Session>, i: nat)
    requires i < |carousel|
    ensures CurrentVideoUrl(carousel, i) == DisplayedVideos(carousel[i])[0]
  {
  }

  /** On a carousel the page built, the slide always has a video: a non-empty list entry
      or a legacy link longer than five characters. */
  lemma CurrentHasVideo(sessions: seq<Session>, i: nat)
    requires i < |CarouselSessions(sessions)|
    ensures var s := CarouselSessions(sessions)[i];
      CurrentVideoUrl(CarouselSessions(sessions), i) != "" || (s.videoUrls.Some? && |s.videoUrls.value| > 0)
  {
    var c := CarouselSessions(sessions);
    assert c[i] in c;
  }

  /** The first class with the given key, if any. */
  function FindClass(classes: seq<ClassGroup>, classId: string): (r: Option<ClassGroup>)
    ensures r.Some? ==> r.value in classes && r.value.id == classId
    ensures r.None? ==> forall c :: c in classes ==> c.id != classId
    ensures r.Some? ==> exists k :: 0 <= k < |classes| && classes[k] == r.value &&
                                     forall j :: 0 <= j < k ==> classes[j].id != classId
    decreases |classes|
  {
    if |classes| == 0 then None
    else if classes[0].id == classId then Some(classes[0])
    else
      var r := FindClass(classes[1..], classId);
      if r.Some? then
        var k :| 0 <= k < |classes[1..]| && classes[1..][k] == r.value &&
                 forall j :: 0 <= j < k ==> classes[1..][j].id != classId;
        assert classes[k + 1] == r.value;
        assert forall j :: 0 <= j < k + 1 ==> classes[j].id != classId by {
          forall j | 0 <= j < k + 1
            ensures classes[j].id != classId
          {
            if j > 0 {
              assert classes[j] == classes[1..][j - 1];
            }
          }
        }
        r
      else r
  }

  /** `getClassName`: the name of the first class with that key, or `'General'` when there
      is none or its name is empty. */
  function ClassName(classes: seq<ClassGroup>, classId: string): (r: string)
    ensures r != ""
    ensures r == "General" || (FindClass(classes, classId).Some? && r == FindClass(classes, classId).value.name)
    ensures (forall c :: c in classes ==> c.id != classId) ==> r == "General"
    ensures FindClass(classes, classId).Some? && FindClass(classes, classId).value.name != "" ==>
      r == FindClass(classes, classId).value.name
  {
    match FindClass(classes, classId)
    case Some(c) => if c.name != "" then c.name else "General"
    case None => "General"
  }
}
