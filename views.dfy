/** View helpers that the teacher dashboard, the student portal and the landing page each
    define with the same body: the embeddable form of a video link, the expanded-session
    toggle and the list of videos a session card shows. */
module Views {
  import opened Wrappers
  import opened Strings
  import opened Seqs
  import opened Types
  import opened Store

  /** `getEmbedUrl`: a Dropbox link is pointed at the raw-content host with its `?dl=0`
      dropped, a Google Drive link is switched to its `/preview` page, and anything else is
      returned as it is. Each rewrite touches the first occurrence only. */
  function EmbedUrl(url: string): (r: string)
  {
    if url == "" then ""
    else if Contains(url, "dropbox.com") then
      ReplaceFirst(ReplaceFirst(url, "www.dropbox.com", "dl.dropboxusercontent.com"), "?dl=0", "")
    else if Contains(url, "drive.google.com") then ReplaceFirst(url, "/view", "/preview")
    else url
  }

  /** A link that is neither a Dropbox nor a Google Drive link is embedded unchanged, the
      empty link included. */
  lemma EmbedOtherUnchanged(url: string)
    requires !Contains(url, "dropbox.com") && !Contains(url, "drive.google.com")
    ensures EmbedUrl(url) == url
  {
  }

  /** A Drive link whose first `/view` follows `pre` has exactly that `/view` turned into
      `/preview`; the rest of the link is kept. */
  lemma EmbedDriveLink(pre: string, post: string)
    requires forall j :: 0 <= j < |pre| ==> !OccursAt(pre + "/view" + post, "/view", j)
    requires Contains(pre + "/view" + post, "drive.google.com")
    requires !Contains(pre + "/view" + post, "dropbox.com")
    ensures EmbedUrl(pre + "/view" + post) == pre + "/preview" + post
  {
    ReplaceFirstAt(pre, "/view", post, "/preview");
  }

  /** A Drive link with no `/view` in it is embedded unchanged. */
  lemma EmbedDriveWithoutView(url: string)
    requires Contains(url, "drive.google.com") && !Contains(url, "dropbox.com")
    requires !Contains(url, "/view")
    ensures EmbedUrl(url) == url
  {
  }

  /** A Dropbox share link `pre + "www.dropbox.com" + mid + "?dl=0" + post`, in which the
      host and the flag shown are the first of their kind, is embedded with the raw-content
      host and without the flag. */
  lemma EmbedDropboxLink(pre: string, mid: string, post: string)
    requires forall j :: 0 <= j < |pre| ==> !OccursAt(pre + "www.dropbox.com" + (mid + "?dl=0" + post), "www.dropbox.com", j)
    requires forall j :: 0 <= j < |pre + "dl.dropboxusercontent.com" + mid| ==>
      !OccursAt(pre + "dl.dropboxusercontent.com" + mid + "?dl=0" + post, "?dl=0", j)
    ensures EmbedUrl(pre + "www.dropbox.com" + (mid + "?dl=0" + post)) == pre + "dl.dropboxusercontent.com" + mid + post
  {
    var rest := mid + "?dl=0" + post;
    var swapped := pre + "dl.dropboxusercontent.com" + mid;
    DropboxHost(pre, rest);
    ReplaceFirstAt(pre, "www.dropbox.com", rest, "dl.dropboxusercontent.com");
    SameConcat(pre, "dl.dropboxusercontent.com", mid, "?dl=0", post);
    ReplaceFirstAt(swapped, "?dl=0", post, "");
    EmbedDropbox(pre + "www.dropbox.com" + rest);
  }

  lemma DropboxHost(pre: string, rest: string)
    ensures Contains(pre + "www.dropbox.com" + rest, "dropbox.com")
  {
    var url := pre + "www.dropbox.com" + rest;
    assert url[|pre| + 4..|pre| + 15] == "www.dropbox.com"[4..] == "dropbox.com";
    assert OccursAt(url, "dropbox.com", |pre| + 4);
  }

  lemma SameConcat(a: string, b: string, c: string, d: string, e: string)
    ensures a + b + (c + d + e) == (a + b + c) + d + e && (a + b + c) + "" + e == a + b + c + e
  {
  }

  lemma EmbedDropbox(url: string)
    requires Contains(url, "dropbox.com")
    ensures EmbedUrl(url) == ReplaceFirst(ReplaceFirst(url, "www.dropbox.com", "dl.dropboxusercontent.com"), "?dl=0", "")
  {
  }

  /** `toggleSessionExpansion`: flips whether `id` is expanded and leaves every other id as
      it was. */
  function ToggleExpansion(expanded: set<string>, id: string): (r: set<string>)
    ensures id in r <==> id !in expanded
    ensures forall x :: x != id ==> (x in r <==> x in expanded)
  {
    if id in expanded then expanded - {id} else expanded + {id}
  }

  /** Toggling the same card twice restores the set. */
  lemma ToggleExpansionTwice(expanded: set<string>, id: string)
    ensures ToggleExpansion(ToggleExpansion(expanded, id), id) == expanded
  {
  }

  /** Toggling two different cards commutes. */
  lemma ToggleExpansionCommutes(expanded: set<string>, a: string, b: string)
    ensures ToggleExpansion(ToggleExpansion(expanded, a), b) == ToggleExpansion(ToggleExpansion(expanded, b), a)
  {
    var l := ToggleExpansion(ToggleExpansion(expanded, a), b);
    var r := ToggleExpansion(ToggleExpansion(expanded, b), a);
    assert forall x :: x in l <==> x in r;
  }

  /** The players a session card shows: the whole list when there is one, otherwise the
      legacy primary video, even when that is empty. */
  function DisplayedVideos(s: Session): (r: seq<string>)
    ensures |r| > 0
    ensures s.videoUrls.Some? && |s.videoUrls.value| > 0 ==> r == s.videoUrls.value
    ensures !(s.videoUrls.Some? && |s.videoUrls.value| > 0) ==> r == [s.videoUrl]
  {
    if s.videoUrls.Some? && |s.videoUrls.value| > 0 then s.videoUrls.value else [s.videoUrl]
  }

  /** For a session read through `getSessions` the card shows the composed list; only a
      session whose primary and extras are all blank falls back to the (blank) primary. */
  lemma DisplayedComposed(row: SessionRow, extras: Option<seq<VideoRow>>)
    ensures var s := ComposeSession(row, extras);
      var composed := ComposeVideoUrls(s.videoUrl, RelatedUrls(extras, row.id));
      (|composed| > 0 ==> DisplayedVideos(s) == composed) &&
      (|composed| == 0 ==> DisplayedVideos(s) == [s.videoUrl] && !IsUsableUrl(s.videoUrl))
  {
  }
}
