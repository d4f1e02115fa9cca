/** The `Video` entity: the aggregate root the repository hands to the domain
    service. Its only domain logic is the watermark-free URL it carries once it
    has been processed. The class mutates that field in place; here setting it
    yields the updated value. */
module VideoEntity {
  import opened Wrappers
  import opened Strings

  datatype Video = Video(
    id: string,
    url: string,
    title: string,
    author: string,
    coverUrl: string,
    duration: int,
    noWatermarkUrl: Option<string>)

  /** `new Video(id, url, title, author, coverUrl, duration)`. */
  function NewVideo(id: string, url: string, title: string, author: string,
                    coverUrl: string, duration: int): (v: Video)
    ensures v.id == id && v.url == url && v.title == title
    ensures v.author == author && v.coverUrl == coverUrl && v.duration == duration
    ensures v.noWatermarkUrl == None
    ensures !IsProcessed(v)
  {
    Video(id, url, title, author, coverUrl, duration, None)
  }

  predicate IsProcessed(v: Video) {
    v.noWatermarkUrl.Some?
  }

  /** The rewrite `setNoWatermarkUrl` applies before it stores a URL: the first
      `playwm` becomes `play`, then the first `aweme.snssdk.com` becomes
      `aweme.amemv.com`. */
  function StoredUrl(u: string): string {
    ReplaceFirst(ReplaceFirst(u, "playwm", "play"), "aweme.snssdk.com", "aweme.amemv.com")
  }

  /** `video.setNoWatermarkUrl(u)`. */
  function SetNoWatermarkUrl(v: Video, u: string): (w: Video)
    ensures IsProcessed(w)
    ensures w.noWatermarkUrl == Some(StoredUrl(u))
    ensures w.id == v.id && w.url == v.url && w.title == v.title
    ensures w.author == v.author && w.coverUrl == v.coverUrl && w.duration == v.duration
  {
    v.(noWatermarkUrl := Some(StoredUrl(u)))
  }

  /** A URL without either marker is stored verbatim. */
  lemma StoredUrlWithoutMarkers(u: string)
    requires !Contains(u, "playwm") && !Contains(u, "aweme.snssdk.com")
    ensures StoredUrl(u) == u
  {
  }

  /** The rewrite never empties a URL, so a processed video that was given a
      non-empty URL keeps a non-empty one. */
  lemma StoredUrlNonEmpty(u: string)
    requires u != ""
    ensures StoredUrl(u) != ""
  {
    var once := ReplaceFirst(u, "playwm", "play");
    assert once != "" by {
      if Contains(u, "playwm") {
        var i: nat :| OccursAt(u, "playwm", i);
        assert |u| >= 6;
      }
    }
    if Contains(once, "aweme.snssdk.com") {
      var i: nat :| OccursAt(once, "aweme.snssdk.com", i);
      assert |once| >= 16;
    }
  }

  /** First-occurrence replacement removes the marker it rewrites only when the
      rewrite does not rebuild it: the URL `playplaywmwm` holds `playwm` once, and
      is stored as `playplaywm`, which still holds it. */
  lemma StoredUrlCanKeepMarker()
    ensures Contains(StoredUrl("playplaywmwm"), "playwm")
  {
    MarkerRebuilt();
    KeepsMarker("playplaywm");
  }

  /** A URL shorter than the host marker that holds `playwm` at index 4 passes
      the second rewrite unchanged and so still holds it. */
  lemma KeepsMarker(once: string)
    requires |once| < |"aweme.snssdk.com"| && OccursAt(once, "playwm", 4)
    ensures Contains(ReplaceFirst(once, "aweme.snssdk.com", "aweme.amemv.com"), "playwm")
  {
    ReplaceFirstAbsent(once, "aweme.snssdk.com", "aweme.amemv.com");
  }

  /** The leftmost `playwm` of `playplaywmwm` is at index 4; rewriting it leaves
      `playplaywm`. */
  lemma MarkerRebuilt()
    ensures ReplaceFirst("playplaywmwm", "playwm", "play") == "playplaywm"
  {
    var u := "playplaywmwm";
    LeftmostMarker();
    ReplaceFirstAt(u, "playwm", "play", 4);
    Spliced();
  }

  lemma LeftmostMarker()
    ensures OccursAt("playplaywmwm", "playwm", 4)
    ensures forall j: nat :: j < 4 ==> !OccursAt("playplaywmwm", "playwm", j)
  {
    var u := "playplaywmwm";
    forall j: nat | j < 4
      ensures !OccursAt(u, "playwm", j)
    {
      assert u[j + 5] != "playwm"[5];
    }
    assert u[4..10] == "playwm";
  }

  lemma Spliced()
    ensures "playplaywmwm"[..4] + "play" + "playplaywmwm"[10..] == "playplaywm"
  {
    var u := "playplaywmwm";
    assert u[..4] == "play";
    assert u[10..] == "wm";
  }
}
