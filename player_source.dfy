/**
 * How the video player chooses what to render for a video URL: a media.cm video (embedded,
 * or, on a development host, a thumbnail that opens a popup), another embeddable URL in an
 * iframe, or a direct media file in the custom player.
 */
module PlayerSource {
  import opened JsStrings

  const MediaCmMarker := "media.cm/"

  /** The URLs derived from a media.cm video id. */
  function EmbedUrl(id: string): string { "https://media.cm/e/" + id }
  function MediaUrl(id: string): string { "https://media.cm/" + id }
  function DefaultThumbnail(id: string): string { "https://i.media.cm/" + id + "_t.jpg" }

  /**
   * The media.cm video id: the text after the last `media.cm/`, cut at the first `?`, then
   * at the first `#`, with the first `e/` anywhere in what remains removed.
   */
  function MediaCmId(url: string): string {
    ReplaceFirst(FirstPiece(FirstPiece(LastPiece(url, MediaCmMarker), "?"), "#"), "e/", "")
  }

  /** The development-host test: only after mounting, and only for `localhost` or `127.0.0.1`. */
  predicate IsLocalhost(mounted: bool, hostname: string) {
    mounted && (hostname == "localhost" || hostname == "127.0.0.1")
  }

  /** The element the player renders. */
  datatype View =
    | Popup(thumbnailUrl: string, opens: string)  // a thumbnail; a click opens `opens` in a popup
    | Iframe(src: string)                         // an embedded page
    | Custom(src: string)                         // the custom player with the click gate

  /** `thumbnail || fallback`. */
  function ThumbnailOr(thumbnail: string, fallback: string): string {
    if thumbnail != "" then thumbnail else fallback
  }

  /** The branch the component takes, for its props and its host. */
  function Render(url: string, thumbnail: string, mounted: bool, hostname: string): View {
    if Includes(url, MediaCmMarker) then
      var id := MediaCmId(url);
      if IsLocalhost(mounted, hostname) then Popup(ThumbnailOr(thumbnail, DefaultThumbnail(id)), MediaUrl(id))
      else Iframe(EmbedUrl(id))
    else if Includes(url, "/e/") || Includes(url, "embed") then Iframe(url)
    else Custom(url)
  }

  /**
   * The rendering described by occurrences in the URL: a media.cm URL always goes through its
   * id, never the URL itself; other embeds are framed as given; everything else (and only
   * that) gets the custom player, the one place the click gate applies.
   */
  lemma RenderCases(url: string, thumbnail: string, mounted: bool, hostname: string)
    ensures var v := Render(url, thumbnail, mounted, hostname);
      var mediaCm := exists i :: OccursAt(url, MediaCmMarker, i);
      var embedLike := (exists i :: OccursAt(url, "/e/", i)) || (exists i :: OccursAt(url, "embed", i));
      && (v.Custom? <==> !mediaCm && !embedLike)
      && (v.Custom? ==> v.src == url)
      && (v.Popup? <==> mediaCm && IsLocalhost(mounted, hostname))
      && (v.Popup? ==> v.opens == MediaUrl(MediaCmId(url)))
      && (v.Popup? && thumbnail != "" ==> v.thumbnailUrl == thumbnail)
      && (v.Popup? && thumbnail == "" ==> v.thumbnailUrl == DefaultThumbnail(MediaCmId(url)))
      && (v.Iframe? && mediaCm ==> v.src == EmbedUrl(MediaCmId(url)))
      && (v.Iframe? && !mediaCm ==> v.src == url && embedLike)
  {
    IncludesIff(url, MediaCmMarker);
    IncludesIff(url, "/e/");
    IncludesIff(url, "embed");
  }

  /** The id never carries a query string or a fragment marker. */
  lemma MediaCmIdClean(url: string)
    ensures '?' !in MediaCmId(url) && '#' !in MediaCmId(url)
  {
    var tail := LastPiece(url, MediaCmMarker);
    var q := FirstPiece(tail, "?");
    var h := FirstPiece(q, "#");
    FirstPieceExcludes(tail, '?');
    FirstPieceExcludes(q, '#');
    FirstPieceChars(q, "#");
    RemoveFirstChars(h, "e/");
  }

  /** The marker cannot overlap itself, so its last occurrence is found where it was put. */
  lemma MarkerNoSelfOverlap()
    ensures NoSelfOverlap(MediaCmMarker)
  {
    forall k | 0 < k < |MediaCmMarker|
      ensures MediaCmMarker[k..] != MediaCmMarker[..|MediaCmMarker| - k]
    {
      // every suffix ends in '/', which occurs only at the end of the marker
      assert MediaCmMarker[..|MediaCmMarker| - k][|MediaCmMarker| - k - 1] != '/';
    }
  }

  /** The text after a query or fragment marker never reaches the id. */
  predicate Trailer(noise: string) {
    noise == "" || noise[0] == '?' || noise[0] == '#'
  }

  /**
   * The id is recovered from every URL the app links to: anything, then `media.cm/`, then an
   * optional `e/`, then an id that holds no `?`, `#` or `e/`, then an optional query or
   * fragment; no later `media.cm/` may follow.
   */
  lemma MediaCmIdRecovered(prefix: string, embed: bool, id: string, noise: string)
    requires '?' !in id && '#' !in id && !Includes(id, "e/")
    requires Trailer(noise)
    requires !Includes((if embed then "e/" else "") + id + noise, MediaCmMarker)
    ensures MediaCmId(prefix + MediaCmMarker + (if embed then "e/" else "") + id + noise) == id
  {
    var lead := if embed then "e/" else "";
    var body := lead + id;
    var tail := lead + id + noise;
    assert tail == body + noise;
    assert prefix + MediaCmMarker + lead + id + noise == prefix + MediaCmMarker + tail;
    MarkerNoSelfOverlap();
    LastPieceAfter(prefix, MediaCmMarker, tail);
    assert '?' !in body && '#' !in body;
    TrailerCut(body, noise);
    if embed {
      RemoveLeading("e/", id);
    } else {
      assert body == id;
      ReplaceAbsent(id, "e/", "");
    }
  }

  /** Cutting at the first `?` and then at the first `#` drops exactly the trailer. */
  lemma TrailerCut(body: string, noise: string)
    requires '?' !in body && '#' !in body && Trailer(noise)
    ensures FirstPiece(FirstPiece(body + noise, "?"), "#") == body
  {
    if noise == "" {
      assert body + noise == body;
      FirstPieceWhole(body, '?');
      FirstPieceWhole(body, '#');
    } else if noise[0] == '?' {
      assert body + noise == body + ['?'] + noise[1..];
      FirstPieceBefore(body, '?', noise[1..]);
      FirstPieceWhole(body, '#');
    } else {
      FirstPieceAppend(body, '?', noise);
      assert noise == ['#'] + noise[1..];
      FirstPieceAppend(['#'], '?', noise[1..]);
      var q := FirstPiece(noise[1..], "?");
      assert FirstPiece(body + noise, "?") == body + ['#'] + q;
      FirstPieceBefore(body, '#', q);
    }
  }

  /** The URL the admin pastes for the embed page yields the bare id. */
  lemma EmbedLinkExample()
    ensures MediaCmId("https://media.cm/e/abc123?x=1") == "abc123"
  {
    assert MediaCmMarker[5] == '.';
    MissingCharNotIncluded("e/abc123?x=1", MediaCmMarker, 5);
    MissingCharNotIncluded("abc123", "e/", 1);
    EmbedLinkParts();
    MediaCmIdRecovered("https://", true, "abc123", "?x=1");
  }

  /** The example link, cut into the parts of the shape `MediaCmIdRecovered` handles. */
  lemma EmbedLinkParts()
    ensures "https://media.cm/e/abc123?x=1" == "https://" + MediaCmMarker + "e/" + "abc123" + "?x=1"
  {
  }
}
