/**
 * The "Add New Video" page: the form the admin fills in, the tag list it derives from the
 * comma-separated tags field, the JSON body it posts, and what the page does with the answer.
 */
module NewVideoForm {
  import opened Wrappers
  import opened JsStrings
  import opened ApiTypes
  import VideosApi

  // ---------------------------------------------------------------------------
  // The tags field: split at commas, trim each piece, keep the non-empty ones
  // ---------------------------------------------------------------------------

  /** `.map(t => t.trim())`. */
  function TrimAll(pieces: seq<string>): seq<string> {
    seq(|pieces|, k requires 0 <= k < |pieces| => Trim(pieces[k]))
  }

  /** `.filter(Boolean)` on strings: the non-empty entries, in order. */
  function NonEmpty(xs: seq<string>): (r: seq<string>)
    ensures |r| <= |xs|
  {
    if xs == [] then [] else (if xs[0] == "" then [] else [xs[0]]) + NonEmpty(xs[1..])
  }

  /** `r` is `xs` with some entries left out and the others in their order. */
  predicate IsSubsequence(r: seq<string>, xs: seq<string>)
    decreases |xs|
  {
    if r == [] then true
    else if xs == [] then false
    else if r[0] == xs[0] then IsSubsequence(r[1..], xs[1..])
    else IsSubsequence(r, xs[1..])
  }

  /**
   * What `filter(Boolean)` keeps, independently of how it scans: no empty string, every
   * non-empty string as often as in the input, in the input's order.
   */
  lemma {:induction false} NonEmptyKeeps(xs: seq<string>)
    ensures "" !in NonEmpty(xs)
    ensures forall x :: x != "" ==> multiset(NonEmpty(xs))[x] == multiset(xs)[x]
    ensures IsSubsequence(NonEmpty(xs), xs)
  {
    if xs != [] {
      NonEmptyKeeps(xs[1..]);
      assert xs == [xs[0]] + xs[1..];
      var rest := NonEmpty(xs[1..]);
      if xs[0] != "" {
        assert NonEmpty(xs) == [xs[0]] + rest;
        assert NonEmpty(xs)[1..] == rest;
      } else {
        assert NonEmpty(xs) == rest;
      }
    }
  }

  /** The filter yields nothing exactly when every entry is empty. */
  lemma {:induction false} NonEmptyNone(xs: seq<string>)
    ensures NonEmpty(xs) == [] <==> forall k :: 0 <= k < |xs| ==> xs[k] == ""
  {
    if xs != [] {
      NonEmptyNone(xs[1..]);
      assert forall k :: 1 <= k < |xs| ==> xs[k] == xs[1..][k - 1];
    }
  }

  /** The filter keeps a list with no empty entry as it is. */
  lemma {:induction false} NonEmptyAll(xs: seq<string>)
    requires forall k :: 0 <= k < |xs| ==> xs[k] != ""
    ensures NonEmpty(xs) == xs
  {
    if xs != [] {
      NonEmptyAll(xs[1..]);
    }
  }

  /** The tag list the form sends. */
  function ParseTags(s: string): seq<string> {
    NonEmpty(TrimAll(Split(s, ",")))
  }

  /** A tag as the form sends it: non-empty, with no surrounding whitespace and no comma. */
  predicate CleanTag(t: string) {
    t != [] && !IsWhitespace(t[0]) && !IsWhitespace(t[|t| - 1]) && ',' !in t
  }

  /** No piece of a split at commas holds a comma. */
  lemma PieceHasNoComma(s: string, j: nat)
    requires j < |Split(s, ",")|
    ensures ',' !in Split(s, ",")[j]
  {
    var piece := Split(s, ",")[j];
    SplitPiecesExcludeSeparator(s, ",", j);
    if ',' in piece {
      var i :| 0 <= i < |piece| && piece[i] == ',';
      OccursAtChar(piece, ',', i);
      IncludesIff(piece, ",");
    }
  }

  /** Every character of a piece is a character of the joined text. */
  lemma {:induction false} PieceCharsInJoin(pieces: seq<string>, sep: string, j: nat, c: char)
    requires j < |pieces| && c in pieces[j]
    ensures c in Join(pieces, sep)
    decreases j
  {
    if |pieces| > 1 {
      var rest := Join(pieces[1..], sep);
      assert Join(pieces, sep) == pieces[0] + sep + rest;
      if j > 0 {
        PieceCharsInJoin(pieces[1..], sep, j - 1, c);
      }
    }
  }

  /** A character of the joined text that is not in the separator lies in some piece. */
  lemma {:induction false} JoinCharInPiece(pieces: seq<string>, sep: string, c: char)
    requires pieces != [] && c in Join(pieces, sep) && c !in sep
    ensures exists j :: 0 <= j < |pieces| && c in pieces[j]
    decreases |pieces|
  {
    if |pieces| > 1 {
      var rest := Join(pieces[1..], sep);
      assert Join(pieces, sep) == pieces[0] + sep + rest;
      if c !in pieces[0] {
        JoinCharInPiece(pieces[1..], sep, c);
        var j :| 0 <= j < |pieces[1..]| && c in pieces[1..][j];
        assert c in pieces[j + 1];
      }
    }
  }

  /**
   * The parsed tags: each one clean, and exactly the non-empty trimmed pieces between commas,
   * as often as they occur and in the order they were typed.
   */
  lemma ParseTagsClean(s: string)
    ensures var pieces := TrimAll(Split(s, ","));
      var tags := ParseTags(s);
      && (forall k :: 0 <= k < |tags| ==> CleanTag(tags[k]))
      && IsSubsequence(tags, pieces)
      && (forall x :: x != "" ==> multiset(tags)[x] == multiset(pieces)[x])
  {
    var pieces := TrimAll(Split(s, ","));
    var tags := NonEmpty(pieces);
    NonEmptyKeeps(pieces);
    forall k | 0 <= k < |tags| ensures CleanTag(tags[k]) {
      KeptTagIsClean(s, tags, k);
    }
  }

  /** A non-empty piece of the split, trimmed, is a clean tag. */
  lemma TrimmedPieceIsClean(s: string, j: nat)
    requires j < |Split(s, ",")| && Trim(Split(s, ",")[j]) != ""
    ensures CleanTag(Trim(Split(s, ",")[j]))
  {
    var piece := Split(s, ",")[j];
    PieceHasNoComma(s, j);
    if ',' in Trim(piece) {
      TrimKeepsChars(piece, ',');
    }
  }

  /** Every entry the filter keeps comes from a non-empty trimmed piece, so it is clean. */
  lemma KeptTagIsClean(s: string, tags: seq<string>, k: nat)
    requires tags == NonEmpty(TrimAll(Split(s, ","))) && k < |tags|
    ensures CleanTag(tags[k])
  {
    var pieces := TrimAll(Split(s, ","));
    KeptEntry(pieces, k);
    var j :| 0 <= j < |pieces| && pieces[j] == tags[k];
    TrimmedPieceIsClean(s, j);
  }

  /** Each entry the filter keeps is a non-empty entry of its input. */
  lemma {:induction false} KeptEntry(xs: seq<string>, k: nat)
    requires k < |NonEmpty(xs)|
    ensures NonEmpty(xs)[k] != "" && NonEmpty(xs)[k] in xs
  {
    var rest := NonEmpty(xs[1..]);
    if xs[0] == "" {
      assert NonEmpty(xs) == rest;
      KeptEntry(xs[1..], k);
    } else if k > 0 {
      assert NonEmpty(xs) == [xs[0]] + rest;
      KeptEntry(xs[1..], k - 1);
    }
  }

  /** There are never more tags than comma-separated pieces. */
  lemma ParseTagsBound(s: string)
    ensures |ParseTags(s)| <= CountChar(s, ',') + 1
  {
    SplitCharCount(s, ',');
  }

  /** A field of nothing but commas and whitespace gives no tag. */
  lemma BlankTagsField(s: string)
    requires forall k :: 0 <= k < |s| ==> s[k] == ',' || IsWhitespace(s[k])
    ensures ParseTags(s) == []
  {
    var split := Split(s, ",");
    JoinSplit(s, ",");
    forall j | 0 <= j < |split| ensures TrimAll(split)[j] == "" {
      var piece := split[j];
      PieceHasNoComma(s, j);
      forall i | 0 <= i < |piece| ensures IsWhitespace(piece[i]) {
        PieceCharsInJoin(split, ",", j, piece[i]);
      }
      TrimEmptyIff(piece);
    }
    NonEmptyNone(TrimAll(split));
  }

  /** A field with any other character gives at least one tag. */
  lemma FilledTagsField(s: string, k: nat)
    requires k < |s| && s[k] != ',' && !IsWhitespace(s[k])
    ensures ParseTags(s) != []
  {
    var split := Split(s, ",");
    JoinSplit(s, ",");
    JoinCharInPiece(split, ",", s[k]);
    var j :| 0 <= j < |split| && s[k] in split[j];
    TrimEmptyIff(split[j]);
    assert TrimAll(split)[j] != "";
    NonEmptyNone(TrimAll(split));
  }

  /** No tag at all exactly when the field holds nothing but commas and whitespace. */
  lemma ParseTagsEmptyIff(s: string)
    ensures ParseTags(s) == [] <==> forall k :: 0 <= k < |s| ==> s[k] == ',' || IsWhitespace(s[k])
  {
    if forall k :: 0 <= k < |s| ==> s[k] == ',' || IsWhitespace(s[k]) {
      BlankTagsField(s);
    } else {
      var k :| 0 <= k < |s| && s[k] != ',' && !IsWhitespace(s[k]);
      FilledTagsField(s, k);
    }
  }

  /** Text cut at commas parses to its pieces, trimmed, with the empty ones left out. */
  lemma ParseJoined(pieces: seq<string>)
    requires pieces != [] && forall k :: 0 <= k < |pieces| ==> ',' !in pieces[k]
    ensures ParseTags(Join(pieces, ",")) == NonEmpty(TrimAll(pieces))
  {
    SplitJoin(pieces, ',');
  }

  /** Clean tags are their own trim. */
  lemma TrimAllClean(tags: seq<string>)
    requires forall k :: 0 <= k < |tags| ==> CleanTag(tags[k])
    ensures TrimAll(tags) == tags
  {
    forall k | 0 <= k < |tags| ensures Trim(tags[k]) == tags[k] {
      TrimFixed(tags[k]);
    }
  }

  /** Clean tags written with bare commas between them, as in `tag1,tag2`, parse back unchanged. */
  lemma ParseTagsJoin(tags: seq<string>)
    requires tags != [] && forall k :: 0 <= k < |tags| ==> CleanTag(tags[k])
    ensures ParseTags(Join(tags, ",")) == tags
  {
    ParseJoined(tags);
    TrimAllClean(tags);
    NonEmptyAll(tags);
  }

  /** Each tag with the space that follows a comma in `tag1, tag2, tag3`. */
  function Padded(tags: seq<string>): seq<string> {
    seq(|tags|, k requires 0 <= k < |tags| => " " + tags[k])
  }

  lemma {:induction false} JoinPadded(tags: seq<string>)
    requires tags != []
    ensures Join(Padded(tags), ",") == " " + Join(tags, ", ")
    decreases |tags|
  {
    if |tags| > 1 {
      JoinPadded(tags[1..]);
      assert Padded(tags)[1..] == Padded(tags[1..]);
    }
  }

  /** Joining with `", "` is joining with `","` after padding every tag but the first. */
  lemma JoinCommaSpace(tags: seq<string>)
    requires tags != []
    ensures Join(tags, ", ") == Join([tags[0]] + Padded(tags[1..]), ",")
  {
    var pieces := [tags[0]] + Padded(tags[1..]);
    if |tags| > 1 {
      JoinPadded(tags[1..]);
      assert pieces[1..] == Padded(tags[1..]);
      assert ", " == "," + " ";
    }
  }

  /** Trimming the padded tags gives the tags back. */
  lemma TrimPadded(tags: seq<string>)
    requires tags != [] && forall k :: 0 <= k < |tags| ==> CleanTag(tags[k])
    ensures var pieces := [tags[0]] + Padded(tags[1..]);
      && (forall k :: 0 <= k < |pieces| ==> ',' !in pieces[k])
      && TrimAll(pieces) == tags
  {
    var pieces := [tags[0]] + Padded(tags[1..]);
    forall k | 0 <= k < |pieces| ensures ',' !in pieces[k] && Trim(pieces[k]) == tags[k] {
      if k == 0 {
        TrimFixed(tags[0]);
      } else {
        assert pieces[k] == [' '] + tags[k];
        TrimLeadingSpace(tags[k]);
      }
    }
  }

  /** Clean tags typed as the field's placeholder suggests, `tag1, tag2, tag3`, parse back unchanged. */
  lemma ParseTagsJoinSpaced(tags: seq<string>)
    requires tags != [] && forall k :: 0 <= k < |tags| ==> CleanTag(tags[k])
    ensures ParseTags(Join(tags, ", ")) == tags
  {
    var pieces := [tags[0]] + Padded(tags[1..]);
    JoinCommaSpace(tags);
    TrimPadded(tags);
    ParseJoined(pieces);
    NonEmptyAll(tags);
  }

  // ---------------------------------------------------------------------------
  // The form and the body it posts
  // ---------------------------------------------------------------------------

  /** The form state; every field is text except the "Publish immediately" checkbox. */
  datatype FormData = FormData(
    title: string,
    description: string,
    videoUrl: string,
    thumbnailUrl: string,
    category: string,
    tags: string,
    published: bool)

  /** The form as the page first shows it. */
  const EmptyForm := FormData("", "", "", "", "", "", false)

  /** The text inputs (and the description textarea). */
  datatype TextField = Title | Description | VideoUrl | ThumbnailUrl | Category | Tags

  function Text(form: FormData, field: TextField): string {
    match field
    case Title => form.title
    case Description => form.description
    case VideoUrl => form.videoUrl
    case ThumbnailUrl => form.thumbnailUrl
    case Category => form.category
    case Tags => form.tags
  }

  /** A field's `onChange`: the form is copied with that one field replaced by the typed value. */
  function WithText(form: FormData, field: TextField, value: string): (r: FormData)
    ensures Text(r, field) == value
    ensures forall f :: f != field ==> Text(r, f) == Text(form, f)
    ensures r.published == form.published
  {
    match field
    case Title => form.(title := value)
    case Description => form.(description := value)
    case VideoUrl => form.(videoUrl := value)
    case ThumbnailUrl => form.(thumbnailUrl := value)
    case Category => form.(category := value)
    case Tags => form.(tags := value)
  }

  /** The JSON the page posts: every form field as it stands, with `tags` replaced by the parsed list. */
  function Payload(form: FormData): VideosApi.VideoBody {
    VideosApi.VideoBody(
      form.title,
      Some(form.description),
      form.videoUrl,
      form.thumbnailUrl,
      Some(form.category),
      Some(ParseTags(form.tags)),
      Some(form.published))
  }

  /**
   * What the admin typed is what the server stores: the created video carries the form's
   * title and URLs, an empty description is stored as none, the checkbox decides publication,
   * a category is attached exactly when one was typed, and there is one tag link per parsed tag.
   */
  lemma SubmittedFormCreates(db: VideosApi.Tables, form: FormData, userId: string, slugify: string -> string, now: int)
    requires VideosApi.TablesValid(db)
    ensures var (after, video) := VideosApi.Create(db, Payload(form), userId, slugify, now);
      && after.videos == db.videos + [video]
      && video.title == form.title && video.videoUrl == form.videoUrl && video.thumbnailUrl == form.thumbnailUrl
      && video.description == (if form.description == "" then None else Some(form.description))
      && video.published == form.published
      && (video.categoryId.Some? <==> form.category != "")
      && |after.links| == |db.links| + |ParseTags(form.tags)|
  {
    VideosApi.CreateFacts(db, Payload(form), userId, slugify, now);
  }

  // ---------------------------------------------------------------------------
  // The page
  // ---------------------------------------------------------------------------

  /** The two source tabs; the upload tab's file input is never read. */
  datatype UploadType = Url | Upload

  /** What the page asks of the browser. */
  datatype PageEffect =
    | PostVideo(body: VideosApi.VideoBody)  // the JSON POST to the videos endpoint
    | Navigate(path: string)                // `router.push`
    | Refresh                               // `router.refresh()`
    | Alert(message: string)                // `alert`
    | Back                                  // `router.back()`

  /** How the request ends: `response.ok`, a response that is not ok, or a thrown `fetch`. */
  datatype Response = Ok | NotOk | Threw

  const ListPath := "/admin/videos"

  /** The effects after the request, by how it ended. */
  function Outcome(response: Response): seq<PageEffect> {
    match response
    case Ok => [Navigate(ListPath), Refresh]
    case NotOk => [Alert("Failed to add video")]
    case Threw => [Alert("An error occurred")]
  }

  /** The page goes to the list exactly on an ok response; otherwise it shows one alert. */
  lemma OutcomeCases(response: Response)
    ensures Navigate(ListPath) in Outcome(response) <==> response == Ok
    ensures response != Ok ==> |Outcome(response)| == 1 && Outcome(response)[0].Alert?
  {
  }

  /** `response.ok` for the POST handler's reply: a status from 200 to 299. */
  function ResponseOf(reply: VideosApi.PostReply): Response {
    if 200 <= reply.status < 300 then Ok else NotOk
  }

  class NewVideoPage {
    var form: FormData
    var loading: bool
    var uploadType: UploadType
    var effects: seq<PageEffect>

    constructor ()
      ensures form == EmptyForm && !loading && uploadType == Url && effects == []
    {
      form := EmptyForm;
      loading := false;
      uploadType := Url;
      effects := [];
    }

    /** The `onChange` of a text input or of the description: only that field changes. */
    method Edit(field: TextField, value: string)
      modifies this`form
      ensures form == WithText(old(form), field, value)
    {
      form := WithText(form, field, value);
    }

    /** The checkbox's `onChange`: `published` takes `checked`. */
    method SetPublished(checked: bool)
      modifies this`form
      ensures form == old(form).(published := checked)
    {
      form := form.(published := checked);
    }

    /** One of the two source buttons. */
    method ChooseUploadType(t: UploadType)
      modifies this`uploadType
      ensures uploadType == t
    {
      uploadType := t;
    }

    /**
     * The submit button (`disabled={loading}`): while a request is in flight it does nothing;
     * otherwise it sets `loading` and posts the form's payload.
     */
    method Submit()
      modifies this`loading, this`effects
      ensures loading
      ensures old(loading) ==> effects == old(effects)
      ensures !old(loading) ==> effects == old(effects) + [PostVideo(Payload(form))]
    {
      if loading {
        return;
      }
      loading := true;
      effects := effects + [PostVideo(Payload(form))];
    }

    /** The end of the request: go to the list on `ok`, alert otherwise; `finally` clears `loading`. */
    method Finish(response: Response)
      requires loading
      modifies this`loading, this`effects
      ensures !loading
      ensures effects == old(effects) + Outcome(response)
    {
      if response == Ok {
        effects := effects + [Navigate(ListPath), Refresh];
      } else if response == NotOk {
        effects := effects + [Alert("Failed to add video")];
      } else {
        effects := effects + [Alert("An error occurred")];
      }
      loading := false;
    }

    /** The cancel button. */
    method Cancel()
      modifies this`effects
      ensures effects == old(effects) + [Back]
    {
      effects := effects + [Back];
    }
  }

  /**
   * The handler's side of a submission: an admin's body is stored and answered with a 2xx
   * status unless the store fails; otherwise the reply is a failure status and the store is
   * untouched.
   */
  method PostFromPage(store: VideosApi.VideoStore, session: Option<Session>, body: VideosApi.VideoBody,
                      storeFails: bool, slugify: string -> string, now: int) returns (response: Response)
    requires VideosApi.TablesValid(store.db)
    modifies store
    ensures VideosApi.TablesValid(store.db)
    ensures response == if IsAdmin(session) && !storeFails then Ok else NotOk
    ensures IsAdmin(session) && !storeFails ==>
      store.db == VideosApi.Create(old(store.db), body, session.value.user.value.id, slugify, now).0
    ensures !IsAdmin(session) || storeFails ==> store.db == old(store.db)
  {
    var reply := store.Post(session, Some(body), storeFails, slugify, now);
    response := ResponseOf(reply);
  }

  /**
   * One submission against the handler: the page posts its payload, the handler answers,
   * and the page reacts. An admin's video is stored, unless the store fails, and the page
   * returns to the list; otherwise the page shows the failure alert and the store is
   * untouched. The button is enabled again.
   */
  method SubmitToServer(page: NewVideoPage, store: VideosApi.VideoStore, session: Option<Session>,
                        storeFails: bool, slugify: string -> string, now: int)
    requires !page.loading && VideosApi.TablesValid(store.db)
    modifies page`loading, page`effects, store
    ensures !page.loading
    ensures VideosApi.TablesValid(store.db)
    ensures page.effects == old(page.effects) + [PostVideo(Payload(page.form))]
      + Outcome(if IsAdmin(session) && !storeFails then Ok else NotOk)
    ensures IsAdmin(session) && !storeFails ==>
      store.db == VideosApi.Create(old(store.db), Payload(page.form), session.value.user.value.id, slugify, now).0
    ensures !IsAdmin(session) || storeFails ==> store.db == old(store.db)
  {
    page.Submit();
    var response := PostFromPage(store, session, Payload(page.form), storeFails, slugify, now);
    page.Finish(response);
  }
}
