/**
 * `POST` and `GET /api/videos`: creating a video with its category and tags, and listing the
 * published catalogue. The store's tables are in memory; categories and tags are keyed by
 * slug, and `slugify` is a function the handler is given.
 */
module VideosApi {
  import opened Wrappers
  import opened ApiTypes

  /** A category or tag row. */
  datatype Named = Named(id: nat, name: string, slug: string)

  /** A table of categories or tags keyed by slug, and the id its next new row gets. */
  datatype Table = Table(rows: map<string, Named>, nextId: nat)

  /** Every row sits under its own slug, has an id already handed out, and ids are distinct. */
  predicate TableValid(t: Table) {
    && (forall s :: s in t.rows ==> t.rows[s].slug == s && t.rows[s].id < t.nextId)
    && (forall a, b :: a in t.rows && b in t.rows && a != b ==> t.rows[a].id != t.rows[b].id)
  }

  /** The upsert by slug: an existing row is returned as it is, otherwise `{name, slug}` is created. */
  function Upsert(t: Table, name: string, slug: string): (r: (Table, Named))
    ensures slug in r.0.rows && r.1 == r.0.rows[slug]
    ensures slug in t.rows ==> r.0 == t
    ensures slug !in t.rows ==> r.1 == Named(t.nextId, name, slug) && r.0.nextId == t.nextId + 1
    ensures r.0.rows.Keys == t.rows.Keys + {slug}
    ensures forall s :: s in t.rows ==> r.0.rows[s] == t.rows[s]
    ensures TableValid(t) ==> TableValid(r.0)
  {
    if slug in t.rows then (t, t.rows[slug])
    else
      var row := Named(t.nextId, name, slug);
      (Table(t.rows[slug := row], t.nextId + 1), row)
  }

  /** Upserting a slug that is already present, under any name, leaves the table as it is. */
  lemma UpsertReuses(t: Table, name: string, other: string, slug: string)
    ensures var first := Upsert(t, name, slug);
      Upsert(first.0, other, slug) == first
  {
  }

  /** The slugs of `names`. */
  function Slugs(names: seq<string>, slugify: string -> string): (r: set<string>)
    ensures |r| <= |names|
    decreases |names|
  {
    if names == [] then {}
    else Slugs(names[..|names| - 1], slugify) + {slugify(names[|names| - 1])}
  }

  /** Exactly the slugs of the names: each name's slug is there, and nothing else is. */
  lemma {:induction false} SlugsExactly(names: seq<string>, slugify: string -> string)
    ensures forall k :: 0 <= k < |names| ==> slugify(names[k]) in Slugs(names, slugify)
    ensures forall s :: s in Slugs(names, slugify) ==> exists k :: 0 <= k < |names| && slugify(names[k]) == s
    decreases |names|
  {
    if names != [] {
      var init := names[..|names| - 1];
      SlugsExactly(init, slugify);
      forall k | 0 <= k < |init| ensures names[k] == init[k] { }
      forall s | s in Slugs(names, slugify) ensures exists k :: 0 <= k < |names| && slugify(names[k]) == s {
        if s in Slugs(init, slugify) {
          var k :| 0 <= k < |init| && slugify(init[k]) == s;
          assert names[k] == init[k];
        } else {
          assert slugify(names[|names| - 1]) == s;
        }
      }
    }
  }

  /**
   * The tag loop's effect on the tables: each name's tag upserted by slug, in order, and one
   * link from the video to that tag row per name.
   */
  function TagPass(videoId: nat, t: Table, names: seq<string>, slugify: string -> string): (r: (Table, seq<TagLink>))
    ensures r.0.rows.Keys == t.rows.Keys + Slugs(names, slugify)
    ensures forall s :: s in t.rows ==> r.0.rows[s] == t.rows[s]
    ensures TableValid(t) ==> TableValid(r.0)
    ensures |r.1| == |names|
    decreases |names|
  {
    if names == [] then (t, [])
    else
      var last := names[|names| - 1];
      var prev := TagPass(videoId, t, names[..|names| - 1], slugify);
      var up := Upsert(prev.0, last, slugify(last));
      (up.0, prev.1 + [TagLink(videoId, up.1.id)])
  }

  /** The tag table after the loop adds at most one row per name, and none for slugs already present. */
  lemma TagPassGrowth(videoId: nat, t: Table, names: seq<string>, slugify: string -> string)
    ensures |TagPass(videoId, t, names, slugify).0.rows| <= |t.rows| + |names|
    ensures Slugs(names, slugify) <= t.rows.Keys ==> TagPass(videoId, t, names, slugify).0.rows == t.rows
  {
    var r := TagPass(videoId, t, names, slugify).0;
    assert r.rows.Keys == t.rows.Keys + Slugs(names, slugify);
    assert |r.rows.Keys| <= |t.rows.Keys| + |Slugs(names, slugify)|;
    assert |r.rows| == |r.rows.Keys| && |t.rows| == |t.rows.Keys|;
  }

  /** A row of the video-to-tag join table. */
  datatype TagLink = TagLink(videoId: nat, tagId: nat)

  /**
   * Each link points from the new video to the final tag row of its name's slug (rows never
   * change once written, so the row a link was made with is the one left in the table).
   */
  lemma {:induction false} LinksPointToTags(videoId: nat, t: Table, names: seq<string>, slugify: string -> string)
    ensures var pass := TagPass(videoId, t, names, slugify);
      forall k :: 0 <= k < |names| ==>
        slugify(names[k]) in pass.0.rows && pass.1[k] == TagLink(videoId, pass.0.rows[slugify(names[k])].id)
    decreases |names|
  {
    if names != [] {
      var n := |names| - 1;
      var init, last := names[..n], names[n];
      var prev := TagPass(videoId, t, init, slugify);
      var up := Upsert(prev.0, last, slugify(last));
      var pass := TagPass(videoId, t, names, slugify);
      assert pass == (up.0, prev.1 + [TagLink(videoId, up.1.id)]);
      LinksPointToTags(videoId, t, init, slugify);
      assert slugify(last) in pass.0.rows;
      assert pass.1[n] == TagLink(videoId, pass.0.rows[slugify(last)].id);
      forall k | 0 <= k < |names|
        ensures slugify(names[k]) in pass.0.rows && pass.1[k] == TagLink(videoId, pass.0.rows[slugify(names[k])].id)
      {
        if k < n {
          assert names[k] == init[k];
          assert pass.1[k] == prev.1[k];
          assert slugify(names[k]) in prev.0.rows;
        } else {
          assert k == n;
        }
      }
    }
  }

  /** One more turn of the tag loop. */
  lemma TagPassStep(videoId: nat, t: Table, names: seq<string>, i: nat, slugify: string -> string)
    requires i < |names|
    ensures var prev := TagPass(videoId, t, names[..i], slugify);
      var up := Upsert(prev.0, names[i], slugify(names[i]));
      TagPass(videoId, t, names[..i + 1], slugify) == (up.0, prev.1 + [TagLink(videoId, up.1.id)])
  {
    assert names[..i + 1][..i] == names[..i];
  }

  /** A video row. */
  datatype Video = Video(
    id: nat,
    title: string,
    description: Option<string>,
    videoUrl: string,
    thumbnailUrl: string,
    published: bool,
    userId: string,
    categoryId: Option<nat>,
    createdAt: int)

  /** The fields of a POST body that the handler reads; absent optional fields are `None`. */
  datatype VideoBody = VideoBody(
    title: string,
    description: Option<string>,
    videoUrl: string,
    thumbnailUrl: string,
    category: Option<string>,
    tags: Option<seq<string>>,
    published: Option<bool>)

  /** `if (category)`: a present, non-empty category name. */
  predicate HasCategory(body: VideoBody) {
    body.category.Some? && body.category.value != ""
  }

  /** `tags && tags.length > 0 ? tags : []`. */
  function TagNames(body: VideoBody): seq<string> {
    if body.tags.Some? then body.tags.value else []
  }

  /** The row `video.create` writes. */
  function NewVideo(id: nat, body: VideoBody, userId: string, categoryId: Option<nat>, now: int): (v: Video)
    ensures v.id == id && v.userId == userId && v.categoryId == categoryId && v.createdAt == now
    ensures v.description.Some? <==> body.description.Some? && body.description.value != ""
    ensures v.description.Some? ==> v.description == body.description
    ensures v.published <==> body.published == Some(true)
    ensures v.title == body.title && v.videoUrl == body.videoUrl && v.thumbnailUrl == body.thumbnailUrl
  {
    Video(
      id,
      body.title,
      if body.description.Some? && body.description.value != "" then body.description else None,
      body.videoUrl,
      body.thumbnailUrl,
      body.published == Some(true),
      userId,
      categoryId,
      now)
  }

  /** The response of POST. */
  datatype PostReply = CreatedVideo(status: int, video: Video) | Failure(status: int, error: string)

  // -------------------------------------------------------------------------
  // GET: the published catalogue, newest first
  // -------------------------------------------------------------------------

  /** `where: { published: true }`, in table order. */
  function Published(vs: seq<Video>): (r: seq<Video>)
    ensures forall v :: v in r ==> v.published
    ensures forall v :: v in vs && v.published ==> v in r
    ensures multiset(r) <= multiset(vs)
  {
    if vs == [] then []
    else
      var rest := Published(vs[1..]);
      assert vs == [vs[0]] + vs[1..];
      if vs[0].published then [vs[0]] + rest else rest
  }

  /** `orderBy: { createdAt: 'desc' }`: each video is no older than the one after it. */
  predicate NewestFirst(vs: seq<Video>) {
    |vs| <= 1 || (vs[0].createdAt >= vs[1].createdAt && NewestFirst(vs[1..]))
  }

  /** A newest-first list is ordered across any two positions, not just neighbours. */
  lemma {:induction false} NewestFirstOrdered(vs: seq<Video>, i: nat, j: nat)
    requires NewestFirst(vs) && i < j < |vs|
    ensures vs[i].createdAt >= vs[j].createdAt
    decreases j
  {
    if i > 0 {
      NewestFirstOrdered(vs[1..], i - 1, j - 1);
    } else if j > 1 {
      NewestFirstOrdered(vs[1..], 0, j - 1);
    }
  }

  /** Inserting one video into a newest-first list. */
  function InsertNewestFirst(v: Video, vs: seq<Video>): (r: seq<Video>)
    requires NewestFirst(vs)
    ensures NewestFirst(r) && multiset(r) == multiset(vs) + multiset{v}
    ensures r[0] == v || (vs != [] && r[0] == vs[0])
  {
    if vs == [] then [v]
    else if v.createdAt >= vs[0].createdAt then
      assert ([v] + vs)[1..] == vs;
      [v] + vs
    else
      var tail := InsertNewestFirst(v, vs[1..]);
      assert vs == [vs[0]] + vs[1..];
      assert ([vs[0]] + tail)[1..] == tail;
      [vs[0]] + tail
  }

  /** The videos newest first. */
  function SortNewestFirst(vs: seq<Video>): (r: seq<Video>)
    ensures NewestFirst(r) && multiset(r) == multiset(vs)
  {
    if vs == [] then []
    else
      assert vs == [vs[0]] + vs[1..];
      InsertNewestFirst(vs[0], SortNewestFirst(vs[1..]))
  }

  /** The listing GET returns: exactly the published videos, each as often as stored, newest first. */
  function Listing(vs: seq<Video>): (r: seq<Video>)
    ensures NewestFirst(r)
    ensures multiset(r) == multiset(Published(vs))
    ensures forall v :: v in r <==> v in vs && v.published
  {
    var r := SortNewestFirst(Published(vs));
    assert forall v :: v in r <==> v in Published(vs) by {
      forall v ensures v in r <==> v in Published(vs) {
        assert v in r <==> v in multiset(r);
        assert v in Published(vs) <==> v in multiset(Published(vs));
      }
    }
    forall v | v in Published(vs) ensures v in vs {
      assert v in multiset(Published(vs));
      assert v in multiset(vs);
    }
    r
  }

  /** The response of GET. */
  datatype ListReply = Videos(videos: seq<Video>) | ListFailure(status: int, error: string)

  /** The store's tables: categories and tags by slug, videos, video-to-tag links. */
  datatype Tables = Tables(categories: Table, tags: Table, videos: seq<Video>, nextVideoId: nat, links: seq<TagLink>)

  /** Both slug tables are valid and every video id was handed out. */
  predicate TablesValid(db: Tables) {
    && TableValid(db.categories) && TableValid(db.tags)
    && (forall i :: 0 <= i < |db.videos| ==> db.videos[i].id < db.nextVideoId)
  }

  /** The category step: the table after upserting a present, non-empty category, and its id. */
  function CategoryStep(categories: Table, body: VideoBody, slugify: string -> string): (Table, Option<nat>) {
    if HasCategory(body) then
      var up := Upsert(categories, body.category.value, slugify(body.category.value));
      (up.0, Some(up.1.id))
    else (categories, None)
  }

  /** The effect of a successful POST on the tables, and the video it returns. */
  function Create(db: Tables, body: VideoBody, userId: string, slugify: string -> string, now: int): (Tables, Video) {
    var (categories, categoryId) := CategoryStep(db.categories, body, slugify);
    var video := NewVideo(db.nextVideoId, body, userId, categoryId, now);
    var (tags, made) := TagPass(video.id, db.tags, TagNames(body), slugify);
    (Tables(categories, tags, db.videos + [video], db.nextVideoId + 1, db.links + made), video)
  }

  /**
   * What a successful POST promises: the tables stay valid; the category is reused when its
   * slug exists and created otherwise, and the video points at it; the video appears once,
   * last, with its defaults; one link per tag name, in order, to the tag of its slug; nothing
   * in the tables before is changed.
   */
  lemma CreateFacts(db: Tables, body: VideoBody, userId: string, slugify: string -> string, now: int)
    requires TablesValid(db)
    ensures var (after, video) := Create(db, body, userId, slugify, now);
      && TablesValid(after)
      && after.videos == db.videos + [video]
      && video == NewVideo(db.nextVideoId, body, userId, video.categoryId, now)
      && (HasCategory(body) ==> var slug := slugify(body.category.value);
            && slug in after.categories.rows && video.categoryId == Some(after.categories.rows[slug].id)
            && (slug in db.categories.rows ==> after.categories == db.categories))
      && (!HasCategory(body) ==> video.categoryId == None && after.categories == db.categories)
      && (forall s :: s in db.categories.rows ==> after.categories.rows[s] == db.categories.rows[s])
      && (forall s :: s in db.tags.rows ==> after.tags.rows[s] == db.tags.rows[s])
      && after.links[..|db.links|] == db.links
      && |after.links| == |db.links| + |TagNames(body)|
      && (forall k :: 0 <= k < |TagNames(body)| ==>
            var slug := slugify(TagNames(body)[k]);
            slug in after.tags.rows && after.links[|db.links| + k] == TagLink(video.id, after.tags.rows[slug].id))
  {
    CreateKeepsValid(db, body, userId, slugify, now);
    CreateLinks(db, body, userId, slugify, now);
  }

  /** One link per tag name, in order, to the tag row of its slug, after the links already stored. */
  lemma CreateLinks(db: Tables, body: VideoBody, userId: string, slugify: string -> string, now: int)
    ensures var (after, video) := Create(db, body, userId, slugify, now);
      && after.links[..|db.links|] == db.links
      && |after.links| == |db.links| + |TagNames(body)|
      && (forall k :: 0 <= k < |TagNames(body)| ==>
            var slug := slugify(TagNames(body)[k]);
            slug in after.tags.rows && after.links[|db.links| + k] == TagLink(video.id, after.tags.rows[slug].id))
  {
    var (after, video) := Create(db, body, userId, slugify, now);
    var names := TagNames(body);
    LinksPointToTags(video.id, db.tags, names, slugify);
    var pass := TagPass(video.id, db.tags, names, slugify);
    assert after.tags == pass.0 && after.links == db.links + pass.1;
    forall k | 0 <= k < |names|
      ensures var slug := slugify(names[k]);
        slug in after.tags.rows && after.links[|db.links| + k] == TagLink(video.id, after.tags.rows[slug].id)
    {
      assert after.links[|db.links| + k] == pass.1[k];
    }
  }

  /** A successful POST keeps the tables valid. */
  lemma CreateKeepsValid(db: Tables, body: VideoBody, userId: string, slugify: string -> string, now: int)
    requires TablesValid(db)
    ensures TablesValid(Create(db, body, userId, slugify, now).0)
  {
    var (after, video) := Create(db, body, userId, slugify, now);
    assert video.id == db.nextVideoId && after.nextVideoId == db.nextVideoId + 1;
    assert after.videos == db.videos + [video];
    forall i | 0 <= i < |after.videos| ensures after.videos[i].id < after.nextVideoId {
      if i < |db.videos| {
        assert after.videos[i] == db.videos[i];
      }
    }
  }

  /** An empty or absent tag list links nothing and leaves the tag table alone. */
  lemma NoTagsNoLinks(db: Tables, body: VideoBody, userId: string, slugify: string -> string, now: int)
    requires body.tags.None? || body.tags.value == []
    ensures var after := Create(db, body, userId, slugify, now).0;
      after.links == db.links && after.tags == db.tags
  {
  }

  /** The store as the handlers see it. */
  class VideoStore {
    var db: Tables

    constructor ()
      ensures db == Tables(Table(map[], 0), Table(map[], 0), [], 0, []) && TablesValid(db)
    {
      db := Tables(Table(map[], 0), Table(map[], 0), [], 0, []);
    }

    /**
     * POST. `body` is `None` when reading the request body throws (it is not JSON, or it is
     * `null`, which cannot be destructured); any other JSON value reads as a body whose absent
     * fields are `None`. `storeFails` is whether the store throws on the first write, so that
     * nothing is written; `now` is the creation time the store stamps.
     */
    method Post(session: Option<Session>, body: Option<VideoBody>, storeFails: bool, slugify: string -> string, now: int)
      returns (reply: PostReply)
      requires TablesValid(db)
      modifies this
      ensures TablesValid(db)
      ensures session.None? || (session.value.user.Some? && session.value.user.value.role != Some("ADMIN")) ==>
        reply == Failure(401, "Unauthorized") && db == old(db)
      ensures session.Some? && session.value.user.None? ==>
        reply == Failure(500, "Internal server error") && db == old(db)
      ensures IsAdmin(session) && (body.None? || storeFails) ==>
        reply == Failure(500, "Internal server error") && db == old(db)
      ensures IsAdmin(session) && body.Some? && !storeFails ==>
        var (after, video) := Create(old(db), body.value, session.value.user.value.id, slugify, now);
        reply == CreatedVideo(201, video) && db == after
    {
      if session.None? {
        return Failure(401, "Unauthorized");
      }
      if session.value.user.None? {
        return Failure(500, "Internal server error");
      }
      var user := session.value.user.value;
      if user.role != Some("ADMIN") {
        return Failure(401, "Unauthorized");
      }
      if body.None? || storeFails {
        return Failure(500, "Internal server error");
      }
      var b := body.value;
      CreateKeepsValid(db, b, user.id, slugify, now);
      var after, video := CreateVideo(db, b, user.id, slugify, now);
      db := after;
      reply := CreatedVideo(201, video);
    }

    /** GET. */
    method Get(storeFails: bool) returns (reply: ListReply)
      ensures reply == (if storeFails then ListFailure(500, "Internal server error") else Videos(Listing(db.videos)))
    {
      if storeFails {
        return ListFailure(500, "Internal server error");
      }
      reply := Videos(Listing(db.videos));
    }
  }

  /** The writes of a successful POST, in the handler's order: category, video, tags and links. */
  method CreateVideo(db: Tables, b: VideoBody, userId: string, slugify: string -> string, now: int)
    returns (after: Tables, video: Video)
    ensures (after, video) == Create(db, b, userId, slugify, now)
  {
    var categories := db.categories;
    var categoryId: Option<nat> := None;
    if b.category.Some? && b.category.value != "" {
      var upserted := Upsert(categories, b.category.value, slugify(b.category.value));
      categories := upserted.0;
      categoryId := Some(upserted.1.id);
    }
    assert (categories, categoryId) == CategoryStep(db.categories, b, slugify);
    video := NewVideo(db.nextVideoId, b, userId, categoryId, now);
    var tags, made := db.tags, [];
    if b.tags.Some? && |b.tags.value| > 0 {
      tags, made := TagLoop(video.id, db.tags, b.tags.value, slugify);
    }
    assert (tags, made) == TagPass(video.id, db.tags, TagNames(b), slugify);
    after := Tables(categories, tags, db.videos + [video], db.nextVideoId + 1, db.links + made);
  }

  /** The tag loop: upsert each name's tag by slug and link it to the video, in list order. */
  method TagLoop(videoId: nat, tags: Table, names: seq<string>, slugify: string -> string)
    returns (table: Table, made: seq<TagLink>)
    ensures (table, made) == TagPass(videoId, tags, names, slugify)
  {
    table, made := tags, [];
    var i := 0;
    while i < |names|
      invariant 0 <= i <= |names|
      invariant (table, made) == TagPass(videoId, tags, names[..i], slugify)
    {
      var upserted := Upsert(table, names[i], slugify(names[i]));
      TagPassStep(videoId, tags, names, i, slugify);
      table := upserted.0;
      made := made + [TagLink(videoId, upserted.1.id)];
      i := i + 1;
    }
    assert names[..|names|] == names;
  }
}
