/**
 * `GET` and `PUT /api/settings`: the admin endpoints over the single settings row. `GET`
 * creates the row on first use; `PUT` creates it from the body or updates it in place.
 */
module SettingsApi {
  import opened Wrappers
  import opened ApiTypes
  import PublicSettings

  /** The fields of a PUT body; an absent field is `None` (`undefined` after destructuring). */
  datatype SettingsBody = SettingsBody(enableRedirects: Option<bool>, redirectUrl: Option<string>, redirectClicks: Option<int>)

  /** The JSON body of a response. */
  datatype ReplyBody = RecordBody(record: SettingsRecord) | ErrorBody(error: string)

  datatype Reply = Reply(status: int, body: ReplyBody)

  const Unauthorized := Reply(401, ErrorBody("Unauthorized"))
  const FetchFailed := Reply(500, ErrorBody("Failed to fetch settings"))
  const UpdateFailed := Reply(500, ErrorBody("Failed to update settings"))

  /** The row `PUT` creates when there is none: `?? false`, `|| ''`, `?? 3`. */
  function Created(id: nat, body: SettingsBody): (r: SettingsRecord)
    ensures r.id == id
    ensures r.enableRedirects == (body.enableRedirects == Some(true))
    ensures body.redirectUrl.Some? ==> r.redirectUrl == body.redirectUrl.value
    ensures body.redirectUrl.None? ==> r.redirectUrl == ""
    ensures body.redirectClicks.None? ==> r.redirectClicks == 3
    ensures body.redirectClicks.Some? ==> r.redirectClicks == body.redirectClicks.value
  {
    SettingsRecord(id, body.enableRedirects.GetOr(false), body.redirectUrl.GetOr(""), body.redirectClicks.GetOr(3))
  }

  /** The row after `update`: a field the body leaves out keeps its stored value. */
  function Updated(row: SettingsRecord, body: SettingsBody): SettingsRecord {
    SettingsRecord(
      row.id,
      body.enableRedirects.GetOr(row.enableRedirects),
      body.redirectUrl.GetOr(row.redirectUrl),
      body.redirectClicks.GetOr(row.redirectClicks))
  }

  /** The update changes exactly the fields the body carries, and never the id. */
  lemma UpdatedFields(row: SettingsRecord, body: SettingsBody)
    ensures var u := Updated(row, body);
      && u.id == row.id
      && (body.enableRedirects.Some? ==> u.enableRedirects == body.enableRedirects.value)
      && (body.enableRedirects.None? ==> u.enableRedirects == row.enableRedirects)
      && (body.redirectUrl.Some? ==> u.redirectUrl == body.redirectUrl.value)
      && (body.redirectUrl.None? ==> u.redirectUrl == row.redirectUrl)
      && (body.redirectClicks.Some? ==> u.redirectClicks == body.redirectClicks.value)
      && (body.redirectClicks.None? ==> u.redirectClicks == row.redirectClicks)
  {
  }

  /** Sending the same body twice leaves the row as the first update did. */
  lemma UpdateIdempotent(row: SettingsRecord, body: SettingsBody)
    ensures Updated(Updated(row, body), body) == Updated(row, body)
  {
  }

  /** An empty body changes nothing. */
  lemma EmptyUpdateKeepsRow(row: SettingsRecord)
    ensures Updated(row, SettingsBody(None, None, None)) == row
  {
  }

  /** A body with every field gives the same policy whether it creates or updates the row. */
  lemma FullBodyCreatesOrUpdatesAlike(row: SettingsRecord, id: nat, e: bool, u: string, c: int)
    ensures var body := SettingsBody(Some(e), Some(u), Some(c));
      PolicyOf(Updated(row, body)) == PolicyOf(Created(id, body)) == Policy(e, u, c)
  {
  }

  /** The settings table: at most one row, and the id the next created row gets. */
  class SettingsStore {
    var row: Option<SettingsRecord>
    var nextId: nat

    /** Every stored row has an id below the next one handed out. */
    ghost predicate Valid()
      reads this
    {
      row.Some? ==> row.value.id < nextId
    }

    constructor ()
      ensures Valid() && row == None
    {
      row := None;
      nextId := 0;
    }

    /** What the public endpoint's `findFirst` sees. */
    function PublicRead(): PublicSettings.StoreRead
      reads this
    {
      if row.Some? then PublicSettings.Found(row.value) else PublicSettings.Missing
    }

    /**
     * `GET /api/settings`. `storeFails` is whether the store throws on this request;
     * `envRedirectUrl` is `NEXT_PUBLIC_AD_REDIRECT_URL`.
     */
    method Get(session: Option<Session>, envRedirectUrl: Option<string>, storeFails: bool) returns (reply: Reply)
      requires Valid()
      modifies this
      ensures Valid()
      ensures !IsAdmin(session) ==> reply == Unauthorized && row == old(row) && nextId == old(nextId)
      ensures IsAdmin(session) && storeFails ==> reply == FetchFailed && row == old(row) && nextId == old(nextId)
      ensures IsAdmin(session) && !storeFails && old(row).Some? ==>
        reply == Reply(200, RecordBody(old(row).value)) && row == old(row) && nextId == old(nextId)
      ensures IsAdmin(session) && !storeFails && old(row).None? ==>
        && row == Some(SettingsRecord(old(nextId), false, envRedirectUrl.GetOr(""), 3))
        && reply == Reply(200, RecordBody(row.value))
        && nextId == old(nextId) + 1
    {
      if !IsAdmin(session) {
        return Unauthorized;
      }
      if storeFails {
        return FetchFailed;
      }
      if row.None? {
        row := Some(SettingsRecord(nextId, false, envRedirectUrl.GetOr(""), 3));
        nextId := nextId + 1;
      }
      reply := Reply(200, RecordBody(row.value));
    }

    /**
     * `PUT /api/settings`. `body` is `None` when reading the request body throws (it is not
     * JSON, or it is `null`, which cannot be destructured); any other JSON value reads as a
     * body whose absent fields are `None`. `storeFails` is whether the store throws on this
     * request.
     */
    method Put(session: Option<Session>, body: Option<SettingsBody>, storeFails: bool) returns (reply: Reply)
      requires Valid()
      modifies this
      ensures Valid()
      ensures !IsAdmin(session) ==> reply == Unauthorized && row == old(row) && nextId == old(nextId)
      ensures IsAdmin(session) && (body.None? || storeFails) ==>
        reply == UpdateFailed && row == old(row) && nextId == old(nextId)
      ensures IsAdmin(session) && body.Some? && !storeFails && old(row).Some? ==>
        && row == Some(Updated(old(row).value, body.value))
        && reply == Reply(200, RecordBody(row.value))
        && nextId == old(nextId)
      ensures IsAdmin(session) && body.Some? && !storeFails && old(row).None? ==>
        && row == Some(Created(old(nextId), body.value))
        && reply == Reply(200, RecordBody(row.value))
        && nextId == old(nextId) + 1
    {
      if !IsAdmin(session) {
        return Unauthorized;
      }
      if body.None? || storeFails {
        return UpdateFailed;
      }
      var b := body.value;
      if row.None? {
        row := Some(SettingsRecord(nextId, b.enableRedirects.GetOr(false), b.redirectUrl.GetOr(""), b.redirectClicks.GetOr(3)));
        nextId := nextId + 1;
      } else {
        var current := row.value;
        row := Some(SettingsRecord(current.id,
          b.enableRedirects.GetOr(current.enableRedirects),
          b.redirectUrl.GetOr(current.redirectUrl),
          b.redirectClicks.GetOr(current.redirectClicks)));
      }
      reply := Reply(200, RecordBody(row.value));
    }
  }

  /** The admin's GET is stable: asking twice returns the same row, created at most once. */
  method RepeatedGet(store: SettingsStore, session: Option<Session>, env: Option<string>) returns (first: Reply, second: Reply)
    requires store.Valid() && IsAdmin(session)
    modifies store
    ensures first == second && first.status == 200
    ensures store.row.Some? && first.body == RecordBody(store.row.value)
  {
    first := store.Get(session, env, false);
    second := store.Get(session, env, false);
  }

  /**
   * A full PUT is what visitors then see: the public endpoint answers with exactly the three
   * values sent, whether the row existed before or not.
   */
  method PutThenPublicRead(store: SettingsStore, session: Option<Session>, e: bool, u: string, c: int)
    returns (reply: Reply, seen: PublicSettings.PublicReply)
    requires store.Valid() && IsAdmin(session)
    modifies store
    ensures reply.status == 200
    ensures seen == PublicSettings.PublicReply(200, Policy(e, u, c))
  {
    reply := store.Put(session, Some(SettingsBody(Some(e), Some(u), Some(c))), false);
    seen := PublicSettings.Get(store.PublicRead());
  }
}
