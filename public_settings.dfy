/**
 * `GET /api/settings/public`: the unauthenticated endpoint the player reads its redirect
 * policy from. It never fails: a missing row and a store error both give the default policy.
 */
module PublicSettings {
  import opened ApiTypes

  /** What `prisma.settings.findFirst()` did: returned a row, returned null, or threw. */
  datatype StoreRead = Found(record: SettingsRecord) | Missing | StoreError

  /** The JSON response: its status and its three-field body. */
  datatype PublicReply = PublicReply(status: int, body: Policy)

  /** The handler. */
  function Get(read: StoreRead): (r: PublicReply)
    ensures r.status == 200
    ensures read.Found? ==> r.body == PolicyOf(read.record)
    ensures !read.Found? ==> r.body == DefaultPolicy
  {
    match read
    case Missing => PublicReply(200, DefaultPolicy)
    case Found(record) =>
      PublicReply(200, Policy(record.enableRedirects, record.redirectUrl, record.redirectClicks))
    case StoreError => PublicReply(200, DefaultPolicy)
  }

  /** The row's `id` never reaches the response: rows that differ only in `id` give the same reply. */
  lemma GetIgnoresRecordId(a: SettingsRecord, b: SettingsRecord)
    requires a.(id := b.id) == b
    ensures Get(Found(a)) == Get(Found(b))
  {
  }

  /** A store error cannot be told apart from an empty store by any caller. */
  lemma ErrorLooksLikeEmptyStore()
    ensures Get(StoreError) == Get(Missing)
  {
  }
}
