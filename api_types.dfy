/** Types shared by the settings endpoints, the videos endpoint and the player. */
module ApiTypes {
  import opened Wrappers

  /** The signed-in user as the authentication layer reports it (only what the handlers read). */
  datatype User = User(id: string, role: Option<string>)

  /** A server session; its `user` may be absent. */
  datatype Session = Session(user: Option<User>)

  /** `session && session.user?.role === 'ADMIN'`. */
  predicate IsAdmin(session: Option<Session>) {
    session.Some? && session.value.user.Some? && session.value.user.value.role == Some("ADMIN")
  }

  /** The redirect policy: the three settings fields the public endpoint and the player use. */
  datatype Policy = Policy(enableRedirects: bool, redirectUrl: string, redirectClicks: int)

  /** The policy used whenever no stored settings can be read. */
  const DefaultPolicy := Policy(false, "", 3)

  /** The single settings row of the store. */
  datatype SettingsRecord = SettingsRecord(id: nat, enableRedirects: bool, redirectUrl: string, redirectClicks: int)

  /** The policy fields of a settings row; the row's `id` is not among them. */
  function PolicyOf(r: SettingsRecord): Policy {
    Policy(r.enableRedirects, r.redirectUrl, r.redirectClicks)
  }
}
