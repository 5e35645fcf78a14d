/** The `users` table row shared by the panel, the staff commands and the
    REST endpoints, and the capability names the panel checks. */
module Accounts {
  import opened Common

  type UserId = string

  /** A Discord role id (a 64-bit snowflake). */
  type RoleId = nat

  /** Onboarding progress stored as text in `users.staff_onboard_state`;
      `Other` stands for any value the onboarding flow writes besides the
      four the admin commands name. */
  datatype OnboardState = Pending | PendingManagerReview | Denied | Completed | Other(name: string)

  /** The columns of a `users` row that the modelled handlers read or write.
      Times are seconds since the epoch. */
  datatype User = User(
    staff: bool,
    admin: bool,
    owner: bool,
    hadmin: bool,
    ibldev: bool,
    iblhdev: bool,
    apiToken: string,
    onboardState: OnboardState,
    onboardGuild: Option<string>,
    onboardStartedAt: int,
    rpcLastVerify: int)

  type Users = map<UserId, User>

  /** Capabilities the panel gates its queries on. How they are derived
      from a user's flags happens in code this model does not contain, so
      handlers receive the derived set as an input. */
  datatype Capability = ViewBotQueue | Rpc | BotManagement | CdnManagement | PartnerManagement
}
