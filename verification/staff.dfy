/** The staff-list commands of the bot: recomputing everyone's staff flags
    from their roles on the staff server, and adding or removing a single
    staff member. */
module Staff {
  import opened Common
  import opened Accounts

  /** The role ids read from the environment; None when the variable is
      unset or does not parse as an integer. */
  datatype RoleConfig = RoleConfig(
    devRole: Option<RoleId>,
    headDevRole: Option<RoleId>,
    staffManRole: Option<RoleId>,
    webModRole: Option<RoleId>,
    ownerRole: Option<RoleId>)

  /** Members of the staff server and the roles each holds. */
  type Guild = map<UserId, set<RoleId>>

  datatype StaffError =
    | NotPermitted               // the invoker fails the admin-or-developer check
    | ConfigMissing              // a role variable is unset or malformed
    | NotWebModerator
    | ProtectedMember            // a staff manager or owner removed by someone else

  datatype Reply =
    | Ignored                    // invoked outside the staff server: nothing is said
    | TimedOut
    | Cancelled
    | Recalculated
    | Added
    | Removed
    | Error(error: StaffError)

  datatype Step = Step(users: Users, reply: Reply)

  /** The `is_admin_dev` check: an administrator or a developer. */
  predicate AdminOrDev(users: Users, invoker: UserId)
  {
    invoker in users && (users[invoker].admin || users[invoker].ibldev)
  }

  /** The four role ids `recalc` needs, when all are configured. */
  predicate RecalcConfigured(cfg: RoleConfig)
  {
    cfg.devRole.Some? && cfg.headDevRole.Some? && cfg.staffManRole.Some? && cfg.webModRole.Some?
  }

  /** The blanket reset every row receives before the roles are applied;
      `adminBase` is the value written to `admin` (see the findings). */
  function Unset(u: User, adminBase: bool): User
  {
    u.(staff := false, ibldev := false, admin := adminBase)
  }

  /** Holds some role of the four `recalc` recognises. */
  predicate StaffRoleIn(roles: Option<set<RoleId>>, cfg: RoleConfig)
    requires RecalcConfigured(cfg)
  {
    roles.Some? &&
    (cfg.devRole.value in roles.value || cfg.headDevRole.value in roles.value
     || cfg.staffManRole.value in roles.value || cfg.webModRole.value in roles.value)
  }

  /** Holds the developer or the head-developer role. */
  predicate DevRoleIn(roles: Option<set<RoleId>>, cfg: RoleConfig)
    requires RecalcConfigured(cfg)
  {
    roles.Some? && (cfg.devRole.value in roles.value || cfg.headDevRole.value in roles.value)
  }

  /** Holds the head-developer role without the developer role. */
  predicate HeadDevOnlyIn(roles: Option<set<RoleId>>, cfg: RoleConfig)
    requires RecalcConfigured(cfg)
  {
    roles.Some? && cfg.devRole.value !in roles.value && cfg.headDevRole.value in roles.value
  }

  /** Holds the staff-manager role and neither developer role. */
  predicate ManagerOnlyIn(roles: Option<set<RoleId>>, cfg: RoleConfig)
    requires RecalcConfigured(cfg)
  {
    roles.Some? && cfg.staffManRole.value in roles.value
    && cfg.devRole.value !in roles.value && cfg.headDevRole.value !in roles.value
  }

  /** One member's flags after the recalculation (None: not on the staff
      server): the first of developer, head developer, staff manager, web
      moderator that they hold wins. */
  function Recalc(u: User, roles: Option<set<RoleId>>, cfg: RoleConfig, adminBase: bool): (r: User)
    requires RecalcConfigured(cfg)
    ensures r.staff <==> StaffRoleIn(roles, cfg)
    ensures r.ibldev <==> DevRoleIn(roles, cfg)
    ensures r.iblhdev <==> u.iblhdev || HeadDevOnlyIn(roles, cfg)
    ensures r.admin <==> adminBase || ManagerOnlyIn(roles, cfg)
    ensures r.(staff := u.staff, ibldev := u.ibldev, iblhdev := u.iblhdev, admin := u.admin) == u
  {
    var base := Unset(u, adminBase);
    match roles
    case None => base
    case Some(rs) =>
      if cfg.devRole.value in rs then base.(staff := true, ibldev := true)
      else if cfg.headDevRole.value in rs then base.(staff := true, ibldev := true, iblhdev := true)
      else if cfg.staffManRole.value in rs then base.(staff := true, admin := true)
      else if cfg.webModRole.value in rs then base.(staff := true)
      else base
  }

  function RolesOf(guild: Guild, u: UserId): Option<set<RoleId>>
  {
    if u in guild then Some(guild[u]) else None
  }

  /** The recalculation applied to every row, with `adminBase` as the
      reset value of `admin`. */
  function RecalcAll(users: Users, guild: Guild, cfg: RoleConfig, adminBase: bool): (r: Users)
    requires RecalcConfigured(cfg)
    ensures r.Keys == users.Keys
    ensures forall u :: u in users ==>
              && (r[u].staff <==> StaffRoleIn(RolesOf(guild, u), cfg))
              && (r[u].ibldev <==> DevRoleIn(RolesOf(guild, u), cfg))
              && (r[u].iblhdev <==> users[u].iblhdev || HeadDevOnlyIn(RolesOf(guild, u), cfg))
              && (r[u].admin <==> adminBase || ManagerOnlyIn(RolesOf(guild, u), cfg))
              && r[u].(staff := users[u].staff, ibldev := users[u].ibldev,
                       iblhdev := users[u].iblhdev, admin := users[u].admin) == users[u]
  {
    map u | u in users :: Recalc(users[u], RolesOf(guild, u), cfg, adminBase)
  }

  /** `staff recalc` as written: the reset sets `admin` to true for every
      row. `pressed` is the confirmation button, None on timeout. */
  function StaffRecalc(users: Users, invoker: UserId, inStaffServer: bool, pressed: Option<string>,
                       cfg: RoleConfig, guild: Guild): (s: Step)
    ensures s.reply == Recalculated <==>
              AdminOrDev(users, invoker) && inStaffServer && pressed.Some? && pressed.value != "cancel" && RecalcConfigured(cfg)
    ensures s.reply != Recalculated ==> s.users == users
    ensures s.reply == Recalculated ==> s.users == RecalcAll(users, guild, cfg, true)
    ensures s.reply == Recalculated ==> forall u :: u in s.users ==> s.users[u].admin
  {
    if !AdminOrDev(users, invoker) then Step(users, Error(NotPermitted))
    else if !inStaffServer then Step(users, Ignored)
    else
      match pressed
      case None => Step(users, TimedOut)
      case Some(id) =>
        if id == "cancel" then Step(users, Cancelled)
        else if !RecalcConfigured(cfg) then Step(users, Error(ConfigMissing))
        else Step(RecalcAll(users, guild, cfg, true), Recalculated)
  }

  /** `staff recalc` as its own description intends: the admin flag
      follows the staff-manager role like the other flags follow theirs. */
  function StaffRecalcCorrected(users: Users, invoker: UserId, inStaffServer: bool, pressed: Option<string>,
                                cfg: RoleConfig, guild: Guild): (s: Step)
    ensures s.reply == Recalculated <==>
              AdminOrDev(users, invoker) && inStaffServer && pressed.Some? && pressed.value != "cancel" && RecalcConfigured(cfg)
    ensures s.reply != Recalculated ==> s.users == users
    ensures s.reply == Recalculated ==> s.users.Keys == users.Keys && forall u :: u in users ==>
              && (s.users[u].admin <==> ManagerOnlyIn(RolesOf(guild, u), cfg))
              && (s.users[u].staff <==> StaffRoleIn(RolesOf(guild, u), cfg))
  {
    if !AdminOrDev(users, invoker) then Step(users, Error(NotPermitted))
    else if !inStaffServer then Step(users, Ignored)
    else
      match pressed
      case None => Step(users, TimedOut)
      case Some(id) =>
        if id == "cancel" then Step(users, Cancelled)
        else if !RecalcConfigured(cfg) then Step(users, Error(ConfigMissing))
        else Step(RecalcAll(users, guild, cfg, false), Recalculated)
  }

  /** The discrepancy: a user who holds no role at all comes out of the
      as-written recalculation as an administrator, and out of the
      corrected one as a plain user. */
  lemma RecalcGrantsAdminToEveryone()
    ensures var users := map["1" := NoFlags(), "2" := NoFlags().(admin := true)];
            var cfg := RoleConfig(Some(10), Some(11), Some(12), Some(13), Some(14));
            var guild: Guild := map[];
            && StaffRecalc(users, "2", true, Some("continue"), cfg, guild).users["1"].admin
            && !StaffRecalcCorrected(users, "2", true, Some("continue"), cfg, guild).users["1"].admin
  {
  }

  /** A user row with every flag clear. */
  function NoFlags(): User
  {
    User(false, false, false, false, false, false, "", Pending, None, 0, 0)
  }

  /** Role precedence: a member holding both developer roles gets the
      developer branch only, so recalculation never grants head developer
      to them; and no branch ever clears `iblhdev`. */
  lemma DeveloperRoleShadowsHeadDeveloper(users: Users, guild: Guild, cfg: RoleConfig, u: UserId)
    requires RecalcConfigured(cfg)
    requires u in users && !users[u].iblhdev
    requires u in guild && cfg.devRole.value in guild[u] && cfg.headDevRole.value in guild[u]
    ensures !RecalcAll(users, guild, cfg, true)[u].iblhdev
    ensures RecalcAll(users, guild, cfg, true)[u].ibldev
  {
  }

  /** `staff add`: only a member holding the web-moderator role. */
  function StaffAdd(users: Users, invoker: UserId, inStaffServer: bool, cfg: RoleConfig,
                    member: UserId, memberRoles: set<RoleId>): (s: Step)
    ensures s.reply == Added <==>
              AdminOrDev(users, invoker) && inStaffServer && cfg.webModRole.Some? && cfg.webModRole.value in memberRoles
    ensures s.reply != Added ==> s.users == users
    ensures s.reply == Added ==> s.users.Keys == users.Keys
    ensures s.reply == Added ==> forall v :: v in users ==>
              s.users[v] == (if v == member then users[v].(staff := true) else users[v])
  {
    if !AdminOrDev(users, invoker) then Step(users, Error(NotPermitted))
    else if !inStaffServer then Step(users, Ignored)
    else if cfg.webModRole.None? then Step(users, Error(ConfigMissing))
    else if cfg.webModRole.value !in memberRoles then Step(users, Error(NotWebModerator))
    else if member !in users then Step(users, Added)
    else Step(users[member := users[member].(staff := true)], Added)
  }

  /** `staff del`: staff managers and owners are protected from others
      but not from themselves. Both role variables are read first. */
  function StaffDel(users: Users, invoker: UserId, inStaffServer: bool, cfg: RoleConfig,
                    member: UserId, memberRoles: set<RoleId>): (s: Step)
    ensures s.reply == Removed <==>
              && AdminOrDev(users, invoker) && inStaffServer
              && cfg.staffManRole.Some? && cfg.ownerRole.Some?
              && (member == invoker
                  || (cfg.staffManRole.value !in memberRoles && cfg.ownerRole.value !in memberRoles))
    ensures s.reply != Removed ==> s.users == users
    ensures s.reply == Removed ==> s.users.Keys == users.Keys
    ensures s.reply == Removed ==> forall v :: v in users ==>
              s.users[v] == (if v == member then users[v].(staff := false, ibldev := false, admin := false) else users[v])
  {
    if !AdminOrDev(users, invoker) then Step(users, Error(NotPermitted))
    else if !inStaffServer then Step(users, Ignored)
    else if cfg.staffManRole.None? || cfg.ownerRole.None? then Step(users, Error(ConfigMissing))
    else if member != invoker && (cfg.staffManRole.value in memberRoles || cfg.ownerRole.value in memberRoles) then
      Step(users, Error(ProtectedMember))
    else if member !in users then Step(users, Removed)
    else Step(users[member := users[member].(staff := false, ibldev := false, admin := false)], Removed)
  }

  /** Removal clears the staff, developer and admin flags only: the head
      flags survive it. */
  lemma RemovalKeepsHeadFlags(users: Users, invoker: UserId, cfg: RoleConfig, member: UserId, memberRoles: set<RoleId>)
    requires member in users
    requires StaffDel(users, invoker, true, cfg, member, memberRoles).reply == Removed
    ensures var u := StaffDel(users, invoker, true, cfg, member, memberRoles).users[member];
            && !u.staff && !u.admin && !u.ibldev
            && u.hadmin == users[member].hadmin && u.iblhdev == users[member].iblhdev
  {
  }
}
