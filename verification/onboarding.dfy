/** The admin commands: a head manager moving a staff member through the
    onboarding states, and any staff member unlocking or locking RPC for
    their own account. */
module Onboarding {
  import opened Common
  import opened Accounts

  /** How long an unlock lasts, in seconds, as the unlock command announces. */
  const UnlockWindow: int := 600

  /** How far back `rpclock` moves the last verification, in seconds. */
  const LockBackdate: int := 3600

  /** A row of the action log. */
  datatype ActionLog = ActionLog(targetId: string, staffId: UserId, reason: string, event: string)

  datatype AdminDb = AdminDb(users: Users, actions: seq<ActionLog>)

  datatype CommandError =
    | NotPermitted                 // the command's checks refused the invoker
    | UserNotFound                 // the SELECT of the member's row found nothing
    | WrongState(state: OnboardState)

  datatype Reply =
    | Approved
    | Denial
    | ResetDone
    | TimedOut
    | Cancelled
    | Unlocked
    | Locked
    | NoReply                      // the button pressed was neither of the expected ones
    | Error(error: CommandError)

  datatype Step = Step(db: AdminDb, reply: Reply)

  /** The `is_hdev_hadmin` and `staff_server` checks of the onboarding
      commands: a head developer or head administrator, invoking from the
      staff server. */
  predicate Permitted(users: Users, invoker: UserId, inStaffServer: bool)
  {
    inStaffServer && invoker in users && (users[invoker].hadmin || users[invoker].iblhdev)
  }

  /** `onboardman approve`: from manager review, or overturning a denial. */
  function ApproveOnboard(db: AdminDb, invoker: UserId, inStaffServer: bool, member: UserId): (s: Step)
    ensures s.reply == Approved <==>
              && Permitted(db.users, invoker, inStaffServer)
              && member in db.users
              && db.users[member].onboardState in {PendingManagerReview, Denied}
    ensures s.reply == Approved ==>
              s.db == db.(users := db.users[member := db.users[member].(onboardState := Completed)])
    ensures s.reply != Approved ==> s.db == db
    ensures Permitted(db.users, invoker, inStaffServer) && member in db.users && s.reply != Approved
            ==> s.reply == Error(WrongState(db.users[member].onboardState))
  {
    if !Permitted(db.users, invoker, inStaffServer) then Step(db, Error(NotPermitted))
    else if member !in db.users then Step(db, Error(UserNotFound))
    else
      var state := db.users[member].onboardState;
      if state != PendingManagerReview && state != Denied then Step(db, Error(WrongState(state)))
      else Step(db.(users := db.users[member := db.users[member].(onboardState := Completed)]), Approved)
  }

  /** `onboardman deny`: only from manager review. */
  function DenyOnboard(db: AdminDb, invoker: UserId, inStaffServer: bool, member: UserId): (s: Step)
    ensures s.reply == Denial <==>
              && Permitted(db.users, invoker, inStaffServer)
              && member in db.users
              && db.users[member].onboardState == PendingManagerReview
    ensures s.reply == Denial ==>
              s.db == db.(users := db.users[member := db.users[member].(onboardState := Denied)])
    ensures s.reply != Denial ==> s.db == db
  {
    if !Permitted(db.users, invoker, inStaffServer) then Step(db, Error(NotPermitted))
    else if member !in db.users then Step(db, Error(UserNotFound))
    else
      var state := db.users[member].onboardState;
      if state != PendingManagerReview then Step(db, Error(WrongState(state)))
      else Step(db.(users := db.users[member := db.users[member].(onboardState := Denied)]), Denial)
  }

  /** `onboardman reset`: `pressed` is the id of the confirmation button
      the invoker pressed, None when they did not answer in time. Anything
      but "cancel" confirms. The UPDATE touches no row for an unknown
      member and still reports success. */
  function ResetOnboard(db: AdminDb, invoker: UserId, inStaffServer: bool, member: UserId,
                        pressed: Option<string>, now: int): (s: Step)
    ensures !Permitted(db.users, invoker, inStaffServer) ==> s == Step(db, Error(NotPermitted))
    ensures s.reply == ResetDone <==> Permitted(db.users, invoker, inStaffServer) && pressed.Some? && pressed.value != "cancel"
    ensures s.reply != ResetDone ==> s.db == db
    ensures s.reply == ResetDone && member !in db.users ==> s.db == db
    ensures s.reply == ResetDone && member in db.users ==>
              && s.db.actions == db.actions
              && s.db.users.Keys == db.users.Keys
              && (forall v :: v in db.users && v != member ==> s.db.users[v] == db.users[v])
              && s.db.users[member].onboardState == Pending
              && s.db.users[member].onboardGuild.None?
              && s.db.users[member].onboardStartedAt == now
              && s.db.users[member].(onboardState := db.users[member].onboardState,
                                     onboardGuild := db.users[member].onboardGuild,
                                     onboardStartedAt := db.users[member].onboardStartedAt) == db.users[member]
  {
    if !Permitted(db.users, invoker, inStaffServer) then Step(db, Error(NotPermitted))
    else
      match pressed
      case None => Step(db, TimedOut)
      case Some(id) =>
        if id == "cancel" then Step(db, Cancelled)
        else if member !in db.users then Step(db, ResetDone)
        else
          var u := db.users[member].(onboardGuild := None, onboardState := Pending, onboardStartedAt := now);
          Step(db.(users := db.users[member := u]), ResetDone)
  }

  /** `rpcunlock`: no check beyond the confirmation button; "a:unlock"
      logs the purpose against the test bot and stamps the author's last
      verification with `now`. */
  function RpcUnlock(db: AdminDb, author: UserId, purpose: string, pressed: Option<string>,
                     now: int, testBot: string): (s: Step)
    ensures s.reply == Unlocked <==> pressed == Some("a:unlock")
    ensures s.reply != Unlocked ==> s.db == db
    ensures s.reply == Unlocked ==>
              && s.db.actions == db.actions + [ActionLog(testBot, author, purpose, "rpc_unlock")]
              && s.db.users.Keys == db.users.Keys
              && (forall v :: v in db.users && v != author ==> s.db.users[v] == db.users[v])
              && (author in db.users ==> s.db.users[author] == db.users[author].(rpcLastVerify := now))
  {
    match pressed
    case None => Step(db, TimedOut)
    case Some(id) =>
      if id == "a:cancel" then Step(db, Cancelled)
      else if id == "a:unlock" then
        var actions := db.actions + [ActionLog(testBot, author, purpose, "rpc_unlock")];
        var users := if author in db.users then db.users[author := db.users[author].(rpcLastVerify := now)] else db.users;
        Step(AdminDb(users, actions), Unlocked)
      else Step(db, NoReply)
  }

  /** `rpclock`: backdates the author's last verification by an hour. */
  function RpcLock(db: AdminDb, author: UserId, now: int): (s: Step)
    ensures s.reply == Locked && s.db.actions == db.actions
    ensures s.db.users.Keys == db.users.Keys
    ensures forall v :: v in db.users && v != author ==> s.db.users[v] == db.users[v]
    ensures author in db.users ==> s.db.users[author] == db.users[author].(rpcLastVerify := now - LockBackdate)
  {
    var users := if author in db.users then db.users[author := db.users[author].(rpcLastVerify := now - LockBackdate)] else db.users;
    Step(db.(users := users), Locked)
  }

  /** RPC counts as unlocked while the last verification is less than the
      unlock window old. */
  predicate RpcUnlockedAt(u: User, now: int)
  {
    now - u.rpcLastVerify < UnlockWindow
  }

  /** Unlocking opens the window and locking closes it at once. */
  lemma UnlockThenLock(db: AdminDb, author: UserId, purpose: string, testBot: string, now: int, later: int)
    requires author in db.users
    requires now <= later
    ensures var u := RpcUnlock(db, author, purpose, Some("a:unlock"), now, testBot);
            && RpcUnlockedAt(u.db.users[author], now)
            && !RpcUnlockedAt(RpcLock(u.db, author, later).db.users[author], later)
  {
  }

  /** A denial can be overturned by approval, but neither a second denial
      nor any change after completion is accepted. */
  lemma DenialThenApproval(db: AdminDb, invoker: UserId, member: UserId)
    requires Permitted(db.users, invoker, true)
    requires member in db.users && db.users[member].onboardState == PendingManagerReview
    ensures var d := DenyOnboard(db, invoker, true, member);
            && d.reply == Denial
            && DenyOnboard(d.db, invoker, true, member).reply == Error(WrongState(Denied))
            && ApproveOnboard(d.db, invoker, true, member).reply == Approved
  {
    var d := DenyOnboard(db, invoker, true, member);
    assert d.db.users[invoker] == db.users[invoker] || invoker == member;
  }

  /** Completion is final for approve and deny; only a reset reopens it,
      and a reset member goes back to the start rather than to review. */
  lemma CompletedOnlyReopensByReset(db: AdminDb, invoker: UserId, member: UserId, now: int)
    requires Permitted(db.users, invoker, true)
    requires member in db.users && db.users[member].onboardState == Completed
    ensures ApproveOnboard(db, invoker, true, member).reply == Error(WrongState(Completed))
    ensures DenyOnboard(db, invoker, true, member).reply == Error(WrongState(Completed))
    ensures var r := ResetOnboard(db, invoker, true, member, Some("continue"), now);
            && r.db.users[member].onboardState == Pending
            && ApproveOnboard(r.db, invoker, true, member).reply == Error(WrongState(Pending))
  {
    var r := ResetOnboard(db, invoker, true, member, Some("continue"), now);
    assert r.db.users[invoker].hadmin == db.users[invoker].hadmin;
    assert r.db.users[invoker].iblhdev == db.users[invoker].iblhdev;
  }
}
