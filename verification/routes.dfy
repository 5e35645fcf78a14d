/** The REST endpoints the panel's bot actions go through: each checks the
    `Authorization` header against the acting staff member's API token and
    flags, then delegates to the bot-management library. */
module Routes {
  import opened Common
  import opened Accounts
  import Staff

  datatype Endpoint = ApproveBot | DenyBot | VoteResetBot | VoteResetAllBot | UnverifyBot

  /** The request body; `VoteResetAllBot` takes no bot id and ignores it. */
  datatype Request = Request(staffId: UserId, botId: string, reason: string)

  /** What the delegated library call returns. */
  datatype ActionResult = ActionOk(body: string) | ActionErr(reason: string)

  datatype HttpReply =
    | NotAuthorized                      // 401 with an empty body
    | Failed(done: bool, reason: string) // 400 with an `APIResponse` body
    | OkJson(body: string)               // 200, only from `ApproveBot`
    | Empty                              // 204

  function ReplyStatus(r: HttpReply): Status
  {
    match r
    case NotAuthorized => Unauthorized
    case Failed(_, _) => BadRequest
    case OkJson(_) => Ok
    case Empty => NoContent
  }

  /** The endpoints that manage a bot's review; the others are head-only. */
  predicate ReviewEndpoint(e: Endpoint)
  {
    e == ApproveBot || e == DenyBot
  }

  /** A missing header is read as the empty string. */
  function Presented(header: Option<string>): string
  {
    match header
    case None => ""
    case Some(v) => v
  }

  /** The gate shared by the five endpoints: the staff member's row exists,
      its API token equals the presented one, and it carries the staff
      flag (review endpoints) or a head flag (the others). */
  predicate Authorized(users: Users, e: Endpoint, header: Option<string>, staffId: UserId)
  {
    && staffId in users
    && users[staffId].apiToken == Presented(header)
    && (if ReviewEndpoint(e) then users[staffId].staff else users[staffId].hadmin || users[staffId].iblhdev)
  }

  /** One call of an endpoint; `action` stands for the library call, which
      runs only behind the gate. */
  function Route(users: Users, e: Endpoint, header: Option<string>, req: Request,
                 action: (Endpoint, Request) -> ActionResult): (r: HttpReply)
    ensures r == NotAuthorized <==> !Authorized(users, e, header, req.staffId)
    ensures r.Failed? ==> !r.done && action(e, req) == ActionErr(r.reason)
    ensures r.OkJson? <==> Authorized(users, e, header, req.staffId) && e == ApproveBot && action(e, req).ActionOk?
    ensures r.OkJson? ==> action(e, req) == ActionOk(r.body)
    ensures r == Empty <==> Authorized(users, e, header, req.staffId) && e != ApproveBot && action(e, req).ActionOk?
  {
    if !Authorized(users, e, header, req.staffId) then NotAuthorized
    else
      match action(e, req)
      case ActionErr(reason) => Failed(false, reason)
      case ActionOk(body) => if e == ApproveBot then OkJson(body) else Empty
  }

  /** The status codes of the five endpoints: 401 when the gate refuses,
      400 when the library call fails, 200 for a successful approval and
      204 for every other success. */
  lemma RouteStatus(users: Users, e: Endpoint, header: Option<string>, req: Request,
                    action: (Endpoint, Request) -> ActionResult)
    ensures var c := Code(ReplyStatus(Route(users, e, header, req, action)));
            var ok := Authorized(users, e, header, req.staffId);
            && (c == 401 <==> !ok)
            && (c == 400 <==> ok && action(e, req).ActionErr?)
            && (c == 200 <==> ok && e == ApproveBot && action(e, req).ActionOk?)
            && (c == 204 <==> ok && e != ApproveBot && action(e, req).ActionOk?)
  {
  }

  /** A refused caller learns nothing from the library: the reply does not
      depend on what the action would have done. */
  lemma UnauthorizedNeverActs(users: Users, e: Endpoint, header: Option<string>, req: Request,
                              a1: (Endpoint, Request) -> ActionResult, a2: (Endpoint, Request) -> ActionResult)
    requires !Authorized(users, e, header, req.staffId)
    ensures Route(users, e, header, req, a1) == Route(users, e, header, req, a2) == NotAuthorized
  {
  }

  /** A staff member whose stored API token is empty is authenticated by
      a request without any `Authorization` header. */
  lemma EmptyTokenNeedsNoHeader(users: Users, e: Endpoint, req: Request, action: (Endpoint, Request) -> ActionResult)
    requires req.staffId in users && users[req.staffId].apiToken == ""
    requires users[req.staffId].staff && users[req.staffId].hadmin
    requires action(e, req).ActionOk?
    ensures Route(users, e, None, req, action) != NotAuthorized
    ensures Route(users, e, Some("wrong"), req, action) == NotAuthorized
  {
  }

  /** The two gates are independent: a head administrator without the
      staff flag can reset votes but cannot approve or deny. */
  lemma HeadWithoutStaffCannotReview(users: Users, header: string, req: Request)
    requires req.staffId in users && users[req.staffId].apiToken == header
    requires users[req.staffId].hadmin && !users[req.staffId].staff
    ensures Authorized(users, VoteResetBot, Some(header), req.staffId)
    ensures Authorized(users, UnverifyBot, Some(header), req.staffId)
    ensures !Authorized(users, ApproveBot, Some(header), req.staffId)
    ensures !Authorized(users, DenyBot, Some(header), req.staffId)
  {
  }

  /** Removing someone from staff closes the review endpoints to them but
      not the head-only ones, because removal leaves the head flags and
      the API token alone. */
  lemma RemovedHeadKeepsHeadEndpoints(users: Users, invoker: UserId, cfg: Staff.RoleConfig,
                                      memberRoles: set<RoleId>, header: Option<string>)
    requires var member := invoker;
             member in users && Staff.StaffDel(users, invoker, true, cfg, member, memberRoles).reply == Staff.Removed
    requires users[invoker].iblhdev && users[invoker].apiToken == Presented(header)
    ensures var after := Staff.StaffDel(users, invoker, true, cfg, invoker, memberRoles).users;
            && !Authorized(after, ApproveBot, header, invoker)
            && Authorized(after, VoteResetAllBot, header, invoker)
            && Authorized(after, UnverifyBot, header, invoker)
  {
  }
}
