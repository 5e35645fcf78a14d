/** The panel's RPC surface: listing the RPC methods a user may see and
    executing one. The methods themselves live outside this model; each is
    represented by its id and the permission tier it declares. */
module Rpc {
  import opened Common
  import opened Accounts
  import Session

  /** `RPCPerms`: the tier an RPC method declares it needs. */
  datatype Tier = OwnerTier | HeadTier | AdminTier | StaffTier

  /** One variant of `RPCMethod` as far as the listing looks at it. */
  datatype MethodInfo = MethodInfo(id: string, tier: Tier)

  /** The four flags the listing reads from the caller's `users` row. */
  datatype Perms = Perms(owner: bool, head: bool, admin: bool, staff: bool)

  /** "head" is a head administrator or a head developer. */
  function PermsOf(u: User): Perms
  {
    Perms(u.owner, u.hadmin || u.iblhdev, u.admin, u.staff)
  }

  /** Each tier is checked against its own flag only: the tiers form no
      hierarchy. */
  predicate Reaches(p: Perms, t: Tier)
  {
    match t
    case OwnerTier => p.owner
    case HeadTier => p.head
    case AdminTier => p.admin
    case StaffTier => p.staff
  }

  /** `xs` is `ys` with some elements left out and the rest in order. */
  predicate IsSubsequence<T(==)>(xs: seq<T>, ys: seq<T>)
    decreases |ys|
  {
    if |xs| == 0 then true
    else if |ys| == 0 then false
    else if xs[0] == ys[0] then IsSubsequence(xs[1..], ys[1..])
    else IsSubsequence(xs, ys[1..])
  }

  /** The loop over `RPCMethod::VARIANTS`: everything when unfiltered,
      otherwise exactly the methods whose tier the caller reaches, in
      declaration order. */
  function ListMethods(variants: seq<MethodInfo>, p: Perms, filtered: bool): (r: seq<MethodInfo>)
    ensures !filtered ==> r == variants
    ensures filtered ==> forall m :: m in r <==> m in variants && Reaches(p, m.tier)
    ensures IsSubsequence(r, variants)
  {
    if |variants| == 0 then []
    else
      var rest := ListMethods(variants[1..], p, filtered);
      assert forall m :: m in variants <==> m == variants[0] || m in variants[1..];
      if !filtered || Reaches(p, variants[0].tier) then
        assert ([variants[0]] + rest)[1..] == rest;
        [variants[0]] + rest
      else
        SubsequenceOfTail(rest, variants);
        rest
  }

  /** Skipping one more element of `ys` keeps a subsequence. */
  lemma {:induction false} SubsequenceOfTail<T>(xs: seq<T>, ys: seq<T>)
    requires |ys| > 0 && IsSubsequence(xs, ys[1..])
    ensures IsSubsequence(xs, ys)
    decreases |xs| + |ys|
  {
    if |xs| > 0 && xs[0] == ys[0] {
      DropHead(xs, ys[1..]);
    }
  }

  /** Dropping the first element of a subsequence keeps it one. */
  lemma {:induction false} DropHead<T>(xs: seq<T>, zs: seq<T>)
    requires |xs| > 0 && IsSubsequence(xs, zs)
    ensures IsSubsequence(xs[1..], zs)
    decreases |xs| + |zs|
  {
    if xs[0] != zs[0] {
      DropHead(xs, zs[1..]);
    }
    SubsequenceOfTail(xs[1..], zs);
  }

  /** What an RPC method's handler reports. */
  datatype Outcome = SucceededEmpty | SucceededWith(content: string) | HandlerFailed(message: string)

  datatype Reply =
    | NoRpcCapability
    | LookupFailed          // capabilities, session or user row could not be read
    | Executed              // 204
    | ExecutedWith(content: string)
    | Rejected(message: string)
    | Methods(methods: seq<MethodInfo>)

  function ReplyStatus(r: Reply): (s: Status)
    ensures Code(s) < 300 <==> r.Executed? || r.ExecutedWith? || r.Methods?
  {
    match r
    case NoRpcCapability => Forbidden
    case LookupFailed => InternalError
    case Executed => NoContent
    case ExecutedWith(_) => Ok
    case Rejected(_) => BadRequest
    case Methods(_) => Ok
  }

  /** `ExecuteRpc`: `caps` is what `get_capabilities` returns for the token
      (None when that fails), `handle` stands for the method's own handler,
      called with the session's user and the target type. */
  function ExecuteRpc(db: Session.Db, caps: Option<set<Capability>>, token: Session.Token,
                      call: MethodInfo, target: string,
                      handle: (MethodInfo, UserId, string) -> Outcome): (r: Reply)
    ensures caps.None? ==> r == LookupFailed
    ensures caps.Some? && Rpc !in caps.value ==> r == NoRpcCapability
    ensures caps.Some? && Rpc in caps.value && Session.CheckAuth(db, token).None? ==> r == LookupFailed
    ensures caps.Some? && Rpc in caps.value && Session.CheckAuth(db, token).Some? ==>
              var o := handle(call, Session.CheckAuth(db, token).value.user, target);
              && (o.SucceededEmpty? <==> r == Executed)
              && (o.SucceededWith? <==> r.ExecutedWith?)
              && (o.SucceededWith? ==> r == ExecutedWith(o.content))
              && (o.HandlerFailed? <==> r.Rejected?)
              && (o.HandlerFailed? ==> r == Rejected(o.message))
  {
    match caps
    case None => LookupFailed
    case Some(c) =>
      if Rpc !in c then NoRpcCapability
      else
        match Session.CheckAuth(db, token)
        case None => LookupFailed
        case Some(row) =>
          match handle(call, row.user, target)
          case SucceededEmpty => Executed
          case SucceededWith(content) => ExecutedWith(content)
          case HandlerFailed(message) => Rejected(message)
  }

  /** `GetRpcMethods`: the caller's flags come from their `users` row. */
  function GetRpcMethods(db: Session.Db, caps: Option<set<Capability>>, token: Session.Token,
                         variants: seq<MethodInfo>, filtered: bool): (r: Reply)
    ensures r.Methods? <==>
              && caps.Some? && Rpc in caps.value
              && Session.CheckAuth(db, token).Some?
              && Session.CheckAuth(db, token).value.user in db.users
    ensures caps.Some? && Rpc !in caps.value ==> r == NoRpcCapability
    ensures r.Methods? ==>
              var p := PermsOf(db.users[Session.CheckAuth(db, token).value.user]);
              && IsSubsequence(r.methods, variants)
              && (forall m :: m in r.methods <==> m in variants && (!filtered || Reaches(p, m.tier)))
  {
    match caps
    case None => LookupFailed
    case Some(c) =>
      if Rpc !in c then NoRpcCapability
      else
        match Session.CheckAuth(db, token)
        case None => LookupFailed
        case Some(row) =>
          if row.user !in db.users then LookupFailed
          else Methods(ListMethods(variants, PermsOf(db.users[row.user]), filtered))
  }

  /** Without the RPC capability no handler is consulted: the reply does
      not depend on which handler would have run. */
  lemma GateBeforeHandler(db: Session.Db, caps: Option<set<Capability>>, token: Session.Token,
                          call: MethodInfo, target: string,
                          h1: (MethodInfo, UserId, string) -> Outcome,
                          h2: (MethodInfo, UserId, string) -> Outcome)
    requires caps.None? || Rpc !in caps.value || Session.CheckAuth(db, token).None?
    ensures ExecuteRpc(db, caps, token, call, target, h1) == ExecuteRpc(db, caps, token, call, target, h2)
    ensures !ExecuteRpc(db, caps, token, call, target, h1).Executed?
  {
  }

  /** Execution never looks at the method's tier: a caller with the RPC
      capability reaches a method the filtered listing hides from them. */
  lemma NoTierCheckAtExecution(db: Session.Db, caps: set<Capability>, token: Session.Token,
                               call: MethodInfo, target: string,
                               handle: (MethodInfo, UserId, string) -> Outcome)
    requires Rpc in caps && Session.CheckAuth(db, token).Some?
    requires Session.CheckAuth(db, token).value.user in db.users
    requires !Reaches(PermsOf(db.users[Session.CheckAuth(db, token).value.user]), call.tier)
    requires handle(call, Session.CheckAuth(db, token).value.user, target) == SucceededEmpty
    ensures call !in GetRpcMethods(db, Some(caps), token, [call], true).methods
    ensures ExecuteRpc(db, Some(caps), token, call, target, handle) == Executed
  {
  }

  /** The tiers are independent: an owner who is not also flagged admin
      does not see admin-tier methods in the filtered listing. */
  lemma OwnerSeesOnlyOwnerTier(variants: seq<MethodInfo>, m: MethodInfo)
    requires m in variants
    ensures m in ListMethods(variants, Perms(true, false, false, false), true) <==> m.tier == OwnerTier
  {
  }
}
