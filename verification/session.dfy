/** The panel's login protocol: OAuth2 login creating a pending session,
    MFA enrolment, activation by one-time code, MFA reset and logout, over
    the `staffpanel__authchain` and `staffpanel__paneldata` tables. */
module Session {
  import opened Common
  import opened Accounts

  type Token = string

  /** A base32-encoded TOTP secret. */
  type Secret = string

  /** The only protocol version `GetLoginUrl` accepts. */
  const ProtocolVersion: nat := 2

  datatype SessionState = PendingSession | ActiveSession

  /** A row of `staffpanel__authchain`. */
  datatype AuthRow = AuthRow(user: UserId, token: Token, state: SessionState)

  /** A row of `staffpanel__paneldata`, keyed by user. */
  datatype PanelData = PanelData(secret: Secret, verified: bool)

  /** The tables the handlers read and write; the auth chain keeps its rows
      in insertion order and, like the SQL table, does not force tokens to
      be unique. */
  datatype Db = Db(users: Users, chain: seq<AuthRow>, panel: map<UserId, PanelData>)

  /** What decoding the stored secret and checking a code against the
      current time step (no skew allowed) gives. */
  datatype OtpCheck = SecretUndecodable | CodeRejected | CodeAccepted

  datatype AuthError =
    | InvalidVersion
    | InvalidRedirect
    | OAuthFailed
    | UnknownUser
    | NotStaff
    | InvalidToken
    | SessionAlreadyActive
    | InvalidPanelData
    | MfaNotSetup
    | UndecodableSecret
    | MfaInvalidCode

  datatype Reply =
    | LoginUrl(url: string)
    | IssuedToken(token: Token)
    | MfaStatus(enrolSecret: Option<Secret>)
    | Activated
    | MfaReset
    | LoggedOut(rows: nat)
    | Refused(error: AuthError)

  /** Status of a reply. Failures of external calls, of the token lookup
      and of secret decoding go through the generic error path (500). */
  function ReplyStatus(r: Reply): Status
  {
    match r
    case LoginUrl(_) => Ok
    case IssuedToken(_) => Ok
    case MfaStatus(_) => Ok
    case Activated => NoContent
    case MfaReset => NoContent
    case LoggedOut(_) => Ok
    case Refused(e) =>
      match e
      case NotStaff => Forbidden
      case OAuthFailed => InternalError
      case UnknownUser => InternalError
      case InvalidToken => InternalError
      case UndecodableSecret => InternalError
      case _ => BadRequest
  }

  datatype Step = Step(db: Db, reply: Reply)

  // ----- Rows of the auth chain ---------------------------------------

  function CountUser(chain: seq<AuthRow>, u: UserId): nat
  {
    if |chain| == 0 then 0 else (if chain[0].user == u then 1 else 0) + CountUser(chain[1..], u)
  }

  function CountToken(chain: seq<AuthRow>, t: Token): nat
  {
    if |chain| == 0 then 0 else (if chain[0].token == t then 1 else 0) + CountToken(chain[1..], t)
  }

  lemma {:induction false} CountUserAppend(a: seq<AuthRow>, b: seq<AuthRow>, u: UserId)
    ensures CountUser(a + b, u) == CountUser(a, u) + CountUser(b, u)
    decreases |a|
  {
    if |a| > 0 {
      assert (a + b)[0] == a[0];
      assert (a + b)[1..] == a[1..] + b;
      CountUserAppend(a[1..], b, u);
    } else {
      assert a + b == b;
    }
  }

  /** The first row carrying `token`, as the token lookup returns it. */
  function FindSession(chain: seq<AuthRow>, token: Token): (r: Option<AuthRow>)
    ensures r.Some? ==> r.value in chain && r.value.token == token
    ensures r.None? <==> forall i :: 0 <= i < |chain| ==> chain[i].token != token
  {
    if |chain| == 0 then None
    else if chain[0].token == token then Some(chain[0])
    else
      var r := FindSession(chain[1..], token);
      assert forall i :: 0 < i < |chain| ==> chain[i] == chain[1..][i - 1];
      r
  }

  /** `DELETE ... WHERE user_id = u`. */
  function DropUser(chain: seq<AuthRow>, u: UserId): (c: seq<AuthRow>)
    ensures forall r :: r in c <==> r in chain && r.user != u
    ensures CountUser(c, u) == 0
    ensures forall v :: v != u ==> CountUser(c, v) == CountUser(chain, v)
  {
    if |chain| == 0 then []
    else if chain[0].user == u then DropUser(chain[1..], u)
    else [chain[0]] + DropUser(chain[1..], u)
  }

  /** `DELETE ... WHERE token = t`. */
  function DropToken(chain: seq<AuthRow>, t: Token): (c: seq<AuthRow>)
    ensures forall r :: r in c <==> r in chain && r.token != t
    ensures |c| + CountToken(chain, t) == |chain|
    ensures forall v :: CountUser(c, v) <= CountUser(chain, v)
  {
    if |chain| == 0 then []
    else if chain[0].token == t then DropToken(chain[1..], t)
    else [chain[0]] + DropToken(chain[1..], t)
  }

  /** `UPDATE ... SET state = 'active' WHERE token = t`: every row with that
      token becomes active, nothing else changes. */
  function ActivateToken(chain: seq<AuthRow>, t: Token): (c: seq<AuthRow>)
    ensures |c| == |chain|
    ensures forall i :: 0 <= i < |c| ==> c[i].user == chain[i].user && c[i].token == chain[i].token
    ensures forall i :: 0 <= i < |c| && chain[i].token == t ==> c[i].state == ActiveSession
    ensures forall i :: 0 <= i < |c| && chain[i].token != t ==> c[i] == chain[i]
    ensures forall v :: CountUser(c, v) == CountUser(chain, v)
  {
    if |chain| == 0 then []
    else
      var head := if chain[0].token == t then chain[0].(state := ActiveSession) else chain[0];
      var rest := ActivateToken(chain[1..], t);
      assert ([head] + rest)[1..] == rest;
      [head] + rest
  }

  /** Token lookup accepting a pending or an active session. */
  function CheckAuthInsecure(db: Db, token: Token): Option<AuthRow>
  {
    FindSession(db.chain, token)
  }

  /** Token lookup accepting only an active session. */
  function CheckAuth(db: Db, token: Token): (r: Option<AuthRow>)
    ensures r.Some? ==> r.value in db.chain && r.value.token == token && r.value.state == ActiveSession
    ensures r.Some? ==> r == CheckAuthInsecure(db, token)
    ensures CheckAuthInsecure(db, token).Some? && CheckAuthInsecure(db, token).value.state == ActiveSession
            ==> r == CheckAuthInsecure(db, token)
  {
    match FindSession(db.chain, token)
    case None => None
    case Some(row) => if row.state == ActiveSession then Some(row) else None
  }

  // ----- Invariants ---------------------------------------------------

  /** Every session's user has MFA data: `Login` creates it in the same
      transaction that inserts the session. */
  predicate SessionsHavePanelData(db: Db)
  {
    forall r :: r in db.chain ==> r.user in db.panel
  }

  /** Single live session per user. */
  ghost predicate OneSessionPerUser(db: Db)
  {
    forall u :: CountUser(db.chain, u) <= 1
  }

  ghost predicate Valid(db: Db)
  {
    SessionsHavePanelData(db) && OneSessionPerUser(db)
  }

  // ----- Handlers -----------------------------------------------------

  /** `GetLoginUrl`: builds the OAuth2 authorisation URL around the given
      redirect, which is NOT checked against the allow-list. */
  function GetLoginUrl(version: nat, redirect: string, clientId: string): (r: Reply)
    ensures version != ProtocolVersion ==> r == Refused(InvalidVersion)
    ensures version == ProtocolVersion ==>
              && r.LoginUrl?
              && HasPrefix(r.url, "https://discord.com/api/oauth2/authorize?client_id=" + clientId)
              && ContainsSub(r.url, "&redirect_uri=" + redirect + "&")
  {
    if version != ProtocolVersion then Refused(InvalidVersion)
    else
      var head := "https://discord.com/api/oauth2/authorize?client_id=" + clientId;
      var mid := "&redirect_uri=" + redirect + "&";
      var url := head + mid + "response_type=code&scope=identify";
      assert url[..|head|] == head;
      assert url[|head|..|head| + |mid|] == mid;
      assert OccursAt(url, mid, |head|);
      LoginUrl(url)
  }

  /** `Login`: `exchange` stands for the OAuth2 code exchange followed by
      the user-info call (None when either fails); `token` and
      `freshSecret` are the freshly generated token and placeholder
      secret. */
  function Login(db: Db, allowed: set<string>, code: string, redirect: string,
                 exchange: (string, string) -> Option<UserId>, token: Token, freshSecret: Secret): (s: Step)
    ensures s.reply.IssuedToken? <==>
              && redirect in allowed
              && exchange(code, redirect).Some?
              && exchange(code, redirect).value in db.users
              && db.users[exchange(code, redirect).value].staff
    ensures !s.reply.IssuedToken? ==> s.db == db
    ensures redirect !in allowed ==> s.reply == Refused(InvalidRedirect)
    ensures redirect in allowed && exchange(code, redirect).Some?
            && exchange(code, redirect).value in db.users
            && !db.users[exchange(code, redirect).value].staff
            ==> s.reply == Refused(NotStaff)
    ensures s.reply.IssuedToken? ==>
              var u := exchange(code, redirect).value;
              && s.reply.token == token
              && s.db.users == db.users
              // exactly one session for the user: the new pending one
              && |s.db.chain| > 0 && s.db.chain[|s.db.chain| - 1] == AuthRow(u, token, PendingSession)
              && CountUser(s.db.chain, u) == 1
              // other users' sessions are untouched
              && (forall r: AuthRow :: r.user != u ==> (r in s.db.chain <==> r in db.chain))
              // MFA data: created unverified if absent, otherwise left alone
              && u in s.db.panel
              && (u in db.panel ==> s.db.panel == db.panel)
              && (u !in db.panel ==> s.db.panel == db.panel[u := PanelData(freshSecret, false)])
    ensures Valid(db) ==> Valid(s.db)
  {
    if redirect !in allowed then Step(db, Refused(InvalidRedirect))
    else
      match exchange(code, redirect)
      case None => Step(db, Refused(OAuthFailed))
      case Some(u) =>
        if u !in db.users then Step(db, Refused(UnknownUser))
        else if !db.users[u].staff then Step(db, Refused(NotStaff))
        else
          var kept := DropUser(db.chain, u);
          var chain := kept + [AuthRow(u, token, PendingSession)];
          CountUserAppend(kept, [AuthRow(u, token, PendingSession)], u);
          assert forall v :: v != u ==> CountUser(chain, v) == CountUser(db.chain, v) by {
            forall v | v != u ensures CountUser(chain, v) == CountUser(db.chain, v) {
              CountUserAppend(kept, [AuthRow(u, token, PendingSession)], v);
            }
          }
          var panel := if u in db.panel then db.panel else db.panel[u := PanelData(freshSecret, false)];
          Step(Db(db.users, chain, panel), IssuedToken(token))
  }

  /** `LoginMfaCheckStatus`: for a pending session whose user has not
      verified MFA, replaces the secret with `freshSecret` and returns it
      for enrolment; a verified user gets no enrolment data. */
  function MfaCheckStatus(db: Db, token: Token, freshSecret: Secret): (s: Step)
    ensures CheckAuthInsecure(db, token).None? ==> s == Step(db, Refused(InvalidToken))
    ensures CheckAuthInsecure(db, token).Some? && CheckAuthInsecure(db, token).value.state != PendingSession
            ==> s == Step(db, Refused(SessionAlreadyActive))
    ensures s.db.users == db.users && s.db.chain == db.chain && s.db.panel.Keys == db.panel.Keys
    ensures s.reply.MfaStatus? ==>
              var u := CheckAuthInsecure(db, token).value.user;
              && CheckAuthInsecure(db, token).value.state == PendingSession
              && u in db.panel
              // other users' MFA data is untouched
              && (forall v :: v in db.panel && v != u ==> s.db.panel[v] == db.panel[v])
              && (!db.panel[u].verified ==>
                    s.reply.enrolSecret == Some(freshSecret) && s.db.panel[u] == PanelData(freshSecret, false))
              && (db.panel[u].verified ==> s.reply.enrolSecret.None? && s.db == db)
    ensures s.reply.Refused? ==> s.db == db
    ensures Valid(db) ==> Valid(s.db)
  {
    match CheckAuthInsecure(db, token)
    case None => Step(db, Refused(InvalidToken))
    case Some(row) =>
      if row.state != PendingSession then Step(db, Refused(SessionAlreadyActive))
      else if row.user !in db.panel then Step(db, Refused(InvalidPanelData))
      else if !db.panel[row.user].verified then
        Step(db.(panel := db.panel[row.user := PanelData(freshSecret, false)]), MfaStatus(Some(freshSecret)))
      else Step(db, MfaStatus(None))
  }

  /** `LoginActivateSession`: `verify` stands for decoding the stored
      secret and checking `otp` against the current time step. The session
      may be pending or already active. */
  function ActivateSession(db: Db, token: Token, otp: string, verify: (Secret, string) -> OtpCheck): (s: Step)
    ensures s.reply == Activated <==>
              && CheckAuthInsecure(db, token).Some?
              && CheckAuthInsecure(db, token).value.user in db.panel
              && verify(db.panel[CheckAuthInsecure(db, token).value.user].secret, otp) == CodeAccepted
    ensures s.reply != Activated ==> s.db == db
    ensures s.reply == Activated ==>
              var u := CheckAuthInsecure(db, token).value.user;
              && s.db.users == db.users
              && |s.db.chain| == |db.chain|
              && (forall i :: 0 <= i < |db.chain| && db.chain[i].token == token ==> s.db.chain[i].state == ActiveSession)
              && (forall i :: 0 <= i < |db.chain| && db.chain[i].token != token ==> s.db.chain[i] == db.chain[i])
              && s.db.panel == db.panel[u := PanelData(db.panel[u].secret, true)]
    ensures Valid(db) ==> Valid(s.db)
  {
    match CheckAuthInsecure(db, token)
    case None => Step(db, Refused(InvalidToken))
    case Some(row) =>
      var u := row.user;
      if u !in db.panel then Step(db, Refused(MfaNotSetup))
      else
        match verify(db.panel[u].secret, otp)
        case SecretUndecodable => Step(db, Refused(UndecodableSecret))
        case CodeRejected => Step(db, Refused(MfaInvalidCode))
        case CodeAccepted =>
          var chain := ActivateToken(db.chain, token);
          ActivationKeepsValid(db, token, u, db.panel[u].(verified := true));
          Step(Db(db.users, chain, db.panel[u := db.panel[u].(verified := true)]), Activated)
  }

  /** Activating sessions keeps every session's user and the number of
      sessions per user, so the invariants survive. */
  lemma ActivationKeepsValid(db: Db, token: Token, u: UserId, pd: PanelData)
    ensures Valid(db) ==> Valid(Db(db.users, ActivateToken(db.chain, token), db.panel[u := pd]))
  {
    var chain := ActivateToken(db.chain, token);
    if Valid(db) {
      forall r | r in chain ensures r.user in db.panel[u := pd] {
        var i :| 0 <= i < |chain| && chain[i] == r;
        assert db.chain[i] in db.chain;
      }
    }
  }

  /** `LoginResetMfa`: needs an active session and a valid current code;
      marks MFA unverified and deletes every session of the user. */
  function ResetMfa(db: Db, token: Token, otp: string, verify: (Secret, string) -> OtpCheck): (s: Step)
    ensures s.reply == MfaReset <==>
              && CheckAuth(db, token).Some?
              && CheckAuth(db, token).value.user in db.panel
              && verify(db.panel[CheckAuth(db, token).value.user].secret, otp) == CodeAccepted
    ensures s.reply != MfaReset ==> s.db == db
    ensures s.reply == MfaReset ==>
              var u := CheckAuth(db, token).value.user;
              && s.db.users == db.users
              && CountUser(s.db.chain, u) == 0
              && (forall r :: r in s.db.chain <==> r in db.chain && r.user != u)
              && s.db.panel == db.panel[u := PanelData(db.panel[u].secret, false)]
    ensures Valid(db) ==> Valid(s.db)
  {
    match CheckAuth(db, token)
    case None => Step(db, Refused(InvalidToken))
    case Some(row) =>
      var u := row.user;
      if u !in db.panel then Step(db, Refused(MfaNotSetup))
      else
        match verify(db.panel[u].secret, otp)
        case SecretUndecodable => Step(db, Refused(UndecodableSecret))
        case CodeRejected => Step(db, Refused(MfaInvalidCode))
        case CodeAccepted =>
          Step(Db(db.users, DropUser(db.chain, u), db.panel[u := db.panel[u].(verified := false)]), MfaReset)
  }

  /** `Logout`: deletes the rows carrying the token and reports how many;
      an unknown token is not an error. */
  function Logout(db: Db, token: Token): (s: Step)
    ensures s.reply.LoggedOut? && s.reply.rows + |s.db.chain| == |db.chain|
    ensures forall r :: r in s.db.chain <==> r in db.chain && r.token != token
    ensures CheckAuthInsecure(s.db, token).None?
    ensures s.db.users == db.users && s.db.panel == db.panel
    ensures Valid(db) ==> Valid(s.db)
  {
    var chain := DropToken(db.chain, token);
    Step(db.(chain := chain), LoggedOut(CountToken(db.chain, token)))
  }

  // ----- Properties across handlers -----------------------------------

  /** Under the invariant the "should never happen" branches are dead:
      a resolved session always finds its user's MFA data. */
  lemma PanelDataNeverMissing(db: Db, token: Token, otp: string, secret: Secret, verify: (Secret, string) -> OtpCheck)
    requires SessionsHavePanelData(db)
    ensures MfaCheckStatus(db, token, secret).reply != Refused(InvalidPanelData)
    ensures ActivateSession(db, token, otp, verify).reply != Refused(MfaNotSetup)
    ensures ResetMfa(db, token, otp, verify).reply != Refused(MfaNotSetup)
  {
  }

  /** The allow-list is only checked at `Login`: a redirect outside it
      still yields a login URL. */
  lemma LoginUrlSkipsAllowList(db: Db, allowed: set<string>, code: string, redirect: string, clientId: string,
                               exchange: (string, string) -> Option<UserId>, token: Token, secret: Secret)
    requires redirect !in allowed
    ensures GetLoginUrl(ProtocolVersion, redirect, clientId).LoginUrl?
    ensures Login(db, allowed, code, redirect, exchange, token, secret) == Step(db, Refused(InvalidRedirect))
  {
  }

  /** Activation does not look at the session state: an already active
      session is "activated" again and MFA stays verified. */
  lemma ActivationIgnoresState(db: Db, token: Token, otp: string, verify: (Secret, string) -> OtpCheck)
    requires CheckAuthInsecure(db, token).Some? && CheckAuthInsecure(db, token).value.state == ActiveSession
    requires CheckAuthInsecure(db, token).value.user in db.panel
    requires verify(db.panel[CheckAuthInsecure(db, token).value.user].secret, otp) == CodeAccepted
    ensures ActivateSession(db, token, otp, verify).reply == Activated
    ensures MfaCheckStatus(db, token, otp).reply == Refused(SessionAlreadyActive)
  {
  }

  /** The happy path: a fresh login yields a pending session that only the
      insecure lookup accepts; a correct code activates it, after which the
      secure lookup accepts it too. */
  lemma LoginThenActivate(db: Db, allowed: set<string>, code: string, redirect: string,
                          exchange: (string, string) -> Option<UserId>, token: Token, secret: Secret,
                          otp: string, verify: (Secret, string) -> OtpCheck)
    requires Valid(db)
    requires forall i :: 0 <= i < |db.chain| ==> db.chain[i].token != token
    requires Login(db, allowed, code, redirect, exchange, token, secret).reply.IssuedToken?
    requires var s := Login(db, allowed, code, redirect, exchange, token, secret);
             var u := exchange(code, redirect).value;
             verify(s.db.panel[u].secret, otp) == CodeAccepted
    ensures var s := Login(db, allowed, code, redirect, exchange, token, secret);
            var u := exchange(code, redirect).value;
            var a := ActivateSession(s.db, token, otp, verify);
            && CheckAuthInsecure(s.db, token) == Some(AuthRow(u, token, PendingSession))
            && CheckAuth(s.db, token).None?
            && a.reply == Activated
            && CheckAuth(a.db, token) == Some(AuthRow(u, token, ActiveSession))
            && a.db.panel[u].verified
  {
    var s := Login(db, allowed, code, redirect, exchange, token, secret);
    var u := exchange(code, redirect).value;
    var kept := LoginAppendsPending(db, allowed, code, redirect, exchange, token, secret);
    FindAfterFresh(kept, AuthRow(u, token, PendingSession));
    ActivateFreshPending(s.db, kept, u, token, otp, verify);
  }

  /** Activating a pending session that is the only row with its token. */
  lemma ActivateFreshPending(db: Db, kept: seq<AuthRow>, u: UserId, token: Token,
                             otp: string, verify: (Secret, string) -> OtpCheck)
    requires db.chain == kept + [AuthRow(u, token, PendingSession)]
    requires forall i :: 0 <= i < |kept| ==> kept[i].token != token
    requires u in db.panel && verify(db.panel[u].secret, otp) == CodeAccepted
    ensures var a := ActivateSession(db, token, otp, verify);
            && a.reply == Activated
            && CheckAuth(a.db, token) == Some(AuthRow(u, token, ActiveSession))
            && u in a.db.panel && a.db.panel[u].verified
  {
    FindAfterFresh(kept, AuthRow(u, token, PendingSession));
    var a := ActivateSession(db, token, otp, verify);
    assert forall i :: 0 <= i < |kept| ==> db.chain[i] == kept[i];
    ActivateLast(kept, AuthRow(u, token, PendingSession), a.db.chain);
    FindAfterFresh(kept, AuthRow(u, token, ActiveSession));
  }

  /** A login with a token no row carries appends its pending row after
      rows that all carry other tokens. */
  lemma LoginAppendsPending(db: Db, allowed: set<string>, code: string, redirect: string,
                            exchange: (string, string) -> Option<UserId>, token: Token, secret: Secret)
    returns (kept: seq<AuthRow>)
    requires forall i :: 0 <= i < |db.chain| ==> db.chain[i].token != token
    requires Login(db, allowed, code, redirect, exchange, token, secret).reply.IssuedToken?
    ensures Login(db, allowed, code, redirect, exchange, token, secret).db.chain
            == kept + [AuthRow(exchange(code, redirect).value, token, PendingSession)]
    ensures forall i :: 0 <= i < |kept| ==> kept[i].token != token
  {
    kept := DropUser(db.chain, exchange(code, redirect).value);
    forall i | 0 <= i < |kept| ensures kept[i].token != token {
      assert kept[i] in kept;
    }
  }

  /** Activating the token of the last row, when no earlier row carries it,
      activates that row alone. */
  lemma ActivateLast(kept: seq<AuthRow>, row: AuthRow, after: seq<AuthRow>)
    requires forall i :: 0 <= i < |kept| ==> kept[i].token != row.token
    requires |after| == |kept| + 1
    requires forall i :: 0 <= i < |kept| ==> after[i] == kept[i]
    requires after[|kept|].user == row.user && after[|kept|].token == row.token
    requires after[|kept|].state == ActiveSession
    ensures after == kept + [AuthRow(row.user, row.token, ActiveSession)]
  {
  }

  /** A row appended after rows with other tokens is the one found. */
  lemma {:induction false} FindAfterFresh(kept: seq<AuthRow>, row: AuthRow)
    requires forall i :: 0 <= i < |kept| ==> kept[i].token != row.token
    ensures FindSession(kept + [row], row.token) == Some(row)
    decreases |kept|
  {
    if |kept| > 0 {
      assert (kept + [row])[1..] == kept[1..] + [row];
      FindAfterFresh(kept[1..], row);
    } else {
      assert kept + [row] == [row];
    }
  }

  /** After an MFA reset no token resolves to the user any more. */
  lemma ResetRevokesEverySession(db: Db, token: Token, otp: string, verify: (Secret, string) -> OtpCheck, t: Token)
    requires ResetMfa(db, token, otp, verify).reply == MfaReset
    ensures var s := ResetMfa(db, token, otp, verify);
            CheckAuthInsecure(s.db, t).Some? ==> CheckAuthInsecure(s.db, t).value.user != CheckAuth(db, token).value.user
    ensures CheckAuthInsecure(ResetMfa(db, token, otp, verify).db, token).None? || CheckAuthInsecure(ResetMfa(db, token, otp, verify).db, token).value.user != CheckAuth(db, token).value.user
  {
  }

  /** Logging out twice deletes nothing the second time. */
  lemma LogoutIsIdempotent(db: Db, token: Token)
    ensures var once := Logout(db, token);
            Logout(once.db, token) == Step(once.db, LoggedOut(0))
  {
    var once := Logout(db, token);
    assert forall r :: r in once.db.chain ==> r.token != token;
    NoTokenNothingDropped(once.db.chain, token);
  }

  lemma {:induction false} NoTokenNothingDropped(chain: seq<AuthRow>, t: Token)
    requires forall r :: r in chain ==> r.token != t
    ensures DropToken(chain, t) == chain && CountToken(chain, t) == 0
    decreases |chain|
  {
    if |chain| > 0 {
      assert chain[0] in chain;
      assert forall r :: r in chain[1..] ==> r in chain;
      NoTokenNothingDropped(chain[1..], t);
      assert chain == [chain[0]] + chain[1..];
    }
  }
}
