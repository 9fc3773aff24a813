/**
 * The two-step administrator login of the Flask back end: `/admin_login` checks a username
 * and password, `/admin_2fa` checks a TOTP code, `/admin_logout` clears the session, and
 * `admin_protected` gates the administrator routes.
 *
 * The per-client Flask session holds at most three keys; it is modelled as a record with one
 * field per key. The `admin_users` table is a map from id to principal. Password hashing
 * (`check_password_hash`) and TOTP verification (`pyotp.TOTP(secret).verify(code,
 * valid_window=1)`, RFC 6238 with one adjacent time step accepted) are parameters the model
 * knows nothing about. An exception raised inside a route's `try` block is the parameter
 * `fault`.
 */
module AdminAuth {
  import opened Wrappers
  import opened Text

  /** A row of `admin_users`. */
  datatype Principal = Principal(username: string, passwordHash: string, totpSecret: string, active: bool)

  /** The `admin_users` table keyed by its SERIAL id. */
  type Store = map<int, Principal>

  /** The UNIQUE constraint on `admin_users.username`. */
  predicate UniqueUsernames(store: Store) {
    forall a, b :: a in store && b in store && store[a].username == store[b].username ==> a == b
  }

  /**
   * The session keys: `admin_2fa_user_id` (pending), `admin_authenticated` (true only when
   * the key holds Python's True) and `admin_user_id`.
   */
  datatype Session = Session(pending: Option<int>, authenticated: bool, userId: Option<int>)

  /** `session.clear()`: no key at all. */
  const Anonymous := Session(None, false, None)

  /** `admin_protected()`: the gate of every administrator route. */
  predicate Protected(s: Session) {
    s.authenticated
  }

  /** `if not user_id` in `admin_2fa`: a missing key and the falsy id 0 both count as none. */
  predicate NoPending(s: Session) {
    s.pending.None? || s.pending.value == 0
  }

  datatype HttpMethod = Get | Post

  datatype LoginError = MissingFields | BadCredentials | InternalError

  datatype TwoFactorError = MissingCode | InvalidCode

  /** What a login route answers: a rendered form (with an optional error) or a redirect. */
  datatype Page =
    | LoginPage(loginError: Option<LoginError>)
    | TwoFactorPage(codeError: Option<TwoFactorError>)
    | ToLogin
    | ToTwoFactor
    | ToPanel

  /** The error line the login template shows. */
  function LoginErrorText(e: LoginError): string {
    match e
    case MissingFields => "Usuario y contraseña son obligatorios"
    case BadCredentials => "Usuario o contraseña incorrectos"
    case InternalError => "Error interno, intentá de nuevo más tarde"
  }

  /** The error line the 2FA template shows. */
  function TwoFactorErrorText(e: TwoFactorError): string {
    match e
    case MissingCode => "Ingresá el código 2FA"
    case InvalidCode => "Código 2FA inválido"
  }

  /** `SELECT id ... FROM admin_users WHERE username = %s AND is_active = TRUE`. */
  function FindActive(store: Store, username: string): (r: Option<int>)
    requires UniqueUsernames(store)
    ensures r.Some? ==> r.value in store && store[r.value].username == username && store[r.value].active
    ensures r.None? ==> forall id :: id in store ==> !(store[id].username == username && store[id].active)
  {
    if exists id :: id in store && store[id].username == username && store[id].active then
      var id :| id in store && store[id].username == username && store[id].active;
      Some(id)
    else
      None
  }

  /**
   * `admin_login`: the page it answers and the session it leaves. `username` and `password`
   * are the form fields, "" when missing.
   */
  function LoginStep(s: Session, m: HttpMethod, username: string, password: string, store: Store,
                     checkPassword: (string, string) -> bool, fault: bool): (Page, Session)
    requires UniqueUsernames(store)
  {
    if m == Get then
      (if Protected(s) then ToPanel else LoginPage(None), s)
    else
      var user := PyStrip(username);
      if user == [] || password == [] then (LoginPage(Some(MissingFields)), s)
      else if fault then (LoginPage(Some(InternalError)), s)
      else
        match FindActive(store, user)
        case None => (LoginPage(Some(BadCredentials)), s)
        case Some(id) =>
          if !checkPassword(store[id].passwordHash, password) then (LoginPage(Some(BadCredentials)), s)
          else (ToTwoFactor, Session(Some(id), false, None))
  }

  /** `admin_2fa`: the page it answers and the session it leaves. `code` is the form field. */
  function TwoFactorStep(s: Session, m: HttpMethod, code: string, store: Store,
                         totpValid: (string, string) -> bool, fault: bool): (Page, Session)
  {
    if NoPending(s) then (ToLogin, s)
    else if m == Get then (TwoFactorPage(None), s)
    else
      var c := PyStrip(code);
      if c == [] then (TwoFactorPage(Some(MissingCode)), s)
      else if fault then (ToLogin, Anonymous)
      else
        var id := s.pending.value;
        if id !in store || !store[id].active then (ToLogin, Anonymous)
        else if !totpValid(store[id].totpSecret, c) then (TwoFactorPage(Some(InvalidCode)), s)
        else (ToPanel, Session(None, true, Some(id)))
  }

  /** `admin_logout`. */
  function LogoutStep(s: Session): (Page, Session) {
    (ToLogin, Anonymous)
  }

  // ---------------------------------------------------------------------------
  // The session cookie, changed in place as the Flask routes change `session`
  // ---------------------------------------------------------------------------

  class SessionCookie {
    var pending: Option<int>
    var authenticated: bool
    var userId: Option<int>

    function State(): Session
      reads this
    {
      Session(pending, authenticated, userId)
    }

    /** A new client starts with an empty session. */
    constructor ()
      ensures State() == Anonymous
    {
      pending, authenticated, userId := None, false, None;
    }

    /** `session.clear()`. */
    method Clear()
      modifies this
      ensures State() == Anonymous
    {
      pending, authenticated, userId := None, false, None;
    }

    /** `admin_protected()`. */
    function AdminProtected(): (r: bool)
      reads this
      ensures r <==> Protected(State())
    {
      authenticated
    }

    method AdminLogin(m: HttpMethod, username: string, password: string, store: Store,
                      checkPassword: (string, string) -> bool, fault: bool) returns (page: Page)
      requires UniqueUsernames(store)
      modifies this
      ensures (page, State()) == LoginStep(old(State()), m, username, password, store, checkPassword, fault)
    {
      if m == Get {
        if AdminProtected() {
          return ToPanel;
        }
        return LoginPage(None);
      }
      var user := PyStrip(username);
      if user == [] || password == [] {
        return LoginPage(Some(MissingFields));
      }
      if fault {
        return LoginPage(Some(InternalError));
      }
      var row := FindActive(store, user);
      if row.None? {
        return LoginPage(Some(BadCredentials));
      }
      var id := row.value;
      if !checkPassword(store[id].passwordHash, password) {
        return LoginPage(Some(BadCredentials));
      }
      Clear();
      pending := Some(id);
      return ToTwoFactor;
    }

    method AdminTwoFactor(m: HttpMethod, code: string, store: Store,
                          totpValid: (string, string) -> bool, fault: bool) returns (page: Page)
      modifies this
      ensures (page, State()) == TwoFactorStep(old(State()), m, code, store, totpValid, fault)
    {
      if pending.None? || pending.value == 0 {
        return ToLogin;
      }
      if m == Get {
        return TwoFactorPage(None);
      }
      var c := PyStrip(code);
      if c == [] {
        return TwoFactorPage(Some(MissingCode));
      }
      if fault {
        Clear();
        return ToLogin;
      }
      var id := pending.value;
      if id !in store || !store[id].active {
        Clear();
        return ToLogin;
      }
      if !totpValid(store[id].totpSecret, c) {
        return TwoFactorPage(Some(InvalidCode));
      }
      Clear();
      authenticated := true;
      userId := Some(id);
      return ToPanel;
    }

    method AdminLogout() returns (page: Page)
      modifies this
      ensures (page, State()) == LogoutStep(old(State()))
      ensures !AdminProtected()
    {
      Clear();
      return ToLogin;
    }
  }

  // ---------------------------------------------------------------------------
  // Properties of one step
  // ---------------------------------------------------------------------------

  /** Logging out empties the session whatever it held, so the gate then fails. */
  lemma LogoutRevokes(s: Session)
    ensures LogoutStep(s).1 == Anonymous && !Protected(LogoutStep(s).1)
    ensures LogoutStep(s).0 == ToLogin
  {
  }

  /**
   * A POST with a blank username or an empty password is refused before the store is read:
   * the answer does not depend on the store, the password check or a store failure, and
   * the session is unchanged.
   */
  lemma LoginMissingFields(s: Session, username: string, password: string,
                           store: Store, checkPassword: (string, string) -> bool, fault: bool,
                           store': Store, checkPassword': (string, string) -> bool, fault': bool)
    requires UniqueUsernames(store) && UniqueUsernames(store')
    requires (forall i :: 0 <= i < |username| ==> IsPySpace(username[i])) || password == []
    ensures LoginStep(s, Post, username, password, store, checkPassword, fault)
            == (LoginPage(Some(MissingFields)), s)
            == LoginStep(s, Post, username, password, store', checkPassword', fault')
  {
    StripEmptyIff(username, IsPySpace);
  }

  /**
   * An unknown or inactive username and a wrong password get the same answer, and neither
   * changes the session.
   */
  lemma LoginUnknownOrWrongPassword(s: Session, username: string, password: string, store: Store,
                                    checkPassword: (string, string) -> bool)
    requires UniqueUsernames(store)
    requires PyStrip(username) != [] && password != []
    requires (forall id :: id in store && store[id].username == PyStrip(username) ==> !store[id].active)
             || (forall id :: id in store && store[id].username == PyStrip(username) && store[id].active ==>
                  !checkPassword(store[id].passwordHash, password))
    ensures LoginStep(s, Post, username, password, store, checkPassword, false) == (LoginPage(Some(BadCredentials)), s)
  {
  }

  /**
   * The first step succeeds exactly for an active principal with that username whose
   * password checks; it then leaves only the pending id, so an authenticated session that
   * logs in again loses its authentication.
   */
  lemma LoginSucceeds(s: Session, username: string, password: string, store: Store,
                      checkPassword: (string, string) -> bool, fault: bool)
    requires UniqueUsernames(store)
    ensures var (page, s') := LoginStep(s, Post, username, password, store, checkPassword, fault);
            page == ToTwoFactor <==>
              !fault && PyStrip(username) != [] && password != [] &&
              exists id :: id in store && store[id].username == PyStrip(username) && store[id].active
                           && checkPassword(store[id].passwordHash, password)
    ensures var (page, s') := LoginStep(s, Post, username, password, store, checkPassword, fault);
            page == ToTwoFactor ==>
              && s'.pending.Some? && s'.pending.value in store
              && store[s'.pending.value].username == PyStrip(username)
              && !Protected(s') && s'.userId.None?
    ensures var (page, s') := LoginStep(s, Post, username, password, store, checkPassword, fault);
            page != ToTwoFactor ==> s' == s
  {
    var user := PyStrip(username);
    if user != [] && password != [] && !fault {
      match FindActive(store, user)
      case None =>
      case Some(id) =>
        forall other | other in store && store[other].username == user && store[other].active
          ensures other == id
        {
        }
    }
  }

  /** Without a pending id, the second step sends the client back to the login page and changes nothing. */
  lemma TwoFactorWithoutPending(s: Session, m: HttpMethod, code: string, store: Store,
                                totpValid: (string, string) -> bool, fault: bool)
    requires NoPending(s)
    ensures TwoFactorStep(s, m, code, store, totpValid, fault) == (ToLogin, s)
  {
  }

  /**
   * An empty code or a wrong code renders the form again with an error and keeps the
   * session, pending id included.
   */
  lemma TwoFactorBadCodeKeepsPending(s: Session, code: string, store: Store,
                                     totpValid: (string, string) -> bool, fault: bool)
    requires !NoPending(s)
    requires PyStrip(code) == [] ||
             (!fault && s.pending.value in store && store[s.pending.value].active
              && !totpValid(store[s.pending.value].totpSecret, PyStrip(code)))
    ensures var (page, s') := TwoFactorStep(s, Post, code, store, totpValid, fault);
            s' == s && s'.pending == s.pending && page.TwoFactorPage? && page.codeError.Some?
  {
  }

  /** A principal that is gone or deactivated, or a failure, ends the attempt with an empty session. */
  lemma TwoFactorClears(s: Session, code: string, store: Store,
                        totpValid: (string, string) -> bool, fault: bool)
    requires !NoPending(s) && PyStrip(code) != []
    requires fault || s.pending.value !in store || !store[s.pending.value].active
    ensures TwoFactorStep(s, Post, code, store, totpValid, fault) == (ToLogin, Anonymous)
  {
  }

  /**
   * The second step authenticates exactly when a non-blank code verifies against the
   * secret of the pending principal, still active; the session then holds the
   * authentication and that principal's id, and no pending id.
   */
  lemma TwoFactorSucceeds(s: Session, m: HttpMethod, code: string, store: Store,
                          totpValid: (string, string) -> bool, fault: bool)
    ensures var (page, s') := TwoFactorStep(s, m, code, store, totpValid, fault);
            Protected(s') && !Protected(s) <==>
              && !Protected(s) && !NoPending(s) && m == Post && !fault && PyStrip(code) != []
              && s.pending.value in store && store[s.pending.value].active
              && totpValid(store[s.pending.value].totpSecret, PyStrip(code))
    ensures var (page, s') := TwoFactorStep(s, m, code, store, totpValid, fault);
            page == ToPanel ==> s' == Session(None, true, s.pending)
  {
  }

  // ---------------------------------------------------------------------------
  // Whole conversations
  // ---------------------------------------------------------------------------

  /** One request a client can send to the three routes. */
  datatype Request =
    | LoginRequest(m: HttpMethod, username: string, password: string, loginFault: bool)
    | TwoFactorRequest(m2: HttpMethod, code: string, codeFault: bool)
    | LogoutRequest

  function Step(s: Session, r: Request, store: Store, checkPassword: (string, string) -> bool,
                totpValid: (string, string) -> bool): Session
    requires UniqueUsernames(store)
  {
    match r
    case LoginRequest(m, u, p, f) => LoginStep(s, m, u, p, store, checkPassword, f).1
    case TwoFactorRequest(m, c, f) => TwoFactorStep(s, m, c, store, totpValid, f).1
    case LogoutRequest => LogoutStep(s).1
  }

  /** The session after a sequence of requests, the last one applied last. */
  function Run(s: Session, rs: seq<Request>, store: Store, checkPassword: (string, string) -> bool,
               totpValid: (string, string) -> bool): Session
    requires UniqueUsernames(store)
  {
    if rs == [] then s
    else Step(Run(s, rs[..|rs| - 1], store, checkPassword, totpValid), rs[|rs| - 1], store, checkPassword, totpValid)
  }

  /** Request `r` passes the password check for principal `id`. */
  predicate PasswordAccepted(r: Request, id: int, store: Store, checkPassword: (string, string) -> bool) {
    && r.LoginRequest? && r.m == Post && !r.loginFault
    && id in store && store[id].active && store[id].username == PyStrip(r.username)
    && r.password != [] && checkPassword(store[id].passwordHash, r.password)
  }

  /** Request `r` carries a code that verifies for principal `id`. */
  predicate CodeAccepted(r: Request, id: int, store: Store, totpValid: (string, string) -> bool) {
    && r.TwoFactorRequest? && r.m2 == Post && !r.codeFault
    && id in store && store[id].active
    && PyStrip(r.code) != [] && totpValid(store[id].totpSecret, PyStrip(r.code))
  }

  /** What a session reached from an empty one carries with it. */
  predicate Earned(s: Session, rs: seq<Request>, store: Store, checkPassword: (string, string) -> bool,
                   totpValid: (string, string) -> bool) {
    && (s.pending.Some? ==> exists i :: 0 <= i < |rs| && PasswordAccepted(rs[i], s.pending.value, store, checkPassword))
    && (s.authenticated ==>
          s.userId.Some? && s.pending.None? &&
          exists i, j :: 0 <= i < j < |rs| && PasswordAccepted(rs[i], s.userId.value, store, checkPassword)
                                          && CodeAccepted(rs[j], s.userId.value, store, totpValid))
  }

  lemma {:induction false} RunEarned(rs: seq<Request>, store: Store, checkPassword: (string, string) -> bool,
                                     totpValid: (string, string) -> bool)
    requires UniqueUsernames(store)
    ensures Earned(Run(Anonymous, rs, store, checkPassword, totpValid), rs, store, checkPassword, totpValid)
  {
    if rs != [] {
      var init := rs[..|rs| - 1];
      var r := rs[|rs| - 1];
      var s := Run(Anonymous, init, store, checkPassword, totpValid);
      var s' := Run(Anonymous, rs, store, checkPassword, totpValid);
      RunEarned(init, store, checkPassword, totpValid);
      assert s' == Step(s, r, store, checkPassword, totpValid);
      assert forall i :: 0 <= i < |init| ==> rs[i] == init[i];
      if s' != s && s' != Anonymous {
        match r
        case LoginRequest(m, u, p, f) =>
          LoginSucceeds(s, u, p, store, checkPassword, f);
          var id := s'.pending.value;
          assert PasswordAccepted(r, id, store, checkPassword);
          assert PasswordAccepted(rs[|rs| - 1], id, store, checkPassword);
        case TwoFactorRequest(m, c, f) =>
          var id := s.pending.value;
          assert CodeAccepted(r, id, store, totpValid);
          var i :| 0 <= i < |init| && PasswordAccepted(init[i], id, store, checkPassword);
          assert PasswordAccepted(rs[i], id, store, checkPassword) && CodeAccepted(rs[|rs| - 1], id, store, totpValid);
        case LogoutRequest =>
      }
    }
  }

  /**
   * Starting from an empty session, a session passes the gate only after a request that
   * passed the password check for its principal and a later one whose TOTP code verified
   * for the same principal.
   */
  lemma AuthenticatedOnlyAfterBothFactors(rs: seq<Request>, store: Store,
                                          checkPassword: (string, string) -> bool,
                                          totpValid: (string, string) -> bool)
    requires UniqueUsernames(store)
    ensures var s := Run(Anonymous, rs, store, checkPassword, totpValid);
            Protected(s) ==>
              s.userId.Some? &&
              exists i, j :: 0 <= i < j < |rs| && PasswordAccepted(rs[i], s.userId.value, store, checkPassword)
                                              && CodeAccepted(rs[j], s.userId.value, store, totpValid)
  {
    RunEarned(rs, store, checkPassword, totpValid);
  }
}
