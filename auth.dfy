/**
 * The authentication service of auth.py: a user table, one client's session
 * slot and the shared access log, newest entry first and capped at 1000
 * entries. The two JSON files (users.json, access_log.json) are the fields
 * `users` and `log` of AuthService; loading one is reading the field and
 * saving one is assigning it.
 */
module Auth {
  import opened Wrappers

  /** The log keeps at most this many entries (auth.py:47-48). */
  const MaxLog: nat := 1000
  /** /access_logs returns at most this many entries (auth.py:131). */
  const PageSize: nat := 50
  const AdminRole: string := "admin"

  /**
   * A record of users.json: a plaintext password and an optional role; None
   * is a JSON null (for the role, also a missing key, as `.get` gives).
   */
  datatype User = User(password: Option<string>, role: Option<string>)

  /** The actions auth.py logs. */
  datatype Action = LoginSuccess | LoginFailed | Logout

  /**
   * What the request and the clock contribute to an entry: time.time(),
   * time.strftime(...) and request.remote_addr, all opaque here.
   */
  datatype RequestContext = RequestContext(timestamp: real, timeStr: string, ip: Option<string>)

  /** One access-log entry (auth.py:34-41). */
  datatype Entry = Entry(
    timestamp: real,
    timeStr: string,
    username: Option<string>,
    action: Action,
    filename: Option<string>,
    ip: Option<string>)

  function MakeEntry(username: Option<string>, action: Action, filename: Option<string>, ctx: RequestContext): (e: Entry)
    ensures e.username == username && e.action == action && e.filename == filename
    ensures e.timestamp == ctx.timestamp && e.timeStr == ctx.timeStr && e.ip == ctx.ip
  {
    Entry(ctx.timestamp, ctx.timeStr, username, action, filename, ctx.ip)
  }

  /** The JSON replies of /login and /logout. */
  datatype Reply = Reply(success: bool, message: string)

  /** The JSON reply of /check_auth. */
  datatype AuthStatus = Anonymous | Authenticated(username: string)

  /** The JSON reply of /access_logs. */
  datatype LogsReply = LogsPage(logs: seq<Entry>) | LogsDenied(message: string)

  const LoginOk: string := "登录成功"
  const LoginBad: string := "用户名或密码错误"
  const LoggedOut: string := "已退出登录"
  const NotLoggedIn: string := "未登录"
  const Forbidden: string := "权限不足"

  /** Python's `s[:n]` for n >= 0. */
  function Take<T>(s: seq<T>, n: nat): (r: seq<T>)
    ensures |r| == Min(n, |s|)
    ensures r == s[..|r|]
  {
    if |s| <= n then s else s[..n]
  }

  /**
   * The cap applied after every insertion (auth.py:47-48): the oldest
   * entries beyond MaxLog are dropped, the rest keep their order.
   */
  function Capped(s: seq<Entry>): (r: seq<Entry>)
    ensures |r| == Min(|s|, MaxLog)
    ensures r == s[..|r|]
  {
    Take(s, MaxLog)
  }

  /**
   * The log after one call of log_access (auth.py:44-48): the new entry
   * first, then the old log in its order, truncated to MaxLog entries.
   */
  function Record(log: seq<Entry>, e: Entry): (r: seq<Entry>)
    ensures |r| == Min(|log| + 1, MaxLog)
    ensures r[0] == e
    ensures r[1..] == log[..|r| - 1]
    ensures r <= [e] + log
  {
    Capped([e] + log)
  }

  /**
   * The login credential check (auth.py:76): the submitted name is a key of
   * the table and the submitted password equals the stored one. A missing
   * form field is None: never a key, but equal to a stored null password.
   */
  predicate CredentialsMatch(users: map<string, User>, username: Option<string>, password: Option<string>)
  {
    username.Some? && username.value in users && users[username.value].password == password
  }

  /**
   * A user stored with a null password is logged in by a request that sends
   * no password field at all.
   */
  lemma NullPasswordAdmitsMissingField(users: map<string, User>, name: string)
    requires name in users && users[name].password == None
    ensures CredentialsMatch(users, Some(name), None)
  {
  }

  /** The /access_logs gate (auth.py:121-128): a session user whose record has role "admin". */
  predicate IsAdmin(users: map<string, User>, session: Option<string>)
  {
    session.Some? && session.value in users && users[session.value].role == Some(AdminRole)
  }

  /** The entries /access_logs hands to an admin (auth.py:129-131). */
  function RecentPage(log: seq<Entry>): (r: seq<Entry>)
    ensures |r| == Min(PageSize, |log|)
    ensures forall i :: 0 <= i < |r| ==> r[i] == log[i]
  {
    Take(log, PageSize)
  }

  /** log_access applied to the entries `es`, oldest call first. */
  function Replay(log: seq<Entry>, es: seq<Entry>): (r: seq<Entry>)
    ensures es != [] ==> 0 < |r| <= MaxLog && r[0] == es[|es| - 1]
  {
    if es == [] then log else Record(Replay(log, es[..|es| - 1]), es[|es| - 1])
  }

  /** The entries `es` with the last one first. */
  function NewestFirst(es: seq<Entry>): (r: seq<Entry>)
    ensures |r| == |es|
    ensures forall i :: 0 <= i < |es| ==> r[i] == es[|es| - 1 - i]
  {
    if es == [] then [] else [es[|es| - 1]] + NewestFirst(es[..|es| - 1])
  }

  /** Truncating before an insertion and once more after it is truncating once. */
  lemma CapAbsorbs(e: Entry, s: seq<Entry>)
    ensures Capped([e] + Capped(s)) == Capped([e] + s)
  {
    if |s| > MaxLog {
      assert ([e] + s[..MaxLog])[..MaxLog] == ([e] + s)[..MaxLog];
    }
  }

  /**
   * Whatever the sequence of log_access calls, the log holds the newest
   * MaxLog entries of the whole history, newest first: the new entries in
   * reverse call order followed by the original log.
   */
  lemma {:induction false} ReplayIsCappedHistory(log: seq<Entry>, es: seq<Entry>)
    requires |log| <= MaxLog
    ensures Replay(log, es) == Capped(NewestFirst(es) + log)
    ensures |Replay(log, es)| == Min(|es| + |log|, MaxLog)
  {
    if es != [] {
      var init, last := es[..|es| - 1], es[|es| - 1];
      ReplayIsCappedHistory(log, init);
      CapAbsorbs(last, NewestFirst(init) + log);
      assert [last] + (NewestFirst(init) + log) == NewestFirst(es) + log;
    }
  }

  /**
   * The service state. `session` is the slot session['username'] of the
   * one client whose requests are modelled.
   */
  class AuthService {
    var users: map<string, User>
    var session: Option<string>
    var log: seq<Entry>

    /** The cap holds; every write re-establishes it. */
    ghost predicate Valid()
      reads this
    {
      |log| <= MaxLog
    }

    /** A fresh client (no session cookie) against the stored files. */
    constructor (users: map<string, User>, log: seq<Entry>)
      ensures this.users == users && this.log == log && session == None
      ensures Valid() <==> |log| <= MaxLog
    {
      this.users := users;
      this.log := log;
      session := None;
    }

    /** log_access (auth.py:31-50): prepend one entry and cap the log. */
    method LogAccess(username: Option<string>, action: Action, filename: Option<string>, ctx: RequestContext)
      modifies this`log
      ensures log == Record(old(log), MakeEntry(username, action, filename, ctx))
      ensures Valid()
    {
      var accessLog := log;
      var entry := MakeEntry(username, action, filename, ctx);
      accessLog := [entry] + accessLog;
      if |accessLog| > MaxLog {
        accessLog := accessLog[..MaxLog];
      }
      log := accessLog;
    }

    /**
     * POST /login (auth.py:64-86). On matching credentials the session holds
     * the submitted name and a login_success entry is logged; otherwise the
     * session is untouched and a login_failed entry with the submitted name
     * is logged.
     */
    method Login(username: Option<string>, password: Option<string>, ctx: RequestContext) returns (reply: Reply)
      modifies this
      ensures reply.success <==> CredentialsMatch(old(users), username, password)
      ensures reply.success ==>
        (session == username && reply.message == LoginOk &&
         log == Record(old(log), MakeEntry(username, LoginSuccess, None, ctx)))
      ensures !reply.success ==>
        (session == old(session) && reply.message == LoginBad &&
         log == Record(old(log), MakeEntry(username, LoginFailed, None, ctx)))
      ensures users == old(users)
      ensures Valid()
    {
      var table := users;
      if username.Some? && username.value in table && table[username.value].password == password {
        session := username;
        LogAccess(username, LoginSuccess, None, ctx);
        reply := Reply(true, LoginOk);
      } else {
        LogAccess(username, LoginFailed, None, ctx);
        reply := Reply(false, LoginBad);
      }
    }

    /**
     * GET /logout (auth.py:88-100): a logout entry for the session user if
     * there is one, then the session slot is cleared.
     */
    method Logout(ctx: RequestContext) returns (reply: Reply)
      modifies this
      ensures session == None
      ensures old(session).Some? ==> log == Record(old(log), MakeEntry(old(session), Action.Logout, None, ctx))
      ensures old(session).None? ==> log == old(log)
      ensures old(Valid()) ==> Valid()
      ensures users == old(users)
      ensures reply == Reply(true, LoggedOut)
    {
      if session.Some? {
        var username := session;
        LogAccess(username, Action.Logout, None, ctx);
      }
      session := None;
      reply := Reply(true, LoggedOut);
    }

    /** GET /check_auth (auth.py:102-112): reads the session slot only. */
    method CheckAuth() returns (status: AuthStatus)
      ensures status.Authenticated? <==> session.Some?
      ensures status.Authenticated? ==> session == Some(status.username)
    {
      if session.Some? {
        status := Authenticated(session.value);
      } else {
        status := Anonymous;
      }
    }

    /**
     * GET /access_logs (auth.py:114-135): the newest PageSize entries for an
     * admin; "not logged in" without a session; "forbidden" otherwise.
     */
    method GetAccessLogs() returns (r: LogsReply)
      ensures r.LogsPage? <==> IsAdmin(users, session)
      ensures r.LogsPage? ==> r.logs == log[..Min(PageSize, |log|)]
      ensures r.LogsDenied? && session.None? ==> r.message == NotLoggedIn
      ensures r.LogsDenied? && session.Some? ==> r.message == Forbidden
    {
      if session.None? {
        return LogsDenied(NotLoggedIn);
      }
      var table := users;
      var username := session.value;
      if username in table && table[username].role == Some(AdminRole) {
        var logs := log;
        r := LogsPage(RecentPage(logs));
      } else {
        r := LogsDenied(Forbidden);
      }
    }
  }

  /**
   * A request sequence that logs in with the stored credentials, checks, and
   * logs out: the session is back to empty and the log is the old one with
   * the login_success entry and then the logout entry recorded. When the
   * log has room for both, nothing is dropped.
   */
  method LoginLogoutRoundTrip(s: AuthService, name: string, c1: RequestContext, c2: RequestContext)
    requires name in s.users
    modifies s
    ensures s.session == None
    ensures s.log == Record(Record(old(s.log), MakeEntry(Some(name), LoginSuccess, None, c1)),
                            MakeEntry(Some(name), Action.Logout, None, c2))
    ensures s.log[0].action == Action.Logout && s.log[1].action == LoginSuccess
    ensures |old(s.log)| <= MaxLog - 2 ==> |s.log| == |old(s.log)| + 2 && s.log[2..] == old(s.log)
  {
    var r1 := s.Login(Some(name), s.users[name].password, c1);
    var st := s.CheckAuth();
    assert st == Authenticated(name);
    var r2 := s.Logout(c2);
  }
}
