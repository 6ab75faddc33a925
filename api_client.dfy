/**
 * The client's `axios` instance and its two interceptors: the request interceptor sends the
 * stored access token as a Bearer header; the response interceptor answers a 401 by asking
 * the server for a new access token through the same instance and replaying the request
 * once.
 *
 * The server is a function from requests to replies. The requests the instance sends form a
 * chain the source does not bound, so the model carries `fuel`: each request sent costs one
 * unit, and a chain still going when the fuel runs out ends in `Exhausted`.
 */
module ApiClient {
  import opened Wrappers
  import opened Browser
  import EnsureAuthenticated

  const TokenKey: string := "token"
  const RefreshPath: string := "/users/refresh-token"
  const LoginPath: string := "/login"

  /** A request: its path, its `Authorization` header, and the interceptor's `_retry` mark. */
  datatype Config = Config(path: string, authorization: Option<string>, retry: bool)

  /** What comes back: no response at all (a network error), or a status and the body's `token` ("" when absent). */
  datatype Reply = NoResponse | Answered(status: int, token: string)

  /** How a request settles: the promise resolves, rejects, or the chain outlives the fuel. */
  datatype Outcome = Resolved(reply: Reply) | Rejected(error: Reply) | Exhausted

  /** The browser and instance state the interceptors touch, and every request sent so far. */
  datatype State = State(
    storage: map<string, string>, location: string, defaultAuthorization: Option<string>, sent: seq<Config>)

  /**
   * How the refresh request is configured: as written it is a fresh request without the
   * `_retry` mark; the corrected policy marks it, so a refused refresh is not refreshed again.
   */
  datatype Policy = AsWritten | RefreshMarkedRetried

  type Server = Config -> Reply

  /** `axios` resolves a promise for a 2xx status and rejects it for anything else. */
  predicate Succeeds(reply: Reply) {
    reply.Answered? && 200 <= reply.status < 300
  }

  /** A 401 answer, whatever its body. */
  predicate IsUnauthorized(reply: Reply) {
    reply.Answered? && reply.status == 401
  }

  function Bearer(token: string): string {
    EnsureAuthenticated.BearerHeader(token)
  }

  /**
   * The request as sent: the instance's default header unless the request sets its own, and
   * the request interceptor's Bearer header whenever a non-empty token is stored.
   */
  function Intercept(st: State, config: Config): (req: Config)
    ensures req.path == config.path && req.retry == config.retry
    ensures TokenKey in st.storage && st.storage[TokenKey] != "" ==>
      req.authorization == Some(Bearer(st.storage[TokenKey]))
    ensures !(TokenKey in st.storage && st.storage[TokenKey] != "") ==>
      req.authorization == (if config.authorization.Some? then config.authorization else st.defaultAuthorization)
  {
    var merged := if config.authorization.Some? then config.authorization else st.defaultAuthorization;
    var token := GetItem(st.storage, TokenKey);
    if token.Some? && token.value != "" then config.(authorization := Some(Bearer(token.value)))
    else config.(authorization := merged)
  }

  function RefreshConfig(policy: Policy): Config {
    Config(RefreshPath, None, policy == RefreshMarkedRetried)
  }

  /**
   * `api(config)`: send the request and hand a failure to the response interceptor. The log
   * of sent requests only grows, the browser goes nowhere but the login page, and a request
   * resolves only with a 2xx answer.
   */
  function Dispatch(policy: Policy, server: Server, fuel: nat, st: State, config: Config): (r: (State, Outcome))
    ensures st.sent <= r.0.sent
    ensures r.0.location == st.location || r.0.location == LoginPath
    ensures r.1.Resolved? ==> Succeeds(r.1.reply)
    decreases fuel, 0
  {
    if fuel == 0 then (st, Exhausted)
    else
      var req := Intercept(st, config);
      var sent := st.(sent := st.sent + [req]);
      var reply := server(req);
      if Succeeds(reply) then (sent, Resolved(reply))
      else OnError(policy, server, fuel - 1, sent, req, reply)
  }

  /**
   * The response interceptor's error handler for request `original` that failed with
   * `error`: a first 401 refreshes the token and replays the request; a refresh that
   * resolves without a token, and every other error, rejects with the original error; a
   * refresh that rejects also drops the stored token and sends the browser to the login page.
   */
  function OnError(policy: Policy, server: Server, fuel: nat, st: State, original: Config, error: Reply): (r: (State, Outcome))
    ensures st.sent <= r.0.sent
    ensures r.0.location == st.location || r.0.location == LoginPath
    ensures r.1.Resolved? ==> Succeeds(r.1.reply)
    decreases fuel, 1
  {
    if error.Answered? && error.status == 401 && !original.retry then
      var retried := original.(retry := true);
      var (afterRefresh, refreshed) := Dispatch(policy, server, fuel, st, RefreshConfig(policy));
      match refreshed
      case Exhausted => (afterRefresh, Exhausted)
      case Resolved(r) =>
        if r.Answered? && r.token != "" then
          var header := Some(Bearer(r.token));
          var stored := afterRefresh.(storage := afterRefresh.storage[TokenKey := r.token], defaultAuthorization := header);
          Dispatch(policy, server, fuel, stored, retried.(authorization := header))
        else (afterRefresh, Rejected(error))
      case Rejected(_) =>
        (afterRefresh.(storage := afterRefresh.storage - {TokenKey}, location := LoginPath), Rejected(error))
    else (st, Rejected(error))
  }

  // ---------------------------------------------------------------------------
  // what the interceptors do

  /** A request answered 2xx resolves with that answer; only the request itself is added. */
  lemma SuccessPassesThrough(policy: Policy, server: Server, fuel: nat, st: State, config: Config)
    requires fuel >= 1 && Succeeds(server(Intercept(st, config)))
    ensures Dispatch(policy, server, fuel, st, config) ==
      (st.(sent := st.sent + [Intercept(st, config)]), Resolved(server(Intercept(st, config))))
  {
  }

  /**
   * A failure other than a first 401 — a network error, another status, or a 401 on a
   * replayed request — rejects with that failure and changes nothing else.
   */
  lemma OtherFailuresRejected(policy: Policy, server: Server, fuel: nat, st: State, config: Config)
    requires fuel >= 1
    requires var reply := server(Intercept(st, config));
      !Succeeds(reply) && !(reply.Answered? && reply.status == 401 && !config.retry)
    ensures Dispatch(policy, server, fuel, st, config) ==
      (st.(sent := st.sent + [Intercept(st, config)]), Rejected(server(Intercept(st, config))))
  {
  }

  /**
   * A first 401 whose refresh answers a token: the token is stored and made the default
   * header, the request is replayed once with it and marked retried, and the replay's
   * answer settles the request.
   */
  lemma RefreshThenReplay(policy: Policy, server: Server, fuel: nat, st: State, config: Config)
    requires fuel >= 2 && !config.retry
    requires IsUnauthorized(server(Intercept(st, config)))
    requires var r := server(Intercept(st.(sent := st.sent + [Intercept(st, config)]), RefreshConfig(policy)));
      Succeeds(r) && r.token != ""
    ensures
      var first := Intercept(st, config);
      var s1 := st.(sent := st.sent + [first]);
      var refreshReq := Intercept(s1, RefreshConfig(policy));
      var token := server(refreshReq).token;
      var replay := first.(retry := true, authorization := Some(Bearer(token)));
      var reply := server(replay);
      Dispatch(policy, server, fuel, st, config) ==
        (State(st.storage[TokenKey := token], st.location, Some(Bearer(token)), st.sent + [first, refreshReq, replay]),
         if Succeeds(reply) then Resolved(reply) else Rejected(reply))
  {
    var first := Intercept(st, config);
    var s1 := st.(sent := st.sent + [first]);
    var refreshReq := Intercept(s1, RefreshConfig(policy));
    var token := server(refreshReq).token;
    var s2 := s1.(sent := s1.sent + [refreshReq]);
    var stored := s2.(storage := s2.storage[TokenKey := token], defaultAuthorization := Some(Bearer(token)));
    var retried := first.(retry := true, authorization := Some(Bearer(token)));
    assert Dispatch(policy, server, fuel - 1, s1, RefreshConfig(policy)) == (s2, Resolved(server(refreshReq)));
    assert Intercept(stored, retried) == retried;
    var s3 := stored.(sent := stored.sent + [retried]);
    var reply := server(retried);
    if !Succeeds(reply) {
      assert OnError(policy, server, fuel - 2, s3, retried, reply) == (s3, Rejected(reply));
    }
    assert Dispatch(policy, server, fuel - 1, stored, retried) == (s3, if Succeeds(reply) then Resolved(reply) else Rejected(reply));
    assert OnError(policy, server, fuel - 1, s1, first, server(first)) == Dispatch(policy, server, fuel - 1, stored, retried);
    assert st.sent + [first] + [refreshReq] + [retried] == st.sent + [first, refreshReq, retried];
  }

  /**
   * A refresh that fails without a 401 (no response, or another status) logs the user out
   * under either policy: the stored token goes, the browser goes to the login page, and the
   * original 401 rejects the request.
   */
  lemma RefreshFailureLogsOut(policy: Policy, server: Server, fuel: nat, st: State, config: Config)
    requires fuel >= 2 && !config.retry
    requires IsUnauthorized(server(Intercept(st, config)))
    requires var r := server(Intercept(st.(sent := st.sent + [Intercept(st, config)]), RefreshConfig(policy)));
      !Succeeds(r) && (policy == RefreshMarkedRetried || !(r.Answered? && r.status == 401))
    ensures
      var first := Intercept(st, config);
      var refreshReq := Intercept(st.(sent := st.sent + [first]), RefreshConfig(policy));
      Dispatch(policy, server, fuel, st, config) ==
        (State(st.storage - {TokenKey}, LoginPath, st.defaultAuthorization, st.sent + [first, refreshReq]),
         Rejected(server(first)))
  {
    var first := Intercept(st, config);
    var s1 := st.(sent := st.sent + [first]);
    var refreshReq := Intercept(s1, RefreshConfig(policy));
    var s2 := s1.(sent := s1.sent + [refreshReq]);
    var r := server(refreshReq);
    RefreshSettled(policy, server, fuel - 1, s1);
    assert OnError(policy, server, fuel - 1, s1, first, server(first)).0.sent == s2.sent;
    assert st.sent + [first] + [refreshReq] == st.sent + [first, refreshReq];
  }

  /** A refresh that resolves without a token rejects with the original 401, and stores nothing. */
  lemma TokenlessRefreshRejected(policy: Policy, server: Server, fuel: nat, st: State, config: Config)
    requires fuel >= 2 && !config.retry
    requires IsUnauthorized(server(Intercept(st, config)))
    requires var r := server(Intercept(st.(sent := st.sent + [Intercept(st, config)]), RefreshConfig(policy)));
      Succeeds(r) && r.token == ""
    ensures
      var first := Intercept(st, config);
      var refreshReq := Intercept(st.(sent := st.sent + [first]), RefreshConfig(policy));
      Dispatch(policy, server, fuel, st, config) ==
        (st.(sent := st.sent + [first, refreshReq]), Rejected(server(first)))
  {
    var first := Intercept(st, config);
    var s1 := st.(sent := st.sent + [first]);
    var refreshReq := Intercept(s1, RefreshConfig(policy));
    var s2 := s1.(sent := s1.sent + [refreshReq]);
    var r := server(refreshReq);
    RefreshSettled(policy, server, fuel - 1, s1);
    assert OnError(policy, server, fuel - 1, s1, first, server(first)).0.sent == s2.sent;
    assert st.sent + [first] + [refreshReq] == st.sent + [first, refreshReq];
  }

  /** The refresh request settles with the server's answer when that answer is not a 401 to be refreshed again. */
  lemma RefreshSettled(policy: Policy, server: Server, fuel: nat, st: State)
    requires fuel >= 1
    requires var r := server(Intercept(st, RefreshConfig(policy)));
      policy == RefreshMarkedRetried || Succeeds(r) || !(r.Answered? && r.status == 401)
    ensures
      var req := Intercept(st, RefreshConfig(policy));
      var r := server(req);
      Dispatch(policy, server, fuel, st, RefreshConfig(policy)) ==
        (st.(sent := st.sent + [req]), if Succeeds(r) then Resolved(r) else Rejected(r))
  {
    var req := Intercept(st, RefreshConfig(policy));
    var r := server(req);
    if !Succeeds(r) {
      assert OnError(policy, server, fuel - 1, st.(sent := st.sent + [req]), req, r) == (st.(sent := st.sent + [req]), Rejected(r));
    }
  }

  // ---------------------------------------------------------------------------
  // the refresh request goes through the same interceptor

  /** The server refuses every refresh request: what it does once the refresh session has expired. */
  ghost predicate RefusesRefresh(server: Server) {
    forall req: Config :: req.path == RefreshPath ==> IsUnauthorized(server(req))
  }

  /**
   * As written, once the server refuses refreshes, the refresh request's own 401 triggers
   * another refresh, and so forever: however much fuel, the chain never settles, and every
   * unit of fuel is spent on one more refresh request.
   */
  lemma {:induction false} RefreshLoopNeverEnds(server: Server, fuel: nat, st: State)
    requires RefusesRefresh(server)
    ensures Dispatch(AsWritten, server, fuel, st, RefreshConfig(AsWritten)).1 == Exhausted
    ensures var after := Dispatch(AsWritten, server, fuel, st, RefreshConfig(AsWritten)).0;
      |after.sent| == |st.sent| + fuel &&
      after.sent[..|st.sent|] == st.sent &&
      forall k :: |st.sent| <= k < |after.sent| ==> after.sent[k].path == RefreshPath
    decreases fuel
  {
    if fuel > 0 {
      var req := Intercept(st, RefreshConfig(AsWritten));
      var s1 := st.(sent := st.sent + [req]);
      RefreshLoopNeverEnds(server, fuel - 1, s1);
      var after := Dispatch(AsWritten, server, fuel - 1, s1, RefreshConfig(AsWritten)).0;
      assert after.sent[..|s1.sent|] == s1.sent;
      assert after.sent[..|st.sent|] == st.sent by {
        assert after.sent[..|st.sent|] == after.sent[..|s1.sent|][..|st.sent|];
      }
      assert after.sent[|st.sent|] == after.sent[..|s1.sent|][|st.sent|];
    }
  }

  /** As written, any request refused with a 401 while refreshes are refused never settles. */
  lemma ExpiredSessionNeverSettles(server: Server, fuel: nat, st: State, config: Config)
    requires RefusesRefresh(server)
    requires IsUnauthorized(server(Intercept(st, config))) && !config.retry
    ensures Dispatch(AsWritten, server, fuel, st, config).1 == Exhausted
  {
    if fuel > 0 {
      RefreshLoopNeverEnds(server, fuel - 1, st.(sent := st.sent + [Intercept(st, config)]));
    }
  }

  /** With the corrected policy, a request already marked retried settles after one request. */
  lemma RetriedSettles(server: Server, fuel: nat, st: State, config: Config)
    requires fuel >= 1 && config.retry
    ensures Dispatch(RefreshMarkedRetried, server, fuel, st, config).1 != Exhausted
  {
  }

  /** With the corrected policy every request settles within two units of fuel, whatever the server answers. */
  lemma CorrectedAlwaysSettles(server: Server, fuel: nat, st: State, config: Config)
    requires fuel >= 2
    ensures Dispatch(RefreshMarkedRetried, server, fuel, st, config).1 != Exhausted
  {
    var req := Intercept(st, config);
    var s1 := st.(sent := st.sent + [req]);
    var reply := server(req);
    if !Succeeds(reply) && reply.Answered? && reply.status == 401 && !req.retry {
      RetriedSettles(server, fuel - 1, s1, RefreshConfig(RefreshMarkedRetried));
      var (afterRefresh, refreshed) := Dispatch(RefreshMarkedRetried, server, fuel - 1, s1, RefreshConfig(RefreshMarkedRetried));
      if refreshed.Resolved? && refreshed.reply.Answered? && refreshed.reply.token != "" {
        var header := Some(Bearer(refreshed.reply.token));
        var stored := afterRefresh.(storage := afterRefresh.storage[TokenKey := refreshed.reply.token], defaultAuthorization := header);
        RetriedSettles(server, fuel - 1, stored, req.(retry := true).(authorization := header));
      }
    }
  }

  // ---------------------------------------------------------------------------
  // the same interceptors over the browser's and the instance's objects

  /** The `axios` instance: its default `Authorization` header, and the requests it has sent. */
  class Axios {
    var defaultAuthorization: Option<string>
    var sent: seq<Config>

    constructor()
      ensures defaultAuthorization.None? && sent == []
    {
      defaultAuthorization := None;
      sent := [];
    }
  }

  function Snapshot(window: Window, api: Axios): State
    reads window, api
  {
    State(window.storage, window.location, api.defaultAuthorization, api.sent)
  }

  /** `api(config)` on the objects: ends in the state and outcome `Dispatch` describes. */
  method Request(policy: Policy, server: Server, fuel: nat, window: Window, api: Axios, config: Config)
    returns (out: Outcome)
    modifies window, api
    ensures (Snapshot(window, api), out) == Dispatch(policy, server, fuel, old(Snapshot(window, api)), config)
    decreases fuel, 0
  {
    if fuel == 0 {
      return Exhausted;
    }
    var req := Intercept(Snapshot(window, api), config);
    api.sent := api.sent + [req];
    var reply := server(req);
    if Succeeds(reply) {
      return Resolved(reply);
    }
    out := HandleError(policy, server, fuel - 1, window, api, req, reply);
  }

  /** The response interceptor's error handler on the objects. */
  method HandleError(policy: Policy, server: Server, fuel: nat, window: Window, api: Axios, original: Config, error: Reply)
    returns (out: Outcome)
    modifies window, api
    ensures (Snapshot(window, api), out) == OnError(policy, server, fuel, old(Snapshot(window, api)), original, error)
    decreases fuel, 1
  {
    if !(error.Answered? && error.status == 401 && !original.retry) {
      return Rejected(error);
    }
    var retried := original.(retry := true);
    var refreshed := Request(policy, server, fuel, window, api, RefreshConfig(policy));
    match refreshed {
      case Exhausted =>
        out := Exhausted;
      case Resolved(r) =>
        if r.Answered? && r.token != "" {
          window.storage := window.storage[TokenKey := r.token];
          api.defaultAuthorization := Some(Bearer(r.token));
          out := Request(policy, server, fuel, window, api, retried.(authorization := Some(Bearer(r.token))));
        } else {
          out := Rejected(error);
        }
      case Rejected(_) =>
        window.storage := window.storage - {TokenKey};
        window.location := LoginPath;
        out := Rejected(error);
    }
  }
}
