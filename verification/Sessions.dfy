/** Administrator sessions: creation, validation and revocation, and whole runs of them. Instants are
    microseconds; the stored timestamp text determines them exactly (Timestamps.TextOrderIsTimeOrder). */
module Sessions {
  import opened Common

  /** One row of admin_sessions; `revoked` stands for a non-null revoked_at. */
  datatype Session = Session(id: string, csrf: Digest, lastSeen: int, expires: int, revoked: bool)

  /** Rows are found by their unique token hash. */
  type Table = map<Digest, Session>

  /** timedelta(seconds=n), in microseconds */
  function Seconds(n: int): int { n * 1000000 }

  ghost predicate UniqueIds(t: Table) {
    forall a, b | a in t && b in t && t[a].id == t[b].id :: a == b
  }

  /** INSERT INTO admin_sessions: an integrity error if the id or the token hash is taken. */
  function Create(t: Table, now: int, id: string, token: Digest, csrf: Digest, lifetime: int): (Table, bool) {
    if token in t || (exists h :: h in t && t[h].id == id) then (t, false)
    else (t[token := Session(id, csrf, now, now + Seconds(lifetime), false)], true)
  }

  /** The session is revoked, past its absolute expiry, or idle for too long. */
  predicate Dead(s: Session, now: int, idleSeconds: int) {
    s.revoked || s.expires <= now || s.lastSeen + Seconds(idleSeconds) <= now
  }

  function Validate(t: Table, now: int, token: Digest, csrf: Option<Digest>, idleSeconds: int): (Table, bool) {
    if token !in t || Dead(t[token], now, idleSeconds) || (csrf.Some? && t[token].csrf != csrf.value) then (t, false)
    else (t[token := t[token].(lastSeen := now)], true)
  }

  function Revoke(t: Table, token: Digest): Table {
    if token in t then t[token := t[token].(revoked := true)] else t
  }

  class SessionStore {
    var table: Table

    constructor ()
      ensures table == map[]
    {
      table := map[];
    }

    method CreateSession(now: int, id: string, token: Digest, csrf: Digest, lifetime: int) returns (ok: bool)
      requires UniqueIds(table)
      modifies this
      ensures (table, ok) == Create(old(table), now, id, token, csrf, lifetime) && UniqueIds(table)
    {
      if token in table || (exists h | h in table :: table[h].id == id) {
        return false;
      }
      table := table[token := Session(id, csrf, now, now + Seconds(lifetime), false)];
      ok := true;
    }

    method ValidateSession(now: int, token: Digest, csrf: Option<Digest>, idleSeconds: int) returns (ok: bool)
      modifies this
      ensures (table, ok) == Validate(old(table), now, token, csrf, idleSeconds)
    {
      if token !in table || table[token].revoked {
        return false;
      }
      var row := table[token];
      if row.expires <= now {
        return false;
      }
      if row.lastSeen + Seconds(idleSeconds) <= now {
        return false;
      }
      if csrf.Some? && row.csrf != csrf.value {
        return false;
      }
      table := table[token := row.(lastSeen := now)];
      ok := true;
    }

    method RevokeSession(token: Digest)
      modifies this
      ensures table == Revoke(old(table), token)
    {
      if token in table {
        table := table[token := table[token].(revoked := true)];
      }
    }
  }

  // ---------------------------------------------------------------- require_session

  datatype Verdict = NotConfigured | NoToken | BadOrigin | NoCsrf | Rejected | Accepted

  /** What a request carries: the cookie, whether the route writes, whether Origin and Host pass, and the
      CSRF header. Empty strings count as absent. */
  datatype Request = Request(configured: bool, cookie: Option<string>, write: bool, originOk: bool,
    csrf: Option<string>)

  predicate Absent(s: Option<string>) { s.None? || s.value == "" }

  function RequireSession(t: Table, now: int, digest: string -> Digest, idleSeconds: int, r: Request)
    : (Table, Verdict)
  {
    if !r.configured then (t, NotConfigured)
    else if Absent(r.cookie) then (t, NoToken)
    else if r.write && !r.originOk then (t, BadOrigin)
    else if r.write && Absent(r.csrf) then (t, NoCsrf)
    else
      var csrf := if r.write then Some(digest(r.csrf.value)) else None;
      var (u, ok) := Validate(t, now, digest(r.cookie.value), csrf, idleSeconds);
      (u, if ok then Accepted else Rejected)
  }

  /** revoke_request_session: the logout handler calls it after require_session(write=True). */
  function RevokeRequest(t: Table, digest: string -> Digest, r: Request): Table {
    if Absent(r.cookie) then t else Revoke(t, digest(r.cookie.value))
  }

  // ---------------------------------------------------------------- runs

  datatype Event =
    | Login(id: string, token: Digest, csrf: Digest, lifetime: int)
    | Visit(request: Request, idleSeconds: int)
    | Logout(request: Request)
    | Wait(microseconds: nat)

  /** `visits` logs, for one watched token, the instants at which it was created or accepted. */
  datatype System = System(table: Table, now: int, visits: seq<int>)

  function Step(s: System, digest: string -> Digest, watched: Digest, e: Event): System {
    match e
    case Wait(us) => s.(now := s.now + us)
    case Login(id, token, csrf, lifetime) =>
      var (t, ok) := Create(s.table, s.now, id, token, csrf, lifetime);
      System(t, s.now, if ok && token == watched then [s.now] else s.visits)
    case Visit(r, idle) =>
      var (t, v) := RequireSession(s.table, s.now, digest, idle, r);
      System(t, s.now, if v == Accepted && digest(r.cookie.value) == watched then s.visits + [s.now] else s.visits)
    case Logout(r) => s.(table := RevokeRequest(s.table, digest, r))
  }

  function Run(s: System, digest: string -> Digest, watched: Digest, es: seq<Event>): System {
    if es == [] then s else Step(Run(s, digest, watched, es[..|es| - 1]), digest, watched, es[|es| - 1])
  }

  /** The idle limits in force never exceed `idle`; the configuration fixes one value. */
  ghost predicate IdleAtMost(es: seq<Event>, idle: int) {
    forall e | e in es && e.Visit? :: e.idleSeconds <= idle
  }

  /** Sessions are issued for at most `life` seconds. */
  ghost predicate LifeAtMost(es: seq<Event>, life: int) {
    forall e | e in es && e.Login? :: e.lifetime <= life
  }

  /** Every gap between consecutive acceptances is shorter than the idle limit, every acceptance is less
      than the session's lifetime after its login, and the row remembers the last of them. */
  ghost predicate Tracked(s: System, watched: Digest, idle: int, life: int) {
    && (forall i | 0 < i < |s.visits| :: s.visits[i - 1] <= s.visits[i] < s.visits[i - 1] + idle * 1000000)
    && (forall i | 0 < i < |s.visits| :: s.visits[i] < s.visits[0] + life * 1000000)
    && (s.visits != [] <==> watched in s.table)
    && (watched in s.table ==>
          && s.visits[|s.visits| - 1] == s.table[watched].lastSeen <= s.now
          && s.table[watched].expires <= s.visits[0] + life * 1000000)
  }

  lemma AcceptanceTracked(s: System, watched: Digest, idle: int, life: int)
    requires Tracked(s, watched, idle, life) && watched in s.table && !Dead(s.table[watched], s.now, idle)
    ensures Tracked(System(s.table[watched := s.table[watched].(lastSeen := s.now)], s.now, s.visits + [s.now]),
              watched, idle, life)
  {
  }

  lemma VisitTracked(s: System, digest: string -> Digest, watched: Digest, r: Request, idleNow: int, idle: int,
                     life: int)
    requires Tracked(s, watched, idle, life) && idleNow <= idle
    ensures Tracked(Step(s, digest, watched, Visit(r, idleNow)), watched, idle, life)
  {
    var (t, v) := RequireSession(s.table, s.now, digest, idleNow, r);
    if v == Accepted && digest(r.cookie.value) == watched {
      assert t == s.table[watched := s.table[watched].(lastSeen := s.now)];
      AcceptanceTracked(s, watched, idle, life);
    } else {
      assert (watched in t <==> watched in s.table) && (watched in t ==> t[watched] == s.table[watched]);
    }
  }

  lemma StepTracked(s: System, digest: string -> Digest, watched: Digest, e: Event, idle: int, life: int)
    requires Tracked(s, watched, idle, life) && (e.Visit? ==> e.idleSeconds <= idle)
             && (e.Login? ==> e.lifetime <= life)
    ensures Tracked(Step(s, digest, watched, e), watched, idle, life)
  {
    if e.Visit? {
      VisitTracked(s, digest, watched, e.request, e.idleSeconds, idle, life);
    }
  }

  /** Over any run: every accepted request of a session comes before its absolute expiry, and within the
      idle limit of the previous accepted one (or of the login). */
  lemma {:induction false} AcceptedInTime(start: System, digest: string -> Digest, watched: Digest, es: seq<Event>,
                                          idle: int, life: int)
    requires start.table == map[] && start.visits == [] && IdleAtMost(es, idle) && LifeAtMost(es, life)
    ensures Tracked(Run(start, digest, watched, es), watched, idle, life)
  {
    if es != [] {
      var front := es[..|es| - 1];
      assert es[|es| - 1] in es;
      AcceptedInTime(start, digest, watched, front, idle, life);
      StepTracked(Run(start, digest, watched, front), digest, watched, es[|es| - 1], idle, life);
    }
  }

  /** Not revoked, before the absolute expiry, and within the idle limit of the last acceptance. */
  predicate Alive(row: Session, now: int, idle: int) {
    !row.revoked && now < row.expires && now < row.lastSeen + idle * 1000000
  }

  /** A header or cookie that is there and not empty. */
  predicate Present(s: Option<string>) { s.Some? && s.value != "" }

  /** Every answer, on the request and the row alone. A request is accepted exactly when it presents the token
      of a living session and, if it writes, a good origin and that session's CSRF value; any other request
      leaves every row as it was, so it extends nothing. */
  lemma AcceptedExactly(t: Table, now: int, digest: string -> Digest, idle: int, r: Request)
    ensures var (u, v) := RequireSession(t, now, digest, idle, r);
      var asks := r.configured && Present(r.cookie);
      var allowed := asks && (r.write ==> r.originOk && Present(r.csrf));
      && (v == NotConfigured <==> !r.configured)
      && (v == NoToken <==> r.configured && !Present(r.cookie))
      && (v == BadOrigin <==> asks && r.write && !r.originOk)
      && (v == NoCsrf <==> asks && r.write && r.originOk && !Present(r.csrf))
      && (v == Accepted <==>
            && allowed && digest(r.cookie.value) in t && Alive(t[digest(r.cookie.value)], now, idle)
            && (r.write ==> t[digest(r.cookie.value)].csrf == digest(r.csrf.value)))
      && (v != Accepted ==> u == t)
      && (v == Accepted ==> u == t[digest(r.cookie.value) := t[digest(r.cookie.value)].(lastSeen := now)])
  {
  }

  /** A login succeeds exactly when the id and the token hash are new, and then the session can be used, by
      its first request, until the sooner of its lifetime and the idle limit has passed; nobody else's row
      changes. */
  lemma LoginLasts(t: Table, now: int, id: string, token: Digest, csrf: Digest, lifetime: int, later: int,
                   c: Option<Digest>, idle: int)
    ensures var (u, ok) := Create(t, now, id, token, csrf, lifetime);
      && (ok <==> token !in t && forall h | h in t :: t[h].id != id)
      && (!ok ==> u == t)
      && (ok ==>
            && (Validate(u, later, token, c, idle).1 <==>
                  later < now + lifetime * 1000000 && later < now + idle * 1000000 && (c == None || c == Some(csrf)))
            && u.Keys == t.Keys + {token} && u[token].id == id && forall h | h in t :: u[h] == t[h])
  {
  }

  /** A logout revokes the row of its own cookie and touches no other. */
  lemma LogoutIsLocal(t: Table, digest: string -> Digest, r: Request)
    ensures var u := RevokeRequest(t, digest, r);
      && u.Keys == t.Keys
      && forall h | h in t ::
           u[h] == if Present(r.cookie) && digest(r.cookie.value) == h then t[h].(revoked := true) else t[h]
  {
  }

  /** Revocation and absolute expiry are for ever, whatever idle limits later requests use. */
  lemma {:induction false} RevokedOrExpiredStays(s: System, digest: string -> Digest, watched: Digest, es: seq<Event>)
    requires watched in s.table && (s.table[watched].revoked || s.table[watched].expires <= s.now)
    ensures var u := Run(s, digest, watched, es);
      && watched in u.table && (u.table[watched].revoked || u.table[watched].expires <= u.now)
      && u.visits == s.visits
  {
    if es != [] {
      RevokedOrExpiredStays(s, digest, watched, es[..|es| - 1]);
    }
  }

  /** Once a session is dead under an idle limit, no later request under that limit or a shorter one is
      accepted, over any run. */
  lemma {:induction false} DeadStaysDead(s: System, digest: string -> Digest, watched: Digest, es: seq<Event>,
                                         idle: int)
    requires watched in s.table && Dead(s.table[watched], s.now, idle) && IdleAtMost(es, idle)
    ensures var u := Run(s, digest, watched, es);
      watched in u.table && Dead(u.table[watched], u.now, idle) && u.visits == s.visits
  {
    if es != [] {
      assert es[|es| - 1] in es;
      DeadStaysDead(s, digest, watched, es[..|es| - 1], idle);
    }
  }

  /** Some logout of the run carried the session's cookie. */
  ghost predicate LoggedOut(es: seq<Event>, digest: string -> Digest, watched: Digest) {
    exists e :: e in es && e.Logout? && !Absent(e.request.cookie) && digest(e.request.cookie.value) == watched
  }

  /** While a session is refused, only a logout touches its row. */
  lemma {:induction false} DeadRowKept(s: System, digest: string -> Digest, watched: Digest, es: seq<Event>, idle: int)
    requires watched in s.table && Dead(s.table[watched], s.now, idle) && IdleAtMost(es, idle)
    requires !s.table[watched].revoked
    ensures var u := Run(s, digest, watched, es);
      && watched in u.table && Dead(u.table[watched], u.now, idle)
      && u.table[watched] == s.table[watched].(revoked := LoggedOut(es, digest, watched))
  {
    if es != [] {
      var front, e := es[..|es| - 1], es[|es| - 1];
      assert e in es;
      assert LoggedOut(es, digest, watched) <==>
        LoggedOut(front, digest, watched)
        || LoggedOut([e], digest, watched) by {
        assert es == front + [e];
      }
      DeadRowKept(s, digest, watched, front, idle);
      LoggedOutByOne(e, digest, watched);
    }
  }

  lemma LoggedOutByOne(e: Event, digest: string -> Digest, watched: Digest)
    ensures LoggedOut([e], digest, watched) <==>
              e.Logout? && !Absent(e.request.cookie) && digest(e.request.cookie.value) == watched
  {
    assert e in [e];
  }

  /** Idleness alone is relative to the limit in force: a session refused as idle, with any requests after
      it under limits no longer than that, comes back exactly when nobody has logged it out and a longer
      limit still covers its last acceptance, for a request that presents it properly. */
  lemma IdleRevivedExactly(s: System, digest: string -> Digest, es: seq<Event>, idle: int, r: Request, longer: int)
    requires !Absent(r.cookie) && digest(r.cookie.value) in s.table
    requires var row := s.table[digest(r.cookie.value)]; Dead(row, s.now, idle) && !row.revoked
    requires IdleAtMost(es, idle)
    ensures var watched := digest(r.cookie.value);
      var row, u := s.table[watched], Run(s, digest, watched, es);
      RequireSession(u.table, u.now, digest, longer, r).1 == Accepted <==>
        && r.configured && (r.write ==> r.originOk && !Absent(r.csrf) && row.csrf == digest(r.csrf.value))
        && !LoggedOut(es, digest, watched)
        && u.now < row.expires && u.now < row.lastSeen + longer * 1000000
  {
    hide Run, LoggedOut;
    DeadRowKept(s, digest, digest(r.cookie.value), es, idle);
  }

  /** It does happen: a session is refused 2 seconds after login under an idle limit of 1, and accepted at
      that instant under a limit of 10. */
  lemma IdleRevived(digest: string -> Digest)
    ensures var w, visit := digest("t"), Request(true, Some("t"), false, true, None);
      var s := Run(System(map[], 0, []), digest, w, [Login("s", w, w, 100), Wait(2000000), Visit(visit, 1)]);
      && s.now == 2000000 && s.visits == [0]
      && Step(s, digest, w, Visit(visit, 10)).visits == [0, 2000000]
  {
    var w, visit := digest("t"), Request(true, Some("t"), false, true, None);
    var es := [Login("s", w, w, 100), Wait(2000000), Visit(visit, 1)];
    assert es[..2][..1] == es[..1] && es[..1][..0] == [];
    var row := map[w := Session("s", w, 0, 100000000, false)];
    assert Run(System(map[], 0, []), digest, w, es[..1]) == System(row, 0, [0]);
    assert Run(System(map[], 0, []), digest, w, es[..2]) == System(row, 2000000, [0]);
  }

  /** Logging out ends the session of the cookie for good. */
  lemma LogoutIsFinal(s: System, digest: string -> Digest, r: Request, es: seq<Event>, again: Request, idle: int)
    requires !Absent(r.cookie) && digest(r.cookie.value) in s.table
    requires again.cookie == r.cookie
    ensures var u := Run(Step(s, digest, digest(r.cookie.value), Logout(r)), digest, digest(r.cookie.value), es);
      RequireSession(u.table, u.now, digest, idle, again).1 != Accepted
  {
    RevokedOrExpiredStays(Step(s, digest, digest(r.cookie.value), Logout(r)), digest, digest(r.cookie.value), es);
  }
}
