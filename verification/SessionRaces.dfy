/** Session validation without the luxury of one transaction: SQLite runs the SELECT of a validation on
    its own and opens a transaction only for the UPDATE, so other requests can come in between. */
module SessionRaces {
  import opened Common
  import opened Sessions

  /** A validation whose SELECT found the session good, at that instant, and whose UPDATE is still to come. */
  datatype Check = Check(token: Digest, at: int)

  datatype Race = Race(sys: System, checks: map<nat, Check>)

  /** Select is the first half of a request, Touch the second, after which it is accepted; Die ends a
      handler between the two; Other is a login, a logout or the passing of time. */
  datatype Event =
    | Select(h: nat, request: Request, idleSeconds: int)
    | Touch(h: nat)
    | Die(h: nat)
    | Other(event: Sessions.Event)

  function TouchRow(t: Table, c: Check): Table {
    if c.token in t then t[c.token := t[c.token].(lastSeen := c.at)] else t
  }

  function Step(s: Race, digest: string -> Digest, watched: Digest, e: Event): Race {
    match e
    case Select(h, r, idle) =>
      if h !in s.checks && RequireSession(s.sys.table, s.sys.now, digest, idle, r).1 == Accepted
      then s.(checks := s.checks[h := Check(digest(r.cookie.value), s.sys.now)]) else s
    case Touch(h) =>
      if h !in s.checks then s
      else
        var c := s.checks[h];
        var visits := if c.token == watched then s.sys.visits + [c.at] else s.sys.visits;
        Race(System(TouchRow(s.sys.table, c), s.sys.now, visits), s.checks - {h})
    case Die(h) => s.(checks := s.checks - {h})
    case Other(event) => if event.Visit? then s else s.(sys := Sessions.Step(s.sys, digest, watched, event))
  }

  function Run(s: Race, digest: string -> Digest, watched: Digest, es: seq<Event>): Race {
    if es == [] then s else Step(Run(s, digest, watched, es[..|es| - 1]), digest, watched, es[|es| - 1])
  }

  /** The limits in force. */
  ghost predicate Within(es: seq<Event>, idle: int, life: int) {
    forall e | e in es ::
      && (e.Select? ==> e.idleSeconds <= idle)
      && (e.Other? && e.event.Login? ==> e.event.lifetime <= life)
  }

  /** `at` is less than the idle limit after an instant among the first n of the log, and before the
      session's absolute expiry. */
  ghost predicate Covered(visits: seq<int>, n: nat, at: int, idle: int, life: int) {
    && n <= |visits| && n > 0
    && at < visits[0] + life * 1000000
    && exists j :: 0 <= j < n && visits[j] <= at < visits[j] + idle * 1000000
  }

  ghost predicate Tracked(s: Race, watched: Digest, idle: int, life: int) {
    var v := s.sys.visits;
    && (v != [] <==> watched in s.sys.table)
    && (forall i | 0 < i < |v| :: Covered(v, i, v[i], idle, life))
    && (forall h | h in s.checks && s.checks[h].token == watched ::
          Covered(v, |v|, s.checks[h].at, idle, life) && s.checks[h].at <= s.sys.now)
    && (watched in s.sys.table ==>
          && s.sys.table[watched].lastSeen in v && s.sys.table[watched].lastSeen <= s.sys.now
          && s.sys.table[watched].expires <= v[0] + life * 1000000)
  }

  lemma CoveredLonger(v: seq<int>, x: int, n: nat, at: int, idle: int, life: int)
    requires Covered(v, n, at, idle, life)
    ensures Covered(v + [x], n, at, idle, life) && Covered(v + [x], |v| + 1, at, idle, life)
  {
    var j :| 0 <= j < n && v[j] <= at < v[j] + idle * 1000000;
    assert (v + [x])[j] == v[j];
  }

  lemma SelectTracked(s: Race, digest: string -> Digest, watched: Digest, e: Event, idle: int, life: int)
    requires Tracked(s, watched, idle, life) && e.Select? && e.idleSeconds <= idle
    ensures Tracked(Step(s, digest, watched, e), watched, idle, life)
  {
    var t, v := Step(s, digest, watched, e), s.sys.visits;
    if t != s && t.checks[e.h].token == watched {
      AcceptedExactly(s.sys.table, s.sys.now, digest, e.idleSeconds, e.request);
      var row := s.sys.table[watched];
      var j :| 0 <= j < |v| && v[j] == row.lastSeen;
      assert Covered(v, |v|, s.sys.now, idle, life);
    }
  }

  lemma TouchTracked(s: Race, digest: string -> Digest, watched: Digest, h: nat, idle: int, life: int)
    requires Tracked(s, watched, idle, life) && h in s.checks
    ensures Tracked(Step(s, digest, watched, Touch(h)), watched, idle, life)
  {
    hide Covered;
    var t, v, c := Step(s, digest, watched, Touch(h)), s.sys.visits, s.checks[h];
    if c.token == watched {
      assert v != [] by { assert Covered(v, |v|, c.at, idle, life); NotEmpty(v, c.at, idle, life); }
      forall i | 0 < i < |v| + 1 ensures Covered(v + [c.at], i, (v + [c.at])[i], idle, life) {
        if i < |v| { assert Covered(v, i, v[i], idle, life); }
        CoveredLonger(v, c.at, i, (v + [c.at])[i], idle, life);
      }
      forall k | k in t.checks && t.checks[k].token == watched
        ensures Covered(v + [c.at], |v| + 1, t.checks[k].at, idle, life)
      {
        CoveredLonger(v, c.at, |v|, t.checks[k].at, idle, life);
      }
      assert t.sys.visits == v + [c.at] && (v + [c.at])[|v|] == c.at && (v + [c.at])[0] == v[0];
    }
  }

  lemma NotEmpty(v: seq<int>, at: int, idle: int, life: int)
    requires Covered(v, |v|, at, idle, life)
    ensures v != []
  {
  }

  lemma OtherTracked(s: Race, digest: string -> Digest, watched: Digest, e: Sessions.Event, idle: int, life: int)
    requires Tracked(s, watched, idle, life) && !e.Visit? && (e.Login? ==> e.lifetime <= life)
    ensures Tracked(Step(s, digest, watched, Other(e)), watched, idle, life)
  {
  }

  /** With the two halves of a validation apart: still every acceptance comes before the absolute expiry, and
      less than the idle limit after an earlier acceptance of the log (or the login). */
  lemma {:induction false} AcceptedInTime(start: Race, digest: string -> Digest, watched: Digest, es: seq<Event>,
                                          idle: int, life: int)
    requires start.sys.table == map[] && start.sys.visits == [] && start.checks == map[] && Within(es, idle, life)
    ensures Tracked(Run(start, digest, watched, es), watched, idle, life)
  {
    if es != [] {
      var front, e := es[..|es| - 1], es[|es| - 1];
      assert e in es;
      AcceptedInTime(start, digest, watched, front, idle, life);
      var s := Run(start, digest, watched, front);
      hide Tracked, Run;
      match e
      case Select(_, _, _) => SelectTracked(s, digest, watched, e, idle, life);
      case Touch(h) => if h in s.checks { TouchTracked(s, digest, watched, h, idle, life); }
      case Die(h) => DieTracked(s, digest, watched, h, idle, life);
      case Other(event) => if !event.Visit? { OtherTracked(s, digest, watched, event, idle, life); }
      RunLast(start, digest, watched, es);
    }
  }

  lemma DieTracked(s: Race, digest: string -> Digest, watched: Digest, h: nat, idle: int, life: int)
    requires Tracked(s, watched, idle, life)
    ensures Tracked(Step(s, digest, watched, Die(h)), watched, idle, life)
  {
  }

  lemma RunLast(s: Race, digest: string -> Digest, watched: Digest, es: seq<Event>)
    requires es != []
    ensures Run(s, digest, watched, es) == Step(Run(s, digest, watched, es[..|es| - 1]), digest, watched, es[|es| - 1])
  {
  }

  // ---------------------------------------------------------------- what is in flight

  /** The validations of the watched session that are between their two halves. */
  function InFlight(s: Race, watched: Digest): set<nat> {
    set h | h in s.checks && s.checks[h].token == watched
  }

  ghost predicate Ended(s: Race, watched: Digest) {
    watched in s.sys.table && (s.sys.table[watched].revoked || s.sys.table[watched].expires <= s.sys.now)
  }

  lemma NoneBegins(s: Race, digest: string -> Digest, watched: Digest, e: Event)
    requires Ended(s, watched) && e.Select?
    ensures var t := Step(s, digest, watched, e); t.sys == s.sys && InFlight(t, watched) == InFlight(s, watched)
  {
    AcceptedExactly(s.sys.table, s.sys.now, digest, e.idleSeconds, e.request);
  }

  lemma OneLess(s: Race, t: Race, watched: Digest, h: nat)
    requires t.checks == s.checks - {h}
    ensures h in s.checks && s.checks[h].token == watched ==> |InFlight(t, watched)| == |InFlight(s, watched)| - 1
    ensures !(h in s.checks && s.checks[h].token == watched) ==> InFlight(t, watched) == InFlight(s, watched)
  {
    assert InFlight(t, watched) == InFlight(s, watched) - {h};
  }

  lemma EndedStep(s: Race, digest: string -> Digest, watched: Digest, e: Event)
    requires Ended(s, watched)
    ensures var t := Step(s, digest, watched, e);
      && Ended(t, watched)
      && |t.sys.visits| + |InFlight(t, watched)| <= |s.sys.visits| + |InFlight(s, watched)|
  {
    hide InFlight, RequireSession;
    match e
    case Select(_, _, _) => NoneBegins(s, digest, watched, e);
    case Touch(h) => OneLess(s, Step(s, digest, watched, e), watched, h);
    case Die(h) => OneLess(s, Step(s, digest, watched, e), watched, h);
    case Other(event) => OtherEnded(s, digest, watched, event);
  }

  lemma OtherEnded(s: Race, digest: string -> Digest, watched: Digest, e: Sessions.Event)
    requires Ended(s, watched)
    ensures var t := Step(s, digest, watched, Other(e));
      Ended(t, watched) && t.sys.visits == s.sys.visits && InFlight(t, watched) == InFlight(s, watched)
  {
  }

  /** After logout or expiry no validation begins: over any run at most those already in flight are still
      accepted, each at most once. */
  lemma {:induction false} OnlyInFlightAfterEnd(s: Race, digest: string -> Digest, watched: Digest, es: seq<Event>)
    requires Ended(s, watched)
    ensures var t := Run(s, digest, watched, es);
      && Ended(t, watched)
      && |t.sys.visits| + |InFlight(t, watched)| <= |s.sys.visits| + |InFlight(s, watched)|
  {
    if es != [] {
      OnlyInFlightAfterEnd(s, digest, watched, es[..|es| - 1]);
      EndedStep(Run(s, digest, watched, es[..|es| - 1]), digest, watched, es[|es| - 1]);
    }
  }

  /** The end is final, over every run, exactly when no validation is in flight. */
  lemma FinalExactly(s: Race, digest: string -> Digest, watched: Digest)
    requires Ended(s, watched)
    ensures (forall es :: |Run(s, digest, watched, es).sys.visits| <= |s.sys.visits|) <==> InFlight(s, watched) == {}
  {
    if InFlight(s, watched) == {} {
      forall es ensures |Run(s, digest, watched, es).sys.visits| <= |s.sys.visits| {
        OnlyInFlightAfterEnd(s, digest, watched, es);
      }
    } else {
      var h :| h in InFlight(s, watched);
      RunOne(s, digest, watched, Touch(h));
      assert |Run(s, digest, watched, [Touch(h)]).sys.visits| > |s.sys.visits|;
    }
  }

  lemma RunOne(s: Race, digest: string -> Digest, watched: Digest, e: Event)
    ensures Run(s, digest, watched, [e]) == Step(s, digest, watched, e)
  {
    assert [e][..0] == [];
  }

  /** Idle, and so is every validation in flight. */
  ghost predicate Idle(s: Race, watched: Digest, idle: int) {
    && watched in s.sys.table && Dead(s.sys.table[watched], s.sys.now, idle)
    && forall h | h in InFlight(s, watched) :: s.checks[h].at + idle * 1000000 <= s.sys.now
  }

  ghost predicate IdleAtMost(es: seq<Event>, idle: int) {
    forall e | e in es && e.Select? :: e.idleSeconds <= idle
  }

  /** A refused session stays refused over any run whose idle limit does not grow, if what is in flight is
      as old; no validation begins. */
  lemma {:induction false} DeadStaysDead(s: Race, digest: string -> Digest, watched: Digest, es: seq<Event>, idle: int)
    requires Idle(s, watched, idle) && IdleAtMost(es, idle)
    ensures var t := Run(s, digest, watched, es);
      Idle(t, watched, idle) && InFlight(t, watched) <= InFlight(s, watched)
  {
    if es != [] {
      assert es[|es| - 1] in es;
      DeadStaysDead(s, digest, watched, es[..|es| - 1], idle);
      IdleStep(Run(s, digest, watched, es[..|es| - 1]), digest, watched, es[|es| - 1], idle);
    }
  }

  lemma IdleStep(s: Race, digest: string -> Digest, watched: Digest, e: Event, idle: int)
    requires Idle(s, watched, idle) && (e.Select? ==> e.idleSeconds <= idle)
    ensures var t := Step(s, digest, watched, e); Idle(t, watched, idle) && InFlight(t, watched) <= InFlight(s, watched)
  {
  }

  ghost predicate Refused(s: Race, watched: Digest, idle: int) {
    watched in s.sys.table && Dead(s.sys.table[watched], s.sys.now, idle)
  }

  /** Being refused is final, over every run whose idle limit does not grow, exactly when the session is
      revoked or expired, or every validation in flight is as old as the idle limit. */
  lemma RefusalFinalExactly(s: Race, digest: string -> Digest, watched: Digest, idle: int)
    requires Refused(s, watched, idle)
    ensures (forall es | IdleAtMost(es, idle) :: Refused(Run(s, digest, watched, es), watched, idle)) <==>
              Ended(s, watched) || Idle(s, watched, idle)
  {
    if Ended(s, watched) || Idle(s, watched, idle) {
      forall es | IdleAtMost(es, idle) ensures Refused(Run(s, digest, watched, es), watched, idle) {
        if Ended(s, watched) {
          OnlyInFlightAfterEnd(s, digest, watched, es);
        } else {
          DeadStaysDead(s, digest, watched, es, idle);
        }
      }
    } else {
      var h :| h in InFlight(s, watched) && s.checks[h].at + idle * 1000000 > s.sys.now;
      RunOne(s, digest, watched, Touch(h));
      assert IdleAtMost([Touch(h)], idle) && !Refused(Run(s, digest, watched, [Touch(h)]), watched, idle);
    }
  }

  // ---------------------------------------------------------------- what the row remembers

  /** The row holds the acceptance that was logged last, and only known sessions are in flight. */
  ghost predicate Remembers(s: Race, watched: Digest) {
    var v, table := s.sys.visits, s.sys.table;
    && (v != [] <==> watched in table)
    && (watched in table ==> table[watched].lastSeen == v[|v| - 1])
    && (InFlight(s, watched) != {} ==> watched in table)
  }

  /** An UPDATE that arrives after that of a younger validation. */
  ghost predicate Overtaken(s: Race, watched: Digest, e: Event) {
    && e.Touch? && e.h in InFlight(s, watched)
    && watched in s.sys.table && s.checks[e.h].at < s.sys.table[watched].lastSeen
  }

  lemma RemembersStep(s: Race, digest: string -> Digest, watched: Digest, e: Event)
    requires Remembers(s, watched)
    ensures var t := Step(s, digest, watched, e);
      && Remembers(t, watched)
      && (t.sys.visits == s.sys.visits || (exists x :: t.sys.visits == s.sys.visits + [x]))
      && (watched in s.sys.table ==> watched in t.sys.table)
      && (watched in s.sys.table ==>
            (t.sys.table[watched].lastSeen < s.sys.table[watched].lastSeen <==> Overtaken(s, watched, e)))
  {
    var t := Step(s, digest, watched, e);
    match e
    case Select(h, r, idle) =>
      AcceptedExactly(s.sys.table, s.sys.now, digest, idle, r);
      assert forall k | k in InFlight(t, watched) :: k in InFlight(s, watched) || (k == h && watched in s.sys.table);
    case Touch(h) =>
      assert forall k | k in InFlight(t, watched) :: k in InFlight(s, watched);
      assert h in s.checks && s.checks[h].token == watched ==> h in InFlight(s, watched);
    case Die(h) =>
      assert forall k | k in InFlight(t, watched) :: k in InFlight(s, watched);
    case Other(event) =>
      assert InFlight(t, watched) == InFlight(s, watched);
      assert t.sys.visits == s.sys.visits || t.sys.visits == s.sys.visits + [s.sys.now];
  }

  ghost predicate Ascending(v: seq<int>) {
    forall i, j | 0 <= i < j < |v| :: v[i] <= v[j]
  }

  /** No UPDATE of the run is overtaken. */
  ghost predicate InOrder(s: Race, digest: string -> Digest, watched: Digest, es: seq<Event>) {
    forall i | 0 <= i < |es| :: !Overtaken(Run(s, digest, watched, es[..i]), watched, es[i])
  }

  /** The row remembers the last UPDATE, not the latest acceptance. The two are the same, throughout a run,
      exactly when no UPDATE of the run is overtaken by that of a younger validation. */
  lemma {:induction false} LatestRememberedExactly(start: Race, digest: string -> Digest, watched: Digest,
                                                   es: seq<Event>)
    requires start.sys.table == map[] && start.sys.visits == [] && start.checks == map[]
    ensures var t := Run(start, digest, watched, es);
      Remembers(t, watched) && (Ascending(t.sys.visits) <==> InOrder(start, digest, watched, es))
  {
    if es != [] {
      hide Step, Run, Remembers, Ascending, Overtaken;
      var n := |es| - 1;
      var front := es[..n];
      LatestRememberedExactly(start, digest, watched, front);
      var s, t := Run(start, digest, watched, front), Run(start, digest, watched, es);
      RunLast(start, digest, watched, es);
      InOrderLast(start, digest, watched, es);
      RemembersStep(s, digest, watched, es[n]);
      LongerLog(s, t, digest, watched, es[n]);
    }
  }

  lemma InOrderLast(s: Race, digest: string -> Digest, watched: Digest, es: seq<Event>)
    requires es != []
    ensures var n := |es| - 1;
      InOrder(s, digest, watched, es) <==>
        InOrder(s, digest, watched, es[..n]) && !Overtaken(Run(s, digest, watched, es[..n]), watched, es[n])
  {
    hide Run, Overtaken;
    assert forall i | 0 <= i < |es| - 1 :: es[..|es| - 1][..i] == es[..i];
  }

  lemma LongerLog(s: Race, t: Race, digest: string -> Digest, watched: Digest, e: Event)
    requires Remembers(s, watched) && t == Step(s, digest, watched, e) && Remembers(t, watched)
    requires t.sys.visits == s.sys.visits || exists x :: t.sys.visits == s.sys.visits + [x]
    requires watched in s.sys.table ==> watched in t.sys.table
    requires watched in s.sys.table ==>
               (t.sys.table[watched].lastSeen < s.sys.table[watched].lastSeen <==> Overtaken(s, watched, e))
    ensures Ascending(t.sys.visits) <==> Ascending(s.sys.visits) && !Overtaken(s, watched, e)
  {
    hide Step, InFlight;
    var v, w := s.sys.visits, t.sys.visits;
    if w != v {
      assert w[..|v|] == v;
      assert forall i | 0 <= i < |v| :: w[i] == v[i];
    }
  }

  // ---------------------------------------------------------------- runs that show it

  const NOTHING: Race := Race(System(map[], 0, []), map[])

  /** A read request with cookie "t". */
  const VISIT: Request := Request(true, Some("t"), false, true, None)

  /** A login at instant 0 for 100 seconds, then its row. */
  function FirstLogin(digest: string -> Digest): Event {
    Other(Login("s", digest("t"), digest("c"), 100))
  }

  function Row(digest: string -> Digest, lastSeen: int, revoked: bool): Table {
    map[digest("t") := Session("s", digest("c"), lastSeen, 100000000, revoked)]
  }

  lemma RunMore(s: Race, digest: string -> Digest, watched: Digest, es: seq<Event>, e: Event)
    ensures Run(s, digest, watched, es + [e]) == Step(Run(s, digest, watched, es), digest, watched, e)
  {
    assert (es + [e])[..|es|] == es;
  }

  lemma Run4(s: Race, digest: string -> Digest, watched: Digest, a: Event, b: Event, c: Event, d: Event)
    ensures Run(s, digest, watched, [a, b, c, d]) ==
            Step(Step(Step(Step(s, digest, watched, a), digest, watched, b), digest, watched, c), digest, watched, d)
  {
    hide Step;
    RunOne(s, digest, watched, a);
    RunMore(s, digest, watched, [a], b);
    RunMore(s, digest, watched, [a, b], c);
    RunMore(s, digest, watched, [a, b, c], d);
    assert [a] + [b] == [a, b] && [a, b] + [c] == [a, b, c] && [a, b, c] + [d] == [a, b, c, d];
  }

  lemma LoginRow(digest: string -> Digest)
    ensures Step(NOTHING, digest, digest("t"), FirstLogin(digest)) == Race(System(Row(digest, 0, false), 0, [0]), map[])
  {
  }

  lemma SelectRow(s: Race, digest: string -> Digest, h: nat, seen: int)
    requires s.sys.table == Row(digest, seen, false) && h !in s.checks && seen <= s.sys.now < seen + 10000000
    requires s.sys.now < 100000000
    ensures Step(s, digest, digest("t"), Select(h, VISIT, 10)) ==
              s.(checks := s.checks[h := Check(digest("t"), s.sys.now)])
  {
  }

  /** A request is accepted although its session was revoked before. */
  lemma AcceptedAfterLogout(digest: string -> Digest)
    ensures var w := digest("t");
      var s := Run(NOTHING, digest, w, [FirstLogin(digest), Select(0, VISIT, 10), Other(Logout(VISIT)),
          Other(Wait(1))]);
      && s.sys == System(Row(digest, 0, true), 1, [0])
      && Step(s, digest, w, Touch(0)).sys.visits == [0, 0]
  {
    hide RequireSession;
    Run4(NOTHING, digest, digest("t"), FirstLogin(digest), Select(0, VISIT, 10), Other(Logout(VISIT)), Other(Wait(1)));
    LoginRow(digest);
    SelectRow(Race(System(Row(digest, 0, false), 0, [0]), map[]), digest, 0, 0);
  }

  /** A session is refused as idle at 11 seconds, and accepted at the same instant under the same limit once
      the UPDATE of a request of 9 seconds has arrived. */
  lemma RefusedThenAccepted(digest: string -> Digest)
    ensures var w := digest("t");
      var s := Run(NOTHING, digest, w,
                   [FirstLogin(digest), Other(Wait(9000000)), Select(0, VISIT, 10), Other(Wait(2000000))]);
      var t := Step(s, digest, w, Touch(0));
      && s.sys.now == t.sys.now == 11000000
      && !Validate(s.sys.table, s.sys.now, w, None, 10).1
      && Validate(t.sys.table, t.sys.now, w, None, 10).1
  {
    hide RequireSession;
    Run4(NOTHING, digest, digest("t"), FirstLogin(digest), Other(Wait(9000000)), Select(0, VISIT, 10),
        Other(Wait(2000000)));
    LoginRow(digest);
    SelectRow(Race(System(Row(digest, 0, false), 9000000, [0]), map[]), digest, 0, 0);
  }

  /** Two requests of 5 and 9 seconds whose UPDATEs arrive in the other order: at 16 seconds the session is
      refused as idle. */
  lemma RefusedTooEarly(digest: string -> Digest)
    ensures var w := digest("t");
      var two := Run(NOTHING, digest, w, [FirstLogin(digest), Other(Wait(5000000)), Select(0, VISIT, 10),
          Other(Wait(4000000))]);
      var s := Run(two, digest, w, [Select(1, VISIT, 10), Touch(1), Touch(0), Other(Wait(7000000))]);
      && s.sys == System(Row(digest, 5000000, false), 16000000, [0, 9000000, 5000000])
      && !Validate(s.sys.table, s.sys.now, w, None, 10).1
  {
    hide RequireSession;
    var w := digest("t");
    Run4(NOTHING, digest, w, FirstLogin(digest), Other(Wait(5000000)), Select(0, VISIT, 10), Other(Wait(4000000)));
    LoginRow(digest);
    SelectRow(Race(System(Row(digest, 0, false), 5000000, [0]), map[]), digest, 0, 0);
    var two := Race(System(Row(digest, 0, false), 9000000, [0]), map[0 := Check(w, 5000000)]);
    SelectRow(two, digest, 1, 0);
    Run4(two, digest, w, Select(1, VISIT, 10), Touch(1), Touch(0), Other(Wait(7000000)));
  }
}
