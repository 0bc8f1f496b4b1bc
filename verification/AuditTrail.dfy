/** The audit of the update route among other handlers. The route reads the application before its checks
    and again after its write, each in a transaction of its own, and records what differs between the two
    readings. Other handlers may write in between. */
module AuditTrail {
  import opened Common
  import opened Keys
  import opened ControlPlane
  import opened AdminRuns

  /** The only steps that change what get_application reports: the write of an update, and for gg_oferta a
      restart. */
  ghost predicate Touches(s: System, e: Event, id: string) {
    || (e.Restart? && id == GG)
    || (e.Finish? && e.h in s.tasks && s.tasks[e.h].Updating? && s.tasks[e.h].id == id)
  }

  lemma SameRows(a: Db, b: Db, id: string)
    requires id in a.apps && id in b.apps && a.apps[id].state == b.apps[id].state
    requires forall c :: (id, c) in a.caps <==> (id, c) in b.caps
    requires forall c :: (id, c) in a.quotas <==> (id, c) in b.quotas
    requires forall c | (id, c) in a.quotas :: a.quotas[(id, c)] == b.quotas[(id, c)]
    ensures ViewOf(a, id) == ViewOf(b, id)
  {
    CapabilitiesAre(a, id);
    CapabilitiesAre(b, id);
    QuotasAre(a, id);
    QuotasAre(b, id);
    assert CapabilitiesOf(a, id) == CapabilitiesOf(b, id) && QuotasOf(a, id) == QuotasOf(b, id);
  }

  lemma CapabilitiesAre(db: Db, id: string)
    ensures forall c :: c in CapabilitiesOf(db, id) <==> (id, c) in db.caps
  {
    forall c ensures c in CapabilitiesOf(db, id) <==> (id, c) in db.caps {
      if (id, c) in db.caps { assert (id, c).1 in CapabilitiesOf(db, id); }
    }
  }

  lemma QuotasAre(db: Db, id: string)
    ensures forall c :: c in QuotasOf(db, id) <==> (id, c) in db.quotas
    ensures forall c | c in QuotasOf(db, id) :: QuotasOf(db, id)[c] == db.quotas[(id, c)]
  {
    forall c ensures c in QuotasOf(db, id) <==> (id, c) in db.quotas {
      if (id, c) in db.quotas { assert (id, c).1 in QuotasOf(db, id); }
    }
  }

  lemma OtherUpdate(db: Db, id: string, p: Payload, other: string)
    requires id != other && other in db.apps
    ensures var t := Update(db, id, p.name, p.state, p.capabilities, p.limits);
      other in t.apps && ViewOf(t, other) == ViewOf(db, other)
  {
    SameRows(db, Update(db, id, p.name, p.state, p.capabilities, p.limits), other);
  }

  lemma OtherRestart(db: Db, ai: int, search: int, fetch: int, id: string)
    requires Consistent(db) && GG in db.apps && CLAUDIAO in db.apps && id in db.apps && id != GG
    requires ai >= 1 && search >= 1 && fetch >= 1
    ensures var r := Bootstrap(db, ai, search, fetch);
      r.Ok? && id in r.value.apps && ViewOf(r.value, id) == ViewOf(db, id)
  {
    hide Bootstrap, Consistent;
    LaterBootstrap(db, ai, search, fetch);
    SameRows(db, Bootstrap(db, ai, search, fetch).value, id);
  }

  lemma ClaudiaoThere(db: Db)
    requires ClaudiaoApart(db)
    ensures CLAUDIAO in db.apps
  {
  }

  lemma RowsKept(s: System, mac: string -> Digest, e: Event, id: string)
    requires id in s.db.apps && !e.Restart? && !(e.Finish? && e.h in s.tasks && s.tasks[e.h].Updating?)
    ensures var t := Step(s, mac, e).db;
      t.caps == s.db.caps && t.quotas == s.db.quotas && id in t.apps && t.apps[id] == s.db.apps[id]
  {
    hide ActiveCredentials, ClientIdTaken;
  }

  lemma UntouchedStep(s: System, mac: string -> Digest, e: Event, id: string)
    requires Invariant(s, mac) && WellFormed(e) && id in s.db.apps && !Touches(s, e, id)
    ensures var t := Step(s, mac, e); id in t.db.apps && ViewOf(t.db, id) == ViewOf(s.db, id)
  {
    hide ViewOf, Update, Bootstrap, Consistent, ClaudiaoApart, Issued, OneWinner, TasksAllowed;
    if e.Restart? {
      assert CLAUDIAO in s.db.apps by { ClaudiaoThere(s.db); }
      OtherRestart(s.db, e.ai, e.search, e.fetch, id);
    } else if e.Finish? && e.h in s.tasks && s.tasks[e.h].Updating? {
      OtherUpdate(s.db, s.tasks[e.h].id, s.tasks[e.h].payload, id);
    } else {
      RowsKept(s, mac, e, id);
      SameRows(s.db, Step(s, mac, e).db, id);
    }
  }

  /** Nobody writes the application during the run. */
  ghost predicate Quiet(s: System, mac: string -> Digest, es: seq<Event>, id: string) {
    forall i | 0 <= i < |es| :: !Touches(Run(s, mac, es[..i]), es[i], id)
  }

  lemma {:induction false} QuietKeepsView(s: System, mac: string -> Digest, es: seq<Event>, id: string)
    requires Invariant(s, mac) && id in s.db.apps && Quiet(s, mac, es, id) && forall e | e in es :: WellFormed(e)
    ensures id in Run(s, mac, es).db.apps && ViewOf(Run(s, mac, es).db, id) == ViewOf(s.db, id)
  {
    hide Step, ViewOf, Invariant, Touches;
    if es != [] {
      var n := |es| - 1;
      assert forall i | 0 <= i < n :: es[..n][..i] == es[..i];
      QuietKeepsView(s, mac, es[..n], id);
      RunKeepsInvariant(s, mac, es[..n]);
      assert es[n] in es;
      UntouchedStep(Run(s, mac, es[..n]), mac, es[n], id);
    }
  }

  /** The four readings that matter for one update: what the route read first, the tables just before and
      just after its write, and what it read at the end. */
  datatype Readings = Readings(first: View, before: View, after: View, last: View)

  ghost predicate ReadingsOf(r: Readings, s: System, mac: string -> Digest, mid: seq<Event>, write: Event,
                             end: seq<Event>, id: string) {
    var b := Run(s, mac, mid); var a := Step(b, mac, write); var l := Run(a, mac, end);
    && id in s.db.apps && id in b.db.apps && id in a.db.apps && id in l.db.apps
    && r == Readings(ViewOf(s.db, id), ViewOf(b.db, id), ViewOf(a.db, id), ViewOf(l.db, id))
  }

  /** What the route records is what its own write changed. */
  ghost predicate RecordsOwn(r: Readings) {
    AuditsOf(r.first, r.last) == AuditsOf(r.before, r.after)
  }

  lemma AuditsAre(a: View, b: View)
    ensures forall x, y :: StateChanged(x, y) in AuditsOf(a, b) <==> x == a.state && y == b.state && x != y
    ensures forall x :: CapabilitiesChanged(x) in AuditsOf(a, b) <==> x == b.capabilities && x != a.capabilities
    ensures forall x :: QuotasChanged(x) in AuditsOf(a, b) <==> x == b.limits && x != a.limits
  {
  }

  /** A changed value is recorded as it is, and only one that was changed. */
  predicate SameChange<T(==)>(first: T, before: T, after: T, last: T) {
    if before != after then first != last && last == after else first == last
  }

  /** For any four readings, exactly when the record is the handler's own: a value that it changed is still
      there at the end and was not there at first, a value that it left alone is at the end what it was at
      first, and a changed state was the same at first as before the write. */
  lemma RecordsOwnExactly(r: Readings)
    ensures RecordsOwn(r) <==>
              && SameChange(r.first.state, r.before.state, r.after.state, r.last.state)
              && (r.before.state != r.after.state ==> r.first.state == r.before.state)
              && SameChange(r.first.capabilities, r.before.capabilities, r.after.capabilities, r.last.capabilities)
              && SameChange(r.first.limits, r.before.limits, r.after.limits, r.last.limits)
  {
    AuditsAre(r.first, r.last);
    AuditsAre(r.before, r.after);
    if RecordsOwn(r) {
      hide AuditsOf;
      assert r.before.state != r.after.state ==>
          StateChanged(r.before.state, r.after.state) in AuditsOf(r.first, r.last);
      assert r.first.state != r.last.state ==> StateChanged(r.first.state, r.last.state) in AuditsOf(r.before, r.after);
      assert r.before.capabilities != r.after.capabilities ==>
          CapabilitiesChanged(r.after.capabilities) in AuditsOf(r.first, r.last);
      assert r.first.capabilities != r.last.capabilities ==>
          CapabilitiesChanged(r.last.capabilities) in AuditsOf(r.before, r.after);
      assert r.before.limits != r.after.limits ==> QuotasChanged(r.after.limits) in AuditsOf(r.first, r.last);
      assert r.first.limits != r.last.limits ==> QuotasChanged(r.last.limits) in AuditsOf(r.before, r.after);
    }
  }

  /** Over any run of any other handlers: while nobody else writes the application between the route's two
      readings, it records its own changes, and if it records none it changed nothing but the name. */
  lemma QuietUpdateRecordsOwn(s: System, mac: string -> Digest, mid: seq<Event>, write: Event, end: seq<Event>,
                              id: string, r: Readings)
    requires Invariant(s, mac) && forall e | e in mid + [write] + end :: WellFormed(e)
    requires ReadingsOf(r, s, mac, mid, write, end, id)
    requires Quiet(s, mac, mid, id) && Quiet(Step(Run(s, mac, mid), mac, write), mac, end, id)
    ensures RecordsOwn(r)
    ensures var b := Run(s, mac, mid);
      write.Finish? && write.h in b.tasks && b.tasks[write.h].Updating? && b.tasks[write.h].id == id
      && GoodPolicies(b.tasks[write.h].payload.capabilities, b.tasks[write.h].payload.limits)
      && AuditsOf(r.first, r.last) == [UpdateMade] ==>
        Step(b, mac, write).db ==
        b.db.(apps := b.db.apps[id := b.db.apps[id].(displayName := b.tasks[write.h].payload.name)])
  {
    hide Run, Step, ViewOf, Quiet, Invariant, AuditsOf;
    assert forall e | e in mid :: e in mid + [write] + end;
    assert forall e | e in end :: e in mid + [write] + end;
    assert write in mid + [write] + end;
    var b := Run(s, mac, mid);
    QuietKeepsView(s, mac, mid, id);
    RunKeepsInvariant(s, mac, mid);
    StepKeepsInvariant(b, mac, write);
    QuietKeepsView(Step(b, mac, write), mac, end, id);
    if write.Finish? && write.h in b.tasks && b.tasks[write.h].Updating? && b.tasks[write.h].id == id
      && GoodPolicies(b.tasks[write.h].payload.capabilities, b.tasks[write.h].payload.limits)
      && AuditsOf(r.first, r.last) == [UpdateMade]
    {
      WrittenIs(b, mac, write);
      UnauditedIsUnchanged(b.db, id, b.tasks[write.h].payload);
    }
  }

  lemma WrittenIs(s: System, mac: string -> Digest, e: Event)
    requires Invariant(s, mac) && e.Finish? && e.h in s.tasks && s.tasks[e.h].Updating?
    requires GoodPolicies(s.tasks[e.h].payload.capabilities, s.tasks[e.h].payload.limits)
    ensures var id, p := s.tasks[e.h].id, s.tasks[e.h].payload;
      id in s.db.apps && Step(s, mac, e).db == Updated(s.db, id, p.name, p.state, p.capabilities, p.limits)
  {
  }

  // ---------------------------------------------------------------- two updates that hide each other

  /** The payload asks for what is already there. */
  ghost predicate AsIs(db: Db, id: string, p: Payload) {
    && id in db.apps && p.state == db.apps[id].state
    && (forall c :: c in p.capabilities <==> (id, c) in db.caps)
    && (forall c | c in p.capabilities :: (id, c) in db.quotas && c in p.limits && p.limits[c] == db.quotas[(id, c)])
  }

  /** Taking capabilities away and asking for what was there before leaves no trace. */
  lemma Restored(db: Db, id: string, p: Payload, q: Payload)
    requires AsIs(db, id, p) && !db.apps[id].guarded && GoodPolicies(p.capabilities, p.limits)
    requires q.capabilities < p.capabilities && GoodPolicies(q.capabilities, q.limits)
    ensures var one := Update(db, id, q.name, q.state, q.capabilities, q.limits);
      var two := Update(one, id, p.name, p.state, p.capabilities, p.limits);
      && id in one.apps && id in two.apps
      && ViewOf(one, id).capabilities == q.capabilities && ViewOf(two, id).capabilities == p.capabilities
      && ViewOf(two, id) == ViewOf(db, id)
  {
    var one := Update(db, id, q.name, q.state, q.capabilities, q.limits);
    var two := Update(one, id, p.name, p.state, p.capabilities, p.limits);
    CapabilitiesAre(one, id);
    CapabilitiesAre(two, id);
    SameRows(db, two, id);
  }

  /** Two updates whose writes cross: each changes the capabilities, and neither records it. Handler 1 writes
      first; both read the result when both have written. */
  lemma CrossingUpdatesHide(s: System, mac: string -> Digest, id: string, p: Payload, q: Payload, legacyKey: bool,
                            w0: Event, w1: Event)
    requires Invariant(s, mac) && AsIs(s.db, id, p) && GoodPolicies(p.capabilities, p.limits)
    requires q.capabilities < p.capabilities && GoodPolicies(q.capabilities, q.limits)
    requires UpdateGuard(s.db, id, p, legacyKey) == Proceed && UpdateGuard(s.db, id, q, legacyKey) == Proceed
    requires w0.Finish? && w0.h == 0 && w1.Finish? && w1.h == 1
    ensures var b := Run(s, mac, [BeginUpdate(0, id, p, legacyKey), BeginUpdate(1, id, q, legacyKey)]);
      var one := Step(b, mac, w1); var two := Step(one, mac, w0);
      && id in b.db.apps && id in one.db.apps && id in two.db.apps
      && ViewOf(b.db, id) == ViewOf(s.db, id)
      && ViewOf(one.db, id).capabilities != ViewOf(b.db, id).capabilities
      && ViewOf(two.db, id).capabilities != ViewOf(one.db, id).capabilities
      && AuditsOf(ViewOf(s.db, id), ViewOf(two.db, id)) == [UpdateMade]
  {
    hide Update, ViewOf, GoodPolicies, UpdateGuard;
    var e0, e1 := BeginUpdate(0, id, p, legacyKey), BeginUpdate(1, id, q, legacyKey);
    assert [e0, e1][..1] == [e0] && [e0][..0] == [];
    var b := Run(s, mac, [e0, e1]);
    assert Run(s, mac, [e0]) == s.(tasks := s.tasks[0 := Updating(id, p)]);
    assert b == s.(tasks := s.tasks[0 := Updating(id, p)][1 := Updating(id, q)]);
    UnguardedByGuard(s.db, id, p, legacyKey);
    Restored(s.db, id, p, q);
  }

  lemma UnguardedByGuard(db: Db, id: string, p: Payload, legacyKey: bool)
    requires UpdateGuard(db, id, p, legacyKey) == Proceed
    ensures id in db.apps && !db.apps[id].guarded
  {
  }

  lemma GgAfterStart(start: System) returns (ai: int, search: int, fetch: int)
    requires Start(start)
    ensures GG in start.db.apps && !start.db.apps[GG].guarded && start.db.apps[GG].state == Active
    ensures start.db.caps == {(GG, "ai"), (GG, "search"), (GG, "fetch")}
    ensures start.db.quotas == map[(GG, "ai") := ai, (GG, "search") := search, (GG, "fetch") := fetch]
    ensures ai >= 1 && search >= 1 && fetch >= 1
  {
    hide Bootstrap;
    GgIsOpen(start);
    ai, search, fetch :| ai >= 1 && search >= 1 && fetch >= 1 && Bootstrap(EMPTY, ai, search, fetch) == Ok(start.db);
    FirstBootstrap(ai, search, fetch);
  }

  /** Such updates are possible right after the first start, when gg_oferta has its file secret. */
  lemma CrossingIsReachable(start: System, mac: string -> Digest)
    requires Start(start)
    ensures Invariant(start, mac)
    ensures exists p: Payload, q: Payload ::
      && AsIs(start.db, GG, p) && GoodPolicies(p.capabilities, p.limits)
      && q.capabilities < p.capabilities && GoodPolicies(q.capabilities, q.limits)
      && UpdateGuard(start.db, GG, p, true) == Proceed && UpdateGuard(start.db, GG, q, true) == Proceed
  {
    hide Start, Invariant, ActiveCredentials;
    StartInvariant(start, mac);
    var ai, search, fetch := GgAfterStart(start);
    var limits := map["ai" := ai, "search" := search, "fetch" := fetch];
    var p, q := Payload("n", Active, CAPABILITIES, limits), Payload("n", Active, {"ai"}, limits);
    assert AsIs(start.db, GG, p);
    assert "search" !in q.capabilities && "search" in p.capabilities;
    assert UpdateGuard(start.db, GG, p, true) == Proceed;
    assert UpdateGuard(start.db, GG, q, true) == Proceed;
  }
}
