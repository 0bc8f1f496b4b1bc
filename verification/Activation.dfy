/** What the update route's checks for active applications are worth over interleaved runs: "active
    applications require capabilities and quotas" holds for ever, "require an active credential" holds
    only as far as no credential is revoked. */
module Activation {
  import opened Common
  import opened Keys
  import opened ControlPlane
  import opened AdminRuns
  import Tokens = CredentialTokens

  /** The application can use some capability. */
  ghost predicate Equipped(db: Db, id: string) {
    exists c :: (id, c) in db.caps
  }

  /** Every active application is equipped, and every update on its way to activate one will equip it. */
  ghost predicate ActiveEquipped(s: System) {
    && (forall id | id in s.db.apps && s.db.apps[id].state == Active :: Equipped(s.db, id))
    && (forall h | h in s.tasks && s.tasks[h].Updating? && s.tasks[h].payload.state == Active ::
          s.tasks[h].payload.capabilities != {})
  }

  lemma UpdatedEquips(db: Db, id: string, p: Payload, other: string)
    requires p.state == Active ==> p.capabilities != {}
    requires forall a | a in db.apps && db.apps[a].state == Active :: Equipped(db, a)
    requires var t := Update(db, id, p.name, p.state, p.capabilities, p.limits);
      other in t.apps && t.apps[other].state == Active
    ensures Equipped(Update(db, id, p.name, p.state, p.capabilities, p.limits), other)
  {
    var t := Update(db, id, p.name, p.state, p.capabilities, p.limits);
    if t != db {
      if other == id {
        var c :| c in p.capabilities;
        assert (id, c) in t.caps;
      } else {
        assert Equipped(db, other);
        var c :| (other, c) in db.caps;
        assert (other, c) in t.caps;
      }
    }
  }

  lemma MoreCapabilities(a: Db, b: Db, id: string)
    requires Equipped(a, id) && a.caps <= b.caps
    ensures Equipped(b, id)
  {
    var c :| (id, c) in a.caps;
    assert (id, c) in b.caps;
  }

  lemma StepKeepsEquipped(s: System, mac: string -> Digest, e: Event)
    requires Invariant(s, mac) && WellFormed(e) && ActiveEquipped(s)
    ensures ActiveEquipped(Step(s, mac, e))
  {
    hide Invariant, Update, Equipped, ActiveCredentials, ClientIdTaken;
    var t := Step(s, mac, e);
    if e.Restart? {
      RestartKeepsApplications(s, mac, e.ai, e.search, e.fetch);
    }
    forall id | id in t.db.apps && t.db.apps[id].state == Active
      ensures Equipped(t.db, id)
    {
      if e.Finish? && e.h in s.tasks && s.tasks[e.h].Updating? {
        UpdatedEquips(s.db, s.tasks[e.h].id, s.tasks[e.h].payload, id);
      } else {
        MoreCapabilities(s.db, t.db, id);
      }
    }
  }

  lemma RestartKeepsApplications(s: System, mac: string -> Digest, ai: int, search: int, fetch: int)
    requires Invariant(s, mac) && ai >= 1 && search >= 1 && fetch >= 1
    ensures var t := Step(s, mac, Restart(ai, search, fetch));
      t.db.apps == s.db.apps && t.db.creds == s.db.creds && s.db.caps <= t.db.caps
  {
    LaterBootstrap(s.db, ai, search, fetch);
  }

  lemma StartEquipped(s: System)
    requires Start(s)
    ensures ActiveEquipped(s)
  {
    var ai, search, fetch :| ai >= 1 && search >= 1 && fetch >= 1 && Bootstrap(EMPTY, ai, search, fetch) == Ok(s.db);
    FirstBootstrap(ai, search, fetch);
    assert (GG, "ai") in s.db.caps;
  }

  lemma {:induction false} RunKeepsEquipped(start: System, mac: string -> Digest, es: seq<Event>)
    requires Start(start) && forall e | e in es :: WellFormed(e)
    ensures Invariant(Run(start, mac, es), mac) && ActiveEquipped(Run(start, mac, es))
  {
    StartInvariant(start, mac);
    StartEquipped(start);
    RunKeepsInvariant(start, mac, es);
    if es != [] {
      hide Start, Invariant, ActiveEquipped, Step;
      var front := es[..|es| - 1];
      assert es[|es| - 1] in es;
      RunKeepsEquipped(start, mac, front);
      StepKeepsEquipped(Run(start, mac, front), mac, es[|es| - 1]);
    }
  }

  /** However the handlers interleave, an active application always has a capability, and for it a limit
      of at least 1: the route checks the payload, which no other handler can change. */
  lemma ActiveHasQuota(start: System, mac: string -> Digest, es: seq<Event>, id: string)
    requires Start(start) && forall e | e in es :: WellFormed(e)
    ensures var db := Run(start, mac, es).db;
      id in db.apps && db.apps[id].state == Active ==>
        exists c :: c in CAPABILITIES && (id, c) in db.caps && (id, c) in db.quotas && db.quotas[(id, c)] >= 1
  {
    hide Run, Start;
    RunKeepsEquipped(start, mac, es);
    var db := Run(start, mac, es).db;
    if id in db.apps && db.apps[id].state == Active {
      assert Equipped(db, id);
      var c :| (id, c) in db.caps;
      assert (id, c) in db.quotas;
    }
  }

  /** A revoke call that returns true takes exactly one live credential from the owner, one that returns
      false none, and neither changes any application. */
  lemma RevokeCounts(db: Db, id: string, application: string)
    ensures var (t, won) := Revoke(db, id);
      && t.apps == db.apps && t.caps == db.caps
      && ActiveCredentials(t, application) ==
           ActiveCredentials(db, application) - (if won && db.creds[id].application == application then 1 else 0)
  {
    var (t, won) := Revoke(db, id);
    var before := set c | c in db.creds && db.creds[c].application == application && !db.creds[c].revoked;
    var after := set c | c in t.creds && t.creds[c].application == application && !t.creds[c].revoked;
    if won && db.creds[id].application == application {
      assert after == before - {id} && id in before;
    } else {
      assert after == before;
    }
  }

  // ---------------------------------------------------------------- the check for a live credential

  /** The application is active, yet no live credential of it is stored. */
  predicate Bare(db: Db, id: string) {
    id in db.apps && db.apps[id].state == Active && ActiveCredentials(db, id) == 0
  }

  /** Revoking the only live credential of an active application. */
  predicate RevokesLast(db: Db, e: Event, id: string) {
    && e.RevokeCredential? && LiveCredential(db, e.id) && db.creds[e.id].application == id
    && id in db.apps && db.apps[id].state == Active && ActiveCredentials(db, id) == 1
  }

  /** Writing the update that activates an application while it has no live credential. */
  predicate ActivatesTooLate(s: System, e: Event, id: string) {
    && e.Finish? && e.h in s.tasks && s.tasks[e.h].Updating? && s.tasks[e.h].id == id
    && s.tasks[e.h].payload.state == Active
    && GoodPolicies(s.tasks[e.h].payload.capabilities, s.tasks[e.h].payload.limits)
    && ActiveCredentials(s.db, id) == 0
  }

  /** Credentials that are only added leave the live ones there. */
  lemma MoreCredentials(a: Db, b: Db, application: string)
    requires forall c | LiveCredential(a, c) :: LiveCredential(b, c) && b.creds[c].application == a.creds[c].application
    ensures ActiveCredentials(a, application) <= ActiveCredentials(b, application)
  {
    var before := set c | c in a.creds && a.creds[c].application == application && !a.creds[c].revoked;
    var after := set c | c in b.creds && b.creds[c].application == application && !b.creds[c].revoked;
    assert forall c | c in before :: LiveCredential(a, c);
    assert after == before + (after - before);
  }

  lemma UpdateBares(db: Db, id: string, p: Payload, other: string)
    requires id in db.apps && !db.apps[id].guarded && !Bare(db, other)
    ensures Bare(Update(db, id, p.name, p.state, p.capabilities, p.limits), other) <==>
              other == id && p.state == Active && GoodPolicies(p.capabilities, p.limits)
                && ActiveCredentials(db, id) == 0
  {
    hide GoodPolicies, CapsWithout, QuotasWith, Rows;
    UpdateKeepsCredentials(db, id, p.name, p.state, p.capabilities, p.limits);
  }

  lemma IssueBares(s: System, mac: string -> Digest, e: Event, id: string)
    requires Invariant(s, mac) && !Bare(s.db, id)
    requires e.Finish? && e.h in s.tasks && s.tasks[e.h].Issuing?
    ensures !Bare(Step(s, mac, e).db, id)
  {
    MoreCredentials(s.db, Step(s, mac, e).db, id);
  }

  lemma RevokeBares(db: Db, id: string, other: string)
    requires !Bare(db, other)
    ensures Bare(Revoke(db, id).0, other) <==> RevokesLast(db, RevokeCredential(id), other)
  {
    hide ActiveCredentials;
    RevokeCounts(db, id, other);
  }

  /** The exact account, for every step of every handler: an application becomes active without a live
      credential when its last one is revoked while it is active, or when its activation is written while
      it has none, and in no other way. */
  lemma BareExactly(s: System, mac: string -> Digest, e: Event, id: string)
    requires Invariant(s, mac) && WellFormed(e) && !Bare(s.db, id)
    ensures Bare(Step(s, mac, e).db, id) <==> RevokesLast(s.db, e, id) || ActivatesTooLate(s, e, id)
  {
    hide Update, GoodPolicies, Revoke, Bootstrap;
    match e
    case Restart(ai, search, fetch) =>
      LaterBootstrap(s.db, ai, search, fetch);
    case CreateApplication(_, _, _) =>
    case BeginUpdate(_, _, _, _) =>
    case BeginIssue(_, _) =>
    case RevokeCredential(credential) =>
      RevokeBares(s.db, credential, id);
    case Finish(h, _, _, _) =>
      if h in s.tasks && s.tasks[h].Updating? {
        UpdateBares(s.db, s.tasks[h].id, s.tasks[h].payload, id);
      } else if h in s.tasks {
        IssueBares(s, mac, e, id);
      }
  }

  /** What the check is good for: as long as nothing has been revoked, every active application but
      gg_oferta has a live credential, and so has every one about to be activated. */
  ghost predicate Credentialed(s: System) {
    && (forall id | id != GG :: !Bare(s.db, id))
    && (forall h | h in s.tasks && s.tasks[h].Updating? && s.tasks[h].id != GG && s.tasks[h].payload.state == Active ::
          ActiveCredentials(s.db, s.tasks[h].id) > 0)
  }

  lemma UnrevokedStep(s: System, mac: string -> Digest, e: Event, application: string)
    requires Invariant(s, mac) && WellFormed(e) && !e.RevokeCredential?
    ensures ActiveCredentials(s.db, application) <= ActiveCredentials(Step(s, mac, e).db, application)
  {
    hide ActiveCredentials, Update, Invariant, Bootstrap;
    if e.Restart? {
      RestartKeepsApplications(s, mac, e.ai, e.search, e.fetch);
    }
    if e.Finish? && e.h in s.tasks && s.tasks[e.h].Updating? {
      var p := s.tasks[e.h].payload;
      UpdateKeepsCredentials(s.db, s.tasks[e.h].id, p.name, p.state, p.capabilities, p.limits);
    }
    MoreCredentials(s.db, Step(s, mac, e).db, application);
  }

  lemma TasksStep(s: System, mac: string -> Digest, e: Event, h: nat)
    requires h in Step(s, mac, e).tasks && Step(s, mac, e).tasks[h].Updating?
    ensures var task := Step(s, mac, e).tasks[h];
      || (h in s.tasks && s.tasks[h] == task)
      || (task.id != GG && task.payload.state == Active ==> ActiveCredentials(s.db, task.id) > 0)
  {
    hide Bootstrap, CreateApp, Update, InsertCredential, Revoke;
  }

  lemma UnrevokedKeeps(s: System, mac: string -> Digest, e: Event)
    requires Invariant(s, mac) && WellFormed(e) && !e.RevokeCredential? && Credentialed(s)
    ensures Credentialed(Step(s, mac, e))
  {
    hide Invariant, Step, Bare, ActiveCredentials;
    var t := Step(s, mac, e);
    forall id | id != GG ensures !Bare(t.db, id) {
      BareExactly(s, mac, e, id);
    }
    forall h | h in t.tasks && t.tasks[h].Updating? && t.tasks[h].id != GG && t.tasks[h].payload.state == Active
      ensures ActiveCredentials(t.db, t.tasks[h].id) > 0
    {
      TasksStep(s, mac, e, h);
      UnrevokedStep(s, mac, e, t.tasks[h].id);
    }
  }

  /** Over every run without revocations, however the handlers interleave, every active application but
      gg_oferta has a live credential. */
  lemma {:induction false} UnrevokedHasCredential(start: System, mac: string -> Digest, es: seq<Event>)
    requires Start(start) && forall e | e in es :: WellFormed(e) && !e.RevokeCredential?
    ensures Credentialed(Run(start, mac, es))
  {
    if es == [] {
      FirstStartIsBare(start);
    } else {
      hide Start, Invariant, Credentialed, Step;
      var front := es[..|es| - 1];
      assert es[|es| - 1] in es;
      UnrevokedHasCredential(start, mac, front);
      RunKeepsEquipped(start, mac, front);
      UnrevokedKeeps(Run(start, mac, front), mac, es[|es| - 1]);
    }
  }

  /** The first start itself: gg_oferta is active from then on, and no credential exists. Its key file may
      or may not be configured. */
  lemma FirstStartIsBare(s: System)
    requires Start(s)
    ensures forall id :: Bare(s.db, id) <==> id == GG
  {
    var ai, search, fetch :| ai >= 1 && search >= 1 && fetch >= 1 && Bootstrap(EMPTY, ai, search, fetch) == Ok(s.db);
    FirstBootstrap(ai, search, fetch);
    hide ActiveCredentials;
    forall id ensures ActiveCredentials(s.db, id) == 0 {
      NoCredentials(s.db, id);
    }
  }

  lemma NoCredentials(db: Db, application: string)
    requires forall id | id in db.creds :: db.creds[id].application != application
    ensures ActiveCredentials(db, application) == 0
  {
  }

  /** One live credential, of an application that waits for its activation. */
  ghost predicate Ready(db: Db, id: string, credential: string) {
    && id in db.apps && db.apps[id].state == Disabled && !db.apps[id].guarded
    && LiveCredential(db, credential) && db.creds[credential].application == id && ActiveCredentials(db, id) == 1
  }

  /** The race: an activation passes its check, the only credential is revoked while the application is
      still disabled, and the write activates it all the same. */
  lemma ActivationRace(s: System, mac: string -> Digest, h: nat, id: string, credential: string, p: Payload,
                       last: Event)
    requires Ready(s.db, id, credential) && last.Finish? && last.h == h
    requires p.state == Active && p.capabilities != {} && GoodPolicies(p.capabilities, p.limits)
    ensures Bare(Run(s, mac, [BeginUpdate(h, id, p, false), RevokeCredential(credential), last]).db, id)
  {
    hide ActiveCredentials, Update, GoodPolicies;
    RunOf3(s, mac, BeginUpdate(h, id, p, false), RevokeCredential(credential), last);
    assert UpdateGuard(s.db, id, p, false) == Proceed by { GoodLimits(p); }
    RevokeCounts(s.db, credential, id);
    UpdateBares(Revoke(s.db, credential).0, id, p, id);
  }

  lemma GoodLimits(p: Payload)
    requires GoodPolicies(p.capabilities, p.limits)
    ensures !exists c :: c in p.capabilities && (c !in p.limits || p.limits[c] < 1)
  {
  }

  lemma FirstCreate(start: System)
    requires Start(start)
    ensures var r := CreateApp(start.db, "app", "n", "client");
      r.Ok? && r.value.creds == map[] && "app" in r.value.apps
        && r.value.apps["app"] == App("n", "client", Disabled, false)
  {
    hide InsertOrIgnoreApp;
    var ai, search, fetch :| ai >= 1 && search >= 1 && fetch >= 1
      && Bootstrap(EMPTY, ai, search, fetch) == Ok(start.db);
    FirstApplications();
  }

  /** Two requests after the first start lead there: create an application, issue a credential. */
  lemma ReadyIsReachable(start: System, mac: string -> Digest, secret: string)
    requires Start(start) && Tokens.Issuable("k", secret)
    ensures var es := [CreateApplication("app", "n", "client"), BeginIssue(0, "app"), Finish(0, "k", secret, "n")];
      (forall e | e in es :: WellFormed(e)) && Ready(Run(start, mac, es).db, "app", "k")
  {
    hide ActiveCredentials, CreateApp, Start;
    var last := Finish(0, "k", secret, "n");
    RunOf3(start, mac, CreateApplication("app", "n", "client"), BeginIssue(0, "app"), last);
    FirstCreate(start);
    OneCredential(CreateApp(start.db, "app", "n", "client").value, "k", "app", "n", mac(Tokens.Message("k", secret)));
  }

  lemma OneCredential(db: Db, id: string, application: string, name: string, mac: Digest)
    requires db.creds == map[] && application in db.apps
    ensures var r := InsertCredential(db, id, application, name, mac);
      r.Ok? && ActiveCredentials(r.value, application) == 1
  {
    var r := InsertCredential(db, id, application, name, mac).value;
    assert (set c | c in r.creds && r.creds[c].application == application && !r.creds[c].revoked) == {id};
  }
}
