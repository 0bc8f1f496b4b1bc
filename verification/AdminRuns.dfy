/** Every run of the administration: restarts, route handlers whose reads and writes are separate
    transactions and interleave, credential issuing and revocation. */
module AdminRuns {
  import opened Common
  import opened Keys
  import opened ControlPlane
  import Tokens = CredentialTokens

  /** What the tables guarantee between transactions. */
  ghost predicate Consistent(db: Db) {
    && db.caps <= db.quotas.Keys
    && (forall p | p in db.quotas :: db.quotas[p] >= 1 && p.0 in db.apps && p.1 in CAPABILITIES)
    && (forall id | id in db.creds :: db.creds[id].application in db.apps)
    && (forall a, b | a in db.apps && b in db.apps && db.apps[a].clientId == db.apps[b].clientId :: a == b)
  }

  /** What only grows: no application, quota row or credential disappears, the protection flag and the
      client id never change, a credential keeps its owner and MAC, and revocation is not undone. */
  ghost predicate Evolves(a: Db, b: Db) {
    && (forall id | id in a.apps ::
          id in b.apps && b.apps[id].guarded == a.apps[id].guarded && b.apps[id].clientId == a.apps[id].clientId)
    && a.quotas.Keys <= b.quotas.Keys
    && (forall id | id in a.creds ::
          && id in b.creds && b.creds[id].application == a.creds[id].application && b.creds[id].mac == a.creds[id].mac
          && (a.creds[id].revoked ==> b.creds[id].revoked))
  }

  /** The protected application exists, reserved, without capability, quota row or credential. */
  ghost predicate ClaudiaoApart(db: Db) {
    && CLAUDIAO in db.apps && db.apps[CLAUDIAO].guarded && db.apps[CLAUDIAO].state == Reserved
    && (forall p | p in db.caps :: p.0 != CLAUDIAO)
    && (forall p | p in db.quotas :: p.0 != CLAUDIAO)
    && (forall id | id in db.creds :: db.creds[id].application != CLAUDIAO)
  }

  // ---------------------------------------------------------------- one transaction at a time

  lemma EnsureCapabilityKeeps(db: Db, capability: string, limit: int)
    requires Consistent(db) && GG in db.apps && capability in CAPABILITIES && limit >= 1
    ensures var u := EnsureCapability(db, GG, capability, limit);
      Consistent(u) && Evolves(db, u) && u.apps == db.apps && (ClaudiaoApart(db) ==> ClaudiaoApart(u))
  {
  }

  lemma InsertOrIgnoreKeeps(db: Db, id: string, app: App)
    requires Consistent(db)
    ensures var u := InsertOrIgnoreApp(db, id, app);
      Consistent(u) && Evolves(db, u) && (ClaudiaoApart(db) ==> ClaudiaoApart(u))
  {
  }

  lemma EvolvesTransitive(a: Db, b: Db, c: Db)
    requires Evolves(a, b) && Evolves(b, c)
    ensures Evolves(a, c)
  {
  }

  /** Bootstrap keeps the tables consistent; its only demand is the configured minimum of 1. */
  lemma BootstrapKeeps(db: Db, ai: int, search: int, fetch: int)
    requires Consistent(db) && ai >= 1 && search >= 1 && fetch >= 1
    ensures var r := Bootstrap(db, ai, search, fetch);
      r.Ok? ==> Consistent(r.value) && Evolves(db, r.value) && (ClaudiaoApart(db) ==> ClaudiaoApart(r.value))
  {
    var a := InsertOrIgnoreApp(db, GG, App("GG Oferta", "ggoferta-core-client", Active, false));
    InsertOrIgnoreKeeps(db, GG, App("GG Oferta", "ggoferta-core-client", Active, false));
    var b := InsertOrIgnoreApp(a, CLAUDIAO, App("Claudião", "claudiao-core-client", Reserved, true));
    InsertOrIgnoreKeeps(a, CLAUDIAO, App("Claudião", "claudiao-core-client", Reserved, true));
    EvolvesTransitive(db, a, b);
    if GG in b.apps {
      var c := EnsureCapability(b, GG, "ai", ai);
      EnsureCapabilityKeeps(b, "ai", ai);
      var d := EnsureCapability(c, GG, "search", search);
      EnsureCapabilityKeeps(c, "search", search);
      var e := EnsureCapability(d, GG, "fetch", fetch);
      EnsureCapabilityKeeps(d, "fetch", fetch);
      EvolvesTransitive(db, b, c);
      EvolvesTransitive(db, c, d);
      EvolvesTransitive(db, d, e);
    }
  }

  lemma CreateAppKeeps(db: Db, id: string, name: string, clientId: string)
    requires Consistent(db)
    ensures var r := CreateApp(db, id, name, clientId);
      r.Ok? ==> Consistent(r.value) && Evolves(db, r.value) && (ClaudiaoApart(db) ==> ClaudiaoApart(r.value))
  {
  }

  lemma UpdatedQuotas(db: Db, id: string, capabilities: set<string>, limits: map<string, int>)
    requires Consistent(db) && id in db.apps && GoodPolicies(capabilities, limits)
    ensures var q := QuotasWith(db.quotas, id, capabilities, limits);
      && q.Keys == db.quotas.Keys + Rows(id, capabilities)
      && forall p | p in q :: q[p] >= 1 && p.0 in db.apps && p.1 in CAPABILITIES
  {
  }

  lemma UpdatedConsistent(db: Db, id: string, name: string, state: AppState, capabilities: set<string>,
                          limits: map<string, int>)
    requires Consistent(db) && id in db.apps && GoodPolicies(capabilities, limits)
    ensures Consistent(Updated(db, id, name, state, capabilities, limits))
  {
    hide QuotasWith;
    UpdatedQuotas(db, id, capabilities, limits);
    var u := Updated(db, id, name, state, capabilities, limits);
    assert u.apps.Keys == db.apps.Keys && forall a | a in u.apps :: u.apps[a].clientId == db.apps[a].clientId;
  }

  lemma UpdatedApart(db: Db, id: string, name: string, state: AppState, capabilities: set<string>,
                     limits: map<string, int>)
    requires Consistent(db) && ClaudiaoApart(db) && id in db.apps && id != CLAUDIAO
             && GoodPolicies(capabilities, limits)
    ensures ClaudiaoApart(Updated(db, id, name, state, capabilities, limits))
  {
    hide QuotasWith;
    UpdatedQuotas(db, id, capabilities, limits);
  }

  lemma UpdatedEvolves(db: Db, id: string, name: string, state: AppState, capabilities: set<string>,
                       limits: map<string, int>)
    requires Consistent(db) && id in db.apps && GoodPolicies(capabilities, limits)
    ensures Evolves(db, Updated(db, id, name, state, capabilities, limits))
  {
    hide QuotasWith;
    UpdatedQuotas(db, id, capabilities, limits);
  }

  lemma UpdateKeeps(db: Db, id: string, name: string, state: AppState, capabilities: set<string>,
                    limits: map<string, int>)
    requires Consistent(db)
    ensures var u := Update(db, id, name, state, capabilities, limits);
      Consistent(u) && Evolves(db, u) && (ClaudiaoApart(db) ==> ClaudiaoApart(u))
  {
    hide Updated;
    if id in db.apps && !db.apps[id].guarded && GoodPolicies(capabilities, limits) {
      UpdatedConsistent(db, id, name, state, capabilities, limits);
      UpdatedEvolves(db, id, name, state, capabilities, limits);
      if ClaudiaoApart(db) { UpdatedApart(db, id, name, state, capabilities, limits); }
    }
  }

  lemma InsertCredentialKeeps(db: Db, id: string, application: string, name: string, mac: Digest)
    requires Consistent(db)
    ensures var r := InsertCredential(db, id, application, name, mac);
      r.Ok? ==>
        Consistent(r.value) && Evolves(db, r.value)
        && (ClaudiaoApart(db) && application != CLAUDIAO ==> ClaudiaoApart(r.value))
  {
  }

  lemma RevokeKeeps(db: Db, id: string)
    requires Consistent(db)
    ensures var u := Revoke(db, id).0;
      Consistent(u) && Evolves(db, u) && (ClaudiaoApart(db) ==> ClaudiaoApart(u))
  {
  }

  // ---------------------------------------------------------------- bootstrap at every start

  lemma FirstApplications()
    ensures var a := InsertOrIgnoreApp(EMPTY, GG, App("GG Oferta", "ggoferta-core-client", Active, false));
      InsertOrIgnoreApp(a, CLAUDIAO, App("Claudião", "claudiao-core-client", Reserved, true)) ==
        Db(map[GG := App("GG Oferta", "ggoferta-core-client", Active, false),
               CLAUDIAO := App("Claudião", "claudiao-core-client", Reserved, true)], {}, map[], map[])
  {
  }

  /** Bootstrapping empty tables sets up the two applications. */
  lemma FirstBootstrap(ai: int, search: int, fetch: int)
    requires ai >= 1 && search >= 1 && fetch >= 1
    ensures var r := Bootstrap(EMPTY, ai, search, fetch);
      && r.Ok? && Consistent(r.value) && ClaudiaoApart(r.value) && r.value.creds == map[]
      && r.value.apps.Keys == {GG, CLAUDIAO} && r.value.apps[GG].state == Active
      && r.value.caps == {(GG, "ai"), (GG, "search"), (GG, "fetch")}
      && r.value.quotas == map[(GG, "ai") := ai, (GG, "search") := search, (GG, "fetch") := fetch]
  {
    hide InsertOrIgnoreApp;
    FirstApplications();
    BootstrapKeeps(EMPTY, ai, search, fetch);
  }

  /** A later start with whatever limits preserves applications, credentials and existing limits; it adds
      missing limits, and gives gg_oferta back any capability that was taken away. */
  lemma LaterBootstrap(db: Db, ai: int, search: int, fetch: int)
    requires Consistent(db) && GG in db.apps && CLAUDIAO in db.apps
    requires ai >= 1 && search >= 1 && fetch >= 1
    ensures var r := Bootstrap(db, ai, search, fetch);
      && r.Ok? && r.value.apps == db.apps && r.value.creds == db.creds
      && r.value.caps == db.caps + {(GG, "ai"), (GG, "search"), (GG, "fetch")}
      && (forall p | p in db.quotas :: p in r.value.quotas && r.value.quotas[p] == db.quotas[p])
      && r.value.quotas.Keys == db.quotas.Keys + {(GG, "ai"), (GG, "search"), (GG, "fetch")}
  {
    var r := Bootstrap(db, ai, search, fetch);
    assert r.value.caps == db.caps + {(GG, "ai"), (GG, "search"), (GG, "fetch")};
  }

  /** So a restart leaves the tables exactly as they were if and only if gg_oferta still has all three
      capabilities. */
  lemma RestartIsNeutralExactly(db: Db, ai: int, search: int, fetch: int)
    requires Consistent(db) && GG in db.apps && CLAUDIAO in db.apps
    requires ai >= 1 && search >= 1 && fetch >= 1
    ensures Bootstrap(db, ai, search, fetch) == Ok(db) <==> forall c | c in CAPABILITIES :: (GG, c) in db.caps
  {
    LaterBootstrap(db, ai, search, fetch);
    var r := Bootstrap(db, ai, search, fetch);
    if forall c | c in CAPABILITIES :: (GG, c) in db.caps {
      assert "ai" in CAPABILITIES && "search" in CAPABILITIES && "fetch" in CAPABILITIES;
      assert r.value.caps == db.caps;
      assert r.value.quotas == db.quotas;
    }
  }

  // ---------------------------------------------------------------- interleaved handlers

  datatype Payload = Payload(name: string, state: AppState, capabilities: set<string>, limits: map<string, int>)

  datatype Guard = Proceed | NotFound | Conflict

  /** The checks of the update route before it calls the store: the limits of the payload are positive
      by validation. `legacyKey` says that gg_oferta's file credential is configured. */
  function UpdateGuard(db: Db, id: string, p: Payload, legacyKey: bool): Guard {
    if id !in db.apps then NotFound
    else if db.apps[id].guarded then Conflict
    else if p.state == Active
      && (p.capabilities == {} || exists c :: c in p.capabilities && (c !in p.limits || p.limits[c] < 1))
    then Conflict
    else if p.state == Active && !(id == GG && legacyKey) && ActiveCredentials(db, id) == 0 then Conflict
    else Proceed
  }

  /** The checks of the credential route before it issues and stores a credential. */
  function IssueGuard(db: Db, id: string): Guard {
    if id !in db.apps then NotFound
    else if db.apps[id].guarded || db.apps[id].state == Reserved then Conflict
    else Proceed
  }

  /** When an update gets past the checks, on the tables and the payload alone. */
  lemma UpdateProceedsExactly(db: Db, id: string, p: Payload, legacyKey: bool)
    ensures var g := UpdateGuard(db, id, p, legacyKey);
      var covered := p.capabilities != {} && forall c | c in p.capabilities :: c in p.limits && p.limits[c] >= 1;
      var credentialed := exists k :: k in db.creds && db.creds[k].application == id && !db.creds[k].revoked;
      && (g == NotFound <==> id !in db.apps)
      && (g == Proceed <==>
            && id in db.apps && !db.apps[id].guarded
            && (p.state == Active ==> covered && ((id == "gg_oferta" && legacyKey) || credentialed)))
  {
    var live := set k | k in db.creds && db.creds[k].application == id && !db.creds[k].revoked;
    assert ActiveCredentials(db, id) == |live|;
    if k :| k in db.creds && db.creds[k].application == id && !db.creds[k].revoked {
      assert k in live;
    } else {
      assert live == {};
    }
  }

  /** When a credential is issued: for any existing application that is neither protected nor reserved. */
  lemma IssueProceedsExactly(db: Db, id: string)
    ensures IssueGuard(db, id) == NotFound <==> id !in db.apps
    ensures IssueGuard(db, id) == Proceed <==>
              id in db.apps && !db.apps[id].guarded && (db.apps[id].state == Active || db.apps[id].state == Disabled)
  {
  }

  /** What the update route writes to the audit log. */
  datatype Audit =
    | UpdateDenied
    | UpdateMade
    | StateChanged(before: AppState, after: AppState)
    | CapabilitiesChanged(capabilities: set<string>)
    | QuotasChanged(limits: map<string, int>)

  function CapabilitiesOf(db: Db, id: string): set<string> {
    set p | p in db.caps && p.0 == id :: p.1
  }

  function QuotasOf(db: Db, id: string): map<string, int> {
    map c | c in (set p | p in db.quotas && p.0 == id :: p.1) :: db.quotas[(id, c)]
  }

  /** What get_application reports of an application, as far as the audit compares it. */
  datatype View = View(state: AppState, capabilities: set<string>, limits: map<string, int>)

  function ViewOf(db: Db, id: string): View
    requires id in db.apps
  {
    View(db.apps[id].state, CapabilitiesOf(db, id), QuotasOf(db, id))
  }

  /** One event for the update, and one for each of state, capabilities and limits that differ. */
  function AuditsOf(a: View, b: View): seq<Audit> {
    [UpdateMade]
    + (if a.state != b.state then [StateChanged(a.state, b.state)] else [])
    + (if a.capabilities != b.capabilities then [CapabilitiesChanged(b.capabilities)] else [])
    + (if a.limits != b.limits then [QuotasChanged(b.limits)] else [])
  }

  lemma UpdateKeepsApplication(db: Db, id: string, p: Payload)
    requires id in db.apps
    ensures id in Update(db, id, p.name, p.state, p.capabilities, p.limits).apps
  {
  }

  /** The update route without interference. Its answer is "not found" not only for a missing application:
      the store's KeyError for a capability without a limit, which the guard lets through unless the
      application is being activated, is reported the same way. */
  method UpdateRoute(store: ControlPlaneStore, id: string, p: Payload, legacyKey: bool)
    returns (status: int, audits: seq<Audit>)
    requires p.capabilities <= CAPABILITIES && forall c | c in p.limits :: p.limits[c] >= 1
    modifies store
    ensures store.db == if UpdateGuard(old(store.db), id, p, legacyKey) == Proceed
                        then Update(old(store.db), id, p.name, p.state, p.capabilities, p.limits) else old(store.db)
    ensures status in {200, 404, 409}
    ensures status == 404 <==>
            || id !in old(store.db).apps
            || (UpdateGuard(old(store.db), id, p, legacyKey) == Proceed && !(p.capabilities <= p.limits.Keys))
    ensures status == 409 <==> UpdateGuard(old(store.db), id, p, legacyKey) == Conflict
    ensures status != 200 ==> store.db == old(store.db)
    ensures status == 200 ==>
              id in old(store.db).apps && id in store.db.apps
              && audits == AuditsOf(ViewOf(old(store.db), id), ViewOf(store.db, id))
    ensures status != 200 ==>
              audits == if id in old(store.db).apps && old(store.db).apps[id].guarded then [UpdateDenied] else []
  {
    ghost var before := store.db;
    var known := id in store.db.apps;
    var guarded := known && store.db.apps[id].guarded;
    var guard := UpdateGuard(store.db, id, p, legacyKey);
    if guard == NotFound {
      return 404, [];
    }
    if guard == Conflict {
      return 409, if guarded then [UpdateDenied] else [];
    }
    var current := ViewOf(store.db, id);
    var r := store.UpdateApplication(id, p.name, p.state, p.capabilities, p.limits);
    if r.Err? {
      return if r.error == PermissionError then 409 else 404, [];
    }
    UpdateKeepsApplication(before, id, p);
    var result := ViewOf(store.db, id);
    status, audits := 200, [UpdateMade];
    if current.state != result.state {
      audits := audits + [StateChanged(current.state, result.state)];
    }
    if current.capabilities != result.capabilities {
      audits := audits + [CapabilitiesChanged(result.capabilities)];
    }
    if current.limits != result.limits {
      audits := audits + [QuotasChanged(result.limits)];
    }
  }

  /** Without interference nothing escapes the audit: an update that records no change of state,
      capabilities or limits has changed nothing but the display name. AuditTrail says what remains of
      this when other updates come in between. */
  lemma UnauditedIsUnchanged(db: Db, id: string, p: Payload)
    requires id in db.apps && GoodPolicies(p.capabilities, p.limits)
    requires AuditsOf(ViewOf(db, id), ViewOf(Updated(db, id, p.name, p.state, p.capabilities, p.limits), id)) ==
               [UpdateMade]
    ensures Updated(db, id, p.name, p.state, p.capabilities, p.limits) ==
            db.(apps := db.apps[id := db.apps[id].(displayName := p.name)])
  {
    var after := Updated(db, id, p.name, p.state, p.capabilities, p.limits);
    assert CapabilitiesOf(after, id) == CapabilitiesOf(db, id) && QuotasOf(after, id) == QuotasOf(db, id);
    forall q ensures q in after.caps <==> q in db.caps {
      SameCapability(db, after, id, q);
    }
    forall q ensures q in after.quotas <==> q in db.quotas {
      SameQuota(db, after, id, q);
    }
    forall q | q in db.quotas ensures after.quotas[q] == db.quotas[q] {
      SameQuota(db, after, id, q);
    }
    assert after.caps == db.caps && after.quotas == db.quotas;
  }

  lemma SameCapability(a: Db, b: Db, id: string, q: (string, string))
    requires CapabilitiesOf(a, id) == CapabilitiesOf(b, id)
    requires q.0 != id ==> (q in a.caps <==> q in b.caps)
    ensures q in a.caps <==> q in b.caps
  {
    assert q.0 == id ==>
      (q in a.caps <==> q.1 in CapabilitiesOf(a, id))
      && (q in b.caps <==> q.1 in CapabilitiesOf(b, id));
  }

  lemma SameQuota(a: Db, b: Db, id: string, q: (string, string))
    requires QuotasOf(a, id) == QuotasOf(b, id)
    requires q.0 != id ==> (q in a.quotas <==> q in b.quotas) && (q in a.quotas ==> a.quotas[q] == b.quotas[q])
    ensures (q in a.quotas <==> q in b.quotas) && (q in a.quotas ==> a.quotas[q] == b.quotas[q])
  {
    if q.0 == id {
      assert q in a.quotas <==> q.1 in QuotasOf(a, id);
      assert q in b.quotas <==> q.1 in QuotasOf(b, id);
    }
  }

  /** A handler between its guard and its write. */
  datatype Task = Updating(id: string, payload: Payload) | Issuing(id: string)

  /** `issued` remembers the secret behind every stored credential, and `wins` the ids for which a revoke
      call returned true, in order. Neither is stored by the program. */
  datatype System = System(db: Db, tasks: map<nat, Task>, issued: map<string, string>, wins: seq<string>)

  datatype Event =
    | Restart(ai: int, search: int, fetch: int)
    | CreateApplication(id: string, name: string, clientId: string)
    | BeginUpdate(h: nat, id: string, payload: Payload, legacyKey: bool)
    | BeginIssue(h: nat, id: string)
    | Finish(h: nat, credentialId: string, secret: string, name: string)
    | RevokeCredential(id: string)

  ghost predicate WellFormed(e: Event) {
    && (e.Restart? ==> e.ai >= 1 && e.search >= 1 && e.fetch >= 1)
    && (e.Finish? ==> Tokens.Issuable(e.credentialId, e.secret))
  }

  function FinishTask(s: System, mac: string -> Digest, h: nat, credentialId: string, secret: string,
                      name: string): System
    requires h in s.tasks
  {
    var tasks := s.tasks - {h};
    match s.tasks[h]
    case Updating(id, p) => s.(db := Update(s.db, id, p.name, p.state, p.capabilities, p.limits), tasks := tasks)
    case Issuing(id) =>
      match InsertCredential(s.db, credentialId, id, name, mac(Tokens.Message(credentialId, secret)))
      case Err(_) => s.(tasks := tasks)
      case Ok(db) => s.(db := db, tasks := tasks, issued := s.issued[credentialId := secret])
  }

  function OrElse(r: Result<Db, Error>, db: Db): Db {
    match r
    case Ok(after) => after
    case Err(_) => db
  }

  function Step(s: System, mac: string -> Digest, e: Event): System {
    match e
    case Restart(ai, search, fetch) => s.(db := OrElse(Bootstrap(s.db, ai, search, fetch), s.db))
    case CreateApplication(id, name, clientId) => s.(db := OrElse(CreateApp(s.db, id, name, clientId), s.db))
    case BeginUpdate(h, id, p, legacyKey) =>
      if UpdateGuard(s.db, id, p, legacyKey) == Proceed then s.(tasks := s.tasks[h := Updating(id, p)]) else s
    case BeginIssue(h, id) =>
      if IssueGuard(s.db, id) == Proceed then s.(tasks := s.tasks[h := Issuing(id)]) else s
    case Finish(h, credentialId, secret, name) =>
      if h in s.tasks then FinishTask(s, mac, h, credentialId, secret, name) else s
    case RevokeCredential(id) =>
      var (db, won) := Revoke(s.db, id);
      s.(db := db, wins := if won then s.wins + [id] else s.wins)
  }

  function Run(s: System, mac: string -> Digest, es: seq<Event>): System {
    if es == [] then s else Step(Run(s, mac, es[..|es| - 1]), mac, es[|es| - 1])
  }

  /** The state after the first start on an empty database. */
  ghost predicate Start(s: System) {
    && (exists ai, search, fetch ::
          ai >= 1 && search >= 1 && fetch >= 1 && Bootstrap(EMPTY, ai, search, fetch) == Ok(s.db))
    && s.tasks == map[] && s.issued == map[] && s.wins == []
  }

  /** Every stored credential was issued, and its MAC is that of its token. */
  ghost predicate Issued(s: System, mac: string -> Digest) {
    && s.issued.Keys == s.db.creds.Keys
    && forall id | id in s.db.creds ::
         Tokens.Issuable(id, s.issued[id]) && s.db.creds[id].mac == mac(Tokens.Message(id, s.issued[id]))
  }

  /** A credential is revoked exactly when one revoke call has won it, and no second one has. */
  ghost predicate OneWinner(s: System) {
    && (forall i, j | 0 <= i < j < |s.wins| :: s.wins[i] != s.wins[j])
    && (forall id :: id in s.wins <==> id in s.db.creds && s.db.creds[id].revoked)
  }

  /** A handler past its guard works on an existing, unprotected application. */
  ghost predicate TasksAllowed(s: System) {
    forall h | h in s.tasks :: s.tasks[h].id in s.db.apps && !s.db.apps[s.tasks[h].id].guarded
  }

  ghost predicate Invariant(s: System, mac: string -> Digest) {
    Consistent(s.db) && GG in s.db.apps && ClaudiaoApart(s.db) && TasksAllowed(s) && Issued(s, mac) && OneWinner(s)
  }

  lemma RevokedWins(s: System, mac: string -> Digest, id: string)
    requires Issued(s, mac) && OneWinner(s)
    ensures var t := Step(s, mac, RevokeCredential(id)); Issued(t, mac) && OneWinner(t)
  {
    hide Tokens.Issuable, Tokens.Message;
    var t := Step(s, mac, RevokeCredential(id));
    forall other ensures other in t.wins <==> other in t.db.creds && t.db.creds[other].revoked {
      assert other in s.wins <==> other in s.db.creds && s.db.creds[other].revoked;
    }
  }

  lemma RevokeStep(s: System, mac: string -> Digest, id: string)
    requires Invariant(s, mac)
    ensures Invariant(Step(s, mac, RevokeCredential(id)), mac) && Evolves(s.db, Step(s, mac, RevokeCredential(id)).db)
  {
    hide Issued, OneWinner;
    RevokeKeeps(s.db, id);
    RevokedWins(s, mac, id);
    assert TasksAllowed(Step(s, mac, RevokeCredential(id)));
  }

  lemma FinishUpdate(s: System, mac: string -> Digest, h: nat, credentialId: string, secret: string, name: string)
    requires Invariant(s, mac) && h in s.tasks && s.tasks[h].Updating?
    ensures var t := FinishTask(s, mac, h, credentialId, secret, name); Invariant(t, mac) && Evolves(s.db, t.db)
  {
    hide Updated, GoodPolicies;
    var Updating(id, p) := s.tasks[h];
    UpdateKeeps(s.db, id, p.name, p.state, p.capabilities, p.limits);
    UpdateKeepsCredentials(s.db, id, p.name, p.state, p.capabilities, p.limits);
  }

  lemma UpdateKeepsCredentials(db: Db, id: string, name: string, state: AppState, capabilities: set<string>,
                               limits: map<string, int>)
    ensures Update(db, id, name, state, capabilities, limits).creds == db.creds
  {
  }

  lemma StoredIsIssued(s: System, mac: string -> Digest, t: System, credentialId: string, application: string,
                       secret: string, name: string)
    requires Issued(s, mac) && OneWinner(s) && Tokens.Issuable(credentialId, secret) && credentialId !in s.db.creds
    requires t.db.creds == s.db.creds[credentialId := Credential(application, name,
               mac(Tokens.Message(credentialId, secret)), false)]
    requires t.issued == s.issued[credentialId := secret] && t.wins == s.wins
    ensures Issued(t, mac) && OneWinner(t)
  {
    hide Tokens.Issuable, Tokens.Message;
    forall id ensures id in t.wins <==> id in t.db.creds && t.db.creds[id].revoked {
      assert id in s.wins <==> id in s.db.creds && s.db.creds[id].revoked;
    }
  }

  lemma FinishIssue(s: System, mac: string -> Digest, h: nat, credentialId: string, secret: string, name: string)
    requires Invariant(s, mac) && h in s.tasks && s.tasks[h].Issuing? && Tokens.Issuable(credentialId, secret)
    ensures var t := FinishTask(s, mac, h, credentialId, secret, name); Invariant(t, mac) && Evolves(s.db, t.db)
  {
    hide Tokens.Issuable, Tokens.Message;
    var id := s.tasks[h].id;
    var t := FinishTask(s, mac, h, credentialId, secret, name);
    InsertCredentialKeeps(s.db, credentialId, id, name, mac(Tokens.Message(credentialId, secret)));
    assert id != CLAUDIAO;
    if credentialId !in s.db.creds {
      StoredIsIssued(s, mac, t, credentialId, id, secret, name);
    } else {
      assert t == s.(tasks := s.tasks - {h});
    }
    assert TasksAllowed(t);
  }

  lemma FinishStep(s: System, mac: string -> Digest, e: Event)
    requires Invariant(s, mac) && e.Finish? && WellFormed(e) && e.h in s.tasks
    ensures Invariant(Step(s, mac, e), mac) && Evolves(s.db, Step(s, mac, e).db)
  {
    if s.tasks[e.h].Updating? {
      FinishUpdate(s, mac, e.h, e.credentialId, e.secret, e.name);
    } else {
      FinishIssue(s, mac, e.h, e.credentialId, e.secret, e.name);
    }
  }

  lemma RestartStep(s: System, mac: string -> Digest, ai: int, search: int, fetch: int)
    requires Invariant(s, mac) && ai >= 1 && search >= 1 && fetch >= 1
    ensures var t := Step(s, mac, Restart(ai, search, fetch)); Invariant(t, mac) && Evolves(s.db, t.db)
  {
    hide Bootstrap;
    BootstrapKeeps(s.db, ai, search, fetch);
    LaterBootstrap(s.db, ai, search, fetch);
  }

  lemma CreateStep(s: System, mac: string -> Digest, id: string, name: string, clientId: string)
    requires Invariant(s, mac)
    ensures var t := Step(s, mac, CreateApplication(id, name, clientId)); Invariant(t, mac) && Evolves(s.db, t.db)
  {
    CreateAppKeeps(s.db, id, name, clientId);
  }

  lemma TasksOnly(s: System, t: System, mac: string -> Digest)
    requires Invariant(s, mac) && TasksAllowed(t)
    requires t.db == s.db && t.issued == s.issued && t.wins == s.wins
    ensures Invariant(t, mac) && Evolves(s.db, t.db)
  {
  }

  lemma BeginStep(s: System, mac: string -> Digest, e: Event)
    requires Invariant(s, mac) && (e.BeginUpdate? || e.BeginIssue?)
    ensures var t := Step(s, mac, e); Invariant(t, mac) && Evolves(s.db, t.db)
  {
    hide ActiveCredentials, Consistent, ClaudiaoApart, Issued, OneWinner, Evolves;
    var t := Step(s, mac, e);
    assert TasksAllowed(t);
    TasksOnly(s, t, mac);
  }

  lemma StepKeepsInvariant(s: System, mac: string -> Digest, e: Event)
    requires Invariant(s, mac) && WellFormed(e)
    ensures Invariant(Step(s, mac, e), mac) && Evolves(s.db, Step(s, mac, e).db)
  {
    hide Invariant, Evolves;
    match e
    case Restart(ai, search, fetch) => RestartStep(s, mac, ai, search, fetch);
    case CreateApplication(id, name, clientId) => CreateStep(s, mac, id, name, clientId);
    case BeginUpdate(_, _, _, _) => BeginStep(s, mac, e);
    case BeginIssue(_, _) => BeginStep(s, mac, e);
    case RevokeCredential(id) => RevokeStep(s, mac, id);
    case Finish(h, _, _, _) =>
      if h in s.tasks {
        FinishStep(s, mac, e);
      } else {
        EvolvesReflexive(s.db);
      }
  }

  lemma EvolvesReflexive(db: Db)
    ensures Evolves(db, db)
  {
  }

  /** From any state that satisfies the invariant, every run keeps it and only evolves the tables. */
  lemma {:induction false} RunKeepsInvariant(s: System, mac: string -> Digest, es: seq<Event>)
    requires Invariant(s, mac) && forall e | e in es :: WellFormed(e)
    ensures Invariant(Run(s, mac, es), mac) && Evolves(s.db, Run(s, mac, es).db)
  {
    if es != [] {
      var front, e := es[..|es| - 1], es[|es| - 1];
      RunKeepsInvariant(s, mac, front);
      var m := Run(s, mac, front);
      assert e in es;
      StepKeepsInvariant(m, mac, e);
      EvolvesTransitive(s.db, m.db, Run(s, mac, es).db);
    }
  }

  lemma StartInvariant(s: System, mac: string -> Digest)
    requires Start(s)
    ensures Invariant(s, mac)
  {
    var ai, search, fetch :| ai >= 1 && search >= 1 && fetch >= 1 && Bootstrap(EMPTY, ai, search, fetch) == Ok(s.db);
    FirstBootstrap(ai, search, fetch);
  }

  // ---------------------------------------------------------------- what the runs guarantee

  /** Quota rows are never deleted, the protected application stays reserved with no capability and no
      credential, and revocations stay, between any two points of any run from the first start on. */
  lemma RunsGuarantee(start: System, mac: string -> Digest, before: seq<Event>, after: seq<Event>)
    requires Start(start) && forall e | e in before + after :: WellFormed(e)
    ensures var s := Run(start, mac, before); var t := Run(s, mac, after);
      && Invariant(s, mac) && Invariant(t, mac) && Evolves(s.db, t.db)
  {
    StartInvariant(start, mac);
    assert forall e | e in before :: e in before + after;
    assert forall e | e in after :: e in before + after;
    RunKeepsInvariant(start, mac, before);
    RunKeepsInvariant(Run(start, mac, before), mac, after);
  }

  /** update_application reads the application before its transaction. For a handler past its guard nothing
      can happen in between that would change what that read found, so the step that Finish takes may make
      both at once. */
  lemma PriorReadStands(s: System, mac: string -> Digest, between: seq<Event>, h: nat)
    requires Invariant(s, mac) && h in s.tasks && forall e | e in between :: WellFormed(e)
    ensures var t, id := Run(s, mac, between).db, s.tasks[h].id;
      && id in s.db.apps && !s.db.apps[id].guarded
      && id in t.apps && !t.apps[id].guarded && t.apps[id].clientId == s.db.apps[id].clientId
  {
    hide Run;
    RunKeepsInvariant(s, mac, between);
  }

  /** How many revoke calls on one id returned true. */
  function Winners(wins: seq<string>, id: string): nat {
    if wins == [] then 0
    else Winners(wins[..|wins| - 1], id) + if wins[|wins| - 1] == id then 1 else 0
  }

  lemma {:induction false} WinnersCount(wins: seq<string>, id: string)
    requires forall i, j | 0 <= i < j < |wins| :: wins[i] != wins[j]
    ensures Winners(wins, id) == if id in wins then 1 else 0
  {
    if wins != [] {
      WinnersCount(wins[..|wins| - 1], id);
      assert wins == wins[..|wins| - 1] + [wins[|wins| - 1]];
    }
  }

  /** Over any run, however the calls interleave: a credential has been revoked exactly when exactly one
      revoke call on it returned true; otherwise none did. */
  lemma RevocationHasOneWinner(start: System, mac: string -> Digest, es: seq<Event>, id: string)
    requires Start(start) && forall e | e in es :: WellFormed(e)
    ensures var t := Run(start, mac, es);
      Winners(t.wins, id) == if id in t.db.creds && t.db.creds[id].revoked then 1 else 0
  {
    StartInvariant(start, mac);
    RunKeepsInvariant(start, mac, es);
    WinnersCount(Run(start, mac, es).wins, id);
  }

  lemma RunOf3(s: System, mac: string -> Digest, a: Event, b: Event, c: Event)
    ensures Run(s, mac, [a, b, c]) == Step(Step(Step(s, mac, a), mac, b), mac, c)
  {
    hide Step;
    assert [a, b, c][..2] == [a, b] && [a, b][..1] == [a] && [a][..0] == [];
    assert Run(s, mac, [a]) == Step(s, mac, a);
    assert Run(s, mac, [a, b]) == Step(Run(s, mac, [a]), mac, b);
  }

  lemma GgIsOpen(start: System)
    requires Start(start)
    ensures GG in start.db.apps && !start.db.apps[GG].guarded
  {
    hide InsertOrIgnoreApp;
    FirstApplications();
  }

  lemma TakeAll(start: System, mac: string -> Digest, take: Event, last: Event)
    requires Start(start) && last.Finish? && last.h == 0
    requires take == BeginUpdate(0, GG, Payload("n", Disabled, {}, map[]), false)
    ensures var db := Step(Step(start, mac, take), mac, last).db;
      Consistent(db) && GG in db.apps && CLAUDIAO in db.apps && (GG, "ai") !in db.caps
  {
    hide Consistent, Start;
    StartInvariant(start, mac);
    GgIsOpen(start);
    UpdateKeeps(start.db, GG, "n", Disabled, {}, map[]);
    assert UpdateGuard(start.db, GG, take.payload, false) == Proceed;
    assert Step(Step(start, mac, take), mac, last).db == Update(start.db, GG, "n", Disabled, {}, map[]);
  }

  /** A restart that is not neutral is reachable: take the capabilities away from gg_oferta, start again. */
  lemma RestartRestores(start: System, mac: string -> Digest, last: Event)
    requires Start(start) && last.Finish? && last.h == 0
    ensures var take := BeginUpdate(0, GG, Payload("n", Disabled, {}, map[]), false);
      && (GG, "ai") !in Step(Step(start, mac, take), mac, last).db.caps
      && (GG, "ai") in Run(start, mac, [take, last, Restart(1, 1, 1)]).db.caps
  {
    hide Start, Bootstrap, Consistent;
    var take := BeginUpdate(0, GG, Payload("n", Disabled, {}, map[]), false);
    StartInvariant(start, mac);
    RunOf3(start, mac, take, last, Restart(1, 1, 1));
    TakeAll(start, mac, take, last);
    LaterBootstrap(Step(Step(start, mac, take), mac, last).db, 1, 1, 1);
  }
}
