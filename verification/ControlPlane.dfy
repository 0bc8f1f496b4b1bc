/** The Control Plane tables: applications, capabilities, quota policies and credentials. Each store
    method is one transaction; an exception rolls it back. */
module ControlPlane {
  import opened Common
  import opened Keys
  import opened Text

  datatype AppState = Active | Disabled | Reserved

  datatype App = App(displayName: string, clientId: string, state: AppState, guarded: bool)

  datatype Credential = Credential(application: string, name: string, mac: Digest, revoked: bool)

  datatype Db = Db(
    apps: map<string, App>,
    caps: set<(string, string)>,
    quotas: map<(string, string), int>,
    creds: map<string, Credential>)

  const EMPTY := Db(map[], {}, map[], map[])

  datatype Error = KeyError | PermissionError | IntegrityError

  const GG: string := "gg_oferta"
  const CLAUDIAO: string := "claudiao"

  // ---------------------------------------------------------------- transactions as functions

  predicate ClientIdTaken(db: Db, clientId: string) {
    exists id | id in db.apps :: db.apps[id].clientId == clientId
  }

  function CreateApp(db: Db, id: string, name: string, clientId: string): Result<Db, Error> {
    if id in db.apps || ClientIdTaken(db, clientId) then Err(IntegrityError)
    else Ok(db.(apps := db.apps[id := App(name, clientId, Disabled, false)]))
  }

  /** INSERT OR IGNORE INTO applications: a taken id or client id leaves the table alone. */
  function InsertOrIgnoreApp(db: Db, id: string, app: App): Db {
    if id in db.apps || ClientIdTaken(db, app.clientId) then db
    else db.(apps := db.apps[id := app])
  }

  /** Both INSERT OR IGNORE statements of one capability; the quota row's CHECK ignores a limit below 1. */
  function EnsureCapability(db: Db, id: string, capability: string, limit: int): Db {
    var key := (id, capability);
    db.(caps := db.caps + {key},
        quotas := if key in db.quotas || limit < 1 then db.quotas else db.quotas[key := limit])
  }

  function Bootstrap(db: Db, ai: int, search: int, fetch: int): Result<Db, Error> {
    var a := InsertOrIgnoreApp(db, GG, App("GG Oferta", "ggoferta-core-client", Active, false));
    var b := InsertOrIgnoreApp(a, CLAUDIAO, App("Claudião", "claudiao-core-client", Reserved, true));
    if GG !in b.apps then Err(IntegrityError)
    else
      var c := EnsureCapability(EnsureCapability(b, GG, "ai", ai), GG, "search", search);
      Ok(EnsureCapability(c, GG, "fetch", fetch))
  }

  /** Every capability is known and comes with a limit of at least 1. */
  predicate GoodPolicies(capabilities: set<string>, limits: map<string, int>) {
    forall c | c in capabilities :: c in CAPABILITIES && c in limits && limits[c] >= 1
  }

  /** What writing one capability raises: its row is checked first, then its limit is looked up, then
      the limit is checked. */
  function Fault(c: string, limits: map<string, int>): Option<Error> {
    if c !in CAPABILITIES then Some(IntegrityError)
    else if c !in limits then Some(KeyError)
    else if limits[c] < 1 then Some(IntegrityError)
    else None
  }

  /** The exception comes from the first faulty capability in the order of the text. */
  ghost predicate FirstFault(capabilities: set<string>, limits: map<string, int>, e: Error) {
    exists c :: c in capabilities && Fault(c, limits) == Some(e) &&
      forall d | d in capabilities :: d == c || LexLess(c, d) || Fault(d, limits).None?
  }

  function Rows(id: string, capabilities: set<string>): (r: set<(string, string)>)
    ensures forall p :: p in r <==> p.0 == id && p.1 in capabilities
  {
    set c | c in capabilities :: (id, c)
  }

  function CapsWithout(caps: set<(string, string)>, id: string): set<(string, string)> {
    set p | p in caps && p.0 != id
  }

  function QuotasWith(quotas: map<(string, string), int>, id: string, capabilities: set<string>,
                      limits: map<string, int>): map<(string, string), int>
    requires capabilities <= limits.Keys
  {
    map p | p in quotas.Keys + Rows(id, capabilities) :: if p in Rows(id, capabilities) then limits[p.1] else quotas[p]
  }

  function Updated(db: Db, id: string, name: string, state: AppState, capabilities: set<string>,
                   limits: map<string, int>): Db
    requires id in db.apps && capabilities <= limits.Keys
  {
    Db(db.apps[id := db.apps[id].(displayName := name, state := state)],
       CapsWithout(db.caps, id) + Rows(id, capabilities),
       QuotasWith(db.quotas, id, capabilities, limits),
       db.creds)
  }

  lemma GoodMeansFaultless(capabilities: set<string>, limits: map<string, int>)
    ensures GoodPolicies(capabilities, limits) <==> forall c | c in capabilities :: Fault(c, limits).None?
    ensures GoodPolicies(capabilities, limits) ==> capabilities <= limits.Keys
  {
  }

  lemma FirstFaultFound(capabilities: set<string>, limits: map<string, int>, done: set<string>, c: string, e: Error)
    requires c in capabilities && Fault(c, limits) == Some(e)
    requires forall d | d in capabilities :: d in done || d == c || LexLess(c, d)
    requires forall d | d in done :: Fault(d, limits).None?
    ensures FirstFault(capabilities, limits, e) && !GoodPolicies(capabilities, limits)
  {
    GoodMeansFaultless(capabilities, limits);
  }

  lemma NoMoreQuotas(quotas: map<(string, string), int>, id: string, limits: map<string, int>)
    ensures QuotasWith(quotas, id, {}, limits) == quotas
  {
  }

  lemma OneMoreQuota(quotas: map<(string, string), int>, id: string, done: set<string>, c: string,
                     limits: map<string, int>)
    requires done + {c} <= limits.Keys
    ensures QuotasWith(quotas, id, done + {c}, limits) == QuotasWith(quotas, id, done, limits)[(id, c) := limits[c]]
  {
    hide Rows;
    var u, v := QuotasWith(quotas, id, done, limits), QuotasWith(quotas, id, done + {c}, limits);
    assert v.Keys == u.Keys + {(id, c)};
  }

  function Update(db: Db, id: string, name: string, state: AppState, capabilities: set<string>,
                  limits: map<string, int>): Db {
    if id !in db.apps || db.apps[id].guarded || !GoodPolicies(capabilities, limits) then db
    else Updated(db, id, name, state, capabilities, limits)
  }

  /** INSERT INTO api_credentials: unique id, existing application. */
  function InsertCredential(db: Db, id: string, application: string, name: string, mac: Digest): Result<Db, Error> {
    if id in db.creds || application !in db.apps then Err(IntegrityError)
    else Ok(db.(creds := db.creds[id := Credential(application, name, mac, false)]))
  }

  predicate LiveCredential(db: Db, id: string) { id in db.creds && !db.creds[id].revoked }

  function Revoke(db: Db, id: string): (Db, bool) {
    if LiveCredential(db, id) then (db.(creds := db.creds[id := db.creds[id].(revoked := true)]), true)
    else (db, false)
  }

  function CredentialDigest(db: Db, id: string): Option<(string, Digest)> {
    if LiveCredential(db, id) then Some((db.creds[id].application, db.creds[id].mac)) else None
  }

  function GetQuota(db: Db, id: string, capability: string): Option<int> {
    if (id, capability) in db.quotas then Some(db.quotas[(id, capability)]) else None
  }

  function ActiveCredentials(db: Db, application: string): nat {
    |set id | id in db.creds && db.creds[id].application == application && !db.creds[id].revoked|
  }

  // ---------------------------------------------------------------- every table, row by row

  /** An update either changes nothing or replaces name, state, capabilities and the limits of those. */
  lemma UpdateExactly(db: Db, id: string, name: string, state: AppState, capabilities: set<string>,
                      limits: map<string, int>)
    ensures var t := Update(db, id, name, state, capabilities, limits);
      var ok := id in db.apps && !db.apps[id].guarded &&
                forall c | c in capabilities :: (c == "ai" || c == "search" || c == "fetch") && c in limits
                    && limits[c] >= 1;
      && (!ok ==> t == db)
      && (ok ==>
            && t.apps.Keys == db.apps.Keys && t.creds == db.creds
            && t.apps[id] == App(name, db.apps[id].clientId, state, false)
            && (forall a | a in db.apps && a != id :: t.apps[a] == db.apps[a])
            && (forall a, c :: (a, c) in t.caps <==> if a == id then c in capabilities else (a, c) in db.caps)
            && (forall a, c :: (a, c) in t.quotas <==> (a, c) in db.quotas || (a == id && c in capabilities))
            && (forall a, c | (a, c) in t.quotas ::
                  t.quotas[(a, c)] == if a == id && c in capabilities then limits[c] else db.quotas[(a, c)]))
  {
  }

  /** A start on tables that have gg_oferta and claudiao: what is there stays, a missing capability row is
      added, and a missing limit if it is at least 1. */
  lemma BootstrapExactly(db: Db, ai: int, search: int, fetch: int)
    requires "gg_oferta" in db.apps && "claudiao" in db.apps
    ensures var r := Bootstrap(db, ai, search, fetch);
      var limits := map["ai" := ai, "search" := search, "fetch" := fetch];
      && r.Ok? && r.value.apps == db.apps && r.value.creds == db.creds
      && (forall a, c :: (a, c) in r.value.caps <==> (a, c) in db.caps || (a == "gg_oferta" && c in limits))
      && (forall a, c :: (a, c) in r.value.quotas <==>
            (a, c) in db.quotas || (a == "gg_oferta" && c in limits && limits[c] >= 1))
      && (forall a, c | (a, c) in r.value.quotas ::
            r.value.quotas[(a, c)] == if (a, c) in db.quotas then db.quotas[(a, c)] else limits[c])
  {
  }

  /** The inserts and the revocation: the row that is new or changed, and no other. */
  lemma InsertsExactly(db: Db, id: string, application: string, name: string, clientId: string, mac: Digest)
    ensures CreateApp(db, id, name, clientId) ==
            if id in db.apps || exists a :: a in db.apps && db.apps[a].clientId == clientId then Err(IntegrityError)
            else Ok(Db(db.apps[id := App(name, clientId, Disabled, false)], db.caps, db.quotas, db.creds))
    ensures InsertCredential(db, id, application, name, mac) ==
            if id in db.creds || application !in db.apps then Err(IntegrityError)
            else Ok(Db(db.apps, db.caps, db.quotas, db.creds[id := Credential(application, name, mac, false)]))
    ensures Revoke(db, id) ==
            if id in db.creds && !db.creds[id].revoked
            then (Db(db.apps, db.caps, db.quotas,
                     db.creds[id := Credential(db.creds[id].application, db.creds[id].name, db.creds[id].mac, true)]),
                         true)
            else (db, false)
  {
  }

  // ---------------------------------------------------------------- the store

  class ControlPlaneStore {
    var db: Db

    constructor ()
      ensures db == EMPTY
    {
      db := EMPTY;
    }

    method InsertOrIgnoreApplication(id: string, app: App)
      modifies this
      ensures db == InsertOrIgnoreApp(old(db), id, app)
    {
      if id !in db.apps && !(exists other | other in db.apps :: db.apps[other].clientId == app.clientId) {
        db := db.(apps := db.apps[id := app]);
      }
    }

    method BootstrapStore(ai: int, search: int, fetch: int) returns (r: Result<bool, Error>)
      modifies this
      ensures match Bootstrap(old(db), ai, search, fetch)
        case Ok(after) => r.Ok? && db == after
        case Err(e) => r == Err(e) && db == old(db)
    {
      var saved := db;
      InsertOrIgnoreApplication(GG, App("GG Oferta", "ggoferta-core-client", Active, false));
      InsertOrIgnoreApplication(CLAUDIAO, App("Claudião", "claudiao-core-client", Reserved, true));
      if GG !in db.apps {
        db := saved;
        return Err(IntegrityError);
      }
      var rows := [("ai", ai), ("search", search), ("fetch", fetch)];
      ghost var b := db;
      for i := 0 to |rows|
        invariant i == 0 ==> db == b
        invariant i == 1 ==> db == EnsureCapability(b, GG, "ai", ai)
        invariant i == 2 ==> db == EnsureCapability(EnsureCapability(b, GG, "ai", ai), GG, "search", search)
        invariant i == 3 ==>
                    db == EnsureCapability(EnsureCapability(EnsureCapability(b, GG, "ai", ai), GG, "search", search),
                                           GG, "fetch", fetch)
      {
        var key, limit := (GG, rows[i].0), rows[i].1;
        db := db.(caps := db.caps + {key});
        if key !in db.quotas && limit >= 1 {
          db := db.(quotas := db.quotas[key := limit]);
        }
      }
      r := Ok(true);
    }

    /** One capability's two statements. An exception in the second leaves the first one's row. */
    method WritePolicy(id: string, c: string, limits: map<string, int>) returns (r: Result<bool, Error>)
      modifies this
      ensures db.apps == old(db).apps && db.creds == old(db).creds
      ensures match Fault(c, limits)
        case Some(e) => r == Err(e)
        case None => r.Ok? && db.caps == old(db).caps + {(id, c)} && db.quotas == old(db).quotas[(id, c) := limits[c]]
    {
      if c !in CAPABILITIES {
        return Err(IntegrityError);
      }
      db := db.(caps := db.caps + {(id, c)});
      if c !in limits {
        return Err(KeyError);
      }
      if limits[c] < 1 {
        return Err(IntegrityError);
      }
      db := db.(quotas := db.quotas[(id, c) := limits[c]]);
      r := Ok(true);
    }

    /** The loop over the sorted capabilities, inside the transaction. On an exception the tables are left
        half written. */
    method WritePolicies(id: string, capabilities: set<string>, limits: map<string, int>)
      returns (r: Result<bool, Error>)
      modifies this
      ensures r.Ok? <==> GoodPolicies(capabilities, limits)
      ensures r.Ok? ==> db == old(db).(caps := old(db).caps + Rows(id, capabilities),
                                       quotas := QuotasWith(old(db).quotas, id, capabilities, limits))
      ensures r.Err? ==> FirstFault(capabilities, limits, r.error)
    {
      hide QuotasWith, Fault, GoodPolicies, LexLess, FirstFault;
      ghost var start := db;
      var todo, done := capabilities, {};
      GoodMeansFaultless(done, limits);
      NoMoreQuotas(start.quotas, id, limits);
      while todo != {}
        invariant todo !! done && todo + done == capabilities
        invariant GoodPolicies(done, limits) && done <= limits.Keys
        invariant forall d | d in done :: Fault(d, limits).None?
        invariant db.apps == start.apps && db.creds == start.creds
        invariant db.caps == start.caps + Rows(id, done)
        invariant db.quotas == QuotasWith(start.quotas, id, done, limits)
        decreases |todo|
      {
        Least(todo);
        var c :| c in todo && forall d | d in todo :: d == c || LexLess(c, d);
        r := WritePolicy(id, c, limits);
        if r.Err? {
          FirstFaultFound(capabilities, limits, done, c, r.error);
          return;
        }
        GoodMeansFaultless(done + {c}, limits);
        OneMoreQuota(start.quotas, id, done, c, limits);
        todo, done := todo - {c}, done + {c};
      }
      assert done == capabilities;
      r := Ok(true);
    }

    /** The first exception restores every table. */
    method UpdateApplication(id: string, name: string, state: AppState, capabilities: set<string>,
                             limits: map<string, int>)
      returns (r: Result<bool, Error>)
      modifies this
      ensures db == Update(old(db), id, name, state, capabilities, limits)
      ensures r.Ok? <==> id in old(db).apps && !old(db).apps[id].guarded && GoodPolicies(capabilities, limits)
      ensures r.Err? ==> db == old(db)
      ensures id !in old(db).apps ==> r == Err(KeyError)
      ensures id in old(db).apps ==> (r == Err(PermissionError) <==> old(db).apps[id].guarded)
      ensures r.Err? && id in old(db).apps && !old(db).apps[id].guarded ==> FirstFault(capabilities, limits, r.error)
    {
      if id !in db.apps {
        return Err(KeyError);
      }
      if db.apps[id].guarded {
        return Err(PermissionError);
      }
      var saved := db;
      db := db.(apps := db.apps[id := db.apps[id].(displayName := name, state := state)],
                caps := CapsWithout(db.caps, id));
      r := WritePolicies(id, capabilities, limits);
      if r.Err? {
        db := saved;
      }
    }

    method CreateApplication(id: string, name: string, clientId: string) returns (r: Result<bool, Error>)
      modifies this
      ensures match CreateApp(old(db), id, name, clientId)
        case Ok(after) => r.Ok? && db == after
        case Err(e) => r == Err(e) && db == old(db)
    {
      if id in db.apps || (exists other | other in db.apps :: db.apps[other].clientId == clientId) {
        return Err(IntegrityError);
      }
      db := db.(apps := db.apps[id := App(name, clientId, Disabled, false)]);
      r := Ok(true);
    }

    method InsertCredentialRow(id: string, application: string, name: string, mac: Digest)
      returns (r: Result<bool, Error>)
      modifies this
      ensures match InsertCredential(old(db), id, application, name, mac)
        case Ok(after) => r.Ok? && db == after
        case Err(e) => r == Err(e) && db == old(db)
    {
      if id in db.creds || application !in db.apps {
        return Err(IntegrityError);
      }
      db := db.(creds := db.creds[id := Credential(application, name, mac, false)]);
      r := Ok(true);
    }

    method RevokeCredential(id: string) returns (won: bool)
      modifies this
      ensures (db, won) == Revoke(old(db), id)
    {
      won := id in db.creds && !db.creds[id].revoked;
      if won {
        db := db.(creds := db.creds[id := db.creds[id].(revoked := true)]);
      }
    }
  }
}
