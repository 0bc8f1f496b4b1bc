/** Authenticating a Bearer credential, authorizing a capability and consuming quota, against the
    administration's runs. The reads of one request are separate transactions: other work may happen
    between them. */
module Authentication {
  import opened Common
  import opened Text
  import opened Keys
  import opened ControlPlane
  import AdminRuns
  import Quota
  import Redis
  import Tokens = CredentialTokens

  /** gg_oferta's key file: not configured, missing, empty or unreadable, or holding a stripped secret. */
  datatype LegacyFile = NoPath | BadFile | Secret(secret: string)

  /** `pepperIsFile`: the pepper path names a file; `pepperUsable`: it can be read and has 32 bytes. */
  datatype Env = Env(legacy: LegacyFile, pepperIsFile: bool, pepperUsable: bool)

  datatype Result = Authenticated(application: string) | NotConfigured | InvalidCredential | AccessDenied
    | UnknownApplication

  function Registered(db: Db, id: string): Result {
    if id !in db.apps then UnknownApplication
    else if db.apps[id].state != Active then AccessDenied
    else Authenticated(id)
  }

  /** The credential is read in `first`, the registry in `second`. */
  function AuthenticateDynamic(env: Env, mac: string -> Digest, id: string, secret: string, first: Db,
                               second: Db): Result {
    if !env.pepperUsable then NotConfigured
    else match CredentialDigest(first, id)
      case None => InvalidCredential
      case Some((application, stored)) =>
        if mac(Tokens.Message(id, secret)) != stored then InvalidCredential else Registered(second, application)
  }

  function AuthenticateLegacy(env: Env, candidate: string, second: Db): Result {
    match env.legacy
    case NoPath => InvalidCredential
    case BadFile => NotConfigured
    case Secret(secret) => if candidate != secret then InvalidCredential else Registered(second, GG)
  }

  /** "Bearer " followed by a value, stripped. */
  function Candidate(header: Option<string>): Option<string> {
    if header.None? || !("Bearer " <= header.value) then None
    else
      var c := Strip(header.value[7..]);
      if c == "" then None else Some(c)
  }

  function Authenticate(env: Env, mac: string -> Digest, header: Option<string>, first: Db, second: Db): Result {
    if !env.legacy.Secret? && !env.pepperIsFile then NotConfigured
    else match Candidate(header)
      case None => InvalidCredential
      case Some(candidate) =>
        match Tokens.Parse(candidate)
        case Some((id, secret)) => AuthenticateDynamic(env, mac, id, secret, first, second)
        case None => AuthenticateLegacy(env, candidate, second)
  }

  // ---------------------------------------------------------------- every answer

  /** Text stands between white space in the header, after "Bearer ". */
  ghost predicate Bears(header: Option<string>, candidate: string) {
    exists a, b :: AllSpace(a) && AllSpace(b) && Trimmed(candidate) && header == Some("Bearer " + a + candidate + b)
  }

  lemma CandidateExactly(header: Option<string>, candidate: string)
    ensures Candidate(header) == Some(candidate) <==> Bears(header, candidate)
  {
    hide Strip, IsSpace;
    if Candidate(header) == Some(candidate) {
      CandidateBears(header, candidate);
    }
    if Bears(header, candidate) {
      var a, b :| AllSpace(a) && AllSpace(b) && Trimmed(candidate) && header == Some("Bearer " + a + candidate + b);
      assert header.value[7..] == a + candidate + b;
      StripFinds(a, candidate, b);
    }
  }

  lemma CandidateBears(header: Option<string>, candidate: string)
    requires Candidate(header) == Some(candidate)
    ensures Bears(header, candidate)
  {
    hide Strip, IsSpace;
    var s := header.value[7..];
    var i, j := StripMeans(s);
    var a, b := s[..i], s[j..];
    assert s == a + candidate + b;
    assert header.value == "Bearer " + s;
    assert "Bearer " + (a + candidate + b) == "Bearer " + a + candidate + b;
    assert AllSpace(a) && AllSpace(b) && Trimmed(candidate);
  }

  /** What is asked of the registry for an application whose credential is good. */
  predicate RegistryAnswers(db: Db, id: string, r: Result) {
    && (r == Authenticated(id) <==> id in db.apps && db.apps[id].state == Active)
    && (r == AccessDenied <==> id in db.apps && db.apps[id].state != Active)
    && (r == UnknownApplication <==> id !in db.apps)
  }

  /** A candidate that is no token, whatever the header: gg_oferta's file secret, and nothing else, counts. */
  lemma FileSecretExactly(env: Env, mac: string -> Digest, header: Option<string>, first: Db, second: Db)
    requires Candidate(header).Some? && Tokens.Parse(Candidate(header).value).None?
    ensures var r, known := Authenticate(env, mac, header, first, second), env.legacy ==
              Secret(Candidate(header).value);
      && (known ==> RegistryAnswers(second, "gg_oferta", r))
      && (!known && env.legacy == BadFile ==> r == NotConfigured)
      && (!known && env.legacy == NoPath ==> r == if env.pepperIsFile then InvalidCredential else NotConfigured)
      && (!known && env.legacy.Secret? ==> r == InvalidCredential)
  {
  }

  /** A candidate that is a token: its credential must be stored and not revoked, with the MAC of the token
      without its prefix, and then the registry answers for its application. */
  lemma TokenExactly(env: Env, mac: string -> Digest, header: Option<string>, first: Db, second: Db)
    requires Candidate(header).Some? && Tokens.Parse(Candidate(header).value).Some?
    ensures var r, id := Authenticate(env, mac, header, first, second), Tokens.Parse(Candidate(header).value).value.0;
      var stored := id in first.creds && !first.creds[id].revoked
          && first.creds[id].mac == mac(Candidate(header).value[3..]);
      && (r == NotConfigured <==> !env.pepperUsable || (!env.legacy.Secret? && !env.pepperIsFile))
      && (r != NotConfigured && stored ==> RegistryAnswers(second, first.creds[id].application, r))
      && (r != NotConfigured && !stored ==> r == InvalidCredential)
  {
    Tokens.ParsedPrints(Candidate(header).value);
  }

  /** No candidate. */
  lemma NoCandidateExactly(env: Env, mac: string -> Digest, header: Option<string>, first: Db, second: Db)
    requires Candidate(header).None?
    ensures Authenticate(env, mac, header, first, second) ==
            if env.legacy.Secret? || env.pepperIsFile then InvalidCredential else NotConfigured
  {
  }

  ghost predicate Injective(mac: string -> Digest) {
    forall m, n :: mac(m) == mac(n) ==> m == n
  }

  /** The candidate is the token that was issued for this live credential. */
  ghost predicate IsLiveToken(s: AdminRuns.System, id: string, candidate: string) {
    LiveCredential(s.db, id) && id in s.issued && candidate == Tokens.Print(id, s.issued[id])
  }

  lemma AcceptedIsIssued(s: AdminRuns.System, mac: string -> Digest, env: Env, id: string, secret: string, second: Db)
    requires AdminRuns.Issued(s, mac) && Injective(mac)
    requires AuthenticateDynamic(env, mac, id, secret, s.db, second).Authenticated?
    ensures IsLiveToken(s, id, Tokens.Print(id, secret))
    ensures AuthenticateDynamic(env, mac, id, secret, s.db, second) == Authenticated(s.db.creds[id].application)
  {
    assert Tokens.Message(id, secret) == Tokens.Message(id, s.issued[id]);
  }

  /** If the MAC separates messages, an accepted credential is gg_oferta's file secret, or literally a
      token that was issued for a credential that was live when it was looked up, and whose application
      was active when the registry was read. */
  lemma AcceptedTokenWasIssued(start: AdminRuns.System, mac: string -> Digest, before: seq<AdminRuns.Event>,
                               between: seq<AdminRuns.Event>,
                               env: Env, header: Option<string>, application: string)
    requires AdminRuns.Start(start) && forall e | e in before + between :: AdminRuns.WellFormed(e)
    requires Injective(mac)
    requires var s := AdminRuns.Run(start, mac, before);
      Authenticate(env, mac, header, s.db, AdminRuns.Run(s, mac, between).db) == Authenticated(application)
    ensures var s := AdminRuns.Run(start, mac, before); var t := AdminRuns.Run(s, mac, between);
      && Candidate(header).Some? && application in t.db.apps && t.db.apps[application].state == Active
      && (|| (application == GG && env.legacy == Secret(Candidate(header).value))
          || (exists id :: IsLiveToken(s, id, Candidate(header).value) && s.db.creds[id].application == application))
  {
    hide Injective, Candidate, AdminRuns.Run, AdminRuns.Start, AdminRuns.Issued;
    AdminRuns.RunsGuarantee(start, mac, before, between);
    var s, candidate := AdminRuns.Run(start, mac, before), Candidate(header).value;
    if Tokens.Parse(candidate).Some? {
      var (id, secret) := Tokens.Parse(candidate).value;
      Tokens.ParsedPrints(candidate);
      AcceptedIsIssued(s, mac, env, id, secret, AdminRuns.Run(s, mac, between).db);
      assert IsLiveToken(s, id, candidate);
    }
  }

  lemma LiveTokenParses(s: AdminRuns.System, mac: string -> Digest, id: string, candidate: string)
    requires AdminRuns.Issued(s, mac) && IsLiveToken(s, id, candidate)
    ensures id in s.issued && id in s.db.creds
    ensures Tokens.Parse(candidate) == Some((id, s.issued[id])) && s.db.creds[id].mac == mac(candidate[3..])
  {
    Tokens.IssuedParses(id, s.issued[id]);
    Tokens.ParsedPrints(candidate);
  }

  /** Over every run: who is accepted, exactly. The candidate is gg_oferta's file secret and no token, or it is
      literally the token issued for a credential that is live when it is looked up; and the application is
      active when the registry is read. */
  lemma AcceptedExactly(start: AdminRuns.System, mac: string -> Digest, before: seq<AdminRuns.Event>,
                        between: seq<AdminRuns.Event>, env: Env, header: Option<string>, application: string)
    requires AdminRuns.Start(start) && forall e | e in before + between :: AdminRuns.WellFormed(e)
    requires Injective(mac)
    ensures var s := AdminRuns.Run(start, mac, before); var t := AdminRuns.Run(s, mac, between);
      Authenticate(env, mac, header, s.db, t.db) == Authenticated(application) <==>
        && (env.legacy.Secret? || env.pepperIsFile) && Candidate(header).Some?
        && application in t.db.apps && t.db.apps[application].state == Active
        && var candidate := Candidate(header).value;
           || (application == "gg_oferta" && env.legacy == Secret(candidate) && Tokens.Parse(candidate).None?)
           || (env.pepperUsable
               && exists id :: IsLiveToken(s, id, candidate) && s.db.creds[id].application == application)
  {
    hide Injective, Candidate, AdminRuns.Run, AdminRuns.Start, AdminRuns.Issued, Authenticate, Tokens.Parse,
        IsLiveToken;
    AdminRuns.RunsGuarantee(start, mac, before, between);
    var s := AdminRuns.Run(start, mac, before);
    var t := AdminRuns.Run(s, mac, between);
    if Candidate(header).None? {
      NoCandidateExactly(env, mac, header, s.db, t.db);
    } else {
      var candidate := Candidate(header).value;
      forall id | IsLiveToken(s, id, candidate)
        ensures Tokens.Parse(candidate).Some? && Tokens.Parse(candidate).value.0 == id
      {
        LiveTokenParses(s, mac, id, candidate);
      }
      if Tokens.Parse(candidate).None? {
        FileSecretExactly(env, mac, header, s.db, t.db);
      } else {
        TokenExactly(env, mac, header, s.db, t.db);
        StoredIsLive(s, mac, candidate);
      }
    }
  }

  /** The MAC tells tokens apart: what is stored for the candidate's id fits it exactly when it is the token
      that was issued. */
  lemma StoredIsLive(s: AdminRuns.System, mac: string -> Digest, candidate: string)
    requires AdminRuns.Issued(s, mac) && Injective(mac) && Tokens.Parse(candidate).Some?
    ensures var id := Tokens.Parse(candidate).value.0;
      LiveCredential(s.db, id) && s.db.creds[id].mac == mac(candidate[3..]) <==> IsLiveToken(s, id, candidate)
  {
    var (id, secret) := Tokens.Parse(candidate).value;
    Tokens.ParsedPrints(candidate);
    if LiveCredential(s.db, id) {
      assert mac(Tokens.Message(id, s.issued[id])) == s.db.creds[id].mac;
      if mac(candidate[3..]) == s.db.creds[id].mac {
        assert Tokens.Message(id, s.issued[id]) == candidate[3..];
      }
      if IsLiveToken(s, id, candidate) {
        LiveTokenParses(s, mac, id, candidate);
      }
    }
  }

  lemma TokenIsCandidate(id: string, secret: string)
    requires Tokens.Issuable(id, secret)
    ensures Candidate(Some("Bearer " + Tokens.Print(id, secret))) == Some(Tokens.Print(id, secret))
    ensures Tokens.Parse(Tokens.Print(id, secret)) == Some((id, secret))
  {
    var token := Tokens.Print(id, secret);
    assert ("Bearer " + token)[7..] == token;
    assert token[0] == 'c' && token[|token| - 1] == secret[|secret| - 1];
    TrimmedStays(token);
    Tokens.IssuedParses(id, secret);
  }

  lemma TrimmedStays(s: string)
    requires Trimmed(s)
    ensures Strip(s) == s
  {
  }

  lemma LiveTokenFound(s: AdminRuns.System, mac: string -> Digest, env: Env, id: string, secret: string, second: Db)
    requires AdminRuns.Issued(s, mac) && IsLiveToken(s, id, Tokens.Print(id, secret)) && Tokens.Issuable(id, secret)
    requires env.pepperUsable
    ensures AuthenticateDynamic(env, mac, id, secret, s.db, second) == Registered(second, s.db.creds[id].application)
  {
    Tokens.IssuedParses(id, secret);
    Tokens.IssuedParses(id, s.issued[id]);
    assert s.issued[id] == secret;
  }

  /** Conversely an issued token of a live credential is accepted while its application is active. */
  lemma IssuedTokenAccepted(start: AdminRuns.System, mac: string -> Digest, before: seq<AdminRuns.Event>,
                            between: seq<AdminRuns.Event>,
                            env: Env, id: string, secret: string)
    requires AdminRuns.Start(start) && forall e | e in before + between :: AdminRuns.WellFormed(e)
    requires env.pepperIsFile && env.pepperUsable
    requires IsLiveToken(AdminRuns.Run(start, mac, before), id, Tokens.Print(id, secret)) && Tokens.Issuable(id, secret)
    ensures var s := AdminRuns.Run(start, mac, before); var t := AdminRuns.Run(s, mac, between);
      var owner := s.db.creds[id].application;
      && owner in t.db.apps
      && Authenticate(env, mac, Some("Bearer " + Tokens.Print(id, secret)), s.db, t.db) ==
           (if t.db.apps[owner].state == Active then Authenticated(owner) else AccessDenied)
  {
    hide AdminRuns.Run, AdminRuns.Start, AdminRuns.Issued, AdminRuns.OneWinner, Candidate, AuthenticateDynamic,
      Tokens.Print, Tokens.Parse, Tokens.Issuable;
    AdminRuns.RunsGuarantee(start, mac, before, between);
    var s := AdminRuns.Run(start, mac, before);
    TokenIsCandidate(id, secret);
    LiveTokenFound(s, mac, env, id, secret, AdminRuns.Run(s, mac, between).db);
  }

  /** After a revocation no run accepts the token again: looking it up always fails. */
  lemma RevokedNeverAccepted(start: AdminRuns.System, mac: string -> Digest, before: seq<AdminRuns.Event>,
                             later: seq<AdminRuns.Event>,
                             env: Env, header: Option<string>, id: string, secret: string, second: Db)
    requires AdminRuns.Start(start) && forall e | e in before + later :: AdminRuns.WellFormed(e)
    requires var s := AdminRuns.Run(start, mac, before);
      id in s.db.creds && s.db.creds[id].revoked && Tokens.Issuable(id, secret)
    requires Candidate(header) == Some(Tokens.Print(id, secret))
    ensures var t := AdminRuns.Run(AdminRuns.Run(start, mac, before), mac, later);
      !Authenticate(env, mac, header, t.db, second).Authenticated?
  {
    hide AdminRuns.Run, AdminRuns.Start, Candidate;
    AdminRuns.RunsGuarantee(start, mac, before, later);
    Tokens.IssuedParses(id, secret);
  }

  /** The protected application keeps no capability and no credential, stays reserved, and is never the
      result of authentication. */
  lemma ClaudiaoNeverAuthenticated(start: AdminRuns.System, mac: string -> Digest, before: seq<AdminRuns.Event>,
                                   between: seq<AdminRuns.Event>,
                                   env: Env, header: Option<string>)
    requires AdminRuns.Start(start) && forall e | e in before + between :: AdminRuns.WellFormed(e)
    ensures var s := AdminRuns.Run(start, mac, before); var t := AdminRuns.Run(s, mac, between);
      AdminRuns.ClaudiaoApart(t.db) && Authenticate(env, mac, header, s.db, t.db) != Authenticated(CLAUDIAO)
  {
    hide AdminRuns.Run, AdminRuns.Start, Candidate;
    AdminRuns.RunsGuarantee(start, mac, before, between);
  }

  // ---------------------------------------------------------------- authorization and quota

  /** allows_capability */
  predicate Allows(db: Db, id: string, capability: string) {
    id in db.apps && db.apps[id].state == Active && (id, capability) in db.caps
  }

  datatype Admission = CapabilityDenied | NoQuotaPolicy | Limited(outcome: Quota.Outcome)

  /** _authorized_context: the capability is read in `first`, the limit in `second`, then one unit is
      consumed from the shared quota. */
  function Admit(first: Db, second: Db, store: Redis.Store, namespace: string, id: string, capability: string,
                 windowMs: nat, fault: Quota.Fault): (Redis.Store, Admission) {
    if !Allows(first, id, capability) then (store, CapabilityDenied)
    else match GetQuota(second, id, capability)
      case None => (store, NoQuotaPolicy)
      case Some(limit) =>
        var (after, outcome) := Quota.Check(store, QuotaKey(namespace, id, capability), capability, limit, windowMs,
          fault);
        (after, Limited(outcome))
  }

  method AuthorizedContext(first: Db, second: Db, server: Redis.Server, limiter: Quota.QuotaLimiter,
                           namespace: string, id: string,
                           capability: string, fault: Quota.Fault) returns (a: Admission)
    modifies server
    ensures (server.View(), a) ==
            Admit(first, second, old(server.View()), namespace, id, capability, limiter.windowSeconds * 1000, fault)
  {
    if !(id in first.apps && first.apps[id].state == Active && (id, capability) in first.caps) {
      return CapabilityDenied;
    }
    if (id, capability) !in second.quotas {
      return NoQuotaPolicy;
    }
    var outcome := limiter.CheckQuota(server, namespace, id, capability, second.quotas[(id, capability)], fault);
    a := Limited(outcome);
  }

  /** An authorized request meets neither the "no quota policy" nor the "invalid quota policy" branch,
      whatever administrators do between its two reads; a denied one consumes nothing. */
  lemma AuthorizedHasPolicy(start: AdminRuns.System, mac: string -> Digest, before: seq<AdminRuns.Event>,
                            between: seq<AdminRuns.Event>,
                            store: Redis.Store, namespace: string, id: string, capability: string, windowMs: nat,
                            fault: Quota.Fault)
    requires AdminRuns.Start(start) && forall e | e in before + between :: AdminRuns.WellFormed(e)
    ensures var s := AdminRuns.Run(start, mac, before); var t := AdminRuns.Run(s, mac, between);
      var (after, a) := Admit(s.db, t.db, store, namespace, id, capability, windowMs, fault);
      && a != NoQuotaPolicy && a != Limited(Quota.InvalidPolicy)
      && (a == CapabilityDenied <==> !Allows(s.db, id, capability))
      && (a == CapabilityDenied ==> after == store)
  {
    hide AdminRuns.Run, AdminRuns.Start;
    AdminRuns.RunsGuarantee(start, mac, before, between);
  }

  /** On the tables and the counter alone: an authorized request is one of an active application with that
      capability; it passes exactly below the limit stored for the two, under its own counter; and whatever
      comes of it, no other counter changes. */
  lemma AdmitExactly(first: Db, second: Db, store: Redis.Store, namespace: string, id: string, capability: string,
                     windowMs: nat, fault: Quota.Fault)
    ensures var (after, a) := Admit(first, second, store, namespace, id, capability, windowMs, fault);
      var key, row := namespace + ":" + id + ":" + capability, (id, capability);
      var allowed := id in first.apps && first.apps[id].state == Active && row in first.caps;
      && (a == CapabilityDenied <==> !allowed)
      && (a == NoQuotaPolicy <==> allowed && row !in second.quotas)
      && (a == Limited(Quota.Passed) <==>
            && allowed && row in second.quotas && Quota.ValidPolicy(second.quotas[row], capability)
                 && fault == Quota.NoFault
            && (key in store.db ==>
                  Quota.Readable(store, key) && store.db[key].raw.Int? && store.db[key].raw.n < second.quotas[row]))
      && (a == Limited(Quota.Passed) ==>
            key in after.db && after.db[key].raw == Redis.Int(if key in store.db then store.db[key].raw.n + 1 else 1))
      && after.now == store.now && store.db.Keys <= after.db.Keys <= store.db.Keys + {key}
      && (forall k | k in store.db && k != key :: after.db[k] == store.db[k])
      && (!allowed || row !in second.quotas ==> after == store)
  {
    hide Quota.Check;
    var row := (id, capability);
    if row in second.quotas {
      Quota.AnswersExactly(store, QuotaKey(namespace, id, capability), capability, second.quotas[row], windowMs, fault);
      Quota.LeavesExactly(store, QuotaKey(namespace, id, capability), capability, second.quotas[row], windowMs, fault);
    }
  }
}
