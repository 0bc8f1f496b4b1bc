/** The shared fixed-window quota: the CONSUME script, QuotaLimiter.check, and every run of both. */
module Quota {
  import opened Common
  import opened Keys
  import opened Redis
  import FixedWindows

  datatype Reply = Reply(allowed: bool, ttl: int) | ScriptError

  /** What the CONSUME script does, as one atomic step. */
  function Consume(s: Store, key: string, limit: int, windowMs: nat): (Store, Reply) {
    if key !in s.db then (SetPx(s, key, 1, windowMs), Reply(true, windowMs))
    else
      var ttl := Pttl(s, key);
      match s.db[key].raw
      case Other => (s, ScriptError)
      case Int(n) =>
        if n < 1 || ttl < 0 then (s, ScriptError)
        else if n >= limit then (s, Reply(false, ttl))
        else (Incr(s, key).0, Reply(true, ttl))
      case LuaInt(n) =>
        // Lua can count with it, but the final INCR fails
        if 1 <= n && 0 <= ttl && n >= limit then (s, Reply(false, ttl)) else (s, ScriptError)
  }

  /** What can go wrong around one eval: nothing, a refusal before the script is sent (connection,
      secret file, persistence status), incompatible durability settings, or a lost reply. */
  datatype Fault = NoFault | NotSent | BadDurability | ReplyLost

  datatype Outcome = Passed | Exceeded(retryAfter: int) | Unavailable | Misconfigured | InvalidPolicy

  /** math.ceil(ttl / 1000) */
  function CeilSeconds(ttl: int): int {
    -(-(ttl as real) / 1000.0).Floor
  }

  function OutcomeOf(r: Reply): Outcome {
    match r
    case ScriptError => Unavailable
    case Reply(true, _) => Passed
    case Reply(false, ttl) => Exceeded(Max(1, CeilSeconds(ttl)))
  }

  /** QuotaLimiter.check, as seen by the store and by the caller. */
  function Check(s: Store, key: string, capability: string, limit: int, windowMs: nat, fault: Fault): (Store, Outcome) {
    if limit < 1 || capability !in CAPABILITIES then (s, InvalidPolicy)
    else match fault
      case NotSent => (s, Unavailable)
      case BadDurability => (s, Misconfigured)
      case ReplyLost => (Consume(s, key, limit, windowMs).0, Unavailable)
      case NoFault =>
        var (t, reply) := Consume(s, key, limit, windowMs);
        (t, OutcomeOf(reply))
  }

  /** The script, command by command. */
  method ConsumeScript(server: Server, key: string, limit: int, windowMs: nat) returns (reply: Reply)
    modifies server
    ensures (server.View(), reply) == Consume(old(server.View()), key, limit, windowMs)
  {
    var raw := server.Get(key);
    if raw.None? {
      server.CallSetPx(key, 1, windowMs);
      return Reply(true, windowMs);
    }
    var ttl := server.CallPttl(key);
    if raw.value.Other? || raw.value.n < 1 || ttl < 0 {
      return ScriptError;
    }
    if raw.value.n >= limit {
      return Reply(false, ttl);
    }
    var count := server.CallIncr(key);
    if count.None? {
      return ScriptError;
    }
    reply := Reply(true, ttl);
  }

  class QuotaLimiter {
    const windowSeconds: nat

    constructor (windowSeconds: int)
      requires windowSeconds >= 1
      ensures this.windowSeconds == windowSeconds
    {
      this.windowSeconds := windowSeconds;
    }

    method CheckQuota(server: Server, namespace: string, application: string, capability: string, limit: int,
                      fault: Fault)
      returns (outcome: Outcome)
      modifies server
      ensures (server.View(), outcome) ==
              Check(old(server.View()), QuotaKey(namespace, application, capability), capability, limit,
                windowSeconds * 1000, fault)
    {
      if limit < 1 || capability !in CAPABILITIES {
        return InvalidPolicy;
      }
      if fault.NotSent? {
        return Unavailable;
      }
      if fault.BadDurability? {
        return Misconfigured;
      }
      var reply := ConsumeScript(server, QuotaKey(namespace, application, capability), limit, windowSeconds * 1000);
      if fault.ReplyLost? || reply.ScriptError? {
        return Unavailable;
      }
      if !reply.allowed {
        return Exceeded(Max(1, CeilSeconds(reply.ttl)));
      }
      outcome := Passed;
    }
  }

  // ---------------------------------------------------------------- what a check answers

  /** A live counter that the script can read and compare: present, not past its deadline, at least 1. */
  predicate Readable(s: Store, key: string) {
    && key in s.db && !s.db[key].raw.Other? && s.db[key].raw.n >= 1
    && s.db[key].deadline.Some? && s.now <= s.db[key].deadline.value
  }

  predicate ValidPolicy(limit: int, capability: string) {
    limit >= 1 && (capability == "ai" || capability == "search" || capability == "fetch")
  }

  /** What each answer means, on the entry and the fault alone. */
  lemma AnswersExactly(s: Store, key: string, capability: string, limit: int, windowMs: nat, fault: Fault)
    ensures var outcome := Check(s, key, capability, limit, windowMs, fault).1;
      && (outcome == InvalidPolicy <==> !ValidPolicy(limit, capability))
      && (outcome == Misconfigured <==> ValidPolicy(limit, capability) && fault == BadDurability)
      && (outcome == Passed <==>
            && ValidPolicy(limit, capability) && fault == NoFault
            && (key in s.db ==> Readable(s, key) && s.db[key].raw.Int? && s.db[key].raw.n < limit))
      && (outcome.Exceeded? <==>
            ValidPolicy(limit, capability) && fault == NoFault && Readable(s, key) && limit <= s.db[key].raw.n)
      && (outcome.Exceeded? ==>
            var ttl := s.db[key].deadline.value - s.now;
            outcome.retryAfter == if ttl == 0 then 1 else (ttl + 999) / 1000)
  {
    hide CeilSeconds;
    if key in s.db && s.db[key].deadline.Some? && s.now <= s.db[key].deadline.value {
      CeilSecondsMeans(s.db[key].deadline.value - s.now);
    }
  }

  /** What each check leaves: a script that ran on a missing key starts a window of one, on a readable count
      below the limit adds one, and otherwise, like a check that sent nothing, changes nothing. Whether the
      reply arrives makes no difference. */
  lemma LeavesExactly(s: Store, key: string, capability: string, limit: int, windowMs: nat, fault: Fault)
    ensures var after := Check(s, key, capability, limit, windowMs, fault).0;
      var ran := ValidPolicy(limit, capability) && (fault == NoFault || fault == ReplyLost);
      if ran && key !in s.db then
        after == Store(s.now, s.db[key := Entry(Int(1), Some(s.now + windowMs))])
      else if ran && Readable(s, key) && s.db[key].raw.Int? && s.db[key].raw.n < limit then
        after == Store(s.now, s.db[key := Entry(Int(s.db[key].raw.n + 1), s.db[key].deadline)])
      else
        after == s
  {
  }

  // ---------------------------------------------------------------- runs

  /** One atomic step anywhere in the system. An order of these is an interleaving of any number of
      clients: a check touches the store in exactly one eval, whether or not its reply arrives. */
  datatype Event =
    | Tick(ms: nat)
    | EvictKey(key: string)
    | CheckAt(namespace: string, application: string, capability: string, limit: int, fault: Fault)
    | LoginIncr(namespace: string, subject: string)
    | LoginExpire(namespace: string, subject: string)

  ghost predicate WellFormed(e: Event) {
    match e
    case CheckAt(_, application, _, _, _) => ApplicationId(application)
    case LoginIncr(_, subject) => LoginSubject(subject)
    case LoginExpire(_, subject) => LoginSubject(subject)
    case _ => true
  }

  /** One budget: the counter under watch, and the window length of the limiters that use it. */
  datatype Budget = Budget(namespace: string, application: string, capability: string, windowMs: nat) {
    function Key(): string { QuotaKey(namespace, application, capability) }

    ghost predicate Valid() { ApplicationId(application) && capability in CAPABILITIES && windowMs >= 1 }

    predicate Hit(e: Event) {
      e.CheckAt? && e.namespace == namespace && e.application == application && e.capability == capability
    }
  }

  /** The log of one budget: an attempt is a check whose script ran. */
  datatype Attempt = Attempt(at: nat, limit: int, allowed: bool, outcome: Outcome, replyLost: bool)

  datatype Window = Window(start: nat, attempts: seq<Attempt>)

  datatype System = System(store: Store, windows: seq<Window>)

  function Reaches(e: Event): bool
    requires e.CheckAt?
  {
    e.limit >= 1 && e.capability in CAPABILITIES && (e.fault.NoFault? || e.fault.ReplyLost?)
  }

  function AttemptOf(sys: System, b: Budget, e: Event): Attempt
    requires e.CheckAt?
  {
    var reply := Consume(sys.store, b.Key(), e.limit, b.windowMs).1;
    Attempt(sys.store.now, e.limit, reply.Reply? && reply.allowed,
            Check(sys.store, b.Key(), e.capability, e.limit, b.windowMs, e.fault).1, e.fault.ReplyLost?)
  }

  /** A key that does not exist starts a new window; every other attempt joins the latest one. */
  function Log(sys: System, b: Budget, e: Event): seq<Window>
    requires e.CheckAt?
  {
    if !b.Hit(e) || !Reaches(e) then sys.windows
    else
      var a := AttemptOf(sys, b, e);
      if b.Key() !in sys.store.db || sys.windows == [] then sys.windows + [Window(sys.store.now, [a])]
      else
        var last := sys.windows[|sys.windows| - 1];
        sys.windows[|sys.windows| - 1 := Window(last.start, last.attempts + [a])]
  }

  function Step(sys: System, b: Budget, e: Event): System {
    match e
    case Tick(ms) => sys.(store := Advance(sys.store, ms))
    case EvictKey(key) => sys.(store := Evict(sys.store, key))
    case CheckAt(namespace, application, capability, limit, fault) =>
      System(Check(sys.store, QuotaKey(namespace, application, capability), capability, limit, b.windowMs, fault).0,
             Log(sys, b, e))
    case LoginIncr(namespace, subject) => sys.(store := Incr(sys.store, LoginKey(namespace, subject)).0)
    case LoginExpire(namespace, subject) => sys.(store := Expire(sys.store, LoginKey(namespace, subject), 60000))
  }

  function Run(sys: System, b: Budget, es: seq<Event>): System {
    if es == [] then sys else Step(Run(sys, b, es[..|es| - 1]), b, es[|es| - 1])
  }

  /** Any store in which the budget's counter does not exist yet. */
  ghost predicate Start(sys: System, b: Budget) {
    b.Valid() && Current(sys.store) && b.Key() !in sys.store.db && sys.windows == []
  }

  // ---------------------------------------------------------------- what the log of a window says

  function Admitted(attempts: seq<Attempt>): (n: nat)
    ensures n <= |attempts|
  {
    if attempts == [] then 0
    else Admitted(attempts[..|attempts| - 1]) + if attempts[|attempts| - 1].allowed then 1 else 0
  }

  /** Requests that check let through. */
  function Passes(attempts: seq<Attempt>): nat {
    if attempts == [] then 0
    else Passes(attempts[..|attempts| - 1]) + if attempts[|attempts| - 1].outcome.Passed? then 1 else 0
  }

  /** Admissions whose reply never arrived. */
  function Lost(attempts: seq<Attempt>): nat {
    if attempts == [] then 0
    else
      var a := attempts[|attempts| - 1];
      Lost(attempts[..|attempts| - 1]) + if a.allowed && a.replyLost then 1 else 0
  }

  function LargestLimit(attempts: seq<Attempt>): int
    requires attempts != []
  {
    var l := attempts[|attempts| - 1].limit;
    if |attempts| == 1 then l else Max(LargestLimit(attempts[..|attempts| - 1]), l)
  }

  function SmallestLimit(attempts: seq<Attempt>): int
    requires attempts != []
  {
    var l := attempts[|attempts| - 1].limit;
    if |attempts| == 1 then l else Min(SmallestLimit(attempts[..|attempts| - 1]), l)
  }

  function AdmissionTimes(attempts: seq<Attempt>): (ts: seq<int>)
    ensures |ts| == Admitted(attempts)
  {
    if attempts == [] then []
    else
      var a := attempts[|attempts| - 1];
      AdmissionTimes(attempts[..|attempts| - 1]) + if a.allowed then [a.at as int] else []
  }

  /** What holds of the log of every window, finished or not. */
  ghost predicate FairWindow(wd: Window, windowMs: nat, now: nat) {
    && wd.attempts != [] && Admitted(wd.attempts) >= 1
    && (forall a | a in wd.attempts :: wd.start <= a.at <= Min(now, wd.start + windowMs) && a.limit >= 1)
    && Passes(wd.attempts) + Lost(wd.attempts) == Admitted(wd.attempts)
    && Min(|wd.attempts|, SmallestLimit(wd.attempts)) <= Admitted(wd.attempts) <= LargestLimit(wd.attempts)
  }

  ghost predicate Invariant(sys: System, b: Budget) {
    && b.Valid()
    && Current(sys.store)
    && (forall i | 0 <= i < |sys.windows| :: FairWindow(sys.windows[i], b.windowMs, sys.store.now))
    && (forall i, j | 0 <= i < j < |sys.windows| :: sys.windows[i].start + b.windowMs <= sys.windows[j].start)
    && (if b.Key() in sys.store.db then
          && sys.windows != []
          && var last := sys.windows[|sys.windows| - 1];
          sys.store.db[b.Key()] == Entry(Int(Admitted(last.attempts)), Some(last.start + b.windowMs))
        else
          forall i | 0 <= i < |sys.windows| :: sys.windows[i].start + b.windowMs <= sys.store.now)
  }

  lemma FirstAttempt(a: Attempt, windowMs: nat)
    requires a.allowed && (a.outcome.Passed? <==> !a.replyLost) && a.limit >= 1
    ensures FairWindow(Window(a.at, [a]), windowMs, a.at)
    ensures Admitted([a]) == 1
  {
    assert [a][..0] == [];
  }

  lemma NextAttempt(wd: Window, a: Attempt, windowMs: nat, now: nat)
    requires FairWindow(wd, windowMs, now) && now == a.at <= wd.start + windowMs && a.limit >= 1
    requires a.allowed <==> Admitted(wd.attempts) < a.limit
    requires a.outcome.Passed? <==> a.allowed && !a.replyLost
    ensures FairWindow(Window(wd.start, wd.attempts + [a]), windowMs, now)
    ensures Admitted(wd.attempts + [a]) == Admitted(wd.attempts) + if a.allowed then 1 else 0
  {
    var as' := wd.attempts + [a];
    assert as'[..|as'| - 1] == wd.attempts;
  }

  lemma OtherKey(e: Event, b: Budget)
    requires WellFormed(e) && b.Valid() && !b.Hit(e)
    ensures e.CheckAt? && e.capability in CAPABILITIES ==> QuotaKey(e.namespace, e.application, e.capability) != b.Key()
    ensures e.LoginIncr? ==> LoginKey(e.namespace, e.subject) != b.Key()
    ensures e.LoginExpire? ==> LoginKey(e.namespace, e.subject) != b.Key()
  {
    match e
    case CheckAt(n, a, c, _, _) =>
      if c in CAPABILITIES && QuotaKey(n, a, c) == b.Key() {
        QuotaKeyInjective(n, a, c, b.namespace, b.application, b.capability);
      }
    case LoginIncr(n, s) => LoginKeyIsNoQuotaKey(n, s, b.namespace, b.application, b.capability);
    case LoginExpire(n, s) => LoginKeyIsNoQuotaKey(n, s, b.namespace, b.application, b.capability);
    case _ =>
  }

  /** Steps that are not checks of this budget leave its counter alone, or see it expire. */
  lemma OtherStep(sys: System, b: Budget, e: Event)
    requires WellFormed(e) && b.Valid() && !b.Hit(e) && Current(sys.store)
    ensures var t := Step(sys, b, e);
      && Current(t.store) && t.windows == sys.windows && sys.store.now <= t.store.now
      && (b.Key() in t.store.db ==> b.Key() in sys.store.db && t.store.db[b.Key()] == sys.store.db[b.Key()])
      && (b.Key() in sys.store.db && b.Key() !in t.store.db ==>
            sys.store.db[b.Key()].deadline.Some? && sys.store.db[b.Key()].deadline.value <= t.store.now)
  {
    OtherKey(e, b);
  }

  lemma HitMissingKey(sys: System, b: Budget, e: Event)
    requires Invariant(sys, b) && b.Hit(e) && Reaches(e) && b.Key() !in sys.store.db
    ensures Invariant(Step(sys, b, e), b)
  {
    var t, a := Step(sys, b, e), AttemptOf(sys, b, e);
    FirstAttempt(a, b.windowMs);
    assert t == System(SetPx(sys.store, b.Key(), 1, b.windowMs), sys.windows + [Window(sys.store.now, [a])]);
  }

  /** On a live key the script admits exactly while the counter is below the limit passed. */
  lemma LiveAttempt(sys: System, b: Budget, e: Event)
    requires Invariant(sys, b) && b.Hit(e) && Reaches(e) && b.Key() in sys.store.db
    ensures sys.windows != []
    ensures var last := sys.windows[|sys.windows| - 1]; var a := AttemptOf(sys, b, e);
      && (a.allowed <==> Admitted(last.attempts) < a.limit)
      && (a.outcome.Passed? <==> a.allowed && !a.replyLost)
      && sys.store.now == a.at <= last.start + b.windowMs && a.limit >= 1
      && FairWindow(last, b.windowMs, sys.store.now)
  {
    assert FairWindow(sys.windows[|sys.windows| - 1], b.windowMs, sys.store.now);
  }

  lemma LiveStep(sys: System, b: Budget, e: Event)
    requires Invariant(sys, b) && b.Hit(e) && Reaches(e) && b.Key() in sys.store.db
    ensures var last := sys.windows[|sys.windows| - 1]; var a := AttemptOf(sys, b, e);
      var count := Admitted(last.attempts) + if a.allowed then 1 else 0;
      Step(sys, b, e) == System(
        sys.store.(db := sys.store.db[b.Key() := Entry(Int(count), Some(last.start + b.windowMs))]),
        sys.windows[|sys.windows| - 1 := Window(last.start, last.attempts + [a])])
  {
    LiveAttempt(sys, b, e);
  }

  lemma ReplaceLast(sys: System, b: Budget, next: Window, store: Store)
    requires Invariant(sys, b) && b.Key() in sys.store.db
    requires FairWindow(next, b.windowMs, sys.store.now) && next.start == sys.windows[|sys.windows| - 1].start
    requires store.now == sys.store.now
    requires store.db == sys.store.db[b.Key() := Entry(Int(Admitted(next.attempts)), Some(next.start + b.windowMs))]
    ensures Invariant(System(store, sys.windows[|sys.windows| - 1 := next]), b)
  {
    var windows := sys.windows[|sys.windows| - 1 := next];
    forall i | 0 <= i < |windows| ensures FairWindow(windows[i], b.windowMs, store.now) {
      assert i == |windows| - 1 || windows[i] == sys.windows[i];
    }
  }

  lemma HitLiveKey(sys: System, b: Budget, e: Event)
    requires Invariant(sys, b) && b.Hit(e) && Reaches(e) && b.Key() in sys.store.db
    ensures Invariant(Step(sys, b, e), b)
  {
    hide Step, AttemptOf, Invariant, FairWindow;
    LiveAttempt(sys, b, e);
    LiveStep(sys, b, e);
    var last, a := sys.windows[|sys.windows| - 1], AttemptOf(sys, b, e);
    NextAttempt(last, a, b.windowMs, sys.store.now);
    ReplaceLast(sys, b, Window(last.start, last.attempts + [a]), Step(sys, b, e).store);
  }

  lemma OtherKeepsInvariant(sys: System, b: Budget, e: Event)
    requires Invariant(sys, b) && WellFormed(e) && !b.Hit(e)
    ensures Invariant(Step(sys, b, e), b)
  {
    hide Step;
    OtherStep(sys, b, e);
  }

  lemma UnreachedStep(sys: System, b: Budget, e: Event)
    requires b.Hit(e) && !Reaches(e)
    ensures Step(sys, b, e) == sys
  {
  }

  lemma StepKeepsInvariant(sys: System, b: Budget, e: Event)
    requires Invariant(sys, b) && WellFormed(e)
    ensures Invariant(Step(sys, b, e), b)
  {
    hide Step, Invariant, Reaches;
    if !b.Hit(e) {
      OtherKeepsInvariant(sys, b, e);
    } else if !Reaches(e) {
      UnreachedStep(sys, b, e);
    } else if b.Key() in sys.store.db {
      HitLiveKey(sys, b, e);
    } else {
      HitMissingKey(sys, b, e);
    }
  }

  /** Every reachable state satisfies the invariant, whatever the interleaving, the limits passed, the
      replies lost, and the traffic on other keys. */
  lemma {:induction false} RunKeepsInvariant(sys: System, b: Budget, es: seq<Event>)
    requires Start(sys, b) && forall e | e in es :: WellFormed(e)
    ensures Invariant(Run(sys, b, es), b)
  {
    if es != [] {
      var front := es[..|es| - 1];
      RunKeepsInvariant(sys, b, front);
      StepKeepsInvariant(Run(sys, b, front), b, es[|es| - 1]);
    }
  }

  // ---------------------------------------------------------------- what the limiter promises

  lemma {:induction false} LargestAtMost(attempts: seq<Attempt>, most: int)
    requires attempts != [] && forall a | a in attempts :: a.limit <= most
    ensures LargestLimit(attempts) <= most
  {
    assert attempts[|attempts| - 1] in attempts;
    if |attempts| > 1 {
      LargestAtMost(attempts[..|attempts| - 1], most);
    }
  }

  lemma {:induction false} SmallestAtLeast(attempts: seq<Attempt>, least: int)
    requires attempts != [] && forall a | a in attempts :: least <= a.limit
    ensures least <= SmallestLimit(attempts)
  {
    assert attempts[|attempts| - 1] in attempts;
    if |attempts| > 1 {
      SmallestAtLeast(attempts[..|attempts| - 1], least);
    }
  }

  lemma {:induction false} NothingLost(attempts: seq<Attempt>)
    requires forall a | a in attempts :: !a.replyLost
    ensures Lost(attempts) == 0
  {
    if attempts != [] {
      assert attempts[|attempts| - 1] in attempts;
      NothingLost(attempts[..|attempts| - 1]);
    }
  }

  /** In every window of every run: what passes is admitted by the server, what is admitted never
      exceeds the largest limit any client passed in that window, and while the key is live its
      counter is exactly the number of admissions of the latest window. */
  lemma PassesWithinCounter(sys: System, b: Budget, es: seq<Event>, i: nat)
    requires Start(sys, b) && forall e | e in es :: WellFormed(e)
    requires i < |Run(sys, b, es).windows|
    ensures var t := Run(sys, b, es); var w := t.windows[i];
      && Passes(w.attempts) <= Admitted(w.attempts)
      && w.attempts != [] && Admitted(w.attempts) <= LargestLimit(w.attempts)
      && (b.Key() in t.store.db && i == |t.windows| - 1 ==> t.store.db[b.Key()].raw == Int(Admitted(w.attempts)))
  {
    RunKeepsInvariant(sys, b, es);
    assert FairWindow(Run(sys, b, es).windows[i], b.windowMs, Run(sys, b, es).store.now);
  }

  /** Some check of the run is behind the attempt. */
  ghost predicate FromCheck(a: Attempt, b: Budget, es: seq<Event>) {
    exists e :: e in es && b.Hit(e) && a.limit == e.limit && a.replyLost == e.fault.ReplyLost?
  }

  lemma {:induction false} LoggedFromChecks(sys: System, b: Budget, es: seq<Event>)
    requires sys.windows == []
    ensures forall i, a | 0 <= i < |Run(sys, b, es).windows| && a in Run(sys, b, es).windows[i].attempts ::
              FromCheck(a, b, es)
  {
    if es != [] {
      var front, e := es[..|es| - 1], es[|es| - 1];
      LoggedFromChecks(sys, b, front);
      assert e in es;
      assert forall a | FromCheck(a, b, front) :: FromCheck(a, b, es);
      assert e.CheckAt? && b.Hit(e) ==> FromCheck(AttemptOf(Run(sys, b, front), b, e), b, es);
      assert e.CheckAt? ==> Run(sys, b, es).windows == Log(Run(sys, b, front), b, e);
    }
  }

  /** With one constant limit and no lost reply, n attempts of a window pass exactly min(n, limit). */
  lemma ExactPasses(sys: System, b: Budget, es: seq<Event>, i: nat, limit: int)
    requires Start(sys, b) && forall e | e in es :: WellFormed(e)
    requires forall e | e in es && b.Hit(e) :: e.limit == limit && !e.fault.ReplyLost?
    requires i < |Run(sys, b, es).windows|
    ensures var w := Run(sys, b, es).windows[i]; Passes(w.attempts) == Min(|w.attempts|, limit)
  {
    RunKeepsInvariant(sys, b, es);
    var w := Run(sys, b, es).windows[i];
    assert FairWindow(w, b.windowMs, Run(sys, b, es).store.now);
    LoggedFromChecks(sys, b, es);
    assert forall a | a in w.attempts :: FromCheck(a, b, es);
    LargestAtMost(w.attempts, limit);
    SmallestAtLeast(w.attempts, limit);
    NothingLost(w.attempts);
  }

  ghost predicate LimitsAtMost(es: seq<Event>, b: Budget, most: int) {
    forall e | e in es && b.Hit(e) :: e.limit <= most
  }

  /** Every limit in the log was passed by some check of the run. */
  lemma LoggedLimits(sys: System, b: Budget, es: seq<Event>, most: int)
    requires sys.windows == [] && LimitsAtMost(es, b, most)
    ensures forall i, a | 0 <= i < |Run(sys, b, es).windows| && a in Run(sys, b, es).windows[i].attempts ::
              a.limit <= most
  {
    LoggedFromChecks(sys, b, es);
    forall i, a | 0 <= i < |Run(sys, b, es).windows| && a in Run(sys, b, es).windows[i].attempts
      ensures a.limit <= most
    {
      assert FromCheck(a, b, es);
    }
  }

  // ---------------------------------------------------------------- every check, logged or not

  /** The answer that the client of this check gets. */
  function Answer(sys: System, b: Budget, e: Event): Outcome
    requires e.CheckAt?
  {
    Check(sys.store, b.Key(), e.capability, e.limit, b.windowMs, e.fault).1
  }

  /** How many checks of the budget returned without an exception. */
  function PassedChecks(sys: System, b: Budget, es: seq<Event>): nat {
    if es == [] then 0
    else
      var n := |es| - 1;
      PassedChecks(sys, b, es[..n]) + if b.Hit(es[n]) && Answer(Run(sys, b, es[..n]), b, es[n]) == Passed then 1 else 0
  }

  /** How many checks of the budget, with a valid limit, got as far as running the script. */
  function SentChecks(b: Budget, es: seq<Event>): nat {
    if es == [] then 0
    else
      var e := es[|es| - 1];
      SentChecks(b, es[..|es| - 1])
      + if b.Hit(e) && e.limit >= 1 && (e.fault == NoFault || e.fault == ReplyLost) then 1 else 0
  }

  function AllPasses(windows: seq<Window>): nat {
    if windows == [] then 0 else AllPasses(windows[..|windows| - 1]) + Passes(windows[|windows| - 1].attempts)
  }

  function AllAdmitted(windows: seq<Window>): nat {
    if windows == [] then 0 else AllAdmitted(windows[..|windows| - 1]) + Admitted(windows[|windows| - 1].attempts)
  }

  function AllAttempts(windows: seq<Window>): nat {
    if windows == [] then 0 else AllAttempts(windows[..|windows| - 1]) + |windows[|windows| - 1].attempts|
  }

  lemma OneMoreWindow(windows: seq<Window>, w: Window)
    ensures AllPasses(windows + [w]) == AllPasses(windows) + Passes(w.attempts)
    ensures AllAttempts(windows + [w]) == AllAttempts(windows) + |w.attempts|
  {
    assert (windows + [w])[..|windows|] == windows;
  }

  lemma OneMorePass(attempts: seq<Attempt>, a: Attempt)
    ensures Passes(attempts + [a]) == Passes(attempts) + if a.outcome.Passed? then 1 else 0
    ensures Passes([]) == 0
  {
    assert (attempts + [a])[..|attempts|] == attempts;
  }

  lemma LogCounts(sys: System, b: Budget, e: Event)
    requires e.CheckAt? && b.Hit(e) && Reaches(e)
    ensures AllPasses(Log(sys, b, e)) == AllPasses(sys.windows) + if Answer(sys, b, e) == Passed then 1 else 0
    ensures AllAttempts(Log(sys, b, e)) == AllAttempts(sys.windows) + 1
  {
    hide Check, Consume, Passes, AllPasses, AllAttempts;
    var a := AttemptOf(sys, b, e);
    if b.Key() !in sys.store.db || sys.windows == [] {
      OneMoreWindow(sys.windows, Window(sys.store.now, [a]));
      OneMorePass([], a);
      assert [] + [a] == [a];
    } else {
      JoinCounts(sys.windows, a);
    }
  }

  lemma JoinCounts(windows: seq<Window>, a: Attempt)
    requires windows != []
    ensures var n := |windows| - 1;
      var joined := windows[n := Window(windows[n].start, windows[n].attempts + [a])];
      && AllPasses(joined) == AllPasses(windows) + (if a.outcome.Passed? then 1 else 0)
      && AllAttempts(joined) == AllAttempts(windows) + 1
  {
    hide Passes, AllPasses, AllAttempts;
    var n := |windows| - 1;
    var front, last := windows[..n], windows[n];
    var w := Window(last.start, last.attempts + [a]);
    OneMorePass(last.attempts, a);
    OneMoreWindow(front, last);
    OneMoreWindow(front, w);
    assert front + [last] == windows && windows[n := w] == front + [w];
  }

  lemma UnreachedFails(sys: System, b: Budget, e: Event)
    requires e.CheckAt? && !Reaches(e)
    ensures Answer(sys, b, e) != Passed
  {
  }

  lemma {:induction false} PassesAdmitted(sys: System, b: Budget, windows: seq<Window>)
    requires Invariant(sys, b) && windows <= sys.windows
    ensures AllPasses(windows) <= AllAdmitted(windows)
  {
    hide Invariant;
    if windows != [] {
      var n := |windows| - 1;
      PassesAdmitted(sys, b, windows[..n]);
      PassesAdmittedIn(sys, b, n);
    }
  }

  lemma PassesAdmittedIn(sys: System, b: Budget, i: nat)
    requires Invariant(sys, b) && i < |sys.windows|
    ensures Passes(sys.windows[i].attempts) <= Admitted(sys.windows[i].attempts)
  {
    assert FairWindow(sys.windows[i], b.windowMs, sys.store.now);
  }

  /** Over any run the log misses nothing: the checks of the budget that passed, whether they reached Redis or
      not, are the passes of the windows, never more than the admissions; and the checks that reached it are
      the attempts. */
  lemma {:induction false} EveryPassIsLogged(sys: System, b: Budget, es: seq<Event>)
    requires Start(sys, b) && forall e | e in es :: WellFormed(e)
    ensures var t := Run(sys, b, es);
      && PassedChecks(sys, b, es) == AllPasses(t.windows) <= AllAdmitted(t.windows)
      && SentChecks(b, es) == AllAttempts(t.windows)
  {
    RunKeepsInvariant(sys, b, es);
    PassesAdmitted(Run(sys, b, es), b, Run(sys, b, es).windows);
    if es != [] {
      hide Answer, Invariant;
      var front, e := es[..|es| - 1], es[|es| - 1];
      EveryPassIsLogged(sys, b, front);
      var s := Run(sys, b, front);
      if b.Hit(e) {
        if Reaches(e) {
          LogCounts(s, b, e);
        } else {
          UnreachedFails(s, b, e);
        }
      }
    }
  }

  function Counted(windows: seq<Window>): (ws: seq<FixedWindows.Window>)
    ensures |ws| == |windows|
    ensures forall i | 0 <= i < |ws| :: ws[i] ==
              FixedWindows.Window(windows[i].start, AdmissionTimes(windows[i].attempts))
  {
    seq(|windows|, i requires 0 <= i < |windows| =>
      FixedWindows.Window(windows[i].start, AdmissionTimes(windows[i].attempts)))
  }

  lemma {:induction false} AdmissionTimesWithin(attempts: seq<Attempt>, lo: int, hi: int)
    requires forall a | a in attempts :: lo <= a.at <= hi
    ensures forall k | 0 <= k < |AdmissionTimes(attempts)| :: lo <= AdmissionTimes(attempts)[k] <= hi
  {
    if attempts != [] {
      assert attempts[|attempts| - 1] in attempts;
      AdmissionTimesWithin(attempts[..|attempts| - 1], lo, hi);
    }
  }

  lemma LogIsConsecutive(sys: System, b: Budget, most: nat)
    requires Invariant(sys, b)
    requires forall i, a | 0 <= i < |sys.windows| && a in sys.windows[i].attempts :: a.limit <= most
    ensures FixedWindows.Consecutive(Counted(sys.windows), b.windowMs, most)
  {
    var ws := Counted(sys.windows);
    forall i | 0 <= i < |ws|
      ensures |ws[i].times| <= most
      ensures forall a | 0 <= a < |ws[i].times| :: ws[i].start <= ws[i].times[a] <= ws[i].start + b.windowMs
    {
      assert FairWindow(sys.windows[i], b.windowMs, sys.store.now);
      LargestAtMost(sys.windows[i].attempts, most);
      AdmissionTimesWithin(sys.windows[i].attempts, sys.windows[i].start, sys.windows[i].start + b.windowMs);
    }
  }

  /** For limits at most L and windows of length W: each window admits at most L, window starts are at
      least W apart, and any interval of length k * W contains at most (k + 1) * L admissions. */
  lemma RateBound(sys: System, b: Budget, es: seq<Event>, most: nat, from: int, k: nat)
    requires Start(sys, b) && forall e | e in es :: WellFormed(e)
    requires LimitsAtMost(es, b, most)
    ensures var ws := Counted(Run(sys, b, es).windows);
      && (forall i | 0 <= i < |ws| :: |ws[i].times| <= most)
      && (forall i, j | 0 <= i < j < |ws| :: ws[i].start + b.windowMs <= ws[j].start)
      && FixedWindows.Count(ws, from, from + k * b.windowMs) <= (k + 1) * most
  {
    hide Run, Invariant, Counted;
    RunKeepsInvariant(sys, b, es);
    LoggedLimits(sys, b, es, most);
    LogIsConsecutive(Run(sys, b, es), b, most);
    FixedWindows.IntervalBound(Counted(Run(sys, b, es).windows), b.windowMs, most, from, k);
  }

  // ---------------------------------------------------------------- independence of budgets

  /** A run without checks of this budget leaves its counter untouched until the deadline passes. */
  lemma {:induction false} OtherBudgetsUnchanged(sys: System, b: Budget, es: seq<Event>)
    requires b.Valid() && Current(sys.store)
    requires forall e | e in es :: WellFormed(e) && !b.Hit(e)
    ensures var t := Run(sys, b, es);
      && Current(t.store) && t.windows == sys.windows && sys.store.now <= t.store.now
      && (b.Key() in t.store.db ==> b.Key() in sys.store.db && t.store.db[b.Key()] == sys.store.db[b.Key()])
      && (b.Key() in sys.store.db && b.Key() !in t.store.db ==>
            sys.store.db[b.Key()].deadline.Some? && sys.store.db[b.Key()].deadline.value <= t.store.now)
  {
    if es != [] {
      var front, e := es[..|es| - 1], es[|es| - 1];
      assert e in es;
      OtherBudgetsUnchanged(sys, b, front);
      OtherStep(Run(sys, b, front), b, e);
    }
  }

  // ---------------------------------------------------------------- Retry-After

  /** The ceiling is the integer rounding of the usage screen, and the least number of whole seconds
      that covers a positive ttl. */
  lemma CeilSecondsMeans(ttl: int)
    requires ttl >= 0
    ensures CeilSeconds(ttl) == (ttl + 999) / 1000
    ensures ttl <= 1000 * CeilSeconds(ttl)
    ensures ttl > 0 ==> 1000 * (CeilSeconds(ttl) - 1) < ttl
  {
    var c := CeilSeconds(ttl);
    var x := -(ttl as real) / 1000.0;
    assert -c == x.Floor;
    assert (-c) as real <= x < (-c) as real + 1.0;
    assert (-1000 * c) as real <= -(ttl as real) < (-1000 * c + 1000) as real;
  }

  lemma RefusalTtl(t: System, b: Budget, limit: int)
    requires Invariant(t, b) && Check(t.store, b.Key(), b.capability, limit, b.windowMs, NoFault).1.Exceeded?
    ensures var ttl := Pttl(t.store, b.Key());
      && b.Key() in t.store.db && t.store.db[b.Key()].deadline == Some(t.store.now + ttl)
      && 0 <= ttl <= b.windowMs
      && Check(t.store, b.Key(), b.capability, limit, b.windowMs, NoFault).1.retryAfter == Max(1, CeilSeconds(ttl))
  {
    var last := t.windows[|t.windows| - 1];
    assert FairWindow(last, b.windowMs, t.store.now) && last.attempts[0] in last.attempts;
  }

  /** In a reachable state, a refusal tells the client to wait between 1 and window seconds, and no
      less than what is left of the window. */
  lemma RetryAfterBounds(sys: System, b: Budget, es: seq<Event>, limit: int, windowSeconds: nat)
    requires Start(sys, b) && forall e | e in es :: WellFormed(e)
    requires windowSeconds >= 1 && b.windowMs == windowSeconds * 1000
    requires Check(Run(sys, b, es).store, b.Key(), b.capability, limit, b.windowMs, NoFault).1.Exceeded?
    ensures var t := Run(sys, b, es);
      var retry := Check(t.store, b.Key(), b.capability, limit, b.windowMs, NoFault).1.retryAfter;
      var ttl := Pttl(t.store, b.Key());
      && 1 <= retry <= windowSeconds
      && 0 <= ttl <= 1000 * retry
      && retry == Max(1, (ttl + 999) / 1000)
      && (ttl > 0 ==> 1000 * (retry - 1) < ttl)
  {
    hide Run, Check, CeilSeconds;
    RunKeepsInvariant(sys, b, es);
    RefusalTtl(Run(sys, b, es), b, limit);
    CeilSecondsMeans(Pttl(Run(sys, b, es).store, b.Key()));
  }

  lemma InvariantIsCurrent(t: System, b: Budget)
    requires Invariant(t, b)
    ensures b.Valid() && Current(t.store)
  {
  }

  /** A refused client that waits until Retry-After has passed, alone on its budget, is admitted. */
  lemma LoneRetryAdmitted(sys: System, b: Budget, es: seq<Event>, limit: int, windowSeconds: nat, wait: seq<Event>,
                          limit2: int)
    requires Start(sys, b) && forall e | e in es :: WellFormed(e)
    requires windowSeconds >= 1 && b.windowMs == windowSeconds * 1000
    requires Check(Run(sys, b, es).store, b.Key(), b.capability, limit, b.windowMs, NoFault).1.Exceeded?
    requires forall e | e in wait :: WellFormed(e) && !b.Hit(e)
    requires limit2 >= 1
    requires var t := Run(sys, b, es);
      var retry := Check(t.store, b.Key(), b.capability, limit, b.windowMs, NoFault).1.retryAfter;
      t.store.now + 1000 * retry < Run(t, b, wait).store.now
    ensures Check(Run(Run(sys, b, es), b, wait).store, b.Key(), b.capability, limit2, b.windowMs, NoFault).1 == Passed
  {
    hide Run, Invariant;
    RunKeepsInvariant(sys, b, es);
    RetryAfterBounds(sys, b, es, limit, windowSeconds);
    RefusalTtl(Run(sys, b, es), b, limit);
    InvariantIsCurrent(Run(sys, b, es), b);
    OtherBudgetsUnchanged(Run(sys, b, es), b, wait);
  }
}
