/** The administrator login limiter: INCR and EXPIRE are two separate commands, so other clients can run
    between them and the client can die before sending the second. */
module LoginLimiter {
  import opened Common
  import opened Redis
  import FixedWindows

  const WINDOW_MS: nat := 60000

  datatype Outcome = Allowed | TooManyAttempts | ProtectionUnavailable

  /** Where the exchange with Redis breaks: a command not sent, or sent with its reply lost. */
  datatype Fault = NoFault | IncrNotSent | IncrReplyLost | ExpireNotSent | ExpireReplyLost

  /** rate_limit_login run without interference. */
  function Attempt(s: Store, key: string, maxAttempts: int, fault: Fault): (Store, Outcome) {
    if fault.IncrNotSent? then (s, ProtectionUnavailable)
    else
      var (t, count) := Incr(s, key);
      if fault.IncrReplyLost? || count.None? then (t, ProtectionUnavailable)
      else if count.value == 1 && fault.ExpireNotSent? then (t, ProtectionUnavailable)
      else if count.value == 1 && fault.ExpireReplyLost? then (Expire(t, key, WINDOW_MS), ProtectionUnavailable)
      else (if count.value == 1 then Expire(t, key, WINDOW_MS) else t,
            if count.value > maxAttempts then TooManyAttempts else Allowed)
  }

  method RateLimitLogin(server: Server, key: string, maxAttempts: int, fault: Fault) returns (outcome: Outcome)
    modifies server
    ensures (server.View(), outcome) == Attempt(old(server.View()), key, maxAttempts, fault)
  {
    if fault.IncrNotSent? {
      return ProtectionUnavailable;
    }
    var count := server.CallIncr(key);
    if fault.IncrReplyLost? || count.None? {
      return ProtectionUnavailable;
    }
    if count.value == 1 {
      if fault.ExpireNotSent? {
        return ProtectionUnavailable;
      }
      server.CallExpire(key, WINDOW_MS);
      if fault.ExpireReplyLost? {
        return ProtectionUnavailable;
      }
    }
    if count.value > maxAttempts {
      return TooManyAttempts;
    }
    outcome := Allowed;
  }

  /** What an uninterrupted attempt answers and leaves, on the counter and the fault alone: INCR counts it
      unless the counter is not a number; the attempt that makes it 1 sets the deadline of a minute. */
  lemma AttemptExactly(s: Store, key: string, maxAttempts: int, fault: Fault)
    ensures var (after, outcome) := Attempt(s, key, maxAttempts, fault);
      var counted := fault != IncrNotSent && (key in s.db ==> s.db[key].raw.Int?);
      var n := if counted && key in s.db then s.db[key].raw.n + 1 else 1;
      var answered := counted && fault != IncrReplyLost && (n == 1 ==> fault == NoFault);
      && (outcome == Allowed <==> answered && n <= maxAttempts)
      && (outcome == TooManyAttempts <==> answered && n > maxAttempts)
      && (!counted ==> after == s)
      && (counted ==>
            && after.now == s.now && after.db.Keys == s.db.Keys + {key}
            && after.db[key].raw == Int(n)
            && (n == 1 && (fault == NoFault || fault == ExpireReplyLost) ==>
                 after.db[key].deadline == Some(s.now + 60000))
            && (n != 1 || fault == IncrReplyLost || fault == ExpireNotSent ==>
                  after.db[key].deadline == if key in s.db then s.db[key].deadline else None)
            && forall k | k in s.db && k != key :: after.db[k] == s.db[k])
  {
  }

  // ---------------------------------------------------------------- interleaved runs

  /** A client that saw count 1 and still has to send EXPIRE; `life` is the life of the key, counted
      from the first, that its own INCR created. */
  datatype Pending = Pending(key: string, life: nat)

  /** Steps of any number of clients. SendIncr is the INCR of client `c`; if it created the key the
      client must go on to Finish (EXPIRE) or GiveUp (crash, timeout, lost INCR reply). */
  datatype Event =
    | Tick(ms: nat)
    | EvictKey(key: string)
    | SendIncr(c: nat, key: string)
    | Finish(c: nat)
    | GiveUp(c: nat)

  /** `lives` logs the lives of the watched key: creation instant and the instants of the attempts that
      were within the limit. That is every attempt let through, and also those within the limit whose
      client failed afterwards, so a bound on the log bounds what passes
      (PassesWithinLog). `abandoned` says that the latest life lost its expirer. */
  datatype System = System(
    store: Store,
    pending: map<nat, Pending>,
    lives: seq<FixedWindows.Window>,
    abandoned: bool)

  function AfterIncr(sys: System, q: string, maxAttempts: nat, c: nat, key: string): System {
    var (t, count) := Incr(sys.store, key);
    if count.None? then sys
    else
      var lives :=
        if key != q then sys.lives
        else if count.value == 1 then sys.lives
          + [FixedWindows.Window(t.now, if maxAttempts >= 1 then [t.now as int] else [])]
        else if count.value <= maxAttempts && sys.lives != [] then
          var last := sys.lives[|sys.lives| - 1];
          sys.lives[|sys.lives| - 1 := FixedWindows.Window(last.start, last.times + [t.now as int])]
        else sys.lives;
      System(t,
             if count.value == 1 then sys.pending[c := Pending(key, if key == q then |sys.lives| else 0)]
               else sys.pending,
             lives,
             if key == q && count.value == 1 then false else sys.abandoned)
  }

  function Step(sys: System, q: string, maxAttempts: nat, e: Event): System {
    match e
    case Tick(ms) => sys.(store := Advance(sys.store, ms))
    case EvictKey(key) => sys.(store := Evict(sys.store, key))
    case SendIncr(c, key) => if c in sys.pending then sys else AfterIncr(sys, q, maxAttempts, c, key)
    case Finish(c) =>
      if c !in sys.pending then sys
      else sys.(store := Expire(sys.store, sys.pending[c].key, WINDOW_MS), pending := sys.pending - {c})
    case GiveUp(c) =>
      if c !in sys.pending then sys
      else sys.(pending := sys.pending - {c}, abandoned := sys.abandoned || sys.pending[c].key == q)
  }

  function Run(sys: System, q: string, maxAttempts: nat, es: seq<Event>): System {
    if es == [] then sys else Step(Run(sys, q, maxAttempts, es[..|es| - 1]), q, maxAttempts, es[|es| - 1])
  }

  ghost predicate Start(sys: System, q: string) {
    && Current(sys.store) && q !in sys.store.db
    && (forall c | c in sys.pending :: sys.pending[c].key != q)
    && sys.lives == [] && !sys.abandoned
  }

  /** Client `c` is about to expire the watched key. */
  predicate Expirer(sys: System, q: string, c: nat) {
    c in sys.pending && sys.pending[c].key == q
  }

  /** The key exists without a deadline: either exactly one client is on its way to set it, for the very
      life it created, or that client failed and nobody is. In every other state nobody is. */
  ghost predicate OneExpirer(sys: System, q: string) {
    if q in sys.store.db && sys.store.db[q].deadline.None? then
      if sys.abandoned then forall c :: !Expirer(sys, q, c)
      else
        && (exists c :: Expirer(sys, q, c))
        && (forall c, d :: Expirer(sys, q, c) && Expirer(sys, q, d) ==> c == d)
        && (forall c | Expirer(sys, q, c) :: sys.pending[c].life == |sys.lives| - 1)
    else
      forall c :: !Expirer(sys, q, c)
  }

  ghost predicate Counter(sys: System, q: string, maxAttempts: nat) {
    var n := |sys.lives|;
    if q in sys.store.db then
      && n > 0
      && sys.store.db[q].raw.Int? && sys.store.db[q].raw.n >= 1
      && |sys.lives[n - 1].times| == Min(sys.store.db[q].raw.n, maxAttempts)
      && (sys.store.db[q].deadline.Some? ==> sys.lives[n - 1].start + WINDOW_MS <= sys.store.db[q].deadline.value)
    else
      n > 0 ==> sys.lives[n - 1].start + WINDOW_MS <= sys.store.now
  }

  ghost predicate History(lives: seq<FixedWindows.Window>, maxAttempts: nat, now: nat) {
    && FixedWindows.Consecutive(lives, WINDOW_MS, maxAttempts)
    && (forall i | 0 <= i < |lives| :: lives[i].start <= now)
    && (forall i, a | 0 <= i < |lives| && 0 <= a < |lives[i].times| :: lives[i].times[a] <= now)
  }

  ghost predicate Invariant(sys: System, q: string, maxAttempts: nat) {
    && Current(sys.store)
    && OneExpirer(sys, q)
    && Counter(sys, q, maxAttempts)
    && History(sys.lives, maxAttempts, sys.store.now)
  }

  lemma NewLife(lives: seq<FixedWindows.Window>, maxAttempts: nat, now: nat)
    requires History(lives, maxAttempts, now)
    requires |lives| > 0 ==> lives[|lives| - 1].start + WINDOW_MS <= now
    ensures History(lives + [FixedWindows.Window(now, if maxAttempts >= 1 then [now as int] else [])], maxAttempts, now)
  {
  }

  lemma SameLife(lives: seq<FixedWindows.Window>, maxAttempts: nat, now: nat)
    requires History(lives, maxAttempts, now)
    requires |lives| > 0 && |lives[|lives| - 1].times| < maxAttempts
    ensures var last := lives[|lives| - 1];
      History(lives[|lives| - 1 := FixedWindows.Window(last.start, last.times + [now as int])], maxAttempts, now)
  {
  }

  lemma IncrElsewhere(sys: System, q: string, maxAttempts: nat, c: nat, key: string)
    requires Invariant(sys, q, maxAttempts) && c !in sys.pending && key != q
    ensures Invariant(AfterIncr(sys, q, maxAttempts, c, key), q, maxAttempts)
  {
    var t := AfterIncr(sys, q, maxAttempts, c, key);
    assert forall d :: Expirer(t, q, d) <==> Expirer(sys, q, d);
  }

  lemma CreatorIsExpirer(sys: System, t: System, q: string, c: nat)
    requires OneExpirer(sys, q) && q !in sys.store.db
    requires t.pending == sys.pending[c := Pending(q, |sys.lives|)] && |t.lives| == |sys.lives| + 1
    requires q in t.store.db && t.store.db[q].deadline.None? && !t.abandoned
    ensures OneExpirer(t, q)
  {
    assert Expirer(t, q, c);
    assert forall d :: Expirer(t, q, d) <==> d == c || Expirer(sys, q, d);
  }

  lemma IncrCreates(sys: System, q: string, maxAttempts: nat, c: nat)
    requires Invariant(sys, q, maxAttempts) && c !in sys.pending && q !in sys.store.db
    ensures Invariant(AfterIncr(sys, q, maxAttempts, c, q), q, maxAttempts)
  {
    var t := AfterIncr(sys, q, maxAttempts, c, q);
    assert t.store == Incr(sys.store, q).0;
    assert Counter(t, q, maxAttempts);
    assert OneExpirer(t, q) by { CreatorIsExpirer(sys, t, q, c); }
    assert History(t.lives, maxAttempts, t.store.now) by { NewLife(sys.lives, maxAttempts, sys.store.now); }
  }

  lemma SameExpirers(sys: System, t: System, q: string)
    requires OneExpirer(sys, q) && q in sys.store.db && q in t.store.db
    requires t.pending == sys.pending && |t.lives| == |sys.lives| && t.abandoned == sys.abandoned
    requires t.store.db[q].deadline == sys.store.db[q].deadline
    ensures OneExpirer(t, q)
  {
    assert forall d :: Expirer(t, q, d) <==> Expirer(sys, q, d);
  }

  lemma IncrJoins(sys: System, q: string, maxAttempts: nat, c: nat)
    requires Invariant(sys, q, maxAttempts) && c !in sys.pending && q in sys.store.db
    ensures Invariant(AfterIncr(sys, q, maxAttempts, c, q), q, maxAttempts)
  {
    var t := AfterIncr(sys, q, maxAttempts, c, q);
    assert t.store == Incr(sys.store, q).0;
    assert Counter(t, q, maxAttempts);
    assert OneExpirer(t, q) by { SameExpirers(sys, t, q); }
    assert History(t.lives, maxAttempts, t.store.now) by {
      if sys.store.db[q].raw.n < maxAttempts {
        SameLife(sys.lives, maxAttempts, sys.store.now);
      }
    }
  }

  /** The clock and eviction remove only keys that have a deadline. */
  lemma TimeSteps(sys: System, q: string, maxAttempts: nat, e: Event)
    requires Invariant(sys, q, maxAttempts) && (e.Tick? || e.EvictKey?)
    ensures Invariant(Step(sys, q, maxAttempts, e), q, maxAttempts)
  {
    var t := Step(sys, q, maxAttempts, e);
    assert forall d :: Expirer(t, q, d) <==> Expirer(sys, q, d);
  }

  lemma FinishStep(sys: System, q: string, maxAttempts: nat, c: nat)
    requires Invariant(sys, q, maxAttempts) && c in sys.pending
    ensures Invariant(Step(sys, q, maxAttempts, Finish(c)), q, maxAttempts)
  {
    hide FixedWindows.Consecutive;
    var t := Step(sys, q, maxAttempts, Finish(c));
    assert Expirer(sys, q, c) || !Expirer(sys, q, c);
    assert forall d :: Expirer(t, q, d) <==> Expirer(sys, q, d) && d != c;
  }

  lemma GiveUpStep(sys: System, q: string, maxAttempts: nat, c: nat)
    requires Invariant(sys, q, maxAttempts) && c in sys.pending
    ensures Invariant(Step(sys, q, maxAttempts, GiveUp(c)), q, maxAttempts)
  {
    hide FixedWindows.Consecutive;
    var t := Step(sys, q, maxAttempts, GiveUp(c));
    assert Expirer(sys, q, c) || !Expirer(sys, q, c);
    assert forall d :: Expirer(t, q, d) <==> Expirer(sys, q, d) && d != c;
  }

  lemma StepKeepsInvariant(sys: System, q: string, maxAttempts: nat, e: Event)
    requires Invariant(sys, q, maxAttempts)
    ensures Invariant(Step(sys, q, maxAttempts, e), q, maxAttempts)
  {
    hide Invariant, AfterIncr, Expire, Advance, Evict;
    match e
    case Tick(_) => TimeSteps(sys, q, maxAttempts, e);
    case EvictKey(_) => TimeSteps(sys, q, maxAttempts, e);
    case Finish(c) => if c in sys.pending { FinishStep(sys, q, maxAttempts, c); }
    case GiveUp(c) => if c in sys.pending { GiveUpStep(sys, q, maxAttempts, c); }
    case SendIncr(c, key) =>
      if c !in sys.pending {
        if key != q {
          IncrElsewhere(sys, q, maxAttempts, c, key);
        } else if q in sys.store.db {
          IncrJoins(sys, q, maxAttempts, c);
        } else {
          IncrCreates(sys, q, maxAttempts, c);
        }
      }
  }

  lemma {:induction false} RunKeepsInvariant(sys: System, q: string, maxAttempts: nat, es: seq<Event>)
    requires Start(sys, q)
    ensures Invariant(Run(sys, q, maxAttempts, es), q, maxAttempts)
  {
    if es == [] {
      assert forall c :: !Expirer(sys, q, c);
    } else {
      RunKeepsInvariant(sys, q, maxAttempts, es[..|es| - 1]);
      StepKeepsInvariant(Run(sys, q, maxAttempts, es[..|es| - 1]), q, maxAttempts, es[|es| - 1]);
    }
  }

  // ---------------------------------------------------------------- what the limiter promises

  /** An EXPIRE always finds the key alive, without a deadline, and in the life that the sender's own
      INCR created; it is the only one for that life. */
  lemma ExpireHitsOwnLife(sys: System, q: string, maxAttempts: nat, es: seq<Event>, c: nat)
    requires Start(sys, q) && Expirer(Run(sys, q, maxAttempts, es), q, c)
    ensures var t := Run(sys, q, maxAttempts, es);
      && q in t.store.db && t.store.db[q].deadline == None
      && t.pending[c].life == |t.lives| - 1
      && (forall d | Expirer(t, q, d) :: d == c)
  {
    RunKeepsInvariant(sys, q, maxAttempts, es);
  }

  /** Over every interleaving, with clients dying anywhere, an interval of k minutes lets at most
      (k + 1) * N attempts through. */
  lemma AttemptBound(sys: System, q: string, maxAttempts: nat, es: seq<Event>, from: int, k: nat)
    requires Start(sys, q)
    ensures FixedWindows.Count(Run(sys, q, maxAttempts, es).lives, from, from + k * 60000) <= (k + 1) * maxAttempts
  {
    RunKeepsInvariant(sys, q, maxAttempts, es);
    FixedWindows.IntervalBound(Run(sys, q, maxAttempts, es).lives, WINDOW_MS, maxAttempts, from, k);
  }

  /** The log is complete: an attempt on the watched key counts at its instant exactly when the number
      that INCR returned is within the limit, which every attempt let through needs. */
  lemma LoggedExactly(sys: System, q: string, maxAttempts: nat, c: nat)
    requires Invariant(sys, q, maxAttempts) && c !in sys.pending
    ensures var t := Step(sys, q, maxAttempts, SendIncr(c, q));
      var count := Incr(sys.store, q).1; var now := sys.store.now;
      && count.Some?
      && FixedWindows.Count(t.lives, now, now + 1) ==
           FixedWindows.Count(sys.lives, now, now + 1) + (if count.value <= maxAttempts then 1 else 0)
  {
    hide FixedWindows.Count, FixedWindows.Consecutive, OneExpirer;
    var now := sys.store.now as int;
    if q !in sys.store.db {
      var w := FixedWindows.Window(now, if maxAttempts >= 1 then [now] else []);
      FixedWindows.CountOneMoreWindow(sys.lives, w, now, now + 1);
      assert [now][..0] == [];
    } else if sys.store.db[q].raw.n < maxAttempts {
      FixedWindows.CountOneMoreTime(sys.lives, now, now, now + 1);
    }
  }

  /** The watched key has no deadline, and nobody is left to set one. */
  ghost predicate Stuck(sys: System, q: string) {
    sys.abandoned && q in sys.store.db && sys.store.db[q].deadline.None? && forall c :: !Expirer(sys, q, c)
  }

  lemma StuckStep(sys: System, q: string, maxAttempts: nat, e: Event)
    requires Stuck(sys, q) && (sys.store.db[q].raw.Int? ==> sys.store.db[q].raw.n >= 1)
    ensures var t := Step(sys, q, maxAttempts, e); Stuck(t, q) && |t.lives| == |sys.lives|
  {
    var t := Step(sys, q, maxAttempts, e);
    if e.Finish? { assert !Expirer(sys, q, e.c); }
    forall c ensures !Expirer(t, q, c) {
      assert !Expirer(sys, q, c);
    }
  }

  /** A life whose expirer died never ends: whatever follows, the key stays, no new life begins, and no
      more than N attempts of that life are ever let through. */
  lemma {:induction false} AbandonedForever(start: System, q: string, maxAttempts: nat, before: seq<Event>,
                                            after: seq<Event>)
    requires Start(start, q) && Stuck(Run(start, q, maxAttempts, before), q)
    ensures var s := Run(start, q, maxAttempts, before); var t := Run(s, q, maxAttempts, after);
      && Invariant(t, q, maxAttempts) && Stuck(t, q)
      && |t.lives| == |s.lives| > 0 && |t.lives[|t.lives| - 1].times| <= maxAttempts
  {
    RunKeepsInvariant(start, q, maxAttempts, before);
    if after != [] {
      hide Run;
      var front := after[..|after| - 1];
      AbandonedForever(start, q, maxAttempts, before, front);
      var m := Run(Run(start, q, maxAttempts, before), q, maxAttempts, front);
      StepKeepsInvariant(m, q, maxAttempts, after[|after| - 1]);
      StuckStep(m, q, maxAttempts, after[|after| - 1]);
      RunLast(Run(start, q, maxAttempts, before), q, maxAttempts, after);
    }
  }

  lemma RunLast(sys: System, q: string, maxAttempts: nat, es: seq<Event>)
    requires es != []
    ensures Run(sys, q, maxAttempts, es) == Step(Run(sys, q, maxAttempts, es[..|es| - 1]), q, maxAttempts, es[|es| - 1])
  {
  }

  // ---------------------------------------------------------------- what passes

  /** The instants at which the attempts on the watched key that are let through had their INCR. One that
      created the counter passes at its EXPIRE, any other at its INCR, if the reply arrives: `replied` says
      so for each step of the run. */
  function Passes(sys: System, q: string, maxAttempts: nat, es: seq<Event>, replied: nat -> bool): seq<int> {
    if es == [] then []
    else
      var n := |es| - 1;
      Passes(sys, q, maxAttempts, es[..n], replied)
      + if replied(n) then PassOf(Run(sys, q, maxAttempts, es[..n]), q, maxAttempts, es[n]) else []
  }

  /** The attempt that a step lets through, if its reply arrives. */
  function PassOf(sys: System, q: string, maxAttempts: nat, e: Event): seq<int> {
    match e
    case SendIncr(c, key) =>
      var count := Incr(sys.store, key).1;
      if c !in sys.pending && key == q && count.Some? && 1 < count.value <= maxAttempts then [sys.store.now] else []
    case Finish(c) =>
      if Expirer(sys, q, c) && 1 <= maxAttempts && sys.pending[c].life < |sys.lives|
      then [sys.lives[sys.pending[c].life].start] else []
    case _ => []
  }

  /** The attempt that created the latest life and has not sent its EXPIRE yet, if it is within [lo, hi). */
  ghost function Owed(sys: System, q: string, maxAttempts: nat, lo: int, hi: int): nat {
    if sys.lives != [] && 1 <= maxAttempts && lo <= sys.lives[|sys.lives| - 1].start < hi
      && (exists c :: Expirer(sys, q, c))
    then 1 else 0
  }

  lemma CountOne(t: int, lo: int, hi: int)
    ensures FixedWindows.CountTimes([t], lo, hi) == if lo <= t < hi then 1 else 0
    ensures FixedWindows.CountTimes([], lo, hi) == 0
  {
    assert [t][..0] == [];
  }

  lemma {:induction false} CountSum(a: seq<int>, b: seq<int>, lo: int, hi: int)
    ensures FixedWindows.CountTimes(a + b, lo, hi) == FixedWindows.CountTimes(a, lo, hi)
              + FixedWindows.CountTimes(b, lo, hi)
  {
    if b == [] {
      assert a + b == a;
    } else {
      assert (a + b)[..|a + b| - 1] == a + b[..|b| - 1];
      CountSum(a, b[..|b| - 1], lo, hi);
    }
  }

  /** Each step lets no more through than it adds to the log, counting what is owed. */
  ghost predicate Balanced(s: System, t: System, q: string, maxAttempts: nat, e: Event, lo: int, hi: int) {
    FixedWindows.CountTimes(PassOf(s, q, maxAttempts, e), lo, hi) + Owed(t, q, maxAttempts, lo, hi)
    + FixedWindows.Count(s.lives, lo, hi)
    <= FixedWindows.Count(t.lives, lo, hi) + Owed(s, q, maxAttempts, lo, hi)
  }

  lemma IncrBalanced(s: System, q: string, maxAttempts: nat, c: nat, lo: int, hi: int)
    requires Invariant(s, q, maxAttempts) && c !in s.pending
    ensures Balanced(s, AfterIncr(s, q, maxAttempts, c, q), q, maxAttempts, SendIncr(c, q), lo, hi)
  {
    hide FixedWindows.Consecutive, FixedWindows.Count, FixedWindows.CountTimes;
    var t, now := AfterIncr(s, q, maxAttempts, c, q), s.store.now as int;
    CountOne(now, lo, hi);
    if q !in s.store.db {
      var w := FixedWindows.Window(now, if maxAttempts >= 1 then [now] else []);
      FixedWindows.CountOneMoreWindow(s.lives, w, lo, hi);
    } else {
      if s.store.db[q].raw.n < maxAttempts {
        FixedWindows.CountOneMoreTime(s.lives, now, lo, hi);
      }
      assert forall d :: Expirer(t, q, d) <==> Expirer(s, q, d);
    }
  }

  lemma FinishBalanced(s: System, q: string, maxAttempts: nat, c: nat, lo: int, hi: int)
    requires Invariant(s, q, maxAttempts) && c in s.pending
    ensures Balanced(s, Step(s, q, maxAttempts, Finish(c)), q, maxAttempts, Finish(c), lo, hi)
  {
    hide FixedWindows.Consecutive, FixedWindows.Count, FixedWindows.CountTimes;
    var t := Step(s, q, maxAttempts, Finish(c));
    assert forall d :: Expirer(t, q, d) ==> Expirer(s, q, d) && d != c;
    CountOne(if s.lives == [] then 0 else s.lives[|s.lives| - 1].start, lo, hi);
  }

  lemma OtherBalanced(s: System, q: string, maxAttempts: nat, e: Event, lo: int, hi: int)
    requires !e.Finish? && (e.SendIncr? ==> e.c in s.pending || e.key != q)
    ensures Balanced(s, Step(s, q, maxAttempts, e), q, maxAttempts, e, lo, hi)
  {
    hide FixedWindows.Count, FixedWindows.CountTimes;
    var t := Step(s, q, maxAttempts, e);
    assert forall d :: Expirer(t, q, d) ==> Expirer(s, q, d);
    CountOne(0, lo, hi);
  }

  lemma StepBalanced(s: System, q: string, maxAttempts: nat, e: Event, lo: int, hi: int)
    requires Invariant(s, q, maxAttempts)
    ensures Balanced(s, Step(s, q, maxAttempts, e), q, maxAttempts, e, lo, hi)
  {
    hide Invariant, Balanced, AfterIncr;
    if e.Finish? && e.c in s.pending {
      FinishBalanced(s, q, maxAttempts, e.c, lo, hi);
    } else if e.SendIncr? && e.c !in s.pending && e.key == q {
      IncrBalanced(s, q, maxAttempts, e.c, lo, hi);
    } else if e.Finish? {
      IdleBalanced(s, q, maxAttempts, e, lo, hi);
    } else {
      OtherBalanced(s, q, maxAttempts, e, lo, hi);
    }
  }

  lemma IdleBalanced(s: System, q: string, maxAttempts: nat, e: Event, lo: int, hi: int)
    requires e.Finish? && e.c !in s.pending
    ensures Balanced(s, Step(s, q, maxAttempts, e), q, maxAttempts, e, lo, hi)
  {
  }

  /** Over every interleaving, in any interval: what passes, together with the creator that has not sent its
      EXPIRE, is at most what the log counts. */
  lemma {:induction false} PassesWithinLog(sys: System, q: string, maxAttempts: nat, es: seq<Event>,
                                           replied: nat -> bool, lo: int, hi: int)
    requires Start(sys, q)
    ensures var t := Run(sys, q, maxAttempts, es);
      FixedWindows.CountTimes(Passes(sys, q, maxAttempts, es, replied), lo, hi) + Owed(t, q, maxAttempts, lo, hi)
      <= FixedWindows.Count(t.lives, lo, hi)
  {
    if es != [] {
      hide Start, Invariant, Step, PassOf, Owed, FixedWindows.CountTimes, FixedWindows.Count;
      var n := |es| - 1;
      var s := Run(sys, q, maxAttempts, es[..n]);
      PassesWithinLog(sys, q, maxAttempts, es[..n], replied, lo, hi);
      RunKeepsInvariant(sys, q, maxAttempts, es[..n]);
      StepBalanced(s, q, maxAttempts, es[n], lo, hi);
      CountSum(Passes(sys, q, maxAttempts, es[..n], replied),
               if replied(n) then PassOf(s, q, maxAttempts, es[n]) else [], lo, hi);
      CountOne(0, lo, hi);
    }
  }

  /** So over every interleaving, with clients dying and replies lost anywhere, an interval of k minutes sees
      at most (k + 1) * N attempts that pass. */
  lemma PassBound(sys: System, q: string, maxAttempts: nat, es: seq<Event>, replied: nat -> bool, from: int, k: nat)
    requires Start(sys, q)
    ensures FixedWindows.CountTimes(Passes(sys, q, maxAttempts, es, replied), from, from + k * 60000)
            <= (k + 1) * maxAttempts
  {
    hide Passes, Run, Start;
    PassesWithinLog(sys, q, maxAttempts, es, replied, from, from + k * WINDOW_MS);
    AttemptBound(sys, q, maxAttempts, es, from, k);
  }

  /** It does happen: a client creates the counter and dies before its EXPIRE. */
  lemma DyingClientSticks(start: System, q: string, maxAttempts: nat, c: nat)
    requires Start(start, q) && c !in start.pending
    ensures Stuck(Run(start, q, maxAttempts, [SendIncr(c, q), GiveUp(c)]), q)
  {
    var es := [SendIncr(c, q), GiveUp(c)];
    assert es[..1] == [SendIncr(c, q)] && es[..1][..0] == [];
    assert Run(start, q, maxAttempts, es[..1][..0]) == start;
    var s := Run(start, q, maxAttempts, es[..1]);
    RunLast(start, q, maxAttempts, es[..1]);
    RunLast(start, q, maxAttempts, es);
    assert s == AfterIncr(start, q, maxAttempts, c, q);
    assert forall d :: Expirer(Run(start, q, maxAttempts, es), q, d) ==> Expirer(start, q, d);
  }

  /** Run without interference, the method is SendIncr followed at once by Finish or GiveUp; and it lets the
      attempt through exactly when the number that INCR returned is within the limit and nothing broke.
      So what passes is among the attempts that the log counts (LoggedExactly). */
  lemma AloneIsSequential(sys: System, q: string, maxAttempts: nat, c: nat, key: string, fault: Fault)
    requires Current(sys.store) && c !in sys.pending && !fault.IncrNotSent?
    requires key in sys.store.db ==> sys.store.db[key].raw.Int? && sys.store.db[key].raw.n >= 1
    ensures var s := Step(sys, q, maxAttempts, SendIncr(c, key));
      var second := if fault.NoFault? || fault.ExpireReplyLost? then Finish(c) else GiveUp(c);
      Step(s, q, maxAttempts, second).store == Attempt(sys.store, key, maxAttempts, fault).0
    ensures var count := Incr(sys.store, key).1;
      Attempt(sys.store, key, maxAttempts, fault).1 == Allowed <==>
        && count.Some? && count.value <= maxAttempts
        && !fault.IncrReplyLost? && (count.value == 1 ==> fault.NoFault?)
  {
  }

  /** Without interference, PassOf says of the two steps together exactly what the method answers. */
  lemma PassesAlone(sys: System, q: string, maxAttempts: nat, c: nat, fault: Fault)
    requires Invariant(sys, q, maxAttempts) && c !in sys.pending
    requires fault.NoFault? || (fault.ExpireNotSent? && q !in sys.store.db)
    ensures var s := Step(sys, q, maxAttempts, SendIncr(c, q));
      var second := if fault.NoFault? then Finish(c) else GiveUp(c);
      var passed := PassOf(sys, q, maxAttempts, SendIncr(c, q)) + PassOf(s, q, maxAttempts, second);
      passed == if Attempt(sys.store, q, maxAttempts, fault).1 == Allowed then [sys.store.now as int] else []
  {
    hide FixedWindows.Consecutive;
    assert !Expirer(sys, q, c);
  }
}
