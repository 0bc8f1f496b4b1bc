/** Schema migrations run by several processes that may crash. A script and its row in
    schema_migrations commit together or not at all; the row's primary key admits each version once. */
module Migrations {

  /** The sorted list of script versions; a version occurs once. */
  ghost predicate Distinct(versions: seq<int>) {
    forall i, j | 0 <= i < j < |versions| :: versions[i] != versions[j]
  }

  function Versions(s: seq<int>): set<int> { set v | v in s }

  /** The scripts that are still missing, in order. */
  function Missing(versions: seq<int>, applied: set<int>): seq<int> {
    if versions == [] then []
    else
      var rest := Missing(versions[..|versions| - 1], applied);
      var v := versions[|versions| - 1];
      if v in applied then rest else rest + [v]
  }

  /** Once a prefix of the list is applied, the rest is missing, in order. */
  lemma {:induction false} MissingAfterPrefix(versions: seq<int>, n: nat)
    requires Distinct(versions) && n <= |versions|
    ensures Missing(versions, Versions(versions[..n])) == versions[n..]
  {
    if n < |versions| {
      var m := |versions| - 1;
      assert versions[..m][..n] == versions[..n] && versions[n..] == versions[..m][n..] + [versions[m]];
      MissingAfterPrefix(versions[..m], n);
    } else {
      assert versions[..n] == versions;
      AllThere(versions, Versions(versions));
    }
  }

  lemma {:induction false} AllThere(versions: seq<int>, applied: set<int>)
    requires forall v | v in versions :: v in applied
    ensures Missing(versions, applied) == []
  {
    if versions != [] {
      AllThere(versions[..|versions| - 1], applied);
    }
  }

  class Database {
    /** Rows of schema_migrations. */
    var applied: set<int>
    /** Scripts that took effect, in commit order. */
    var effects: seq<int>

    constructor ()
      ensures applied == {} && effects == []
    {
      applied, effects := {}, [];
    }

    /** BEGIN IMMEDIATE; script; INSERT; COMMIT. A version already recorded violates the primary key,
        and the transaction is rolled back. */
    method ExecuteScript(version: int) returns (ok: bool)
      modifies this
      ensures ok <==> version !in old(applied)
      ensures applied == old(applied) + {version}
      ensures effects == if ok then old(effects) + [version] else old(effects)
    {
      if version in applied {
        return false;
      }
      applied, effects := applied + {version}, effects + [version];
      ok := true;
    }

    /** migrate() without interference: every missing script takes effect, in order. */
    method Migrate(versions: seq<int>) returns (ok: bool)
      requires Distinct(versions)
      modifies this
      ensures ok
      ensures applied == old(applied) + Versions(versions)
      ensures effects == old(effects) + Missing(versions, old(applied))
    {
      var seen := applied;
      for i := 0 to |versions|
        invariant seen == old(applied)
        invariant applied == seen + Versions(versions[..i])
        invariant effects == old(effects) + Missing(versions[..i], seen)
      {
        assert versions[..i + 1][..i] == versions[..i] && versions[..i + 1][i] == versions[i];
        assert Versions(versions[..i + 1]) == Versions(versions[..i]) + {versions[i]};
        assert versions[i] !in versions[..i];
        if versions[i] !in seen {
          var executed := ExecuteScript(versions[i]);
          if !executed {
            return false;
          }
        }
      }
      assert versions[..|versions|] == versions;
      ok := true;
    }
  }

  // ---------------------------------------------------------------- several processes

  /** A process between reading the applied versions and finishing the loop. */
  datatype Process = Running(seen: set<int>, next: nat) | Done | Failed

  datatype System = System(applied: set<int>, effects: seq<int>, processes: map<nat, Process>)

  /** Begin reads schema_migrations; Advance handles the next script; Crash ends a process anywhere. */
  datatype Event = Begin(p: nat) | Advance(p: nat) | Crash(p: nat)

  function Step(s: System, versions: seq<int>, e: Event): System {
    match e
    case Begin(p) => s.(processes := s.processes[p := Running(s.applied, 0)])
    case Crash(p) => s.(processes := s.processes - {p})
    case Advance(p) =>
      if p !in s.processes || !s.processes[p].Running? then s
      else
        var Running(seen, next) := s.processes[p];
        if next >= |versions| then s.(processes := s.processes[p := Done])
        else if versions[next] in seen then s.(processes := s.processes[p := Running(seen, next + 1)])
        else if versions[next] in s.applied then s.(processes := s.processes[p := Failed])
        else System(s.applied + {versions[next]}, s.effects + [versions[next]],
          s.processes[p := Running(seen, next + 1)])
  }

  function Run(s: System, versions: seq<int>, es: seq<Event>): System {
    if es == [] then s else Step(Run(s, versions, es[..|es| - 1]), versions, es[|es| - 1])
  }

  /** No process is running and a prefix of the list, of length n, has been applied. */
  ghost predicate Start(s: System, versions: seq<int>, n: nat) {
    n <= |versions| && s.applied == Versions(versions[..n]) && s.effects == [] && s.processes == map[]
  }

  ghost predicate Invariant(s: System, versions: seq<int>, n: nat) {
    var m := n + |s.effects|;
    && m <= |versions|
    && s.applied == Versions(versions[..m])
    && s.effects == versions[n..m]
    && forall p | p in s.processes ::
         match s.processes[p]
         case Running(seen, next) => seen <= s.applied && next <= |versions| && Versions(versions[..next]) <= s.applied
         case Done => m == |versions|
         case Failed => true
  }

  /** Membership in a prefix is a matter of position. */
  lemma PrefixMember(versions: seq<int>, k: nat, m: nat)
    requires Distinct(versions) && k < |versions| && m <= |versions|
    ensures versions[k] in Versions(versions[..m]) <==> k < m
  {
    if k < m {
      assert versions[..m][k] == versions[k];
    }
  }

  lemma PrefixSize(versions: seq<int>, i: nat, m: nat)
    requires Distinct(versions) && i < |versions| && m <= |versions|
    requires Versions(versions[..i]) <= Versions(versions[..m]) && versions[i] !in Versions(versions[..m])
    ensures i == m
  {
    PrefixMember(versions, i, m);
    if i > 0 {
      PrefixMember(versions, i - 1, i);
      PrefixMember(versions, i - 1, m);
    }
  }

  lemma AllApplied(versions: seq<int>, m: nat)
    requires Distinct(versions) && m <= |versions| && Versions(versions) <= Versions(versions[..m])
    ensures m == |versions|
  {
    if |versions| > 0 {
      assert versions[|versions| - 1] in Versions(versions);
      PrefixMember(versions, |versions| - 1, m);
    }
  }

  lemma NextPrefix(versions: seq<int>, i: nat)
    requires i < |versions|
    ensures Versions(versions[..i + 1]) == Versions(versions[..i]) + {versions[i]}
  {
    assert versions[..i + 1] == versions[..i] + [versions[i]];
  }

  lemma CommitKeepsInvariant(s: System, versions: seq<int>, n: nat, p: nat)
    requires Distinct(versions) && Invariant(s, versions, n)
    requires p in s.processes && s.processes[p].Running? && s.processes[p].next < |versions|
    requires versions[s.processes[p].next] !in s.processes[p].seen + s.applied
    ensures Invariant(Step(s, versions, Advance(p)), versions, n)
  {
    var next, m := s.processes[p].next, n + |s.effects|;
    PrefixSize(versions, next, m);
    NextPrefix(versions, m);
    assert versions[n..m] + [versions[m]] == versions[n..m + 1];
  }

  lemma StepKeepsInvariant(s: System, versions: seq<int>, n: nat, e: Event)
    requires Distinct(versions) && Invariant(s, versions, n)
    ensures Invariant(Step(s, versions, e), versions, n)
  {
    if e.Advance? && e.p in s.processes && s.processes[e.p].Running? {
      var Running(seen, next) := s.processes[e.p];
      if next >= |versions| {
        assert versions[..next] == versions;
        AllApplied(versions, n + |s.effects|);
      } else if versions[next] in seen {
        NextPrefix(versions, next);
      } else if versions[next] !in s.applied {
        CommitKeepsInvariant(s, versions, n, e.p);
      }
    }
  }

  /** For every interleaving of processes and crashes: the applied set is always a prefix of the sorted
      list, each script beyond the initial prefix has taken effect exactly once and in order, and once a
      process completes all scripts are applied. */
  lemma {:induction false} RunKeepsInvariant(s: System, versions: seq<int>, n: nat, es: seq<Event>)
    requires Distinct(versions) && Start(s, versions, n)
    ensures Invariant(Run(s, versions, es), versions, n)
  {
    if es != [] {
      RunKeepsInvariant(s, versions, n, es[..|es| - 1]);
      StepKeepsInvariant(Run(s, versions, es[..|es| - 1]), versions, n, es[|es| - 1]);
    }
  }

  /** No script ever takes effect twice. */
  lemma EffectsOnce(s: System, versions: seq<int>, n: nat, es: seq<Event>, i: nat, j: nat)
    requires Distinct(versions) && Start(s, versions, n)
    requires i < j < |Run(s, versions, es).effects|
    ensures Run(s, versions, es).effects[i] != Run(s, versions, es).effects[j]
    ensures Run(s, versions, es).effects[i] !in s.applied
  {
    RunKeepsInvariant(s, versions, n, es);
    assert forall k | 0 <= k < n :: versions[..n][k] == versions[k];
  }

  /** Once everything is applied, running migrate again, any number of times and anywhere, changes
      nothing, and no process that begins afterwards fails. */
  lemma {:induction false} RerunChangesNothing(s: System, versions: seq<int>, es: seq<Event>)
    requires Versions(versions) <= s.applied && s.processes == map[]
    ensures var t := Run(s, versions, es);
      && t.applied == s.applied && t.effects == s.effects
      && forall p | p in t.processes :: !t.processes[p].Failed?
           && (t.processes[p].Running? ==> t.processes[p].seen == s.applied)
  {
    if es != [] {
      RerunChangesNothing(s, versions, es[..|es| - 1]);
    }
  }

  // ---------------------------------------------------------------- when a process fails

  ghost predicate IsRunning(s: System, p: nat) { p in s.processes && s.processes[p].Running? }

  /** Every process begins when no other one is at work: crashed ones are gone, finished ones are done. */
  ghost predicate Sequential(s: System, versions: seq<int>, es: seq<Event>) {
    forall i | 0 <= i < |es| && es[i].Begin? :: forall p :: !IsRunning(Run(s, versions, es[..i]), p)
  }

  /** Nobody failed, at most one process is at work, and whatever it did not see applied it has passed. */
  ghost predicate Alone(s: System, versions: seq<int>) {
    && (forall p | p in s.processes :: !s.processes[p].Failed?)
    && (forall p, q | IsRunning(s, p) && IsRunning(s, q) :: p == q)
    && (forall p | IsRunning(s, p) ::
          && s.processes[p].next <= |versions|
          && s.applied <= s.processes[p].seen + Versions(versions[..s.processes[p].next]))
  }

  lemma AloneStep(s: System, versions: seq<int>, e: Event)
    requires Distinct(versions) && Alone(s, versions)
    requires e.Begin? ==> forall p :: !IsRunning(s, p)
    ensures Alone(Step(s, versions, e), versions)
  {
    var t := Step(s, versions, e);
    assert forall p :: IsRunning(t, p) ==> IsRunning(s, p) || e == Begin(p);
    if e.Advance? && IsRunning(s, e.p) && s.processes[e.p].next < |versions| {
      PrefixMember(versions, s.processes[e.p].next, s.processes[e.p].next);
      NextPrefix(versions, s.processes[e.p].next);
    }
  }

  /** One after another, whatever crashes in between, processes never fail. */
  lemma {:induction false} SequentialNeverFails(s: System, versions: seq<int>, es: seq<Event>)
    requires Distinct(versions) && s.processes == map[] && Sequential(s, versions, es)
    ensures Alone(Run(s, versions, es), versions)
  {
    if es != [] {
      var front := es[..|es| - 1];
      assert forall i | 0 <= i <= |front| :: front[..i] == es[..i];
      SequentialNeverFails(s, versions, front);
      AloneStep(Run(s, versions, front), versions, es[|es| - 1]);
    }
  }

  /** The c-th event commits version v. */
  ghost predicate Commits(s: System, versions: seq<int>, es: seq<Event>, c: nat, v: int) {
    c < |es| && v !in Run(s, versions, es[..c]).applied && v in Run(s, versions, es[..c + 1]).applied
  }

  /** The a-th event is p coming to version v. */
  ghost predicate ComesTo(s: System, versions: seq<int>, es: seq<Event>, a: nat, p: nat, v: int) {
    a < |es| && es[a] == Advance(p) && IsRunning(Run(s, versions, es[..a]), p)
    && var next := Run(s, versions, es[..a]).processes[p].next; next < |versions| && versions[next] == v
  }

  /** Some process other than p commits a version before p comes to it. */
  ghost predicate LostRace(s: System, versions: seq<int>, es: seq<Event>, p: nat) {
    exists c: nat, a: nat, v :: c < a && Commits(s, versions, es, c, v) && es[c] != Advance(p)
      && ComesTo(s, versions, es, a, p, v)
  }

  /** p neither begins again nor crashes. */
  ghost predicate Undisturbed(es: seq<Event>, p: nat) { Begin(p) !in es && Crash(p) !in es }

  lemma {:induction false} AppliedGrows(s: System, versions: seq<int>, es: seq<Event>, i: nat)
    requires i <= |es|
    ensures Run(s, versions, es[..i]).applied <= Run(s, versions, es).applied
    decreases |es|
  {
    if i < |es| {
      var front := es[..|es| - 1];
      assert front[..i] == es[..i];
      AppliedGrows(s, versions, front, i);
    } else {
      assert es[..i] == es;
    }
  }

  /** What was not applied at first and is in the end was committed by some event. */
  lemma {:induction false} CommitExists(s: System, versions: seq<int>, es: seq<Event>, v: int) returns (c: nat)
    requires v !in s.applied && v in Run(s, versions, es).applied
    ensures Commits(s, versions, es, c, v)
  {
    var front := es[..|es| - 1];
    if v in Run(s, versions, front).applied {
      c := CommitExists(s, versions, front, v);
      assert front[..c] == es[..c] && front[..c + 1] == es[..c + 1];
    } else {
      c := |es| - 1;
      assert es[..c + 1] == es;
    }
  }

  /** While p runs it keeps the applied set that it read. */
  lemma {:induction false} RunningKeeps(s: System, versions: seq<int>, es: seq<Event>, p: nat)
    requires IsRunning(s, p) && s.processes[p].next == 0 && Undisturbed(es, p) && IsRunning(Run(s, versions, es), p)
    ensures Run(s, versions, es).processes[p].seen == s.processes[p].seen
    ensures Run(s, versions, es).processes[p].next <= |versions|
  {
    if es != [] {
      assert es[|es| - 1] in es;
      RunningKeeps(s, versions, es[..|es| - 1], p);
    }
  }

  /** While p runs it has passed every version that it committed itself. */
  lemma {:induction false} PassedOwn(s: System, versions: seq<int>, es: seq<Event>, p: nat, c: nat, v: int)
    requires IsRunning(s, p) && s.processes[p].next == 0 && Undisturbed(es, p) && IsRunning(Run(s, versions, es), p)
    requires Commits(s, versions, es, c, v) && es[c] == Advance(p)
    ensures var next := Run(s, versions, es).processes[p].next; next <= |versions| && v in Versions(versions[..next])
  {
    var front, e := es[..|es| - 1], es[|es| - 1];
    assert e in es;
    RunningKeeps(s, versions, front, p);
    var next := Run(s, versions, front).processes[p].next;
    if e == Advance(p) { NextPrefix(versions, next); }
    if c < |front| {
      assert front[..c] == es[..c] && front[..c + 1] == es[..c + 1];
      PassedOwn(s, versions, front, p, c, v);
    } else {
      assert es[..c] == front && es[..c + 1] == es;
    }
  }

  /** A process fails at the very step that takes it to a version somebody else has committed meanwhile. */
  lemma FailsAtLostVersion(s: System, versions: seq<int>, es: seq<Event>, p: nat)
    requires Distinct(versions) && IsRunning(s, p) && s.processes[p] == Running(s.applied, 0)
    requires es != [] && Undisturbed(es, p) && IsRunning(Run(s, versions, es[..|es| - 1]), p)
    ensures var t := Run(s, versions, es); p in t.processes && (t.processes[p].Failed? ==> LostRace(s, versions, es, p))
  {
    var a := |es| - 1;
    var before := Run(s, versions, es[..a]);
    assert es[a] in es;
    if Run(s, versions, es).processes[p].Failed? {
      RunningKeeps(s, versions, es[..a], p);
      var next := before.processes[p].next;
      var v := versions[next];
      var c := CommitExists(s, versions, es[..a], v);
      assert es[..a][..c] == es[..c] && es[..a][..c + 1] == es[..c + 1];
      if es[c] == Advance(p) {
        PassedOwn(s, versions, es[..a], p, c, v);
        PrefixMember(versions, next, next);
        assert false;
      }
      assert Commits(s, versions, es, c, v) && ComesTo(s, versions, es, a, p, v);
    }
  }

  lemma {:induction false} FailedStays(s: System, versions: seq<int>, es: seq<Event>, p: nat)
    requires p in s.processes && s.processes[p].Failed? && Undisturbed(es, p)
    ensures var t := Run(s, versions, es); p in t.processes && t.processes[p].Failed?
  {
    if es != [] {
      assert es[|es| - 1] in es;
      FailedStays(s, versions, es[..|es| - 1], p);
    }
  }

  lemma {:induction false} RunSplits(s: System, versions: seq<int>, es: seq<Event>, i: nat)
    requires i <= |es|
    ensures Run(s, versions, es) == Run(Run(s, versions, es[..i]), versions, es[i..])
    decreases |es|
  {
    if i < |es| {
      var front := es[..|es| - 1];
      assert front[..i] == es[..i] && front[i..] == es[i..][..|es| - i - 1];
      RunSplits(s, versions, front, i);
    } else {
      assert es[..i] == es;
    }
  }

  lemma StepFails(s: System, versions: seq<int>, p: nat)
    requires IsRunning(s, p) && s.processes[p].next < |versions|
    requires versions[s.processes[p].next] in s.applied - s.processes[p].seen
    ensures Step(s, versions, Advance(p)).processes == s.processes[p := Failed]
  {
  }

  lemma LostRaceFails(s: System, versions: seq<int>, es: seq<Event>, p: nat, c: nat, a: nat, v: int)
    requires IsRunning(s, p) && s.processes[p] == Running(s.applied, 0) && Undisturbed(es, p)
    requires c < a && Commits(s, versions, es, c, v) && ComesTo(s, versions, es, a, p, v)
    ensures var t := Run(s, versions, es); p in t.processes && t.processes[p].Failed?
  {
    hide Step;
    assert es[..a][..c + 1] == es[..c + 1] && es[..c][..0] == [];
    AppliedGrows(s, versions, es[..a], c + 1);
    AppliedGrows(s, versions, es[..c], 0);
    RunningKeeps(s, versions, es[..a], p);
    assert es[..a + 1][..a] == es[..a];
    StepFails(Run(s, versions, es[..a]), versions, p);
    FailedStays(Run(s, versions, es[..a + 1]), versions, es[a + 1..], p);
    RunSplits(s, versions, es, a + 1);
  }

  lemma LostRaceExtends(s: System, versions: seq<int>, front: seq<Event>, e: Event, p: nat)
    requires LostRace(s, versions, front, p)
    ensures LostRace(s, versions, front + [e], p)
  {
    hide Run;
    var es := front + [e];
    var c: nat, a: nat, v :| c < a && Commits(s, versions, front, c, v) && front[c] != Advance(p)
      && ComesTo(s, versions, front, a, p, v);
    assert front[..c] == es[..c] && front[..c + 1] == es[..c + 1] && front[..a] == es[..a];
    assert Commits(s, versions, es, c, v) && ComesTo(s, versions, es, a, p, v);
  }

  /** From its beginning on, an undisturbed process fails exactly when it loses a race. */
  lemma {:induction false} FailsFromBegin(s: System, versions: seq<int>, es: seq<Event>, p: nat)
    requires Distinct(versions) && IsRunning(s, p) && s.processes[p] == Running(s.applied, 0) && Undisturbed(es, p)
    ensures var t := Run(s, versions, es);
              p in t.processes
              && (t.processes[p].Failed? <==> LostRace(s, versions, es, p))
  {
    if LostRace(s, versions, es, p) {
      var c: nat, a: nat, v :| c < a && Commits(s, versions, es, c, v) && es[c] != Advance(p)
        && ComesTo(s, versions, es, a, p, v);
      LostRaceFails(s, versions, es, p, c, a, v);
    } else if es != [] {
      var front := es[..|es| - 1];
      assert es[|es| - 1] in es;
      FailsFromBegin(s, versions, front, p);
      assert front + [es[|es| - 1]] == es;
      if LostRace(s, versions, front, p) {
        LostRaceExtends(s, versions, front, es[|es| - 1], p);
      }
      if IsRunning(Run(s, versions, front), p) {
        FailsAtLostVersion(s, versions, es, p);
      }
    }
  }

  /** The b-th event is the last beginning of p, and it has not crashed since. */
  ghost predicate LastBegin(es: seq<Event>, p: nat, b: nat) {
    b < |es| && es[b] == Begin(p) && Undisturbed(es[b + 1..], p)
  }

  lemma {:induction false} ProcessHasBegun(s: System, versions: seq<int>, es: seq<Event>, p: nat) returns (b: nat)
    requires s.processes == map[] && p in Run(s, versions, es).processes
    ensures LastBegin(es, p, b)
  {
    var front, e := es[..|es| - 1], es[|es| - 1];
    if e == Begin(p) {
      b := |es| - 1;
    } else {
      b := ProcessHasBegun(s, versions, front, p);
      assert es[b + 1..] == front[b + 1..] + [e];
    }
  }

  /** Over any run of any number of processes, with crashes anywhere: a process has failed exactly when,
      after its last beginning, another process committed a script before it came to that script itself. */
  lemma FailsExactlyOnLostRace(s: System, versions: seq<int>, es: seq<Event>, p: nat)
    requires Distinct(versions) && s.processes == map[]
    ensures var t := Run(s, versions, es);
      p in t.processes && t.processes[p].Failed? <==>
        exists b: nat :: LastBegin(es, p, b) && LostRace(Run(s, versions, es[..b + 1]), versions, es[b + 1..], p)
  {
    if p in Run(s, versions, es).processes {
      var _ := ProcessHasBegun(s, versions, es, p);
    }
    forall b: nat | LastBegin(es, p, b)
      ensures p in Run(s, versions, es).processes
      ensures Run(s, versions, es).processes[p].Failed? <==>
                LostRace(Run(s, versions, es[..b + 1]), versions, es[b + 1..], p)
    {
      assert es[..b + 1][..b] == es[..b];
      RunSplits(s, versions, es, b + 1);
      FailsFromBegin(Run(s, versions, es[..b + 1]), versions, es[b + 1..], p);
    }
  }

  /** It does happen: two processes that start together on a new database. */
  lemma TwoStartTogether(v: int)
    ensures var es := [Begin(0), Begin(1), Advance(0), Advance(1)];
      var t := Run(System({}, [], map[]), [v], es);
      1 in t.processes && t.processes[1] == Failed && t.applied == {v} && t.effects == [v]
  {
    var es, s := [Begin(0), Begin(1), Advance(0), Advance(1)], System({}, [], map[]);
    assert es[..3][..2] == es[..2] && es[..2][..1] == es[..1] && es[..1][..0] == [];
    assert Run(s, [v], es[..1]) == System({}, [], map[0 := Running({}, 0)]);
    assert Run(s, [v], es[..2]) == System({}, [], map[0 := Running({}, 0), 1 := Running({}, 0)]);
    assert Run(s, [v], es[..3]) == System({v}, [v], map[0 := Running({}, 1), 1 := Running({}, 0)]);
  }
}
