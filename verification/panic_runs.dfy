/**
 When the source's expectation "now is after last_seen" (src/store.rs, lines 413 and 426) fails in
 a run: exactly when an invocation reads a version that is ahead of its clock. The clock is taken
 once (src/bin/bootstrap.rs, line 98) and kept for all attempts, and a retry reads what others
 wrote in the meantime.
 */
module PanicRuns {
  import opened Wrappers
  import opened Visitors
  import opened CountEntries
  import opened Panics
  import opened Plans
  import opened Invocations
  import opened Histories
  import opened Protocol

  /**
   A read stops its invocation exactly if its clock is behind the version read, or its own time
   does not fit the table. Nothing else changes, and no put is sent.
   */
  lemma ReadPanicsExactly(s: State, visits: seq<Visit>, k: nat, base: nat)
    requires Valid(s, visits) && k < |visits| && IsReading(s, k) && base <= |s.history|
    ensures var s', visit, version := Do(s, Read(k, base)), visits[k], VersionAt(s.history, base);
            var phase := s'.procs[k].inv.phase;
            && (phase == Done(Panicked(NowBeforeLastSeen)) <==> ClockBehind(version, visit.visitor, visit.now))
            && (phase.Done? <==>
                  ClockBehind(version, visit.visitor, visit.now) || Unstorable(version, visit.visitor, visit.now))
            && (phase.Done? ==>
                  && phase.outcome.Panicked?
                  && s' == s.(procs := s.procs[k := s.procs[k].(inv := s.procs[k].inv.(phase := phase))]))
  {
    hide Plan, ClockBehind, Unstorable;
    VersionKeeps(s.history, visits, base);
    assert ProcessOk(s, visits, k);
    PlanPanicsExactly(VersionAt(s.history, base), visits[k].visitor, visits[k].now);
  }

  /** At step `n` the process reads a version that is ahead of its clock. */
  predicate ReadsAhead(visits: seq<Visit>, steps: seq<Step>, k: nat, n: nat)
    requires k < |visits|
  {
    && n < |steps| && steps[n].Read? && steps[n].k == k
    && var s := Exec(Init(visits), steps[..n]);
       && IsReading(s, k) && steps[n].base <= |s.history|
       && ClockBehind(VersionAt(s.history, steps[n].base), visits[k].visitor, visits[k].now)
  }

  /** A process that is not reading does not start to panic. */
  lemma OnlyReadsPanic(s: State, visits: seq<Visit>, k: nat, step: Step)
    requires Valid(s, visits) && k < |visits|
    requires !(step.Read? && step.k == k && IsReading(s, k) && step.base <= |s.history|)
    ensures Do(s, step).procs[k].inv.phase == Done(Panicked(NowBeforeLastSeen))
            <==> s.procs[k].inv.phase == Done(Panicked(NowBeforeLastSeen))
  {
    hide Plan;
  }

  /** In every run a process ends in this panic exactly if it read ahead of its clock. */
  lemma {:induction false} RunPanicsExactly(visits: seq<Visit>, steps: seq<Step>, k: nat)
    requires k < |visits|
    ensures |Exec(Init(visits), steps).procs| == |visits|
    ensures Exec(Init(visits), steps).procs[k].inv.phase == Done(Panicked(NowBeforeLastSeen))
            <==> exists n: nat :: ReadsAhead(visits, steps, k, n)
  {
    hide Plan, ClockBehind, Do;
    RunIsValid(visits, steps);
    if steps != [] {
      var n := |steps| - 1;
      var front, step := steps[..n], steps[n];
      var s := Exec(Init(visits), front);
      RunPanicsExactly(visits, front, k);
      RunIsValid(visits, front);
      forall m | 0 <= m < n
        ensures ReadsAhead(visits, steps, k, m) <==> ReadsAhead(visits, front, k, m)
      {
        assert front[..m] == steps[..m];
      }
      if step.Read? && step.k == k && IsReading(s, k) && step.base <= |s.history| {
        ReadPanicsExactly(s, visits, k, step.base);
        assert ReadsAhead(visits, steps, k, n)
               <==> Do(s, step).procs[k].inv.phase == Done(Panicked(NowBeforeLastSeen));
      } else {
        OnlyReadsPanic(s, visits, k, step);
        assert !ReadsAhead(visits, steps, k, n);
      }
    }
  }

  lemma AheadIsStampedLater(h: History, visits: seq<Visit>, base: nat, k: nat)
    requires Legal(h, visits) && base <= |h| && k < |visits|
    requires ClockBehind(VersionAt(h, base), visits[k].visitor, visits[k].now)
    ensures exists visit :: visit in visits && (visit.now > visits[k].now || visit.visitor.lastSeen > visits[k].now)
  {
    hide Plan;
    var now := visits[k].now;
    if visits[k].visitor.lastSeen > now {
      assert visits[k] in visits;
    } else {
      var list := VersionAt(h, base).value.list;
      var v :| v in LoadAll(list) && v.lastSeen > now;
      var i :| 0 <= i < |list| && LoadAll(list)[i] == v;
      EveryTimeIsStamped(h, visits, base - 1, list[i]);
      var visit :| visit in visits && StampedBy(list[i], visit);
      LoadAfterStore(visit.visitor);
      LoadAfterStore(Visitor(visit.visitor.tag, visit.now));
      assert visit.now > now || visit.visitor.lastSeen > now;
    }
  }

  /** An invocation whose clock is behind nobody's, its own visitor's included, never panics this way. */
  lemma LatestClockNeverPanics(visits: seq<Visit>, steps: seq<Step>, k: nat)
    requires k < |visits|
    requires forall visit :: visit in visits ==>
               visit.now <= visits[k].now && visit.visitor.lastSeen <= visits[k].now
    ensures |Exec(Init(visits), steps).procs| == |visits|
    ensures Exec(Init(visits), steps).procs[k].inv.phase != Done(Panicked(NowBeforeLastSeen))
  {
    hide ClockBehind;
    RunPanicsExactly(visits, steps, k);
    if n: nat :| ReadsAhead(visits, steps, k, n) {
      RunIsValid(visits, steps[..n]);
      AheadIsStampedLater(Exec(Init(visits), steps[..n]).history, visits, steps[n].base, k);
    }
  }

  // ---- A run in which it happens ----

  /** Two visitors within a twentieth of a second, either side of a full second. */
  function TwoVisits(): seq<Visit> {
    var early := At(1) - 50_000_000;
    [ Visit(Visitor(7, early), early), Visit(Visitor(8, At(1)), At(1)) ]
  }

  lemma EarlyPlans()
    ensures var visit := TwoVisits()[0];
            && Plan(None, visit.visitor, visit.now) == Success(Request(None, Version(1, [StoredVisitor(7, 0)])))
            && ClockBehind(Some(Version(1, [StoredVisitor(8, 1)])), visit.visitor, visit.now)
  {
    var list := [StoredVisitor(8, 1)];
    assert LoadAll(list)[0] in LoadAll(list);
  }

  /**
   Both invocations find no item. The second one creates it, the first one's put is refused, and
   its retry reads a time fifty milliseconds after its clock: it panics on its second attempt.
   */
  lemma RetryPanics() returns (steps: seq<Step>)
    ensures var s := Exec(Init(TwoVisits()), steps);
            && |s.procs| == 2 && |s.history| == 1 && s.history[0].writer == 1
            && s.procs[0].inv.attempt == 1
            && s.procs[0].inv.phase == Done(Panicked(NowBeforeLastSeen))
  {
    hide Plan, ClockBehind, Exec, DoRead;
    var s0 := Init(TwoVisits());
    EarlyPlans();
    PlanForNone(8, 1);
    var mine := Request(None, Version(1, [StoredVisitor(7, 0)]));
    var theirs := Request(None, Version(1, [StoredVisitor(8, 1)]));
    var t0, t1: Ticket;
    assert Exec(s0, []) == s0 by { ExecOfNone(s0); }
    steps, t0 := Sends(s0, [], 0, 0, mine);
    steps, t1 := Sends(s0, steps, 1, 0, theirs);
    steps := Commits(s0, steps, t1);
    var refused := steps + [Report(0, ConditionalCheckFailed)];
    ExecOneMore(s0, steps, Report(0, ConditionalCheckFailed));
    RunIsValid(TwoVisits(), refused);
    ReadPanicsExactly(Exec(s0, refused), TwoVisits(), 0, 1);
    ExecOneMore(s0, refused, Read(0, 1));
    steps := refused + [Read(0, 1)];
  }
}
