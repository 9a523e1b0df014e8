/**
 The comment on the store (src/store.rs, lines 34 to 37) says that the count condition prevents
 invocations from overwriting each other's updates. Protocol.OverwritesOnlyRefreshes says exactly
 when it does not; here is a run that shows it, with clocks in order, and what it costs.
 */
module LostRefreshes {
  import opened Wrappers
  import opened Visitors
  import opened RecentVisitors
  import opened CountEntries
  import opened Invocations
  import opened Histories
  import opened Plans
  import opened Protocol

  function VisitAt(tag: u32, seconds: u32): Visit {
    Visit(Visitor(tag, At(seconds)), At(seconds))
  }

  /** Two visitors: the first comes at 0, 7000 and 7300 seconds, the second at 10 and 7001. */
  function FiveVisits(): seq<Visit> {
    [ VisitAt(7, 0), VisitAt(8, 10), VisitAt(7, 7000), VisitAt(8, 7001), VisitAt(7, 7300) ]
  }

  const FIRST := Version(1, [StoredVisitor(7, 0)])
  const BOTH := Version(2, [StoredVisitor(7, 0), StoredVisitor(8, 10)])
  const REFRESHED := Version(2, [StoredVisitor(7, 7000), StoredVisitor(8, 10)])
  const SET_BACK := Version(2, [StoredVisitor(7, 0), StoredVisitor(8, 7001)])
  const AGAIN := Version(3, [StoredVisitor(8, 7001), StoredVisitor(7, 7300)])

  lemma SecondPushes()
    ensures Plan(Some(FIRST), Visitor(8, At(10)), At(10)) == Success(Request(Some(1), BOTH))
  {
    StoreAt(8, 10);
    var s := LoadAll(FIRST.list);
    assert s[1..] == [];
    RoomForOne(FIRST, Visitor(8, At(10)), At(10));
    PlanPushes(FIRST, Visitor(8, At(10)), At(10));
    RecentsOfTwo(FIRST.list[0], FIRST.list[0], At(10));
    assert FIRST.list + [StoredVisitor(8, 10)] == BOTH.list;
  }

  lemma LoadBoth(first: u32, second: u32, now: u32)
    requires first <= now && second <= now
    ensures var s := LoadAll([StoredVisitor(7, first), StoredVisitor(8, second)]);
            && !SeenAfter(s, At(now))
            && FirstMatch(s, 7) == Some(0) && FirstMatch(s, 8) == Some(1)
  {
    var s := LoadAll([StoredVisitor(7, first), StoredVisitor(8, second)]);
    assert FirstMatch(s[1..], 8) == Some(0);
  }

  lemma FirstRefreshes()
    ensures Plan(Some(BOTH), Visitor(7, At(7000)), At(7000)) == Success(Request(Some(2), REFRESHED))
  {
    LoadBoth(0, 10, 7000);
    StoreAt(7, 7000);
    RoomForOne(BOTH, Visitor(7, At(7000)), At(7000));
    PlanRefreshes(BOTH, Visitor(7, At(7000)), At(7000), 0);
    assert [StoredVisitor(7, 7000)] + [StoredVisitor(8, 10)] == REFRESHED.list;
    RecentsOfTwo(StoredVisitor(7, 7000), StoredVisitor(8, 10), At(7000));
    assert BOTH.list[0 := StoredVisitor(7, 7000)] == REFRESHED.list;
  }

  lemma SecondRefreshes()
    ensures Plan(Some(BOTH), Visitor(8, At(7001)), At(7001)) == Success(Request(Some(2), SET_BACK))
  {
    LoadBoth(0, 10, 7001);
    StoreAt(8, 7001);
    RoomForOne(BOTH, Visitor(8, At(7001)), At(7001));
    PlanRefreshes(BOTH, Visitor(8, At(7001)), At(7001), 1);
    assert [StoredVisitor(7, 0)] + [StoredVisitor(8, 7001)] == SET_BACK.list;
    RecentsOfTwo(StoredVisitor(7, 0), StoredVisitor(8, 7001), At(7001));
    assert BOTH.list[1 := StoredVisitor(8, 7001)] == SET_BACK.list;
  }

  lemma FirstIsCountedAgain()
    ensures Plan(Some(SET_BACK), Visitor(7, At(7300)), At(7300)) == Success(Request(Some(2), AGAIN))
  {
    LoadBoth(0, 7001, 7300);
    StoreAt(7, 7300);
    RoomForOne(SET_BACK, Visitor(7, At(7300)), At(7300));
    PlanPushes(SET_BACK, Visitor(7, At(7300)), At(7300));
    assert [] + [StoredVisitor(8, 7001)] + [StoredVisitor(7, 7300)] == AGAIN.list;
    RecentsOfTwo(StoredVisitor(7, 0), StoredVisitor(8, 7001), At(7300));
  }

  /** Nobody from the k-th process on has read yet. */
  ghost predicate Waiting(s: State, k: nat) {
    |s.procs| == 5 &&
    forall j :: k <= j < 5 ==> s.procs[j].inv == Start(FiveVisits()[j].visitor, FiveVisits()[j].now)
  }

  /** The first two visits, one after the other. */
  lemma BothCome() returns (steps: seq<Step>)
    ensures var s := Exec(Init(FiveVisits()), steps);
            && Waiting(s, 2) && |s.history| == 2
            && s.history[0].writer == 0 && s.history[1].writer == 1
            && s.history[1].request.version == BOTH
  {
    hide Plan, Exec, Do;
    var s0 := Init(FiveVisits());
    PlanForNone(7, 0);
    SecondPushes();
    assert Exec(s0, []) == s0 by { ExecOfNone(s0); }
    var t0, t1: Ticket;
    steps, t0 := Sends(s0, [], 0, 0, Request(None, FIRST));
    steps := Commits(s0, steps, t0);
    steps, t1 := Sends(s0, steps, 1, 1, Request(Some(1), BOTH));
    steps := Commits(s0, steps, t1);
  }

  /**
   Both visitors read the same version and refresh. The first one's put commits, and then the
   second one's, at the same count, sets the first one's time back to 0. So the first is counted
   again 300 seconds after its last visit. Every clock is in the order of the commits.
   */
  lemma RefreshIsOverwritten() returns (steps: seq<Step>)
    ensures var s := Exec(Init(FiveVisits()), steps);
            && |s.history| == 5
            && (forall i :: 0 <= i < 5 ==> s.history[i].writer == i)
            && (forall i, j :: 0 <= i <= j < 5 ==> FiveVisits()[i].now <= FiveVisits()[j].now)
            && s.history[2].request.version == REFRESHED
            && s.history[3].base == 2 && s.history[3].request.version == SET_BACK
            && Counts(s.history, 4) && s.history[4].request.version == AGAIN
            && FinalCount(s) == 3
  {
    hide Plan, Exec, Do;
    var s0 := Init(FiveVisits());
    FirstRefreshes();
    SecondRefreshes();
    FirstIsCountedAgain();
    var t2, t3, t4: Ticket;
    steps := BothCome();
    steps, t2 := Sends(s0, steps, 2, 2, Request(Some(2), REFRESHED));
    steps, t3 := Sends(s0, steps, 3, 2, Request(Some(2), SET_BACK));
    steps := Commits(s0, steps, t2);
    steps := Commits(s0, steps, t3);
    steps, t4 := Sends(s0, steps, 4, 4, Request(Some(2), AGAIN));
    steps := Commits(s0, steps, t4);
  }
}
