/**
 Five other invocations are enough to make a sixth give up: the bound of
 ExactRuns.GivingUpSawFiveCounted cannot be raised (src/store.rs, lines 450 to 488).
 */
module GivingUp {
  import opened Wrappers
  import opened Visitors
  import opened RecentVisitors
  import opened CountEntries
  import opened Invocations
  import opened Histories
  import opened Protocol
  import opened ExactRuns
  import opened Plans

  /** Six visitors at the same time. */
  function SixVisits(): seq<Visit> {
    seq(6, j requires 0 <= j < 6 => Visit(Visitor(j, At(0)), At(0)))
  }

  /** The visitors of the first `i` rounds. */
  function ListAfter(i: nat): seq<StoredVisitor>
    requires i <= 5
  {
    seq(i, j requires 0 <= j < i => StoredVisitor(j + 1, 0))
  }

  function VersionAfter(i: nat): Option<Version>
    requires i <= 5
  {
    if i == 0 then None else Some(Version(i, ListAfter(i)))
  }

  /** The unlucky invocation reads, another one reads and puts, and the put of the first is refused. */
  function Round(i: nat): seq<Move> {
    [Fetch(0), Fetch(i + 1), Send(i + 1), Send(0)]
  }

  function Rounds(n: nat): seq<Move> {
    if n == 0 then [] else Rounds(n - 1) + Round(n - 1)
  }

  /** After `i` rounds `i` visits are counted and the first invocation has failed `i` times. */
  ghost predicate AfterRounds(s: State, i: nat)
    requires i <= 5
  {
    && |s.procs| == 6 && |s.history| == i
    && VersionAt(s.history, i) == VersionAfter(i)
    && s.procs[0].inv
       == Invocation(Visitor(0, At(0)), At(0), i, if i < 5 then Reading else Done(MaxAttemptsExceeded))
    && forall j :: i < j <= 5 ==> s.procs[j].inv == Start(Visitor(j, At(0)), At(0))
  }

  /** Everybody who is not yet on the list counts and pushes. */
  lemma PlanAfter(i: nat, tag: u32)
    requires i <= 5 && (tag == 0 || i < tag)
    ensures Plan(VersionAfter(i), Visitor(tag, At(0)), At(0))
         == Success(Request(if i == 0 then None else Some(i), Version(i + 1, ListAfter(i) + [StoredVisitor(tag, 0)])))
  {
    hide Plan, FirstMatch;
    if i == 0 {
      PlanForNone(tag, 0);
      assert ListAfter(0) + [StoredVisitor(tag, 0)] == [StoredVisitor(tag, 0)];
    } else {
      var base, visitor := VersionAfter(i).value, Visitor(tag, At(0));
      StoreAt(tag, 0);
      RoomForOne(base, visitor, At(0));
      AllAreRecent(base.list, At(0));
      assert FirstMatch(LoadAll(base.list), tag) == None;
      PlanPushes(base, visitor, At(0));
    }
  }

  lemma OneRound(s: State, i: nat)
    requires i < 5 && AfterRounds(s, i)
    ensures AfterRounds(DoMove(DoMove(DoMove(DoMove(s, Fetch(0)), Fetch(i + 1)), Send(i + 1)), Send(0)), i + 1)
  {
    hide Plan;
    PlanAfter(i, 0);
    PlanAfter(i, i + 1);
    var s1 := DoMove(s, Fetch(0));
    var s2 := DoMove(s1, Fetch(i + 1));
    assert s2.procs[0] == s1.procs[0];
    assert s2.procs[0].ticket.Some? && s2.procs[i + 1].ticket.Some?;
    var s3 := DoMove(s2, Send(i + 1));
    assert s3.history == s.history + [s2.procs[i + 1].ticket.value];
    assert s3.procs[0] == s1.procs[0];
    assert ListAfter(i) + [StoredVisitor(i + 1, 0)] == ListAfter(i + 1);
  }

  lemma ExecMoveMore(s: State, moves: seq<Move>, move: Move)
    ensures ExecMoves(s, moves + [move]) == DoMove(ExecMoves(s, moves), move)
  {
  }

  lemma ExecFourMore(s: State, moves: seq<Move>, i: nat)
    ensures ExecMoves(s, moves + Round(i))
         == DoMove(DoMove(DoMove(DoMove(ExecMoves(s, moves), Fetch(0)), Fetch(i + 1)), Send(i + 1)), Send(0))
  {
    hide DoMove;
    var m1 := moves + [Fetch(0)];
    var m2 := m1 + [Fetch(i + 1)];
    var m3 := m2 + [Send(i + 1)];
    var m4 := m3 + [Send(0)];
    ExecMoveMore(s, moves, Fetch(0));
    ExecMoveMore(s, m1, Fetch(i + 1));
    ExecMoveMore(s, m2, Send(i + 1));
    ExecMoveMore(s, m3, Send(0));
    assert moves + Round(i) == m4;
  }

  lemma {:induction false} AfterAllRounds(n: nat)
    requires n <= 5
    ensures AfterRounds(ExecMoves(Init(SixVisits()), Rounds(n)), n)
  {
    if n > 0 {
      AfterAllRounds(n - 1);
      OneRound(ExecMoves(Init(SixVisits()), Rounds(n - 1)), n - 1);
      ExecFourMore(Init(SixVisits()), Rounds(n - 1), n - 1);
    }
  }

  /** One of six invocations can give up, with six visitors at one time. */
  lemma SixthCanGiveUp()
    ensures |SixVisits()| == 6 && forall visit :: visit in SixVisits() ==> visit.now == visit.visitor.lastSeen == At(0)
    ensures GaveUp(ExecMoves(Init(SixVisits()), Rounds(5)), 0)
  {
    AfterAllRounds(5);
  }
}
