/**
 Runs in which reads return the current version and every put is answered by what happened to it.
 How an invocation can come to give up (src/store.rs, lines 450 to 488).
 */
module ExactRuns {
  import opened Wrappers
  import opened CountEntries
  import opened Invocations
  import opened Histories
  import opened Protocol

  datatype Move = Fetch(k: nat) | Send(k: nat)

  /** An atomic conditional put, with its answer. */
  function DoSend(s: State, k: nat): State {
    if IsPutting(s, k) && s.procs[k].ticket.Some? then
      var t := s.procs[k].ticket.value;
      if Admits(t.request, VersionAt(s.history, |s.history|))
      then Do(Do(s, Commit(t)), Report(k, Accepted))
      else Do(s, Report(k, ConditionalCheckFailed))
    else s
  }

  function DoMove(s: State, move: Move): State {
    match move
    case Fetch(k) => Do(s, Read(k, |s.history|))
    case Send(k) => DoSend(s, k)
  }

  function ExecMoves(s: State, moves: seq<Move>): State {
    if moves == [] then s else DoMove(ExecMoves(s, moves[..|moves| - 1]), moves[|moves| - 1])
  }

  /** Exact runs are runs: each is some sequence of the protocol's steps. */
  lemma {:induction false} MovesAreSteps(s: State, moves: seq<Move>) returns (steps: seq<Step>)
    ensures ExecMoves(s, moves) == Exec(s, steps)
  {
    if moves == [] {
      steps := [];
    } else {
      var before := MovesAreSteps(s, moves[..|moves| - 1]);
      var here := Exec(s, before);
      match moves[|moves| - 1]
      case Fetch(k) =>
        steps := before + [Read(k, |here.history|)];
        assert steps[..|steps| - 1] == before;
      case Send(k) =>
        if IsPutting(here, k) && here.procs[k].ticket.Some? {
          var t := here.procs[k].ticket.value;
          if Admits(t.request, VersionAt(here.history, |here.history|)) {
            var committed := before + [Commit(t)];
            assert committed[..|before|] == before;
            steps := committed + [Report(k, Accepted)];
            assert steps[..|committed|] == committed;
          } else {
            steps := before + [Report(k, ConditionalCheckFailed)];
            assert steps[..|before|] == before;
          }
        } else {
          steps := before;
        }
    }
  }

  predicate GaveUp(s: State, k: nat) {
    k < |s.procs| && s.procs[k].inv.phase == Done(MaxAttemptsExceeded)
  }

  /** The first put of an invocation; its base is where the invocation first read. */
  predicate FirstPut(s: State, k: nat, t: Ticket) {
    t in s.sent && t.writer == k && t.attempt == 0
  }

  /** Since its first read an invocation has seen a counted commit for every failed attempt. */
  ghost predicate Progress(s: State, k: nat) {
    k < |s.procs| &&
    var p := s.procs[k];
    && (p.inv.attempt > 0 || p.inv.phase.Putting? ==> exists t :: FirstPut(s, k, t))
    && (p.inv.phase.Reading? && p.inv.attempt == 0 ==> forall t :: t in s.sent ==> t.writer != k)
    && (p.inv.phase.Putting? ==>
          && p.ticket.Some? && p.ticket.value.base <= |s.history|
          && forall t :: FirstPut(s, k, t) ==>
               t.base <= p.ticket.value.base && Counted(s.history, t.base, p.ticket.value.base) >= p.inv.attempt)
    && (p.inv.phase.Reading? || GaveUp(s, k) ==>
          forall t :: FirstPut(s, k, t) ==>
            t.base <= |s.history| && Counted(s.history, t.base, |s.history|) >= p.inv.attempt)
    && (GaveUp(s, k) ==> p.inv.attempt == MAX_ATTEMPTS_FOR_OPTIMISTIC_LOCKING)
  }

  ghost predicate DistinctWriters(h: History) {
    forall i, j :: 0 <= i < j < |h| ==> h[i].writer != h[j].writer
  }

  ghost predicate Exact(s: State, visits: seq<Visit>) {
    && Valid(s, visits)
    && AllAcknowledged(s)
    && DistinctWriters(s.history)
    && forall k :: 0 <= k < |s.procs| ==> Progress(s, k)
  }

  lemma {:induction false} CountedSplits(h: History, i: nat, j: nat, m: nat)
    requires i <= j <= m <= |h|
    ensures Counted(h, i, m) == Counted(h, i, j) + Counted(h, j, m)
    decreases m - j
  {
    if j < m {
      CountedSplits(h, i, j, m - 1);
    }
  }

  lemma {:induction false} CountedOfPrefix(h: History, longer: History, i: nat, j: nat)
    requires h <= longer && i <= j <= |h|
    ensures Counted(longer, i, j) == Counted(h, i, j)
    decreases j - i
  {
    if i < j {
      CountedOfPrefix(h, longer, i, j - 1);
    }
  }

  /** A longer history and other invocations' puts take no progress away. */
  lemma ProgressStays(s: State, s': State, j: nat)
    requires j < |s.procs| == |s'.procs| && Progress(s, j)
    requires s'.procs[j] == s.procs[j] && s.history <= s'.history
    requires forall t: Ticket :: t.writer == j ==> (t in s'.sent <==> t in s.sent)
    ensures Progress(s', j)
  {
    var p := s.procs[j];
    if t :| FirstPut(s, j, t) {
      assert FirstPut(s', j, t);
    }
    forall t | FirstPut(s', j, t) && t.base <= |s.history|
      ensures FirstPut(s, j, t)
      ensures Counted(s'.history, t.base, |s'.history|) >= Counted(s.history, t.base, |s.history|)
      ensures forall base :: t.base <= base <= |s.history| ==>
                Counted(s'.history, t.base, base) == Counted(s.history, t.base, base)
    {
      forall base | t.base <= base <= |s.history|
        ensures Counted(s'.history, t.base, base) == Counted(s.history, t.base, base)
      {
        CountedOfPrefix(s.history, s'.history, t.base, base);
      }
      CountedSplits(s'.history, t.base, |s.history|, |s'.history|);
    }
    forall t | FirstPut(s', j, t)
      ensures FirstPut(s, j, t)
    {
    }
  }

  /** The reader's own progress: its first put, if this is it, starts here. */
  lemma FetchProgress(s: State, k: nat)
    requires IsReading(s, k) && Progress(s, k)
    ensures Progress(DoRead(s, k, |s.history|), k)
  {
    hide Plan;
    var s' := DoRead(s, k, |s.history|);
    if s'.procs[k].inv.phase.Putting? {
      var ticket := s'.procs[k].ticket.value;
      if s.procs[k].inv.attempt == 0 {
        assert FirstPut(s', k, ticket);
        assert forall t :: FirstPut(s', k, t) ==> t == ticket;
      } else {
        var t :| FirstPut(s, k, t);
        assert FirstPut(s', k, t);
        assert forall t :: FirstPut(s', k, t) ==> FirstPut(s, k, t);
      }
    } else if t :| FirstPut(s, k, t) {
      assert FirstPut(s', k, t);
    }
  }

  lemma FetchKeepsExact(s: State, visits: seq<Visit>, k: nat)
    requires Exact(s, visits) && IsReading(s, k)
    ensures Exact(DoRead(s, k, |s.history|), visits)
  {
    hide Plan, OnRead;
    var s' := DoRead(s, k, |s.history|);
    ReadKeepsValid(s, visits, k, |s.history|);
    forall j | 0 <= j < |s.procs|
      ensures Progress(s', j)
    {
      assert Progress(s, j);
      if j == k {
        FetchProgress(s, k);
      } else {
        ProgressStays(s, s', j);
      }
    }
  }

  /** A refused put's own progress: the commit that failed its condition is one more counted. */
  lemma RefusedProgress(s: State, k: nat)
    requires IsPutting(s, k) && s.procs[k].ticket.Some? && Progress(s, k)
    requires s.procs[k].inv.attempt < MAX_ATTEMPTS_FOR_OPTIMISTIC_LOCKING
    requires Counted(s.history, s.procs[k].ticket.value.base, |s.history|) > 0
    ensures Progress(Do(s, Report(k, ConditionalCheckFailed)), k)
  {
    var s' := Do(s, Report(k, ConditionalCheckFailed));
    var ticket := s.procs[k].ticket.value;
    if t :| FirstPut(s, k, t) {
      assert FirstPut(s', k, t);
    }
    forall t | FirstPut(s', k, t)
      ensures t.base <= |s.history| && Counted(s.history, t.base, |s.history|) >= s'.procs[k].inv.attempt
    {
      assert FirstPut(s, k, t);
      CountedSplits(s.history, t.base, ticket.base, |s.history|);
    }
  }

  /** A put is refused only if something was counted since the version it was computed from. */
  lemma RefusedMissedOne(s: State, visits: seq<Visit>, k: nat)
    requires Valid(s, visits) && IsPutting(s, k) && s.procs[k].ticket.Some?
    requires !Admits(s.procs[k].ticket.value.request, VersionAt(s.history, |s.history|))
    ensures s.procs[k].ticket.value.base <= |s.history|
    ensures Counted(s.history, s.procs[k].ticket.value.base, |s.history|) > 0
  {
    hide Plan;
    var ticket := s.procs[k].ticket.value;
    assert ProcessOk(s, visits, k);
    AdmittedExactly(s.history, visits, ticket);
    CountedPositive(s.history, ticket.base, |s.history|);
  }

  lemma RefusedKeepsExact(s: State, visits: seq<Visit>, k: nat)
    requires Exact(s, visits) && IsPutting(s, k)
    requires s.procs[k].ticket.Some? && !Admits(s.procs[k].ticket.value.request, VersionAt(s.history, |s.history|))
    ensures Exact(Do(s, Report(k, ConditionalCheckFailed)), visits)
  {
    hide Plan;
    var s' := Do(s, Report(k, ConditionalCheckFailed));
    StepKeepsValid(s, visits, Report(k, ConditionalCheckFailed));
    forall j | 0 <= j < |s.procs|
      ensures Progress(s', j)
    {
      assert Progress(s, j);
      if j == k {
        RefusedMissedOne(s, visits, k);
        assert ProcessOk(s, visits, k);
        RefusedProgress(s, k);
      } else {
        ProgressStays(s, s', j);
      }
    }
  }

  /** The state after an accepted put: one more commit, and its process has returned. */
  lemma AcceptedState(s: State, visits: seq<Visit>, k: nat)
    requires Valid(s, visits) && IsPutting(s, k) && s.procs[k].ticket.Some?
    requires Admits(s.procs[k].ticket.value.request, VersionAt(s.history, |s.history|))
    ensures var s', t := DoSend(s, k), s.procs[k].ticket.value;
            && Valid(s', visits)
            && t.writer == k
            && s'.history == s.history + [t] && s'.sent == s.sent && |s'.procs| == |s.procs|
            && s'.procs[k] == Process(s.procs[k].inv.(phase := Done(Returned(t.request.version.count))), Some(t))
            && forall j :: 0 <= j < |s.procs| && j != k ==> s'.procs[j] == s.procs[j]
  {
    hide Plan, Admits;
    var t := s.procs[k].ticket.value;
    assert ProcessOk(s, visits, k);
    StepKeepsValid(s, visits, Commit(t));
    StepKeepsValid(Do(s, Commit(t)), visits, Report(k, Accepted));
  }

  /** The commit is acknowledged, and is its writer's first. */
  lemma AcceptedIsAcknowledged(s: State, s': State, k: nat, t: Ticket)
    requires AllAcknowledged(s) && DistinctWriters(s.history) && IsPutting(s, k) && t.writer == k
    requires s'.history == s.history + [t] && |s'.procs| == |s.procs|
    requires s'.procs[k].ticket == Some(t) && s'.procs[k].inv.phase.Done? && s'.procs[k].inv.phase.outcome.Returned?
    requires forall j :: 0 <= j < |s.procs| && j != k ==> s'.procs[j] == s.procs[j]
    ensures AllAcknowledged(s') && DistinctWriters(s'.history)
  {
  }

  lemma AcceptedKeepsExact(s: State, visits: seq<Visit>, k: nat)
    requires Exact(s, visits) && IsPutting(s, k) && s.procs[k].ticket.Some?
    requires Admits(s.procs[k].ticket.value.request, VersionAt(s.history, |s.history|))
    ensures Exact(DoSend(s, k), visits)
  {
    hide Admits, VersionAt, Valid, AllAcknowledged, DistinctWriters;
    var s' := DoSend(s, k);
    AcceptedState(s, visits, k);
    hide DoSend;
    AcceptedIsAcknowledged(s, s', k, s.procs[k].ticket.value);
    forall j | 0 <= j < |s.procs|
      ensures Progress(s', j)
    {
      assert Progress(s, j);
      if j == k {
        AcceptedProgress(s, s', k);
      } else {
        ProgressStays(s, s', j);
      }
    }
  }

  lemma AcceptedProgress(s: State, s': State, k: nat)
    requires Progress(s, k) && IsPutting(s, k) && k < |s'.procs| && s'.sent == s.sent
    requires s'.procs[k].inv.phase.Done? && s'.procs[k].inv.phase.outcome.Returned?
    ensures Progress(s', k)
  {
    var t :| FirstPut(s, k, t);
    assert FirstPut(s', k, t);
  }

  lemma {:induction false} RunIsExact(visits: seq<Visit>, moves: seq<Move>)
    ensures Exact(ExecMoves(Init(visits), moves), visits)
  {
    if moves == [] {
      RunIsValid(visits, []);
      forall k | 0 <= k < |visits|
        ensures Progress(Init(visits), k)
      {
      }
    } else {
      var before := moves[..|moves| - 1];
      RunIsExact(visits, before);
      var s := ExecMoves(Init(visits), before);
      match moves[|moves| - 1]
      case Fetch(k) =>
        if IsReading(s, k) {
          FetchKeepsExact(s, visits, k);
        }
      case Send(k) =>
        if IsPutting(s, k) && s.procs[k].ticket.Some? {
          if Admits(s.procs[k].ticket.value.request, VersionAt(s.history, |s.history|)) {
            AcceptedKeepsExact(s, visits, k);
          } else {
            RefusedKeepsExact(s, visits, k);
          }
        }
    }
  }

  /** The invocations counted since the i-th commit. */
  function CountedWriters(h: History, i: nat, j: nat): set<nat>
    requires i <= j <= |h|
    decreases j - i
  {
    if i == j then {}
    else if Counts(h, j - 1) then CountedWriters(h, i, j - 1) + {h[j - 1].writer}
    else CountedWriters(h, i, j - 1)
  }

  lemma {:induction false} CommitOf(h: History, i: nat, j: nat, w: nat) returns (m: nat)
    requires i <= j <= |h| && w in CountedWriters(h, i, j)
    ensures i <= m < j && h[m].writer == w
    decreases j - i
  {
    if Counts(h, j - 1) && h[j - 1].writer == w {
      m := j - 1;
    } else {
      m := CommitOf(h, i, j - 1, w);
    }
  }

  lemma FreshWriter(h: History, i: nat, j: nat)
    requires i <= j < |h| && DistinctWriters(h)
    ensures h[j].writer !in CountedWriters(h, i, j)
  {
    if h[j].writer in CountedWriters(h, i, j) {
      var m := CommitOf(h, i, j, h[j].writer);
    }
  }

  lemma {:induction false} CountedWritersAre(h: History, i: nat, j: nat)
    requires i <= j <= |h| && DistinctWriters(h)
    ensures |CountedWriters(h, i, j)| == Counted(h, i, j)
    decreases j - i
  {
    hide DistinctWriters, Counts;
    if i < j {
      CountedWritersAre(h, i, j - 1);
      FreshWriter(h, i, j - 1);
    }
  }

  /** The invocation is at its fifth put, and the put's condition does not hold. */
  ghost predicate RefusedLast(s: State, k: nat) {
    && IsPutting(s, k) && s.procs[k].ticket.Some?
    && s.procs[k].inv.attempt == MAX_ATTEMPTS_FOR_OPTIMISTIC_LOCKING - 1
    && !Admits(s.procs[k].ticket.value.request, VersionAt(s.history, |s.history|))
  }

  /** The move that makes an invocation give up is the refusal of its fifth put. */
  lemma GivesUpOnRefusal(s: State, visits: seq<Visit>, move: Move, k: nat)
    requires Valid(s, visits) && !GaveUp(s, k) && GaveUp(DoMove(s, move), k)
    ensures move == Send(k) && RefusedLast(s, k)
    ensures DoMove(s, move).history == s.history && DoMove(s, move).sent == s.sent
  {
    hide Plan;
    assert ProcessOk(s, visits, k);
  }

  lemma {:induction false} WhenItGaveUp(visits: seq<Visit>, moves: seq<Move>, k: nat) returns (cut: nat)
    requires GaveUp(ExecMoves(Init(visits), moves), k)
    ensures cut < |moves| && moves[cut] == Send(k)
    ensures RefusedLast(ExecMoves(Init(visits), moves[..cut]), k)
    ensures var s, s' := ExecMoves(Init(visits), moves[..cut]), ExecMoves(Init(visits), moves[..cut + 1]);
            GaveUp(s', k) && s'.history == s.history && s'.sent == s.sent
  {
    hide DoMove, RefusedLast;
    cut := |moves| - 1;
    var before := moves[..cut];
    if GaveUp(ExecMoves(Init(visits), before), k) {
      cut := WhenItGaveUp(visits, before, k);
      assert before[..cut] == moves[..cut] && before[..cut + 1] == moves[..cut + 1];
    } else {
      RunIsExact(visits, before);
      GivesUpOnRefusal(ExecMoves(Init(visits), before), visits, moves[cut], k);
      assert moves[..cut + 1] == moves;
    }
  }

  /**
   An invocation gives up when its fifth put is refused, and by then at least five other
   invocations were counted since its first read: a refresh never fails anybody's condition.
   */
  lemma GivingUpSawFiveCounted(visits: seq<Visit>, moves: seq<Move>, k: nat) returns (cut: nat, first: Ticket)
    requires GaveUp(ExecMoves(Init(visits), moves), k)
    ensures cut < |moves| && moves[cut] == Send(k)
    ensures var s := ExecMoves(Init(visits), moves[..cut]);
            && RefusedLast(s, k) && GaveUp(ExecMoves(Init(visits), moves[..cut + 1]), k)
            && FirstPut(s, k, first) && first.base <= |s.history|
            && var others := CountedWriters(s.history, first.base, |s.history|);
               && |others| >= MAX_ATTEMPTS_FOR_OPTIMISTIC_LOCKING
               && k !in others
               && forall w :: w in others ==> w < |visits|
  {
    cut := WhenItGaveUp(visits, moves, k);
    hide DoMove, RefusedLast;
    var s := ExecMoves(Init(visits), moves[..cut + 1]);
    RunIsExact(visits, moves[..cut + 1]);
    assert Progress(s, k);
    first :| FirstPut(s, k, first);
    CountedWritersAre(s.history, first.base, |s.history|);
    forall w | w in CountedWriters(s.history, first.base, |s.history|)
      ensures w != k && w < |visits|
    {
      var m := CommitOf(s.history, first.base, |s.history|, w);
      assert s.history[m] in s.history;
    }
  }

  lemma {:induction false} SetBelow(a: set<nat>, n: nat)
    requires forall x :: x in a ==> x < n
    ensures |a| <= n
  {
    if n > 0 {
      SetBelow(a - {n - 1}, n - 1);
      assert n - 1 !in a ==> a - {n - 1} == a;
    } else {
      assert a == {};
    }
  }

  /** With at most five invocations in all, none gives up. */
  lemma FiveNeverGiveUp(visits: seq<Visit>, moves: seq<Move>, k: nat)
    requires |visits| <= MAX_ATTEMPTS_FOR_OPTIMISTIC_LOCKING
    ensures !GaveUp(ExecMoves(Init(visits), moves), k)
  {
    if GaveUp(ExecMoves(Init(visits), moves), k) {
      var cut, first := GivingUpSawFiveCounted(visits, moves, k);
      var s := ExecMoves(Init(visits), moves[..cut]);
      var others := CountedWriters(s.history, first.base, |s.history|);
      RunIsExact(visits, moves[..cut]);
      SetBelow(others + {k}, |visits|);
    }
  }
}
