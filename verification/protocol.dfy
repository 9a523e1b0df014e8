/**
 Every interleaving of any number of invocations on one counter's item (src/store.rs). Reads may
 return any version the item ever had. A put, once sent, may commit at any later time its
 condition holds, any number of times, and what it reports need not be what happened: the
 client's own retries and timeouts do all of this. Only a success is never reported falsely.
 */
module Protocol {
  import opened Wrappers
  import opened Visitors
  import Cbor
  import opened CountEntries
  import opened Updates
  import opened Invocations
  import opened Histories

  /** An invocation, and the last put it sent. */
  datatype Process = Process(inv: Invocation, ticket: Option<Ticket>)

  datatype State = State(history: History, sent: set<Ticket>, procs: seq<Process>)

  datatype Step =
    | Read(k: nat, base: nat)
    | FailRead(k: nat, error: ReadError)
    | Commit(ticket: Ticket)
    | Report(k: nat, report: Report)

  function Init(visits: seq<Visit>): State {
    State([], {}, seq(|visits|, k requires 0 <= k < |visits| =>
                        Process(Start(visits[k].visitor, visits[k].now), None)))
  }

  predicate IsReading(s: State, k: nat) {
    k < |s.procs| && s.procs[k].inv.phase.Reading?
  }

  predicate IsPutting(s: State, k: nat) {
    k < |s.procs| && s.procs[k].inv.phase.Putting?
  }

  /** The process takes the version it read, and sends the put it computes from it, if any. */
  function DoRead(s: State, k: nat, base: nat): State
    requires IsReading(s, k) && base <= |s.history|
  {
    var inv := OnRead(s.procs[k].inv, Success(VersionAt(s.history, base)));
    if inv.phase.Putting? then
      var ticket := Ticket(k, inv.attempt, base, inv.phase.request);
      State(s.history, s.sent + {ticket}, s.procs[k := Process(inv, Some(ticket))])
    else
      s.(procs := s.procs[k := s.procs[k].(inv := inv)])
  }

  /** Takes a step if it is possible, and otherwise does nothing. */
  function Do(s: State, step: Step): State {
    match step
    case Read(k, base) =>
      if IsReading(s, k) && base <= |s.history| then DoRead(s, k, base) else s
    case FailRead(k, error) =>
      if IsReading(s, k)
      then s.(procs := s.procs[k := s.procs[k].(inv := OnRead(s.procs[k].inv, Failure(error)))])
      else s
    case Commit(ticket) =>
      if ticket in s.sent && Admits(ticket.request, VersionAt(s.history, |s.history|))
      then s.(history := s.history + [ticket]) else s
    case Report(k, report) =>
      if IsPutting(s, k) && (report.Accepted? ==> s.procs[k].ticket.Some? && s.procs[k].ticket.value in s.history)
      then s.(procs := s.procs[k := s.procs[k].(inv := OnReport(s.procs[k].inv, report))])
      else s
  }

  function Exec(s: State, steps: seq<Step>): State {
    if steps == [] then s else Do(Exec(s, steps[..|steps| - 1]), steps[|steps| - 1])
  }

  lemma ExecOneMore(s: State, steps: seq<Step>, step: Step)
    ensures Exec(s, steps + [step]) == Do(Exec(s, steps), step)
  {
    assert (steps + [step])[..|steps|] == steps;
  }

  /** A process that reads a version it can use sends the put it computes from it. */
  lemma ReadThenSend(s: State, k: nat, base: nat, request: Request)
    requires IsReading(s, k) && base <= |s.history|
    requires Plan(VersionAt(s.history, base), s.procs[k].inv.visitor, s.procs[k].inv.now) == Success(request)
    ensures var t := Ticket(k, s.procs[k].inv.attempt, base, request);
            var s' := Do(s, Read(k, base));
            && s'.history == s.history && s'.sent == s.sent + {t}
            && |s'.procs| == |s.procs|
            && s'.procs[k] == Process(s.procs[k].inv.(phase := Putting(request)), Some(t))
            && forall j :: 0 <= j < |s.procs| && j != k ==> s'.procs[j] == s.procs[j]
  {
  }

  lemma ExecOfNone(s: State)
    ensures Exec(s, []) == s
  {
  }

  /** A process reads and sends its put. */
  lemma Sends(s0: State, steps: seq<Step>, k: nat, base: nat, request: Request) returns (longer: seq<Step>, t: Ticket)
    requires var s := Exec(s0, steps);
             && IsReading(s, k) && base <= |s.history|
             && Plan(VersionAt(s.history, base), s.procs[k].inv.visitor, s.procs[k].inv.now) == Success(request)
    ensures longer == steps + [Read(k, base)]
    ensures var s, s' := Exec(s0, steps), Exec(s0, longer);
            && t == Ticket(k, s.procs[k].inv.attempt, base, request)
            && s'.history == s.history && s'.sent == s.sent + {t}
            && |s'.procs| == |s.procs|
            && s'.procs[k] == Process(s.procs[k].inv.(phase := Putting(request)), Some(t))
            && forall j :: 0 <= j < |s.procs| && j != k ==> s'.procs[j] == s.procs[j]
  {
    hide Plan, VersionAt;
    t := Ticket(k, Exec(s0, steps).procs[k].inv.attempt, base, request);
    ReadThenSend(Exec(s0, steps), k, base, request);
    longer := steps + [Read(k, base)];
    ExecOneMore(s0, steps, Read(k, base));
  }

  /** A put commits. */
  lemma Commits(s0: State, steps: seq<Step>, t: Ticket) returns (longer: seq<Step>)
    requires var s := Exec(s0, steps);
             t in s.sent && Admits(t.request, VersionAt(s.history, |s.history|))
    ensures longer == steps + [Commit(t)]
    ensures var s := Exec(s0, steps); Exec(s0, longer) == s.(history := s.history + [t])
  {
    longer := steps + [Commit(t)];
    ExecOneMore(s0, steps, Commit(t));
  }

  // ---- The invariant ----

  ghost predicate ProcessOk(s: State, visits: seq<Visit>, k: nat)
    requires k < |s.procs| && k < |visits|
  {
    var p := s.procs[k];
    && p.inv.visitor == visits[k].visitor && p.inv.now == visits[k].now
    && (p.ticket.Some? ==> p.ticket.value in s.sent && p.ticket.value.writer == k)
    && (!p.inv.phase.Done? ==> p.inv.attempt < MAX_ATTEMPTS_FOR_OPTIMISTIC_LOCKING)
    && (p.inv.phase.Putting? ==> p.ticket.Some? && p.ticket.value.request == p.inv.phase.request)
    && (p.inv.phase.Done? && p.inv.phase.outcome.Returned? ==>
          && p.ticket.Some? && p.ticket.value in s.history
          && p.ticket.value.request.version.count == p.inv.phase.outcome.count)
  }

  ghost predicate Valid(s: State, visits: seq<Visit>) {
    && |s.procs| == |visits|
    && (forall k :: 0 <= k < |visits| ==> ProcessOk(s, visits, k))
    && (forall t :: t in s.sent ==> Issued(s.history, visits, t))
    && (forall t :: t in s.history ==> t in s.sent)
    && Legal(s.history, visits)
  }

  lemma ReadKeepsValid(s: State, visits: seq<Visit>, k: nat, base: nat)
    requires Valid(s, visits) && IsReading(s, k) && base <= |s.history|
    ensures Valid(DoRead(s, k, base), visits)
  {
    hide Plan;
    var s' := DoRead(s, k, base);
    assert ProcessOk(s, visits, k);
    forall j | 0 <= j < |visits|
      ensures ProcessOk(s', visits, j)
    {
      assert ProcessOk(s, visits, j);
    }
  }

  lemma LegalOneMore(h: History, visits: seq<Visit>, t: Ticket)
    requires Legal(h, visits) && Issued(h, visits, t) && Admits(t.request, VersionAt(h, |h|))
    ensures Legal(h + [t], visits)
    ensures forall i :: 0 <= i <= |h| ==> VersionAt(h + [t], i) == VersionAt(h, i)
    ensures forall u :: Issued(h, visits, u) ==> Issued(h + [t], visits, u)
  {
    hide Plan;
    var h' := h + [t];
    forall i | 0 <= i < |h'|
      ensures LegalCommit(h', visits, i)
    {
      if i < |h| {
        assert LegalCommit(h, visits, i);
      }
    }
  }

  lemma StepKeepsValid(s: State, visits: seq<Visit>, step: Step)
    requires Valid(s, visits)
    ensures Valid(Do(s, step), visits)
  {
    hide Plan;
    var s' := Do(s, step);
    match step
    case Read(k, base) =>
      if IsReading(s, k) && base <= |s.history| {
        ReadKeepsValid(s, visits, k, base);
      }
    case FailRead(k, error) =>
      forall j | 0 <= j < |visits|
        ensures ProcessOk(s', visits, j)
      {
        assert ProcessOk(s, visits, j);
      }
    case Commit(t) =>
      if t in s.sent && Admits(t.request, VersionAt(s.history, |s.history|)) {
        LegalOneMore(s.history, visits, t);
        forall j | 0 <= j < |visits|
          ensures ProcessOk(s', visits, j)
        {
          assert ProcessOk(s, visits, j);
        }
      }
    case Report(k, report) =>
      forall j | 0 <= j < |visits|
        ensures ProcessOk(s', visits, j)
      {
        assert ProcessOk(s, visits, j);
      }
  }

  /** Every run keeps the invariant. */
  lemma {:induction false} RunIsValid(visits: seq<Visit>, steps: seq<Step>)
    ensures Valid(Exec(Init(visits), steps), visits)
  {
    if steps == [] {
      forall k | 0 <= k < |visits|
        ensures ProcessOk(Init(visits), visits, k)
      {
      }
    } else {
      RunIsValid(visits, steps[..|steps| - 1]);
      StepKeepsValid(Exec(Init(visits), steps[..|steps| - 1]), visits, steps[|steps| - 1]);
    }
  }

  // ---- Safety over every run ----

  /** The count an observer reads at the end of a run. */
  function FinalCount(s: State): nat {
    CountAt(s.history, |s.history|)
  }

  lemma {:induction false} HistoryGrows(s: State, steps: seq<Step>, more: seq<Step>)
    ensures Exec(s, steps).history <= Exec(s, steps + more).history
  {
    if more == [] {
      assert steps + more == steps;
    } else {
      var front := more[..|more| - 1];
      HistoryGrows(s, steps, front);
      assert (steps + more)[..|steps + more| - 1] == steps + front;
    }
  }

  /**
   No counted visit is lost. In every run the count is the number of commits that counted a
   visitor, and no continuation of the run makes it smaller.
   */
  lemma NoCountedVisitIsLost(visits: seq<Visit>, steps: seq<Step>, more: seq<Step>)
    ensures var s, later := Exec(Init(visits), steps), Exec(Init(visits), steps + more);
            && FinalCount(s) == Counted(s.history, 0, |s.history|)
            && s.history <= later.history
            && FinalCount(s) <= FinalCount(later)
  {
    var s, later := Exec(Init(visits), steps), Exec(Init(visits), steps + more);
    RunIsValid(visits, steps);
    RunIsValid(visits, steps + more);
    HistoryGrows(Init(visits), steps, more);
    CountGrows(s.history, visits, 0, |s.history|);
    CountGrows(later.history, visits, |s.history|, |later.history|);
    assert CountAt(later.history, |s.history|) == FinalCount(s);
  }

  /** The invocation returned a number that its put had counted it for. */
  predicate ReturnedCounted(s: State, k: nat) {
    && k < |s.procs|
    && s.procs[k].inv.phase.Done? && s.procs[k].inv.phase.outcome.Returned?
    && s.procs[k].ticket.Some? && s.procs[k].ticket.value.request.Counts()
  }

  function ReturnedNumber(s: State, k: nat): nat
    requires ReturnedCounted(s, k)
  {
    s.procs[k].inv.phase.outcome.count
  }

  /** Every commit was acknowledged to the invocation that sent it, which returned. */
  predicate AllAcknowledged(s: State) {
    forall t :: t in s.history ==>
      && t.writer < |s.procs|
      && s.procs[t.writer].ticket == Some(t)
      && s.procs[t.writer].inv.phase.Done? && s.procs[t.writer].inv.phase.outcome.Returned?
  }

  /** Counted invocations that return get different numbers between 1 and the count. */
  lemma ReturnedNumbersDiffer(visits: seq<Visit>, steps: seq<Step>, k: nat, l: nat)
    requires var s := Exec(Init(visits), steps); ReturnedCounted(s, k) && ReturnedCounted(s, l)
    ensures var s := Exec(Init(visits), steps);
            && 1 <= ReturnedNumber(s, k) <= FinalCount(s)
            && (ReturnedNumber(s, k) == ReturnedNumber(s, l) <==> k == l)
  {
    hide Plan;
    var s := Exec(Init(visits), steps);
    RunIsValid(visits, steps);
    assert ProcessOk(s, visits, k) && ProcessOk(s, visits, l);
    var i :| 0 <= i < |s.history| && s.history[i] == s.procs[k].ticket.value;
    var j :| 0 <= j < |s.history| && s.history[j] == s.procs[l].ticket.value;
    CountedNumbers(s.history, visits, if i <= j then i else j, if i <= j then j else i);
    CountedNumbers(s.history, visits, i, i);
  }

  /** When every commit is acknowledged they get all of these numbers, each exactly once. */
  lemma ReturnedNumbersCover(visits: seq<Visit>, steps: seq<Step>, n: nat) returns (k: nat)
    requires AllAcknowledged(Exec(Init(visits), steps))
    requires 1 <= n <= FinalCount(Exec(Init(visits), steps))
    ensures var s := Exec(Init(visits), steps);
            && ReturnedCounted(s, k) && ReturnedNumber(s, k) == n
            && forall l :: ReturnedCounted(s, l) && ReturnedNumber(s, l) == n ==> l == k
  {
    hide Plan;
    var s := Exec(Init(visits), steps);
    RunIsValid(visits, steps);
    var i := NumberIsCounted(s.history, visits, n, |s.history|);
    assert s.history[i] in s.history;
    k := s.history[i].writer;
    assert ProcessOk(s, visits, k);
    forall l | ReturnedCounted(s, l) && ReturnedNumber(s, l) == n
      ensures l == k
    {
      ReturnedNumbersDiffer(visits, steps, l, k);
    }
  }

  /** Within one window a run counts each visitor once, whatever was retried or lost on the way. */
  lemma RunCountsDistinctVisitors(visits: seq<Visit>, steps: seq<Step>)
    requires WithinWindow(Exec(Init(visits), steps).history, visits)
    requires |AllTags(visits)| <= Cbor.MAX_RECENT_VISITORS
    ensures var s := Exec(Init(visits), steps);
            && Legal(s.history, visits)
            && FinalCount(s) == |CommittedTags(s.history, visits, |s.history|)|
            && TagsOf(VersionAt(s.history, |s.history|)) == CommittedTags(s.history, visits, |s.history|)
  {
    RunIsValid(visits, steps);
    CountIsDistinctVisitors(Exec(Init(visits), steps).history, visits);
  }

  /** In particular if the clocks of the visits are close, which can be checked before the run. */
  lemma CloseRunCountsDistinctVisitors(visits: seq<Visit>, steps: seq<Step>)
    requires ClocksClose(visits) && |AllTags(visits)| <= Cbor.MAX_RECENT_VISITORS
    ensures var s := Exec(Init(visits), steps);
            && Legal(s.history, visits)
            && FinalCount(s) == |CommittedTags(s.history, visits, |s.history|)|
  {
    RunIsValid(visits, steps);
    CloseClocksAreWithinWindow(Exec(Init(visits), steps).history, visits);
    RunCountsDistinctVisitors(visits, steps);
  }

  /**
   In every run every version has distinct tags, fits an item, and holds no time after its
   writer's clock, unless it is the first, which holds the time its writer was seen.
   */
  lemma RunVersionsFit(visits: seq<Visit>, steps: seq<Step>, i: nat)
    requires i < |Exec(Init(visits), steps).history|
    ensures var t := Exec(Init(visits), steps).history[i];
            && t.writer < |visits|
            && Distinct(t.request.version.list)
            && |t.request.version.list| <= Cbor.MAX_RECENT_VISITORS
            && |Cbor.Encode(t.request.version.list)|
               <= Cbor.DYNAMO_MAX_ITEM_SIZE_BYTES - Cbor.RESERVED_NON_VALUE_SIZE_BYTES
            && (forall v :: v in t.request.version.list ==>
                  StoredTime(v.lastSeen) <= if i == 0 then visits[t.writer].visitor.lastSeen else visits[t.writer].now)
  {
    hide Plan, Cbor.Encode;
    RunIsValid(visits, steps);
    EveryVersionFits(Exec(Init(visits), steps).history, visits, i);
  }

  /**
   In every run a tag that the p-th commit counted and left on the list is on the list after the
   q-th, or some writer between them read it and pruned it: as stale by its clock, or for room.
   */
  lemma RunLosesTagsOnlyToPrunes(visits: seq<Visit>, steps: seq<Step>, p: nat, q: nat, tag: u32) returns (i: nat)
    requires p < q <= |Exec(Init(visits), steps).history| && Counts(Exec(Init(visits), steps).history, p)
    requires tag in TagsOf(VersionAt(Exec(Init(visits), steps).history, p + 1))
    ensures var h := Exec(Init(visits), steps).history;
            tag !in TagsOf(VersionAt(h, q)) ==>
              && p < i < q && LegalCommit(h, visits, i) && Drops(h, visits, i, tag)
              && var base, visit := VersionAt(h, h[i].base), visits[h[i].writer];
                 StaleIn(base.value.list, tag, visit.now) || Crowded(base, visit.visitor, visit.now)
  {
    hide Plan;
    RunIsValid(visits, steps);
    i := CountedTagIsPrunedOrThere(Exec(Init(visits), steps).history, visits, p, q, tag);
  }

  /** No writer from the p-th commit to the q-th found the list crowded, or had a later clock than the q-th. */
  ghost predicate RoomyInOrder(h: History, visits: seq<Visit>, p: nat, q: nat)
    requires p <= q < |h| && Legal(h, visits)
  {
    forall i :: p <= i <= q ==>
      && LegalCommit(h, visits, i) && LegalCommit(h, visits, q)
      && var base, visit := VersionAt(h, h[i].base), visits[h[i].writer];
         !Crowded(base, visit.visitor, visit.now) && visit.now <= visits[h[q].writer].now
  }

  /**
   In every run a visitor is counted once per window: two commits that count it are a cutoff apart,
   to the second, unless a writer between them found the list crowded or had a clock out of order.
   */
  lemma RunCountsOncePerWindow(visits: seq<Visit>, steps: seq<Step>, p: nat, q: nat)
    requires var h := Exec(Init(visits), steps).history; p < q < |h| && Counts(h, p) && Counts(h, q)
    ensures var h := Exec(Init(visits), steps).history;
            && Legal(h, visits) && LegalCommit(h, visits, p) && LegalCommit(h, visits, q)
            && var first, second := visits[h[p].writer], visits[h[q].writer];
               first.visitor.tag == second.visitor.tag && RoomyInOrder(h, visits, p, q) ==>
                 second.now - WholeSecond(first.visitor.lastSeen) >= RECENT_CUTOFF
  {
    hide Plan, Crowded;
    RunIsValid(visits, steps);
    var i := CountedOncePerWindow(Exec(Init(visits), steps).history, visits, p, q);
  }

  /** A put in flight overwrites somebody's commits if it may commit although it missed them. */
  predicate Overwrites(s: State, t: Ticket) {
    t.base < |s.history| && Admits(t.request, VersionAt(s.history, |s.history|))
  }

  /** In every run a put overwrites commits exactly if it missed some and all of them are refreshes. */
  lemma OverwritesOnlyRefreshes(visits: seq<Visit>, steps: seq<Step>, t: Ticket)
    requires t in Exec(Init(visits), steps).sent
    ensures var s := Exec(Init(visits), steps);
            && t.base <= |s.history|
            && (Overwrites(s, t) <==>
                  t.base < |s.history| && forall i :: t.base <= i < |s.history| ==> !Counts(s.history, i))
  {
    hide Plan;
    RunIsValid(visits, steps);
    AdmittedExactly(Exec(Init(visits), steps).history, visits, t);
  }
}
