/**
 The interleaved runs of Protocol are runs of the loop of Stores.Store.MaybeIncrementVisitors:
 the table's items stand for the versions of the history, and every process of a run does what
 the loop does when the client gives it the answers the process got.
 */
module Bridge {
  import opened Wrappers
  import opened Visitors
  import opened CountEntries
  import opened Updates
  import opened Invocations
  import opened Histories
  import opened Protocol
  import opened Stores
  import Decimal

  /** Every count fits the 64 bits the source has for it. */
  predicate CountsFit(h: History) {
    forall i :: 0 <= i < |h| ==> h[i].request.version.count < Decimal.U64_LIMIT
  }

  lemma VersionIsEncodable(h: History, visits: seq<Visit>, i: nat)
    requires Legal(h, visits) && i < |h|
    ensures Encodable(h[i].request.version)
  {
    hide Plan;
    assert LegalCommit(h, visits, i);
    VersionKeeps(h, visits, h[i].base);
    PlanKeeps(VersionAt(h, h[i].base), visits[h[i].writer].visitor, visits[h[i].writer].now);
  }

  /** The item after the first `i` commits. */
  function ItemAt(name: string, h: History, visits: seq<Visit>, i: nat): Option<Item>
    requires Legal(h, visits) && i <= |h|
  {
    if i == 0 then None
    else
      VersionIsEncodable(h, visits, i - 1);
      Some(ToItem(name, h[i - 1].request.version))
  }

  /**
   On the wire the history is what Protocol says it is: whoever gets the item reads the version,
   and a put's condition expression holds of the item exactly if the put is admitted.
   */
  lemma TableSpeaksForHistory(name: string, h: History, visits: seq<Visit>, i: nat, request: Request)
    requires Legal(h, visits) && CountsFit(h) && i <= |h|
    ensures ReadResponse(GetOutput(ItemAt(name, h, visits, i))) == Success(VersionAt(h, i))
    ensures Meets(ItemAt(name, h, visits, i), ToCondition(request.expected)) <==> Admits(request, VersionAt(h, i))
  {
    hide Plan;
    if i > 0 {
      VersionIsEncodable(h, visits, i - 1);
      ItemRoundTrip(name, h[i - 1].request.version);
    }
    ConditionOnText(name, request, VersionAt(h, i));
  }

  /** The machine after these answers, a get and a put in turn. */
  function Follow(inv: Invocation, gets: seq<GetResponse>, puts: seq<Report>): Invocation
    decreases |gets|
  {
    if gets == [] || !inv.phase.Reading? then inv
    else
      var read := OnRead(inv, ReadResponse(gets[0]));
      if !read.phase.Putting? || puts == [] then read
      else Follow(OnReport(read, puts[0]), gets[1..], puts[1..])
  }

  /** The requests the machine sends on the way. */
  function FollowPuts(inv: Invocation, gets: seq<GetResponse>, puts: seq<Report>): seq<Request>
    decreases |gets|
  {
    if gets == [] || !inv.phase.Reading? then []
    else
      var read := OnRead(inv, ReadResponse(gets[0]));
      if !read.phase.Putting? then []
      else if puts == [] then [read.phase.request]
      else [read.phase.request] + FollowPuts(OnReport(read, puts[0]), gets[1..], puts[1..])
  }

  lemma {:induction false} FollowRead(inv: Invocation, gets: seq<GetResponse>, puts: seq<Report>, g: GetResponse)
    requires |gets| == |puts| && Follow(inv, gets, puts).phase.Reading?
    ensures var read := OnRead(Follow(inv, gets, puts), ReadResponse(g));
            && Follow(inv, gets + [g], puts) == read
            && FollowPuts(inv, gets + [g], puts)
               == FollowPuts(inv, gets, puts) + (if read.phase.Putting? then [read.phase.request] else [])
    decreases |gets|
  {
    hide Plan, ReadResponse;
    if gets != [] {
      var read := OnRead(inv, ReadResponse(gets[0]));
      FollowRead(OnReport(read, puts[0]), gets[1..], puts[1..], g);
      assert (gets + [g])[1..] == gets[1..] + [g];
    }
  }

  lemma {:induction false} FollowReport(inv: Invocation, gets: seq<GetResponse>, puts: seq<Report>, r: Report)
    requires |gets| == |puts| + 1 && Follow(inv, gets, puts).phase.Putting? && inv.phase.Reading?
    ensures Follow(inv, gets, puts + [r]) == OnReport(Follow(inv, gets, puts), r)
    ensures FollowPuts(inv, gets, puts + [r]) == FollowPuts(inv, gets, puts)
    decreases |gets|
  {
    hide Plan, ReadResponse;
    var read := OnRead(inv, ReadResponse(gets[0]));
    if puts == [] {
      assert (puts + [r])[1..] == [] && gets[1..] == [];
    } else {
      var told := OnReport(read, puts[0]);
      FollowReport(told, gets[1..], puts[1..], r);
      assert (puts + [r])[1..] == puts[1..] + [r];
    }
  }

  /** A client whose script begins with these answers drives the loop to the same outcome and puts. */
  lemma {:induction false} DriveFollows(inv: Invocation, sent: seq<Request>, gets: seq<GetResponse>, puts: seq<Report>,
                                        onGet: nat -> GetResponse, g: nat, onPut: nat -> Report, p: nat)
    requires inv.phase.Reading? && inv.attempt < MAX_ATTEMPTS_FOR_OPTIMISTIC_LOCKING
    requires Follow(inv, gets, puts).phase.Done?
    requires forall i :: 0 <= i < |gets| ==> onGet(g + i) == gets[i]
    requires forall i :: 0 <= i < |puts| ==> onPut(p + i) == puts[i]
    ensures Drive(inv, sent, onGet, g, onPut, p)
         == (Follow(inv, gets, puts).phase.outcome, sent + FollowPuts(inv, gets, puts))
    decreases |gets|
  {
    hide Plan, ReadResponse;
    assert onGet(g + 0) == gets[0];
    var read := OnRead(inv, ReadResponse(gets[0]));
    if read.phase.Putting? {
      assert onPut(p + 0) == puts[0];
      var told := OnReport(read, puts[0]);
      if told.phase.Reading? {
        forall i | 0 <= i < |gets[1..]|
          ensures onGet(g + 1 + i) == gets[1..][i]
        {
          assert onGet(g + (1 + i)) == gets[1 + i];
        }
        forall i | 0 <= i < |puts[1..]|
          ensures onPut(p + 1 + i) == puts[1..][i]
        {
          assert onPut(p + (1 + i)) == puts[1 + i];
        }
        DriveFollows(told, sent + [read.phase.request], gets[1..], puts[1..], onGet, g + 1, onPut, p + 1);
        assert sent + [read.phase.request] + FollowPuts(told, gets[1..], puts[1..])
            == sent + FollowPuts(inv, gets, puts);
      } else {
        assert FollowPuts(told, gets[1..], puts[1..]) == [];
        assert FollowPuts(inv, gets, puts) == [read.phase.request];
      }
    } else {
      assert sent + FollowPuts(inv, gets, puts) == sent;
    }
  }

  /** A response that is unreadable for this reason. */
  function ResponseFor(error: ReadError): (r: GetResponse)
    ensures ReadResponse(r) == Failure(error)
  {
    var one := N("1");
    assert Decimal.Value("1"[..0]) == 0 && "1"[..0] == "";
    assert Decimal.Value("1") == 1;
    match error
    case GetItemFailed => GetError
    case CountMissing => GetOutput(Some(map[]))
    case CountNotANumber => GetOutput(Some(map["count" := S("1")]))
    case CountUnparsable => GetOutput(Some(map["count" := N("")]))
    case ValueMissing => GetOutput(Some(map["count" := one]))
    case ValueNotABlob => GetOutput(Some(map["count" := one, "value" := one]))
    case ValueUndecodable => GetOutput(Some(map["count" := one, "value" := B([])]))
  }

  /** The process sent this request on this attempt. */
  predicate SentOn(s: State, k: nat, attempt: nat, request: Request) {
    exists t :: t in s.sent && t.writer == k && t.attempt == attempt && t.request == request
  }

  /** The process has sent these requests, the a-th on attempt `a`, and no others. */
  ghost predicate HasSent(s: State, k: nat, requests: seq<Request>) {
    && (forall t :: t in s.sent && t.writer == k ==> t.attempt < |requests| && t.request == requests[t.attempt])
    && (forall a :: 0 <= a < |requests| ==> SentOn(s, k, a, requests[a]))
  }

  /** The answers process `k` has had are in step with where it is and with what it has sent. */
  ghost predicate Answered(s: State, k: nat, visit: Visit, gets: seq<GetResponse>, puts: seq<Report>)
    requires k < |s.procs|
  {
    var inv, start := s.procs[k].inv, Start(visit.visitor, visit.now);
    var requests := FollowPuts(start, gets, puts);
    && Follow(start, gets, puts) == inv
    && HasSent(s, k, requests)
    && (inv.phase.Reading? ==> |gets| == |puts| && |requests| == inv.attempt)
    && (inv.phase.Putting? ==> |gets| == |puts| + 1 && |requests| == inv.attempt + 1)
  }

  lemma AnsweredRead(s: State, k: nat, base: nat, visit: Visit, gets: seq<GetResponse>, puts: seq<Report>,
                     g: GetResponse)
    requires IsReading(s, k) && base <= |s.history| && Answered(s, k, visit, gets, puts)
    requires ReadResponse(g) == Success(VersionAt(s.history, base))
    ensures Answered(Do(s, Read(k, base)), k, visit, gets + [g], puts)
  {
    FollowRead(Start(visit.visitor, visit.now), gets, puts, g);
    hide Plan, ReadResponse, Follow, FollowPuts;
    var requests := FollowPuts(Start(visit.visitor, visit.now), gets, puts);
    var s' := Do(s, Read(k, base));
    if s'.procs[k].inv.phase.Putting? {
      HasSentOneMore(s, s', k, requests, s'.procs[k].ticket.value);
    } else {
      assert requests + [] == requests;
    }
  }

  lemma HasSentOneMore(s: State, s': State, k: nat, requests: seq<Request>, ticket: Ticket)
    requires HasSent(s, k, requests)
    requires ticket.writer == k && ticket.attempt == |requests| && s'.sent == s.sent + {ticket}
    ensures HasSent(s', k, requests + [ticket.request])
  {
    var longer := requests + [ticket.request];
    forall a | 0 <= a < |longer|
      ensures SentOn(s', k, a, longer[a])
    {
      if a < |requests| {
        SentStays(s, s', k, a, requests[a]);
      } else {
        assert ticket in s'.sent;
      }
    }
  }

  lemma SentStays(s: State, s': State, k: nat, attempt: nat, request: Request)
    requires SentOn(s, k, attempt, request)
    requires forall t: Ticket :: t.writer == k ==> t in s.sent ==> t in s'.sent
    ensures SentOn(s', k, attempt, request)
  {
    var t :| t in s.sent && t.writer == k && t.attempt == attempt && t.request == request;
    assert t in s'.sent;
  }

  lemma AnsweredFailure(s: State, k: nat, error: ReadError, visit: Visit, gets: seq<GetResponse>, puts: seq<Report>)
    requires IsReading(s, k) && Answered(s, k, visit, gets, puts)
    ensures Answered(Do(s, FailRead(k, error)), k, visit, gets + [ResponseFor(error)], puts)
  {
    FollowRead(Start(visit.visitor, visit.now), gets, puts, ResponseFor(error));
    hide Plan, ReadResponse, Follow, FollowPuts, ResponseFor, SentOn;
    assert FollowPuts(Start(visit.visitor, visit.now), gets, puts) + []
        == FollowPuts(Start(visit.visitor, visit.now), gets, puts);
  }

  /** What other processes do leaves the answers in step. */
  lemma AnsweredStays(s: State, s': State, k: nat, visit: Visit, gets: seq<GetResponse>, puts: seq<Report>)
    requires k < |s.procs| == |s'.procs| && Answered(s, k, visit, gets, puts)
    requires s'.procs[k] == s.procs[k] && forall t: Ticket :: t.writer == k ==> (t in s'.sent <==> t in s.sent)
    ensures Answered(s', k, visit, gets, puts)
  {
    hide Plan, ReadResponse, Follow, FollowPuts;
    var requests := FollowPuts(Start(visit.visitor, visit.now), gets, puts);
    forall a | 0 <= a < |requests|
      ensures SentOn(s', k, a, requests[a])
    {
      SentStays(s, s', k, a, requests[a]);
    }
  }

  /** The answers a process got in a run. */
  lemma {:induction false} AnswersOf(name: string, visits: seq<Visit>, steps: seq<Step>, k: nat)
    returns (gets: seq<GetResponse>, puts: seq<Report>)
    requires k < |visits| && CountsFit(Exec(Init(visits), steps).history)
    ensures k < |Exec(Init(visits), steps).procs|
    ensures Answered(Exec(Init(visits), steps), k, visits[k], gets, puts)
  {
    hide Plan, ReadResponse;
    if steps == [] {
      gets, puts := [], [];
    } else {
      hide Answered, Follow, FollowPuts;
      var front, step := steps[..|steps| - 1], steps[|steps| - 1];
      var s := Exec(Init(visits), front);
      RunIsValid(visits, front);
      assert s.history <= Do(s, step).history;
      gets, puts := AnswersOf(name, visits, front, k);
      match step
      case Read(j, base) =>
        if j == k && IsReading(s, k) && base <= |s.history| {
          var item := ItemAt(name, s.history, visits, base);
          TableSpeaksForHistory(name, s.history, visits, base, Request(None, Version(0, [])));
          AnsweredRead(s, k, base, visits[k], gets, puts, GetOutput(item));
          gets := gets + [GetOutput(item)];
        } else {
          AnsweredStays(s, Do(s, step), k, visits[k], gets, puts);
        }
      case FailRead(j, error) =>
        if j == k && IsReading(s, k) {
          AnsweredFailure(s, k, error, visits[k], gets, puts);
          gets := gets + [ResponseFor(error)];
        } else {
          AnsweredStays(s, Do(s, step), k, visits[k], gets, puts);
        }
      case Commit(t) =>
        AnsweredStays(s, Do(s, step), k, visits[k], gets, puts);
      case Report(j, report) =>
        if j == k && Do(s, step).procs[k] != s.procs[k] {
          AnsweredReport(s, k, report, visits[k], gets, puts);
          puts := puts + [report];
        } else {
          AnsweredStays(s, Do(s, step), k, visits[k], gets, puts);
        }
    }
  }

  lemma AnsweredReport(s: State, k: nat, report: Report, visit: Visit, gets: seq<GetResponse>, puts: seq<Report>)
    requires IsPutting(s, k) && Do(s, Step.Report(k, report)).procs[k] != s.procs[k]
    requires Answered(s, k, visit, gets, puts)
    ensures Answered(Do(s, Step.Report(k, report)), k, visit, gets, puts + [report])
  {
    FollowReport(Start(visit.visitor, visit.now), gets, puts, report);
    hide Plan, ReadResponse, Follow, FollowPuts, SentOn;
    var s' := Do(s, Step.Report(k, report));
    assert s'.sent == s.sent;
    var requests := FollowPuts(Start(visit.visitor, visit.now), gets, puts);
    forall a | 0 <= a < |requests|
      ensures SentOn(s', k, a, requests[a])
    {
      SentStays(s, s', k, a, requests[a]);
    }
  }

  /**
   Every invocation that has finished in a run did what the loop does for some script of answers:
   it ended as the loop does, and the puts it sent, in the order of its attempts, are the loop's.
   The runs are made of runs of the loop.
   */
  lemma ProcessIsLoop(name: string, visits: seq<Visit>, steps: seq<Step>, k: nat)
    returns (onGet: nat -> GetResponse, onPut: nat -> Report)
    requires k < |visits| && CountsFit(Exec(Init(visits), steps).history)
    requires k < |Exec(Init(visits), steps).procs| && Exec(Init(visits), steps).procs[k].inv.phase.Done?
    ensures var s := Exec(Init(visits), steps);
            var (outcome, requests) := Drive(Start(visits[k].visitor, visits[k].now), [], onGet, 0, onPut, 0);
            && outcome == s.procs[k].inv.phase.outcome
            && HasSent(s, k, requests)
  {
    hide Plan, ReadResponse, Follow, FollowPuts, Exec;
    var gets, puts := AnswersOf(name, visits, steps, k);
    onGet := (i: nat) => if i < |gets| then gets[i] else GetError;
    onPut := (i: nat) => if i < |puts| then puts[i] else Failed;
    DriveFollows(Start(visits[k].visitor, visits[k].now), [], gets, puts, onGet, 0, onPut, 0);
    var requests := FollowPuts(Start(visits[k].visitor, visits[k].now), gets, puts);
    assert [] + requests == requests;
  }

  /**
   Served alone, an invocation makes one put and returns the count it read, plus one exactly if
   the list it read does not hold its visitor as recent.
   */
  lemma ServedAlone(visitor: Visitor, now: Time, base: Option<Version>, onGet: nat -> GetResponse, onPut: nat -> Report)
    requires DistinctIn(base) && Plan(base, visitor, now).Success?
    requires ReadResponse(onGet(0)) == Success(base) && onPut(0) == Accepted
    ensures var (outcome, requests) := Drive(Start(visitor, now), [], onGet, 0, onPut, 0);
            && requests == [Plan(base, visitor, now).value]
            && outcome == Returned(CountOf(base) +
                 (if base.Some? && RecentIn(base.value.list, visitor.tag, now) then 0 else 1))
  {
    hide Plan, ReadResponse;
    PlanKeeps(base, visitor, now);
  }
}
