/**
 Histories of one counter's item: the puts that committed, in order, each with the version its
 writer had read. What the count condition alone guarantees about them, for any number of writers
 and any stale reads (src/store.rs, lines 34 to 37 and 376 to 488).
 */
module Histories {
  import opened Wrappers
  import opened Visitors
  import opened Cbor
  import opened CountEntries
  import opened Updates
  import opened Invocations

  /** One call of `maybe_increment_visitors`. */
  datatype Visit = Visit(visitor: Visitor, now: Time)

  /**
   A put with its provenance: the visit that issued it, on which attempt, and the number of
   commits behind the version it had read (zero if it found no item).
   */
  datatype Ticket = Ticket(writer: nat, attempt: nat, base: nat, request: Request)

  type History = seq<Ticket>

  /** The version after the first `i` commits. */
  function VersionAt(h: History, i: nat): Option<Version>
    requires i <= |h|
  {
    if i == 0 then None else Some(h[i - 1].request.version)
  }

  function CountAt(h: History, i: nat): nat
    requires i <= |h|
  {
    CountOf(VersionAt(h, i))
  }

  /** The put was computed by its visit from a version of this history. */
  predicate Issued(h: History, visits: seq<Visit>, t: Ticket) {
    && t.base <= |h|
    && t.writer < |visits|
    && Plan(VersionAt(h, t.base), visits[t.writer].visitor, visits[t.writer].now) == Success(t.request)
  }

  /** The i-th commit was issued before it committed, and its condition held when it did. */
  predicate LegalCommit(h: History, visits: seq<Visit>, i: nat)
    requires i < |h|
  {
    && h[i].base <= i
    && Issued(h, visits, h[i])
    && Admits(h[i].request, VersionAt(h, i))
  }

  predicate Legal(h: History, visits: seq<Visit>) {
    forall i :: 0 <= i < |h| ==> LegalCommit(h, visits, i)
  }

  predicate Counts(h: History, i: nat)
    requires i < |h|
  {
    h[i].request.Counts()
  }

  /** The number of counted commits from the i-th up to the j-th. */
  function Counted(h: History, i: nat, j: nat): nat
    requires i <= j <= |h|
    decreases j - i
  {
    if i == j then 0 else Counted(h, i, j - 1) + (if Counts(h, j - 1) then 1 else 0)
  }

  /** Every version has distinct tags and, unless it is the absent one, a positive count. */
  lemma {:induction false} VersionKeeps(h: History, visits: seq<Visit>, i: nat)
    requires Legal(h, visits) && i <= |h|
    ensures DistinctIn(VersionAt(h, i))
    ensures CountAt(h, i) == 0 <==> i == 0
    decreases i
  {
    hide Plan;
    if i > 0 {
      assert LegalCommit(h, visits, i - 1);
      var t := h[i - 1];
      VersionKeeps(h, visits, t.base);
      PlanKeeps(VersionAt(h, t.base), visits[t.writer].visitor, visits[t.writer].now);
    }
  }

  /**
   There is no ABA: a commit finds the count its writer read, whether or not it finds the
   version, and moves it by one exactly if it counts a visit.
   */
  lemma CommitCounts(h: History, visits: seq<Visit>, i: nat)
    requires Legal(h, visits) && i < |h|
    ensures h[i].base <= i
    ensures CountAt(h, h[i].base) == CountAt(h, i)
    ensures CountAt(h, i + 1) == CountAt(h, i) + (if Counts(h, i) then 1 else 0)
  {
    hide Plan;
    assert LegalCommit(h, visits, i);
    var t := h[i];
    VersionKeeps(h, visits, t.base);
    VersionKeeps(h, visits, i);
    PlanKeeps(VersionAt(h, t.base), visits[t.writer].visitor, visits[t.writer].now);
  }

  /** The count grows by the number of counted commits, so it never decreases and loses none. */
  lemma {:induction false} CountGrows(h: History, visits: seq<Visit>, i: nat, j: nat)
    requires Legal(h, visits) && i <= j <= |h|
    ensures CountAt(h, j) == CountAt(h, i) + Counted(h, i, j)
    decreases j - i
  {
    if i < j {
      CountGrows(h, visits, i, j - 1);
      CommitCounts(h, visits, j - 1);
    }
  }

  lemma {:induction false} CountedPositive(h: History, i: nat, j: nat)
    requires i <= j <= |h|
    ensures Counted(h, i, j) > 0 <==> exists k :: i <= k < j && Counts(h, k)
    decreases j - i
  {
    if i < j {
      CountedPositive(h, i, j - 1);
      assert Counts(h, j - 1) || !Counts(h, j - 1);
    }
  }

  // ---- What a put can overwrite ----

  /**
   The comment at lines 34 to 37 of src/store.rs says that a put never overwrites another
   invocation's update. It does so exactly when every commit its writer missed was a refresh:
   the condition holds if and only if no counted commit happened since the version it read.
   */
  lemma AdmittedExactly(h: History, visits: seq<Visit>, t: Ticket)
    requires Legal(h, visits) && Issued(h, visits, t)
    ensures Admits(t.request, VersionAt(h, |h|)) <==> forall i :: t.base <= i < |h| ==> !Counts(h, i)
  {
    hide Plan;
    VersionKeeps(h, visits, t.base);
    VersionKeeps(h, visits, |h|);
    PlanKeeps(VersionAt(h, t.base), visits[t.writer].visitor, visits[t.writer].now);
    CountGrows(h, visits, t.base, |h|);
    CountedPositive(h, t.base, |h|);
  }

  /** Version `p` is version `q`, or the version `q` was computed from descends from it. */
  predicate Descends(h: History, p: nat, q: nat)
    requires q <= |h|
    decreases q
  {
    p == q || (0 < q && h[q - 1].base < q && Descends(h, p, h[q - 1].base))
  }

  /** Every version after a counted commit was computed, step by step, from that commit's version. */
  lemma {:induction false} CountedIsInherited(h: History, visits: seq<Visit>, p: nat, q: nat)
    requires Legal(h, visits) && p < q <= |h| && Counts(h, p)
    ensures Descends(h, p + 1, q)
    decreases q
  {
    if q > p + 1 {
      CommitCounts(h, visits, q - 1);
      CommitCounts(h, visits, p);
      CountGrows(h, visits, p + 1, q - 1);
      var base := h[q - 1].base;
      if base <= p {
        CountGrows(h, visits, base, p);
      }
      CountedIsInherited(h, visits, p, base);
    }
  }

  /** This commit's writer read the tag on the list and left it off. */
  ghost predicate Drops(h: History, visits: seq<Visit>, i: nat, tag: u32)
    requires i < |h| && LegalCommit(h, visits, i)
  {
    && 0 < h[i].base
    && tag in TagsOf(VersionAt(h, h[i].base))
    && tag !in TagsOf(VersionAt(h, i + 1))
  }

  lemma {:induction false} DroppedOnTheWay(h: History, visits: seq<Visit>, p: nat, q: nat, tag: u32) returns (i: nat)
    requires Legal(h, visits) && p <= q <= |h| && Descends(h, p, q)
    requires tag in TagsOf(VersionAt(h, p)) && tag !in TagsOf(VersionAt(h, q))
    ensures p <= i < q && LegalCommit(h, visits, i) && Drops(h, visits, i, tag)
    ensures Descends(h, p, h[i].base) && Descends(h, i + 1, q)
    decreases q
  {
    hide Plan;
    var base := h[q - 1].base;
    assert LegalCommit(h, visits, q - 1);
    if tag in TagsOf(VersionAt(h, base)) {
      i := q - 1;
    } else {
      DescendsNotBefore(h, p, base);
      i := DroppedOnTheWay(h, visits, p, base, tag);
    }
  }

  lemma {:induction false} DescendsNotBefore(h: History, p: nat, q: nat)
    requires q <= |h| && Descends(h, p, q)
    ensures p <= q
    decreases q
  {
    if p != q {
      DescendsNotBefore(h, p, h[q - 1].base);
    }
  }

  /**
   A tag that a counted commit left on the list is never lost to a concurrent overwrite: if it is
   missing from a later version, then some writer between them read it and pruned it, because its
   time was stale by that writer's clock or because the list was crowded.
   */
  lemma CountedTagIsPrunedOrThere(h: History, visits: seq<Visit>, p: nat, q: nat, tag: u32) returns (i: nat)
    requires Legal(h, visits) && p < q <= |h| && Counts(h, p)
    requires tag in TagsOf(VersionAt(h, p + 1))
    ensures tag !in TagsOf(VersionAt(h, q)) ==>
              && p < i < q && LegalCommit(h, visits, i) && Drops(h, visits, i, tag)
              && Descends(h, p + 1, h[i].base) && Descends(h, i + 1, q)
              && var base := VersionAt(h, h[i].base);
                 var visit := visits[h[i].writer];
                 StaleIn(base.value.list, tag, visit.now) || Crowded(base, visit.visitor, visit.now)
  {
    i := p;
    if tag !in TagsOf(VersionAt(h, q)) {
      CountedIsInherited(h, visits, p, q);
      i := DroppedOnTheWay(h, visits, p + 1, q, tag);
      VersionKeeps(h, visits, h[i].base);
      var visit := visits[h[i].writer];
      DropIsPrune(h, visits, i, tag);
    }
  }

  lemma DropIsPrune(h: History, visits: seq<Visit>, i: nat, tag: u32)
    requires Legal(h, visits) && i < |h| && LegalCommit(h, visits, i) && Drops(h, visits, i, tag)
    ensures var base := VersionAt(h, h[i].base);
            var visit := visits[h[i].writer];
            StaleIn(base.value.list, tag, visit.now) || Crowded(base, visit.visitor, visit.now)
  {
    hide Plan;
    VersionKeeps(h, visits, h[i].base);
    var visit := visits[h[i].writer];
    PlanDrops(VersionAt(h, h[i].base).value, visit.visitor, visit.now, tag);
  }

  /**
   A visitor is counted a second time only for one of two reasons: the list its second visit was
   computed from holds it with a time that is stale by that visit's clock, or some writer since
   its first count had pruned it, as stale by that writer's clock or because the list was crowded.
   */
  lemma CountedAgainOnlyIfStaleOrPruned(h: History, visits: seq<Visit>, p: nat, q: nat) returns (i: nat)
    requires Legal(h, visits) && p < q < |h| && Counts(h, p) && Counts(h, q)
    ensures LegalCommit(h, visits, p) && LegalCommit(h, visits, q)
    ensures var tag := visits[h[q].writer].visitor.tag;
            var base := h[q].base;
            && p < base <= q
            && (visits[h[p].writer].visitor.tag == tag && tag in TagsOf(VersionAt(h, p + 1)) ==>
                || StaleIn(VersionAt(h, base).value.list, tag, visits[h[q].writer].now)
                || (&& p < i < base && LegalCommit(h, visits, i) && Drops(h, visits, i, tag)
                    && Descends(h, i + 1, base)
                    && var read, visit := VersionAt(h, h[i].base), visits[h[i].writer];
                       StaleIn(read.value.list, tag, visit.now) || Crowded(read, visit.visitor, visit.now)))
  {
    hide Plan;
    CountedBaseIsLater(h, visits, p, q);
    var tag, base := visits[h[q].writer].visitor.tag, h[q].base;
    i := p;
    if tag !in TagsOf(VersionAt(h, p + 1)) {
    } else if tag in TagsOf(VersionAt(h, base)) {
      VersionKeeps(h, visits, base);
      PlanKeeps(VersionAt(h, base), visits[h[q].writer].visitor, visits[h[q].writer].now);
    } else {
      i := CountedTagIsPrunedOrThere(h, visits, p, base, tag);
    }
  }

  /** A counted commit was computed from a version that is not older than the last counted one. */
  lemma CountedBaseIsLater(h: History, visits: seq<Visit>, p: nat, q: nat)
    requires Legal(h, visits) && p < q < |h| && Counts(h, p)
    ensures LegalCommit(h, visits, p) && LegalCommit(h, visits, q)
    ensures p < h[q].base <= q
  {
    hide Plan;
    assert LegalCommit(h, visits, p) && LegalCommit(h, visits, q);
    CommitCounts(h, visits, q);
    CommitCounts(h, visits, p);
    CountGrows(h, visits, p + 1, q);
    if h[q].base <= p {
      CountGrows(h, visits, h[q].base, p);
    }
  }

  /**
   The writer of this commit may have forgotten a visitor of this time: it found the list crowded,
   or its clock was a cutoff or more later.
   */
  ghost predicate MayForget(h: History, visits: seq<Visit>, i: nat, time: Time) {
    && i < |h| && LegalCommit(h, visits, i)
    && var base, visit := VersionAt(h, h[i].base), visits[h[i].writer];
       Crowded(base, visit.visitor, visit.now) || visit.now - time >= RECENT_CUTOFF
  }

  /** A listed time stays on the list, or moves forward, until some writer may forget it. */
  lemma {:induction false} TimeStays(h: History, visits: seq<Visit>, p: nat, q: nat, v: StoredVisitor)
    returns (i: nat, w: StoredVisitor)
    requires Legal(h, visits) && 0 < p <= q <= |h| && Descends(h, p, q)
    requires v in VersionAt(h, p).value.list
    ensures || (w in VersionAt(h, q).value.list && w.tag == v.tag && w.lastSeen >= v.lastSeen)
            || (p <= i < q && MayForget(h, visits, i, StoredTime(v.lastSeen)))
    decreases q
  {
    hide Plan, MayForget;
    i, w := p, v;
    if p < q {
      var base := h[q - 1].base;
      DescendsNotBefore(h, p, base);
      i, w := TimeStays(h, visits, p, base, v);
      if w in VersionAt(h, base).value.list && w.tag == v.tag && w.lastSeen >= v.lastSeen {
        i := q - 1;
        w := TimeStaysOnce(h, visits, i, v, w);
      }
    }
  }

  lemma TimeStaysOnce(h: History, visits: seq<Visit>, i: nat, v: StoredVisitor, was: StoredVisitor)
    returns (w: StoredVisitor)
    requires Legal(h, visits) && i < |h| && 0 < h[i].base <= i
    requires was in VersionAt(h, h[i].base).value.list && was.tag == v.tag && was.lastSeen >= v.lastSeen
    ensures || (w in VersionAt(h, i + 1).value.list && w.tag == v.tag && w.lastSeen >= v.lastSeen)
            || MayForget(h, visits, i, StoredTime(v.lastSeen))
  {
    hide Plan, Crowded, Distinct;
    assert LegalCommit(h, visits, i);
    VersionKeeps(h, visits, h[i].base);
    var base, visit := VersionAt(h, h[i].base).value, visits[h[i].writer];
    var list := VersionAt(h, i + 1).value.list;
    w := was;
    if v.tag in StoredTags(list) {
      w :| w in list && w.tag == v.tag;
      PlanNeverSetsBack(base, visit.visitor, visit.now, was, w);
    } else {
      PlanDrops(base, visit.visitor, visit.now, v.tag);
      if StaleIn(base.list, v.tag, visit.now) {
        StaleIsOld(base.list, was, visit.now);
      }
    }
  }

  /** A stale tag is the only one of its kind. */
  lemma StaleIsOld(list: seq<StoredVisitor>, v: StoredVisitor, now: Time)
    requires Distinct(list) && v in list && StaleIn(list, v.tag, now)
    ensures now - StoredTime(v.lastSeen) >= RECENT_CUTOFF
  {
    var w :| w in list && w.tag == v.tag && !Recent(Load(w), now);
    var i :| 0 <= i < |list| && list[i] == v;
    var j :| 0 <= j < |list| && list[j] == w;
    assert LoadAll(list)[j] in LoadAll(list);
    OnlyMatch(LoadAll(list), i, LoadAll(list)[j]);
  }

  /**
   Nobody is counted twice within a window. If two commits count the same visitor, then at one of
   them or between them a writer's clock was a cutoff or more after the second in which the
   visitor was seen the first time, or a writer found the list crowded. This holds of histories of
   any length, whatever was overwritten on the way, and so bounds what a lost refresh can cost.
   */
  lemma CountedOncePerWindow(h: History, visits: seq<Visit>, p: nat, q: nat) returns (i: nat)
    requires Legal(h, visits) && p < q < |h| && Counts(h, p) && Counts(h, q)
    ensures LegalCommit(h, visits, p) && LegalCommit(h, visits, q)
    ensures var first, second := visits[h[p].writer].visitor, visits[h[q].writer].visitor;
            first.tag == second.tag ==> p <= i <= q && MayForget(h, visits, i, WholeSecond(first.lastSeen))
  {
    hide Plan, MayForget, Crowded;
    CountedBaseIsLater(h, visits, p, q);
    var first, base := visits[h[p].writer], h[q].base;
    VersionKeeps(h, visits, h[p].base);
    PlanCountsAsSeen(VersionAt(h, h[p].base), first.visitor, first.now);
    i := p;
    if first.visitor.tag == visits[h[q].writer].visitor.tag {
      var list := VersionAt(h, p + 1).value.list;
      if first.visitor.tag !in StoredTags(list) {
        FirstIsForgotten(h, visits, p);
      } else {
        var v :| v in list && v.tag == first.visitor.tag;
        LoadAfterStore(first.visitor);
        CountedIsInherited(h, visits, p, base);
        var w;
        i, w := TimeStays(h, visits, p + 1, base, v);
        if w in VersionAt(h, base).value.list && w.tag == v.tag && w.lastSeen >= v.lastSeen {
          i := q;
          SecondIsStale(h, visits, q, v, w);
        }
      }
    }
  }

  lemma FirstIsForgotten(h: History, visits: seq<Visit>, p: nat)
    requires Legal(h, visits) && p < |h| && LegalCommit(h, visits, p)
    requires var visit := visits[h[p].writer];
             Crowded(VersionAt(h, h[p].base), visit.visitor, visit.now) || !Recent(visit.visitor, visit.now)
    ensures MayForget(h, visits, p, WholeSecond(visits[h[p].writer].visitor.lastSeen))
  {
  }

  lemma SecondIsStale(h: History, visits: seq<Visit>, q: nat, v: StoredVisitor, w: StoredVisitor)
    requires Legal(h, visits) && q < |h| && Counts(h, q) && LegalCommit(h, visits, q) && 0 < h[q].base
    requires w in VersionAt(h, h[q].base).value.list && w.tag == v.tag && w.lastSeen >= v.lastSeen
    requires v.tag == visits[h[q].writer].visitor.tag
    ensures MayForget(h, visits, q, StoredTime(v.lastSeen))
  {
    hide Plan, Crowded;
    var base, visit := VersionAt(h, h[q].base), visits[h[q].writer];
    VersionKeeps(h, visits, h[q].base);
    PlanKeeps(base, visit.visitor, visit.now);
    assert !Recent(Load(w), visit.now);
  }

  // ---- The numbers counted commits get ----

  /** Counted commits get different numbers, in order, all from 1 up to the count. */
  lemma CountedNumbers(h: History, visits: seq<Visit>, i: nat, j: nat)
    requires Legal(h, visits) && i <= j < |h| && Counts(h, i) && Counts(h, j)
    ensures 1 <= CountAt(h, i + 1) <= CountAt(h, j + 1) <= CountAt(h, |h|)
    ensures CountAt(h, i + 1) == CountAt(h, j + 1) <==> i == j
  {
    CommitCounts(h, visits, i);
    CommitCounts(h, visits, j);
    CountGrows(h, visits, j + 1, |h|);
    if i < j {
      CountGrows(h, visits, i + 1, j);
    }
  }

  /** Every number from 1 up to the count was given out by a counted commit. */
  lemma {:induction false} NumberIsCounted(h: History, visits: seq<Visit>, n: nat, j: nat) returns (i: nat)
    requires Legal(h, visits) && j <= |h| && 1 <= n <= CountAt(h, j)
    ensures i < j && Counts(h, i) && CountAt(h, i + 1) == n
    decreases j
  {
    CommitCounts(h, visits, j - 1);
    if Counts(h, j - 1) && CountAt(h, j) == n {
      i := j - 1;
    } else {
      i := NumberIsCounted(h, visits, n, j - 1);
    }
  }

  // ---- Visitors within one window ----

  /** The tags of the visitors whose visits committed. */
  function CommittedTags(h: History, visits: seq<Visit>, n: nat): set<u32>
    requires n <= |h| && Legal(h, visits)
  {
    if n == 0 then {}
    else
      assert LegalCommit(h, visits, n - 1);
      CommittedTags(h, visits, n - 1) + {visits[h[n - 1].writer].visitor.tag}
  }

  function AllTags(visits: seq<Visit>): set<u32> {
    set visit | visit in visits :: visit.visitor.tag
  }

  /** By every visit's clock, every time ever stored is recent, and so is its own. */
  ghost predicate WithinWindow(h: History, visits: seq<Visit>) {
    forall visit :: visit in visits ==>
      && Recent(visit.visitor, visit.now)
      && forall i, v :: 0 <= i < |h| && v in h[i].request.version.list ==> Recent(Load(v), visit.now)
  }

  /** The stored visitor is a visit by that visitor, at its own time or by its clock, to the second. */
  predicate StampedBy(v: StoredVisitor, visit: Visit) {
    Store(visit.visitor) == Success(v) || Store(Visitor(visit.visitor.tag, visit.now)) == Success(v)
  }

  /** No time is ever made up: every stored visitor was stamped by one of the visits. */
  lemma {:induction false} EveryTimeIsStamped(h: History, visits: seq<Visit>, i: nat, v: StoredVisitor)
    requires Legal(h, visits) && i < |h| && v in h[i].request.version.list
    ensures exists visit :: visit in visits && StampedBy(v, visit)
    decreases i
  {
    hide Plan;
    assert LegalCommit(h, visits, i);
    var base, visit := h[i].base, visits[h[i].writer];
    assert visit in visits;
    VersionKeeps(h, visits, base);
    PlanStamps(VersionAt(h, base), visit.visitor, visit.now);
    if !StampedBy(v, visit) {
      EveryTimeIsStamped(h, visits, base - 1, v);
    }
  }

  /** The clocks of all visits lie within one second less than the cutoff of one another. */
  predicate ClocksClose(visits: seq<Visit>) {
    forall a, b :: a in visits && b in visits ==>
      && a.now - b.now <= RECENT_CUTOFF - NANOS_PER_SECOND
      && a.now - b.visitor.lastSeen <= RECENT_CUTOFF - NANOS_PER_SECOND
  }

  /** Close clocks keep every history within one window. */
  lemma CloseClocksAreWithinWindow(h: History, visits: seq<Visit>)
    requires Legal(h, visits) && ClocksClose(visits)
    ensures WithinWindow(h, visits)
  {
    forall visit, i, v | visit in visits && 0 <= i < |h| && v in h[i].request.version.list
      ensures Recent(Load(v), visit.now)
    {
      EveryTimeIsStamped(h, visits, i, v);
      var writer :| writer in visits && StampedBy(v, writer);
      LoadAfterStore(writer.visitor);
      LoadAfterStore(Visitor(writer.visitor.tag, writer.now));
    }
  }

  lemma {:induction false} TagsWithinWindow(h: History, visits: seq<Visit>, n: nat)
    requires Legal(h, visits) && n <= |h|
    requires WithinWindow(h, visits) && |AllTags(visits)| <= MAX_RECENT_VISITORS
    ensures TagsOf(VersionAt(h, n)) == CommittedTags(h, visits, n)
    ensures CommittedTags(h, visits, n) <= AllTags(visits)
    ensures CountAt(h, n) == |CommittedTags(h, visits, n)|
    decreases n
  {
    hide Plan;
    if n > 0 {
      var base := h[n - 1].base;
      CommitCounts(h, visits, n - 1);
      TagsWithinWindow(h, visits, base);
      TagsWithinWindow(h, visits, n - 1);
      TagsBetween(h, visits, base, n - 1);
      SmallerSet(CommittedTags(h, visits, base), CommittedTags(h, visits, n - 1));
      assert LegalCommit(h, visits, n - 1);
      OneMoreWithinWindow(h, visits, n - 1);
      var tag := visits[h[n - 1].writer].visitor.tag;
      if tag in CommittedTags(h, visits, n - 1) {
        assert CommittedTags(h, visits, n) == CommittedTags(h, visits, n - 1);
      }
    }
  }

  /** One commit within the window, over the tags and the count of the version it was computed from. */
  lemma OneMoreWithinWindow(h: History, visits: seq<Visit>, i: nat)
    requires Legal(h, visits) && i < |h| && LegalCommit(h, visits, i)
    requires WithinWindow(h, visits) && |AllTags(visits)| <= MAX_RECENT_VISITORS
    requires TagsOf(VersionAt(h, h[i].base)) <= AllTags(visits)
    ensures var tags := TagsOf(VersionAt(h, h[i].base));
            var tag := visits[h[i].writer].visitor.tag;
            && tag in AllTags(visits)
            && TagsOf(VersionAt(h, i + 1)) == tags + {tag}
            && CountAt(h, i + 1) == CountAt(h, h[i].base) + (if tag in tags then 0 else 1)
  {
    hide Plan;
    var base, visit := VersionAt(h, h[i].base), visits[h[i].writer];
    assert visit in visits;
    VersionKeeps(h, visits, h[i].base);
    SmallerSet(TagsOf(base) + {visit.visitor.tag}, AllTags(visits));
    PlanWithinWindow(base, visit.visitor, visit.now);
  }

  lemma {:induction false} TagsBetween(h: History, visits: seq<Visit>, i: nat, j: nat)
    requires Legal(h, visits) && i <= j <= |h|
    ensures CommittedTags(h, visits, i) <= CommittedTags(h, visits, j)
    decreases j
  {
    if i < j {
      TagsBetween(h, visits, i, j - 1);
    }
  }

  lemma {:induction false} SmallerSet(a: set<u32>, b: set<u32>)
    requires a <= b
    ensures |a| <= |b|
    ensures |a| == |b| ==> a == b
  {
    if a != {} {
      var x :| x in a;
      SmallerSet(a - {x}, b - {x});
    }
  }

  /**
   Within one window, and with room for every visitor, the count is the number of distinct
   visitors whose visits committed, however their reads and puts interleave.
   */
  lemma CountIsDistinctVisitors(h: History, visits: seq<Visit>)
    requires Legal(h, visits)
    requires WithinWindow(h, visits) && |AllTags(visits)| <= MAX_RECENT_VISITORS
    ensures CountAt(h, |h|) == |CommittedTags(h, visits, |h|)|
    ensures TagsOf(VersionAt(h, |h|)) == CommittedTags(h, visits, |h|)
  {
    TagsWithinWindow(h, visits, |h|);
  }

  // ---- What every version keeps ----

  /**
   Every version has distinct tags, fits an item, and holds no time after its writer's clock,
   unless it is the first, which holds the time its writer was seen.
   */
  lemma EveryVersionFits(h: History, visits: seq<Visit>, i: nat)
    requires Legal(h, visits) && i < |h|
    ensures LegalCommit(h, visits, i)
    ensures var list := h[i].request.version.list;
            var visit := visits[h[i].writer];
            && Distinct(list)
            && |list| <= MAX_RECENT_VISITORS
            && |Encode(list)| <= DYNAMO_MAX_ITEM_SIZE_BYTES - RESERVED_NON_VALUE_SIZE_BYTES
            && (forall v :: v in list ==>
                  StoredTime(v.lastSeen) <= if i == 0 then visit.visitor.lastSeen else visit.now)
  {
    hide Plan, Encode;
    assert LegalCommit(h, visits, i);
    var t := h[i];
    VersionKeeps(h, visits, t.base);
    VersionKeeps(h, visits, i);
    PlanKeeps(VersionAt(h, t.base), visits[t.writer].visitor, visits[t.writer].now);
    EncodedSize(t.request.version.list);
  }
}
