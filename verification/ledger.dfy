/**
 The counter as its users see it: a ledger of when every visitor was last seen, from which nothing
 is ever removed. Visits served one after the other refine it, although the store forgets old
 visitors on the way (src/store.rs, lines 402 to 463).
 */
module Ledgers {
  import opened Wrappers
  import opened Visitors
  import opened RecentVisitors
  import opened Cbor
  import opened CountEntries
  import opened Updates
  import opened Panics
  import opened Histories

  /** The count, and the stored time of every visitor's last visit. */
  datatype Ledger = Ledger(count: nat, seen: map<u32, u32>)

  /** The visitor was never here, or not within the cutoff. */
  predicate IsNew(ledger: Ledger, visit: Visit) {
    var tag := visit.visitor.tag;
    tag in ledger.seen ==> visit.now - StoredTime(ledger.seen[tag]) >= RECENT_CUTOFF
  }

  /** A new visitor is entered with the time it was seen, a returning one with the clock's. */
  function Record(ledger: Ledger, visit: Visit): Ledger
    requires Storable(visit.visitor.lastSeen) && Storable(visit.now)
  {
    LoadAfterStore(visit.visitor);
    LoadAfterStore(Visitor(visit.visitor.tag, visit.now));
    var tag := visit.visitor.tag;
    if IsNew(ledger, visit) then
      Ledger(ledger.count + 1, ledger.seen[tag := Store(visit.visitor).value.lastSeen])
    else
      Ledger(ledger.count, ledger.seen[tag := Store(Visitor(tag, visit.now)).value.lastSeen])
  }

  /** The visitor of this visit, and everybody the ledger has as recent at its time. */
  function Active(ledger: Ledger, visit: Visit): set<u32> {
    {visit.visitor.tag}
    + set tag | tag in ledger.seen && visit.now - StoredTime(ledger.seen[tag]) < RECENT_CUTOFF
  }

  /** Times fit the table, a visitor is seen shortly before its request is served, and clocks do not run back. */
  predicate Orderly(visits: seq<Visit>) {
    && (forall visit :: visit in visits ==>
          && Storable(visit.visitor.lastSeen) && Storable(visit.now)
          && visit.visitor.lastSeen <= visit.now && Recent(visit.visitor, visit.now))
    && (forall i, j :: 0 <= i < j < |visits| ==> visits[i].now <= visits[j].now)
  }

  function LedgerOf(visits: seq<Visit>): Ledger
    requires Orderly(visits)
  {
    if visits == [] then Ledger(0, map[])
    else Record(LedgerOf(visits[..|visits| - 1]), visits[|visits| - 1])
  }

  /** The list never needs to be truncated. */
  predicate Roomy(visits: seq<Visit>)
    requires Orderly(visits)
  {
    forall n :: 0 <= n < |visits| ==> |Active(LedgerOf(visits[..n]), visits[n])| <= MAX_RECENT_VISITORS
  }

  /** The store, with each visit served from the version the one before it left. */
  function Serve(visits: seq<Visit>): Result<Option<Version>, Panic> {
    if visits == [] then Success(None)
    else
      var last := visits[|visits| - 1];
      var base :- Serve(visits[..|visits| - 1]);
      var request :- Plan(base, last.visitor, last.now);
      Success(Some(request.version))
  }

  /**
   At time `clock` the store has the ledger's count, and its list is the ledger without some of
   the visitors that are not recent.
   */
  ghost predicate Refines(base: Option<Version>, ledger: Ledger, clock: Time) {
    && CountOf(base) == ledger.count
    && DistinctIn(base)
    && (base.None? ==> ledger.seen == map[])
    && (base.Some? ==> forall v :: v in base.value.list ==> v.tag in ledger.seen && ledger.seen[v.tag] == v.lastSeen)
    && (forall tag :: tag in ledger.seen ==>
          && StoredTime(ledger.seen[tag]) <= clock
          && (tag in TagsOf(base) || clock - StoredTime(ledger.seen[tag]) >= RECENT_CUTOFF))
  }

  /** The list holds the visitor as recent exactly if the ledger does. */
  lemma RecentIffNotNew(base: Version, ledger: Ledger, clock: Time, visit: Visit)
    requires Refines(Some(base), ledger, clock) && clock <= visit.now
    ensures RecentIn(base.list, visit.visitor.tag, visit.now) <==> !IsNew(ledger, visit)
  {
    var tag := visit.visitor.tag;
    if !IsNew(ledger, visit) {
      var v :| v in base.list && v.tag == tag;
      assert Recent(Load(v), visit.now);
    }
  }

  /** In orderly service nothing panics. */
  lemma ServePlans(base: Version, ledger: Ledger, clock: Time, visit: Visit)
    requires Refines(Some(base), ledger, clock) && clock <= visit.now && Orderly([visit])
    ensures Plan(Some(base), visit.visitor, visit.now).Success?
  {
    hide Plan;
    assert visit in [visit];
    forall v | v in LoadAll(base.list)
      ensures v.lastSeen <= visit.now
    {
      var i :| 0 <= i < |base.list| && LoadAll(base.list)[i] == v;
      assert base.list[i] in base.list;
    }
    PlanPanicsExactly(Some(base), visit.visitor, visit.now);
  }

  /** With room for everybody active, the list is what is recent after the touch. */
  lemma NothingTruncated(base: Version, ledger: Ledger, clock: Time, visit: Visit)
    requires Refines(Some(base), ledger, clock) && clock <= visit.now
    requires Touch(InMemory(base), visit.visitor, visit.now).Success?
    requires |Active(ledger, visit)| <= MAX_RECENT_VISITORS
    ensures !Crowded(Some(base), visit.visitor, visit.now)
  {
    var entry := InMemory(base);
    var touched := Touch(entry, visit.visitor, visit.now).value;
    var recent := Filter(RecentAt(visit.now), touched.visitors);
    TouchCounts(entry, visit.visitor, visit.now);
    TouchThenFilterIsDistinct(entry, visit.visitor, visit.now);
    FilterElements(RecentAt(visit.now), touched.visitors);
    forall v | v in recent
      ensures v.tag in Active(ledger, visit)
    {
      if v in entry.visitors {
        var i :| 0 <= i < |base.list| && LoadAll(base.list)[i] == v;
        assert base.list[i] in base.list;
      }
    }
    DistinctLength(recent, Active(ledger, visit));
  }

  /** Everybody the update keeps is as the ledger records it. */
  lemma KeptIsRecorded(base: Version, ledger: Ledger, clock: Time, visit: Visit)
    requires Refines(Some(base), ledger, clock) && clock <= visit.now && Orderly([visit])
    requires Storable(visit.visitor.lastSeen) && Storable(visit.now)
    requires Revise(InMemory(base), visit.visitor, visit.now, MAX_RECENT_VISITORS).Success?
    requires !Crowded(Some(base), visit.visitor, visit.now)
    ensures var kept := Revise(InMemory(base), visit.visitor, visit.now, MAX_RECENT_VISITORS).value.visitors;
            var seen := Record(ledger, visit).seen;
            && visit.visitor.tag in Tags(kept)
            && forall v :: v in kept ==>
                 && v.lastSeen <= visit.now
                 && (Store(v).Success? ==> v.tag in seen && seen[v.tag] == Store(v).value.lastSeen)
  {
    var entry := InMemory(base);
    assert visit in [visit];
    ReviseEnters(entry, visit.visitor, visit.now, MAX_RECENT_VISITORS);
    ReviseKeeps(entry, visit.visitor, visit.now, MAX_RECENT_VISITORS);
    EnteredIsRecorded(base, ledger, clock, visit);
    hide Revise, Record, Touch, Filter, Crowded;
    var kept := Revise(entry, visit.visitor, visit.now, MAX_RECENT_VISITORS).value.visitors;
    forall v | v in kept && Store(v).Success?
      ensures v.tag in Record(ledger, visit).seen && Record(ledger, visit).seen[v.tag] == Store(v).value.lastSeen
    {
      if v != Entered(entry, visit.visitor, visit.now) {
        LoadedIsInLedger(base, ledger, clock, v, Store(v).value);
      }
    }
  }

  /** Every entry of the new list is the ledger's. */
  lemma ListIsRecorded(base: Version, ledger: Ledger, clock: Time, visit: Visit)
    requires Refines(Some(base), ledger, clock) && clock <= visit.now && Orderly([visit])
    requires Storable(visit.visitor.lastSeen) && Storable(visit.now)
    requires Plan(Some(base), visit.visitor, visit.now).Success?
    requires !Crowded(Some(base), visit.visitor, visit.now)
    ensures var list := Plan(Some(base), visit.visitor, visit.now).value.version.list;
            var seen := Record(ledger, visit).seen;
            && visit.visitor.tag in StoredTags(list)
            && forall v :: v in list ==> v.tag in seen && seen[v.tag] == v.lastSeen
  {
    hide Plan, Revise, Record, Touch, Crowded, Refines, Orderly;
    PlanParts(base, visit.visitor, visit.now);
    KeptIsRecorded(base, ledger, clock, visit);
    var kept := Revise(InMemory(base), visit.visitor, visit.now, MAX_RECENT_VISITORS).value.visitors;
    var list := Plan(Some(base), visit.visitor, visit.now).value.version.list;
    StoredAsKept(kept, list, visit.now);
    forall v | v in list
      ensures v.tag in Record(ledger, visit).seen && Record(ledger, visit).seen[v.tag] == v.lastSeen
    {
      var i :| 0 <= i < |kept| && Store(kept[i]) == Success(v);
      assert kept[i] in kept;
    }
  }

  lemma LoadedIsInLedger(base: Version, ledger: Ledger, clock: Time, visitor: Visitor, stored: StoredVisitor)
    requires Refines(Some(base), ledger, clock)
    requires visitor in LoadAll(base.list) && Store(visitor) == Success(stored)
    ensures stored.tag == visitor.tag && stored.tag in ledger.seen && ledger.seen[stored.tag] == stored.lastSeen
  {
    var j :| 0 <= j < |base.list| && LoadAll(base.list)[j] == visitor;
    StoreAfterLoad(base.list[j]);
    assert base.list[j] in base.list;
  }

  lemma EnteredIsRecorded(base: Version, ledger: Ledger, clock: Time, visit: Visit)
    requires Refines(Some(base), ledger, clock) && clock <= visit.now
    requires Storable(visit.visitor.lastSeen) && Storable(visit.now)
    requires Touch(InMemory(base), visit.visitor, visit.now).Success?
    ensures var own := Entered(InMemory(base), visit.visitor, visit.now);
            && own.tag == visit.visitor.tag
            && Store(own).Success?
            && Record(ledger, visit).seen == ledger.seen[own.tag := Store(own).value.lastSeen]
  {
    TouchCounts(InMemory(base), visit.visitor, visit.now);
    RecentIffNotNew(base, ledger, clock, visit);
    RecentIffLoadedRecent(base.list, visit.visitor.tag, visit.now);
    LoadAfterStore(visit.visitor);
    LoadAfterStore(Visitor(visit.visitor.tag, visit.now));
  }

  /** What recording a visit does to the ledger. */
  lemma RecordOne(ledger: Ledger, visit: Visit)
    requires Storable(visit.visitor.lastSeen) && Storable(visit.now) && visit.visitor.lastSeen <= visit.now
    ensures var after := Record(ledger, visit);
            && after.count == ledger.count + (if IsNew(ledger, visit) then 1 else 0)
            && after.seen.Keys == ledger.seen.Keys + {visit.visitor.tag}
            && StoredTime(after.seen[visit.visitor.tag]) <= visit.now
            && forall tag :: tag in ledger.seen && tag != visit.visitor.tag ==> after.seen[tag] == ledger.seen[tag]
  {
    LoadAfterStore(visit.visitor);
    LoadAfterStore(Visitor(visit.visitor.tag, visit.now));
  }

  lemma ServeNext(base: Version, ledger: Ledger, clock: Time, visit: Visit)
    requires Refines(Some(base), ledger, clock) && clock <= visit.now && Orderly([visit])
    requires Storable(visit.visitor.lastSeen) && Storable(visit.now) && visit.visitor.lastSeen <= visit.now
    requires Plan(Some(base), visit.visitor, visit.now).Success? && !Crowded(Some(base), visit.visitor, visit.now)
    ensures Refines(Some(Plan(Some(base), visit.visitor, visit.now).value.version), Record(ledger, visit), visit.now)
  {
    hide Plan, Record, Crowded, IsNew, RecentIn, Orderly;
    RecordOne(ledger, visit);
    ListIsRecorded(base, ledger, clock, visit);
    PlanKeeps(Some(base), visit.visitor, visit.now);
    RecentIffNotNew(base, ledger, clock, visit);
    forall tag | tag in ledger.seen && tag != visit.visitor.tag
                 && visit.now - StoredTime(ledger.seen[tag]) < RECENT_CUTOFF
      ensures tag in StoredTags(Plan(Some(base), visit.visitor, visit.now).value.version.list)
    {
      ActiveStays(base, ledger, clock, visit, tag);
    }
  }

  /** One visit, served from a version that refines the ledger. */
  lemma ServeOne(base: Option<Version>, ledger: Ledger, clock: Time, visit: Visit)
    requires Refines(base, ledger, clock) && clock <= visit.now
    requires Orderly([visit]) && Storable(visit.visitor.lastSeen) && Storable(visit.now)
    requires |Active(ledger, visit)| <= MAX_RECENT_VISITORS
    ensures Plan(base, visit.visitor, visit.now).Success?
    ensures Refines(Some(Plan(base, visit.visitor, visit.now).value.version), Record(ledger, visit), visit.now)
  {
    hide Plan, Record, Active, Crowded;
    assert visit in [visit];
    if base.None? {
      FirstIsRecorded(ledger, visit);
    } else {
      ServePlans(base.value, ledger, clock, visit);
      PlanParts(base.value, visit.visitor, visit.now);
      NothingTruncated(base.value, ledger, clock, visit);
      ServeNext(base.value, ledger, clock, visit);
    }
  }

  lemma ActiveStays(base: Version, ledger: Ledger, clock: Time, visit: Visit, tag: u32)
    requires Refines(Some(base), ledger, clock) && clock <= visit.now
    requires Plan(Some(base), visit.visitor, visit.now).Success?
    requires !Crowded(Some(base), visit.visitor, visit.now)
    requires tag in ledger.seen && visit.now - StoredTime(ledger.seen[tag]) < RECENT_CUTOFF
    ensures tag in StoredTags(Plan(Some(base), visit.visitor, visit.now).value.version.list)
  {
    hide Plan;
    var v :| v in base.list && v.tag == tag;
    assert Recent(Load(v), visit.now);
    PlanRetains(base, visit.visitor, visit.now, tag);
  }

  lemma FirstIsRecorded(ledger: Ledger, visit: Visit)
    requires ledger == Ledger(0, map[])
    requires Storable(visit.visitor.lastSeen) && Storable(visit.now) && visit.visitor.lastSeen <= visit.now
    ensures Plan(None, visit.visitor, visit.now).Success?
    ensures Refines(Some(Plan(None, visit.visitor, visit.now).value.version), Record(ledger, visit), visit.now)
  {
    LoadAfterStore(visit.visitor);
    PlanKeeps(None, visit.visitor, visit.now);
    var version := Plan(None, visit.visitor, visit.now).value.version;
    assert version.list[0].tag == visit.visitor.tag;
    assert StoredTags(version.list) == {visit.visitor.tag};
  }

  /**
   Orderly visits with room on the list are counted as the ledger counts them: pruning forgets
   nobody who matters.
   */
  lemma {:induction false} ServeRefinesLedger(visits: seq<Visit>)
    requires Orderly(visits) && Roomy(visits)
    ensures Serve(visits).Success?
    ensures Refines(Serve(visits).value, LedgerOf(visits), if visits == [] then 0 else visits[|visits| - 1].now)
  {
    if visits == [] {
      assert Refines(None, Ledger(0, map[]), 0);
    } else {
      hide Plan, Record, Refines, Active, IsNew;
      var n := |visits| - 1;
      var before, last := visits[..n], visits[n];
      assert last in visits;
      RoomyBefore(visits);
      ServeRefinesLedger(before);
      ServeOne(Serve(before).value, LedgerOf(before), if before == [] then 0 else before[n - 1].now, last);
    }
  }

  lemma RoomyBefore(visits: seq<Visit>)
    requires Orderly(visits) && Roomy(visits) && visits != []
    ensures var n := |visits| - 1;
            && Orderly(visits[..n]) && Roomy(visits[..n]) && Orderly([visits[n]])
            && |Active(LedgerOf(visits[..n]), visits[n])| <= MAX_RECENT_VISITORS
  {
    hide LedgerOf, Active;
    var before := visits[..|visits| - 1];
    assert forall visit :: visit in before ==> visit in visits;
    forall m | 0 <= m < |before|
      ensures |Active(LedgerOf(before[..m]), before[m])| <= MAX_RECENT_VISITORS
    {
      assert before[..m] == visits[..m];
      assert |Active(LedgerOf(visits[..m]), visits[m])| <= MAX_RECENT_VISITORS;
    }
  }

  lemma CountsAgree(base: Option<Version>, ledger: Ledger, clock: Time)
    requires Refines(base, ledger, clock)
    ensures CountOf(base) == ledger.count
  {
  }

  /** The store's count rises with a visit exactly if the ledger has the visitor as new. */
  lemma VisitCountsIffNew(visits: seq<Visit>, visit: Visit)
    requires Orderly(visits + [visit]) && Roomy(visits + [visit])
    ensures Orderly(visits) && Serve(visits).Success? && Serve(visits + [visit]).Success?
    ensures CountOf(Serve(visits + [visit]).value)
         == CountOf(Serve(visits).value) + (if IsNew(LedgerOf(visits), visit) then 1 else 0)
  {
    hide Plan, Refines, Active, Record, Serve, IsNew;
    var all := visits + [visit];
    assert all[..|all| - 1] == visits && all[|all| - 1] == visit;
    RoomyBefore(all);
    ServeRefinesLedger(visits);
    ServeRefinesLedger(all);
    CountsAgree(Serve(visits).value, LedgerOf(visits), if visits == [] then 0 else visits[|visits| - 1].now);
    CountsAgree(Serve(all).value, LedgerOf(all), visit.now);
    assert visit in all;
    RecordOne(LedgerOf(visits), visit);
  }
}
