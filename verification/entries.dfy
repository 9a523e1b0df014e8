/**
 One update of a count entry (src/store.rs, lines 452 to 485 without the table): the value it
 computes, the class whose fields the source updates to compute it, and what it keeps.
 */
module CountEntries {
  import opened Wrappers
  import opened Visitors
  import opened RecentVisitors
  import opened Cbor

  /** An entry in memory. */
  datatype Entry = Entry(count: nat, visitors: seq<Visitor>)

  /** An entry as the table holds it. */
  datatype Version = Version(count: nat, list: seq<StoredVisitor>)

  /** A conditional put: it asks for an absent item (`None`) or for an item with this count. */
  datatype Request = Request(expected: Option<nat>, version: Version)
  {
    /** The put counts its visitor: it creates the item or increments the count. */
    predicate Counts() {
      expected.None? || version.count == expected.value + 1
    }
  }

  /** Refreshes the visitor if it was seen recently, or else pushes it and increments the count. */
  function Touch(entry: Entry, visitor: Visitor, now: Time): Result<Entry, Panic> {
    var found :- FindRecent(entry.visitors, visitor.tag, now);
    match found
    case Some(i) => Success(entry.(visitors := entry.visitors[i := entry.visitors[i].(lastSeen := now)]))
    case None => Success(Entry(entry.count + 1, entry.visitors + [visitor]))
  }

  function Revise(entry: Entry, visitor: Visitor, now: Time, maxRecent: nat): Result<Entry, Panic> {
    var touched :- Touch(entry, visitor, now);
    var kept :- Prune(touched.visitors, now, maxRecent);
    Success(Entry(touched.count, kept))
  }

  function InMemory(version: Version): Entry {
    Entry(version.count, LoadAll(version.list))
  }

  /** The put an invocation issues after reading this item. */
  function Plan(base: Option<Version>, visitor: Visitor, now: Time): Result<Request, Panic> {
    match base
    case None =>
      var stored :- Store(visitor);
      Success(Request(None, Version(1, [stored])))
    case Some(version) =>
      var revised :- Revise(InMemory(version), visitor, now, MAX_RECENT_VISITORS);
      var list :- StoreAll(revised.visitors);
      Success(Request(Some(version.count), Version(revised.count, list)))
  }

  /** The first entry with the tag was seen within two hours. */
  predicate SeenRecently(s: seq<Visitor>, tag: u32, now: Time) {
    exists i :: 0 <= i < |s| && IsFirst(s, tag, i) && WithinTwoHours(s[i].lastSeen, now)
  }

  class CountEntry {
    var count: nat
    var recentVisitors: seq<Visitor>

    constructor (count: nat, recentVisitors: seq<Visitor>)
      ensures this.count == count && this.recentVisitors == recentVisitors
    {
      this.count, this.recentVisitors := count, recentVisitors;
    }

    ghost function Value(): Entry
      reads this
    {
      Entry(count, recentVisitors)
    }

    /** The place of the visitor in the list, if it is there and recent. */
    method FindRecentMut(visitor: Visitor, now: Time) returns (r: Result<Option<nat>, Panic>)
      ensures r == FindRecent(recentVisitors, visitor.tag, now)
      ensures forall i: nat :: IsFirst(recentVisitors, visitor.tag, i) ==>
                r == if recentVisitors[i].lastSeen > now then Failure(NowBeforeLastSeen)
                     else Success(if WithinTwoHours(recentVisitors[i].lastSeen, now) then Some(i) else None)
      ensures (forall v :: v in recentVisitors ==> v.tag != visitor.tag) ==> r == Success(None)
    {
      var i := 0;
      while i < |recentVisitors| && recentVisitors[i].tag != visitor.tag
        invariant 0 <= i <= |recentVisitors|
        invariant forall j :: 0 <= j < i ==> recentVisitors[j].tag != visitor.tag
      {
        i := i + 1;
      }
      if i == |recentVisitors| {
        return Success(None);
      }
      assert FirstMatch(recentVisitors, visitor.tag) == Some(i);
      assert recentVisitors[i] in recentVisitors;
      if recentVisitors[i].lastSeen > now {
        return Failure(NowBeforeLastSeen);
      }
      return Success(if Recent(recentVisitors[i], now) then Some(i) else None);
    }

    /**
     Removes the visitors not seen recently, or the oldest if there are too many. The list is
     taken out of the entry first, so that a panic leaves the entry without one.
     */
    method PruneVisitors(now: Time, maxRecent: nat) returns (panic: Option<Panic>)
      modifies this
      ensures count == old(count)
      ensures match Prune(old(recentVisitors), now, maxRecent)
              case Success(kept) => panic == None && recentVisitors == kept
              case Failure(p) => panic == Some(p) && recentVisitors == []
      ensures panic.Some? <==> exists v :: v in old(recentVisitors) && v.lastSeen > now
      ensures forall v :: v in recentVisitors ==> v in old(recentVisitors) && WithinTwoHours(v.lastSeen, now)
      ensures forall v :: panic.None? && v in old(recentVisitors) && WithinTwoHours(v.lastSeen, now) ==>
                v in recentVisitors
                || (|recentVisitors| == maxRecent && forall k :: k in recentVisitors ==> k.lastSeen >= v.lastSeen)
    {
      KeptWithinTwoHours(recentVisitors, now, maxRecent);
      var visitors := recentVisitors;
      recentVisitors := [];
      var kept: seq<Visitor> := [];
      for i := 0 to |visitors|
        invariant recentVisitors == [] && count == old(count)
        invariant kept == Filter(RecentAt(now), visitors[..i])
        invariant forall j :: 0 <= j < i ==> visitors[j].lastSeen <= now
      {
        if visitors[i].lastSeen > now {
          return Some(NowBeforeLastSeen);
        }
        FilterAppend(RecentAt(now), visitors[..i], [visitors[i]]);
        assert visitors[..i + 1] == visitors[..i] + [visitors[i]];
        if Recent(visitors[i], now) {
          kept := kept + [visitors[i]];
        }
      }
      assert visitors[..|visitors|] == visitors;
      recentVisitors := kept;
      if |recentVisitors| > maxRecent {
        recentVisitors := SortDescending(recentVisitors);
        recentVisitors := recentVisitors[..maxRecent];
      }
      return None;
    }

    /** Refresh or push, then prune. */
    method Update(visitor: Visitor, now: Time, maxRecent: nat) returns (panic: Option<Panic>)
      modifies this
      ensures match Revise(old(Value()), visitor, now, maxRecent)
              case Success(revised) => panic == None && Value() == revised
              case Failure(p) => panic == Some(p)
      ensures panic == None ==>
                count == old(count) + (if SeenRecently(old(recentVisitors), visitor.tag, now) then 0 else 1)
      ensures forall v :: panic == None && v in recentVisitors ==> WithinTwoHours(v.lastSeen, now)
    {
      var found := FindRecentMut(visitor, now);
      match found {
        case Failure(p) =>
          return Some(p);
        case Success(Some(i)) =>
          recentVisitors := recentVisitors[i := recentVisitors[i].(lastSeen := now)];
        case Success(None) =>
          recentVisitors := recentVisitors + [visitor];
          count := count + 1;
      }
      panic := PruneVisitors(now, maxRecent);
    }
  }
}
