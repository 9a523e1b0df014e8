/**
 What an update writes, item for item, while the list is not crowded (src/store.rs, lines 402 to
 485): the recent entries in their order, with the visitor refreshed in its place or at the end.
 */
module Plans {
  import opened Wrappers
  import opened Visitors
  import opened RecentVisitors
  import opened Cbor
  import opened CountEntries
  import opened Updates

  /** The stored visitors that are recent at `now`, in order. */
  function RecentsOf(list: seq<StoredVisitor>, now: Time): seq<StoredVisitor> {
    if list == [] then []
    else if Recent(Load(list[0]), now) then [list[0]] + RecentsOf(list[1..], now)
    else RecentsOf(list[1..], now)
  }

  lemma {:induction false} AllAreRecent(list: seq<StoredVisitor>, now: Time)
    requires forall v :: v in list ==> Recent(Load(v), now)
    ensures RecentsOf(list, now) == list
  {
    if list != [] {
      assert list[0] in list;
      AllAreRecent(list[1..], now);
    }
  }

  /** Filtering and then storing is storing and then filtering, where storing does not change recency. */
  lemma {:induction false} FilterThenStore(visitors: seq<Visitor>, list: seq<StoredVisitor>, now: Time)
    requires |visitors| == |list|
    requires forall i :: 0 <= i < |list| ==>
               && Store(visitors[i]) == Success(list[i])
               && (Recent(visitors[i], now) <==> Recent(Load(list[i]), now))
    ensures StoreAll(Filter(RecentAt(now), visitors)) == Success(RecentsOf(list, now))
  {
    if list != [] {
      FilterThenStore(visitors[1..], list[1..], now);
      var rest := Filter(RecentAt(now), visitors[1..]);
      assert ([visitors[0]] + rest)[1..] == rest;
    }
  }

  lemma {:induction false} StoreAllOneMore(visitors: seq<Visitor>, v: Visitor)
    requires StoreAll(visitors).Success? && Store(v).Success?
    ensures StoreAll(visitors + [v]) == Success(StoreAll(visitors).value + [Store(v).value])
  {
    var stored := StoreAll(visitors + [v]).value;
    assert stored == StoreAll(visitors).value + [Store(v).value];
  }

  /** An update that does not have to truncate leaves what is recent after the touch. */
  lemma RoomyPlan(base: Version, visitor: Visitor, now: Time, list: seq<StoredVisitor>)
    requires Touch(InMemory(base), visitor, now).Success? && !Crowded(Some(base), visitor, now)
    requires !SeenAfter(Touch(InMemory(base), visitor, now).value.visitors, now)
    requires StoreAll(Filter(RecentAt(now), Touch(InMemory(base), visitor, now).value.visitors)) == Success(list)
    ensures Plan(Some(base), visitor, now)
         == Success(Request(Some(base.count), Version(Touch(InMemory(base), visitor, now).value.count, list)))
  {
  }

  /** A visitor that is not found recent is counted and pushed at the end. */
  lemma PlanPushes(base: Version, visitor: Visitor, now: Time)
    requires FindRecent(LoadAll(base.list), visitor.tag, now) == Success(None)
    requires !SeenAfter(LoadAll(base.list), now) && visitor.lastSeen <= now && Storable(visitor.lastSeen)
    requires !Crowded(Some(base), visitor, now)
    ensures Store(visitor).Success?
    ensures var own := if Recent(visitor, now) then [Store(visitor).value] else [];
            Plan(Some(base), visitor, now)
            == Success(Request(Some(base.count), Version(base.count + 1, RecentsOf(base.list, now) + own)))
  {
    var s := LoadAll(base.list);
    LoadAfterStore(visitor);
    FilterAppend(RecentAt(now), s, [visitor]);
    forall i | 0 <= i < |s|
      ensures Store(s[i]) == Success(base.list[i])
    {
      StoreAfterLoad(base.list[i]);
    }
    FilterThenStore(s, base.list, now);
    var recent := Filter(RecentAt(now), s);
    if Recent(visitor, now) {
      StoreAllOneMore(recent, visitor);
      assert Filter(RecentAt(now), [visitor]) == [visitor];
      RoomyPlan(base, visitor, now, RecentsOf(base.list, now) + [Store(visitor).value]);
    } else {
      assert Filter(RecentAt(now), s + [visitor]) == recent;
      assert RecentsOf(base.list, now) + [] == RecentsOf(base.list, now);
      RoomyPlan(base, visitor, now, RecentsOf(base.list, now));
    }
  }

  /** A visitor that is found recent is not counted, and takes the clock's time where it stands. */
  lemma PlanRefreshes(base: Version, visitor: Visitor, now: Time, i: nat)
    requires FindRecent(LoadAll(base.list), visitor.tag, now) == Success(Some(i))
    requires !SeenAfter(LoadAll(base.list), now) && Storable(now)
    requires !Crowded(Some(base), visitor, now)
    ensures i < |base.list| && Store(Visitor(visitor.tag, now)).Success?
    ensures var own := Store(Visitor(visitor.tag, now)).value;
            Plan(Some(base), visitor, now)
            == Success(Request(Some(base.count), Version(base.count, RecentsOf(base.list[i := own], now))))
  {
    var s := LoadAll(base.list);
    var renewed := Visitor(visitor.tag, now);
    LoadAfterStore(renewed);
    var list := base.list[i := Store(renewed).value];
    forall j | 0 <= j < |s|
      ensures Store(s[i := renewed][j]) == Success(list[j])
      ensures Recent(s[i := renewed][j], now) <==> Recent(Load(list[j]), now)
    {
      if j != i {
        StoreAfterLoad(base.list[j]);
      }
    }
    FilterThenStore(s[i := renewed], list, now);
    assert s[i].(lastSeen := now) == renewed;
    RoomyPlan(base, visitor, now, RecentsOf(list, now));
  }

  /** A list with room for one more visitor is not crowded. */
  lemma RoomForOne(base: Version, visitor: Visitor, now: Time)
    requires |base.list| < MAX_RECENT_VISITORS
    ensures !Crowded(Some(base), visitor, now)
  {
    if Touch(InMemory(base), visitor, now).Success? {
      FilterElements(RecentAt(now), Touch(InMemory(base), visitor, now).value.visitors);
    }
  }

  /** The list of one or two visitors. */
  lemma RecentsOfTwo(a: StoredVisitor, b: StoredVisitor, now: Time)
    ensures RecentsOf([a, b], now) == RecentsOf([a], now) + RecentsOf([b], now)
    ensures RecentsOf([a], now) == if Recent(Load(a), now) then [a] else []
    ensures RecentsOf([b], now) == if Recent(Load(b), now) then [b] else []
  {
    var two := [a, b];
    assert two[1..] == [b];
  }

  // ---- Whole seconds ----

  function At(seconds: u32): Time {
    StoredTime(seconds)
  }

  lemma StoreAt(tag: u32, seconds: u32)
    ensures Store(Visitor(tag, At(seconds))) == Success(StoredVisitor(tag, seconds))
  {
    StoreAfterLoad(StoredVisitor(tag, seconds));
  }

  /** What the first visitor of all writes. */
  lemma PlanForNone(tag: u32, now: u32)
    ensures Plan(None, Visitor(tag, At(now)), At(now)) == Success(Request(None, Version(1, [StoredVisitor(tag, now)])))
  {
    StoreAt(tag, now);
  }
}
