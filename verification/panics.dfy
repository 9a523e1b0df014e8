/**
 Exactly when an update panics (src/store.rs, lines 143 to 159 and 402 to 485). The `expect`
 "now is after last_seen" is false of some inputs: an invocation keeps the clock it started with,
 and a list it reads may hold a time after that.
 */
module Panics {
  import opened Wrappers
  import opened Visitors
  import opened RecentVisitors
  import opened Cbor
  import opened CountEntries
  import opened Updates

  /** An update in memory panics iff the list, or the visitor if it is counted, was seen after `now`. */
  lemma RevisePanicsExactly(entry: Entry, visitor: Visitor, now: Time, maxRecent: nat)
    requires DistinctTags(entry.visitors)
    ensures Revise(entry, visitor, now, maxRecent).Failure? <==>
              SeenAfter(entry.visitors, now)
              || (visitor.lastSeen > now && !HoldsRecent(entry.visitors, visitor.tag, now))
    ensures Revise(entry, visitor, now, maxRecent).Failure? ==>
              Revise(entry, visitor, now, maxRecent) == Failure(NowBeforeLastSeen)
  {
    var s := entry.visitors;
    if Touch(entry, visitor, now).Success? {
      var touched := Touch(entry, visitor, now).value.visitors;
      TouchCounts(entry, visitor, now);
      forall v | v in s && v.lastSeen > now
        ensures v in touched
      {
        if v.tag == visitor.tag {
          OnlyMatch(s, FirstMatch(s, visitor.tag).value, v);
        }
      }
    } else {
      assert s[FirstMatch(s, visitor.tag).value] in s;
    }
  }

  /**
   The item holds a time after the invocation's clock, or does not hold the visitor as recent
   although the visitor itself was seen after the clock.
   */
  predicate ClockBehind(base: Option<Version>, visitor: Visitor, now: Time) {
    base.Some? &&
    (|| SeenAfter(LoadAll(base.value.list), now)
     || (visitor.lastSeen > now && !RecentIn(base.value.list, visitor.tag, now)))
  }

  /** The visitor as the put enters it. */
  function Own(base: Option<Version>, visitor: Visitor, now: Time): Visitor {
    if base.None? then visitor else Entered(InMemory(base.value), visitor, now)
  }

  /**
   The table cannot hold the visitor's own entry, and the prune lets it through: an entry before
   the table's first second is the oldest there is, so it goes first when the list is crowded.
   */
  predicate Unstorable(base: Option<Version>, visitor: Visitor, now: Time) {
    var own := Own(base, visitor, now);
    && !Storable(own.lastSeen)
    && (base.Some? ==> Recent(own, now) && (own.lastSeen < StoredTime(0) ==> !Crowded(base, visitor, now)))
  }

  lemma {:induction false} DistinctIsOnce(s: seq<Visitor>, v: Visitor)
    requires DistinctTags(s)
    ensures multiset(s)[v] <= 1
  {
    if s != [] {
      DistinctIsOnce(s[1..], v);
      assert s == [s[0]] + s[1..];
      assert v == s[0] ==> v !in s[1..];
    }
  }

  lemma LoadedIsStorable(list: seq<StoredVisitor>, v: Visitor)
    requires v in LoadAll(list)
    ensures StoredTime(0) <= v.lastSeen <= StoredTime(0xFFFF_FFFF)
    ensures Store(v).Success?
  {
    var i :| 0 <= i < |list| && LoadAll(list)[i] == v;
    StoreAfterLoad(list[i]);
  }

  /** An entry later than the table can hold is the newest, and one earlier the oldest. */
  lemma UnstorableIsKept(base: Version, visitor: Visitor, now: Time)
    requires Distinct(base.list) && !ClockBehind(Some(base), visitor, now)
    requires Revise(InMemory(base), visitor, now, MAX_RECENT_VISITORS).Success?
    requires !Storable(Own(Some(base), visitor, now).lastSeen)
    ensures Own(Some(base), visitor, now) in Revise(InMemory(base), visitor, now, MAX_RECENT_VISITORS).value.visitors
            <==> Unstorable(Some(base), visitor, now)
  {
    var entry, own := InMemory(base), Own(Some(base), visitor, now);
    var touched := Touch(entry, visitor, now).value.visitors;
    var recent := Filter(RecentAt(now), touched);
    var kept := Prune(touched, now, MAX_RECENT_VISITORS).value;
    var dropped := Overflow(touched, now, MAX_RECENT_VISITORS);
    TouchCounts(entry, visitor, now);
    TouchThenFilterIsDistinct(entry, visitor, now);
    FilterElements(RecentAt(now), touched);
    PruneKeepsRecent(touched, now, MAX_RECENT_VISITORS);
    PruneKeepsNewest(touched, now, MAX_RECENT_VISITORS);
    hide Touch, Revise, Prune, Filter, Overflow, DistinctTags;
    if |recent| > MAX_RECENT_VISITORS && own in recent {
      OwnAmongNewest(base.list, recent, kept, dropped, own);
    }
  }

  lemma OwnAmongNewest(list: seq<StoredVisitor>, recent: seq<Visitor>, kept: seq<Visitor>, dropped: seq<Visitor>,
                       own: Visitor)
    requires DistinctTags(recent) && own in recent && !Storable(own.lastSeen)
    requires forall v :: v in recent ==> v in LoadAll(list) || v == own
    requires kept != [] && dropped != [] && multiset(kept) + multiset(dropped) == multiset(recent)
    requires forall k, d :: k in kept && d in dropped ==> k.lastSeen >= d.lastSeen
    ensures own in kept <==> own.lastSeen >= StoredTime(0)
  {
    DistinctIsOnce(recent, own);
    assert multiset(kept)[own] + multiset(dropped)[own] <= 1;
    assert kept[0] in multiset(recent) && dropped[0] in multiset(recent);
    assert own in multiset(kept) + multiset(dropped);
    if own.lastSeen < StoredTime(0) {
      if dropped[0] != own {
        LoadedIsStorable(list, dropped[0]);
      }
    } else if kept[0] != own {
      LoadedIsStorable(list, kept[0]);
    }
  }

  /**
   Exactly when an invocation panics on the item it read, and with what: with "now is after
   last_seen" if its clock is behind the item, or else with what is wrong with its own time.
   */
  lemma PlanPanicsExactly(base: Option<Version>, visitor: Visitor, now: Time)
    requires DistinctIn(base)
    ensures Plan(base, visitor, now) == Failure(NowBeforeLastSeen) <==> ClockBehind(base, visitor, now)
    ensures Plan(base, visitor, now).Failure? <==>
              ClockBehind(base, visitor, now) || Unstorable(base, visitor, now)
    ensures !ClockBehind(base, visitor, now) && Unstorable(base, visitor, now) ==>
              Store(Own(base, visitor, now)).Failure?
              && Plan(base, visitor, now) == Failure(Store(Own(base, visitor, now)).error)
  {
    LoadAfterStore(Own(base, visitor, now));
    if base.Some? {
      var entry := InMemory(base.value);
      RevisePanicsExactly(entry, visitor, now, MAX_RECENT_VISITORS);
      RecentIffLoadedRecent(base.value.list, visitor.tag, now);
      if !ClockBehind(base, visitor, now) {
        StorePanicsExactly(base.value, visitor, now);
      }
    }
  }

  lemma {:induction false} FirstUnstorable(visitors: seq<Visitor>, own: Visitor)
    requires forall v :: v in visitors ==> Store(v).Success? || v == own
    ensures StoreAll(visitors).Failure? <==> own in visitors && Store(own).Failure?
    ensures StoreAll(visitors).Failure? ==> StoreAll(visitors) == Failure(Store(own).error)
  {
    if visitors != [] {
      assert visitors[0] in visitors;
      FirstUnstorable(visitors[1..], own);
    }
  }

  lemma StorePanicsExactly(base: Version, visitor: Visitor, now: Time)
    requires Distinct(base.list) && !ClockBehind(Some(base), visitor, now)
    requires Revise(InMemory(base), visitor, now, MAX_RECENT_VISITORS).Success?
    ensures var kept := Revise(InMemory(base), visitor, now, MAX_RECENT_VISITORS).value.visitors;
            var own := Own(Some(base), visitor, now);
            && (StoreAll(kept).Failure? <==> Unstorable(Some(base), visitor, now))
            && (StoreAll(kept).Failure? ==> Store(own).Failure? && StoreAll(kept) == Failure(Store(own).error))
  {
    var entry, own := InMemory(base), Own(Some(base), visitor, now);
    var kept := Revise(entry, visitor, now, MAX_RECENT_VISITORS).value.visitors;
    LoadAfterStore(own);
    ReviseStamps(entry, visitor, now, MAX_RECENT_VISITORS);
    if !Storable(own.lastSeen) {
      UnstorableIsKept(base, visitor, now);
    }
    forall v | v in kept && v != own
      ensures Store(v).Success?
    {
      LoadedIsStorable(base.list, v);
    }
    FirstUnstorable(kept, own);
  }
}
