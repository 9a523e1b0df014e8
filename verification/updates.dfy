/** What one update of a count entry keeps, drops and counts. */
module Updates {
  import opened Wrappers
  import opened Visitors
  import opened RecentVisitors
  import opened Cbor
  import opened CountEntries

  function StoredTags(list: seq<StoredVisitor>): set<u32> {
    set v | v in list :: v.tag
  }

  function TagsOf(base: Option<Version>): set<u32> {
    if base.None? then {} else StoredTags(base.value.list)
  }

  function CountOf(base: Option<Version>): nat {
    if base.None? then 0 else base.value.count
  }

  predicate Distinct(list: seq<StoredVisitor>) {
    DistinctTags(LoadAll(list))
  }

  predicate DistinctIn(base: Option<Version>) {
    base.Some? ==> Distinct(base.value.list)
  }

  /** The list holds the visitor with a time at most a cutoff before `now`. */
  predicate RecentIn(list: seq<StoredVisitor>, tag: u32, now: Time) {
    exists v :: v in list && v.tag == tag && Recent(Load(v), now)
  }

  // ---- Tags of lists ----

  lemma TagsOfLoaded(list: seq<StoredVisitor>)
    ensures Tags(LoadAll(list)) == StoredTags(list)
  {
  }

  lemma {:induction false} SameTags(a: seq<Visitor>, b: seq<Visitor>)
    requires |a| == |b| && forall i :: 0 <= i < |a| ==> a[i].tag == b[i].tag
    ensures Tags(a) == Tags(b)
    ensures DistinctTags(a) ==> DistinctTags(b)
  {
    forall tag
      ensures tag in Tags(a) <==> tag in Tags(b)
    {
      if tag in Tags(a) {
        var i :| 0 <= i < |a| && a[i].tag == tag;
        assert b[i] in b;
      }
      if tag in Tags(b) {
        var i :| 0 <= i < |b| && b[i].tag == tag;
        assert a[i] in a;
      }
    }
    if a != [] {
      SameTags(a[1..], b[1..]);
    }
  }

  lemma {:induction false} DistinctAppend(s: seq<Visitor>, v: Visitor)
    requires DistinctTags(s) && v.tag !in Tags(s)
    ensures DistinctTags(s + [v])
  {
    if s == [] {
      assert s + [v] == [v];
    } else {
      DistinctAppend(s[1..], v);
      assert (s + [v])[1..] == s[1..] + [v];
      assert s[0] in s && forall w :: w in s[1..] ==> w in s;
    }
  }

  /** In a list with distinct tags the first match is the only one. */
  lemma {:induction false} OnlyMatch(s: seq<Visitor>, i: nat, v: Visitor)
    requires DistinctTags(s) && i < |s| && v in s && v.tag == s[i].tag
    ensures v == s[i]
  {
    assert v == s[0] || v in s[1..];
    if i > 0 {
      assert s[i] == s[1..][i - 1] && s[i] in s[1..];
      OnlyMatch(s[1..], i - 1, v);
    }
  }

  /** A set of distinct tags bounds the length of a list that uses each at most once. */
  lemma {:induction false} DistinctLength(s: seq<Visitor>, tags: set<u32>)
    requires DistinctTags(s) && Tags(s) <= tags
    ensures |s| <= |tags|
  {
    if s != [] {
      assert s[0] in s && s[0].tag in tags;
      assert Tags(s[1..]) <= tags - {s[0].tag};
      DistinctLength(s[1..], tags - {s[0].tag});
    }
  }

  // ---- Touch ----

  /** The list holds the visitor with a time less than a cutoff before `now`. */
  predicate HoldsRecent(s: seq<Visitor>, tag: u32, now: Time) {
    exists v :: v in s && v.tag == tag && Recent(v, now)
  }

  /** The visitor as an update enters it: as it was seen if it is counted, and at `now` if it is refreshed. */
  function Entered(entry: Entry, visitor: Visitor, now: Time): Visitor {
    if HoldsRecent(entry.visitors, visitor.tag, now) then Visitor(visitor.tag, now) else visitor
  }

  /** Whether the visitor is counted, and the list before it is pruned. */
  lemma TouchCounts(entry: Entry, visitor: Visitor, now: Time)
    requires DistinctTags(entry.visitors) && Touch(entry, visitor, now).Success?
    ensures var touched := Touch(entry, visitor, now).value;
            && touched.count == entry.count + (if HoldsRecent(entry.visitors, visitor.tag, now) then 0 else 1)
            && (forall v :: v in touched.visitors ==> v in entry.visitors || v == Entered(entry, visitor, now))
            && (forall v :: v in entry.visitors && v.tag != visitor.tag ==> v in touched.visitors)
            && Entered(entry, visitor, now) in touched.visitors
  {
    var s := entry.visitors;
    var touched := Touch(entry, visitor, now).value;
    match FirstMatch(s, visitor.tag)
    case None =>
      assert touched.visitors[|s|] == visitor;
    case Some(i) =>
      forall v | v in s && v.tag == visitor.tag
        ensures v == s[i]
      {
        OnlyMatch(s, i, v);
      }
      if Recent(s[i], now) {
        assert touched.visitors[i] == Visitor(visitor.tag, now);
        forall v | v in s && v.tag != visitor.tag
          ensures v in touched.visitors
        {
          var j :| 0 <= j < |s| && s[j] == v;
          assert touched.visitors[j] == v;
        }
      } else {
        assert touched.visitors[|s|] == visitor;
      }
  }

  /** The stale first match a push leaves behind does not outlive the filter that follows. */
  lemma TouchThenFilterIsDistinct(entry: Entry, visitor: Visitor, now: Time)
    requires DistinctTags(entry.visitors) && Touch(entry, visitor, now).Success?
    ensures DistinctTags(Filter(RecentAt(now), Touch(entry, visitor, now).value.visitors))
  {
    var s := entry.visitors;
    var p := RecentAt(now);
    match FindRecent(s, visitor.tag, now).value
    case Some(i) =>
      var t := s[i := s[i].(lastSeen := now)];
      SameTags(s, t);
      FilterKeepsDistinct(p, t);
    case None =>
      FilterAppend(p, s, [visitor]);
      FilterKeepsDistinct(p, s);
      FilterElements(p, s);
      assert Filter(p, [visitor]) == if Recent(visitor, now) then [visitor] else [];
      if Recent(visitor, now) {
        if visitor.tag in Tags(Filter(p, s)) {
          var v :| v in Filter(p, s) && v.tag == visitor.tag;
          OnlyMatch(s, FirstMatch(s, visitor.tag).value, v);
        }
        DistinctAppend(Filter(p, s), visitor);
      } else {
        assert Filter(p, s + [visitor]) == Filter(p, s);
      }
  }

  /** Without truncation the visitor of the update is kept, as entered, iff recent, among others that were there. */
  lemma ReviseEnters(entry: Entry, visitor: Visitor, now: Time, maxRecent: nat)
    requires DistinctTags(entry.visitors) && Revise(entry, visitor, now, maxRecent).Success?
    requires |Filter(RecentAt(now), Touch(entry, visitor, now).value.visitors)| <= maxRecent
    ensures var kept := Revise(entry, visitor, now, maxRecent).value.visitors;
            && (Entered(entry, visitor, now) in kept <==> Recent(Entered(entry, visitor, now), now))
            && forall v :: v in kept ==>
                 v == Entered(entry, visitor, now) || (v in entry.visitors && v.tag != visitor.tag)
  {
    var own := Entered(entry, visitor, now);
    var kept := Revise(entry, visitor, now, maxRecent).value.visitors;
    TouchCounts(entry, visitor, now);
    TouchThenFilterIsDistinct(entry, visitor, now);
    FilterElements(RecentAt(now), Touch(entry, visitor, now).value.visitors);
    if Recent(own, now) {
      var j :| 0 <= j < |kept| && kept[j] == own;
      forall v | v in kept && v.tag == visitor.tag
        ensures v == own
      {
        OnlyMatch(kept, j, v);
      }
    }
  }

  // ---- Plan ----

  /** The parts of a put computed from an item. */
  lemma PlanParts(base: Version, visitor: Visitor, now: Time)
    requires Plan(Some(base), visitor, now).Success?
    ensures Touch(InMemory(base), visitor, now).Success?
    ensures Revise(InMemory(base), visitor, now, MAX_RECENT_VISITORS).Success?
    ensures var version := Plan(Some(base), visitor, now).value.version;
            var revised := Revise(InMemory(base), visitor, now, MAX_RECENT_VISITORS).value;
            version.count == revised.count && StoreAll(revised.visitors) == Success(version.list)
  {
  }

  /** What one update does to an entry in memory. */
  lemma ReviseKeeps(entry: Entry, visitor: Visitor, now: Time, maxRecent: nat)
    requires DistinctTags(entry.visitors) && Revise(entry, visitor, now, maxRecent).Success?
    ensures var revised := Revise(entry, visitor, now, maxRecent).value;
            && revised.count == entry.count + (if HoldsRecent(entry.visitors, visitor.tag, now) then 0 else 1)
            && DistinctTags(revised.visitors)
            && |revised.visitors| <= maxRecent
            && Tags(revised.visitors) <= Tags(entry.visitors) + {visitor.tag}
            && (forall v :: v in revised.visitors ==> Recent(v, now) && v.lastSeen <= now)
  {
    var touched := Touch(entry, visitor, now).value;
    TouchCounts(entry, visitor, now);
    TouchThenFilterIsDistinct(entry, visitor, now);
    PruneKeepsRecent(touched.visitors, now, maxRecent);
  }

  /**
   What every put an invocation issues looks like: the count it asks for is the one it read, it
   counts its visitor unless the list it read has it as recent, and its list has distinct tags,
   fits an item and holds no time after the writer's clock.
   */
  lemma PlanKeeps(base: Option<Version>, visitor: Visitor, now: Time)
    requires DistinctIn(base) && Plan(base, visitor, now).Success?
    ensures var request := Plan(base, visitor, now).value;
            && (request.expected == if base.None? then None else Some(base.value.count))
            && (request.Counts() <==> base.None? || !RecentIn(base.value.list, visitor.tag, now))
            && request.version.count == CountOf(base) + (if request.Counts() then 1 else 0)
            && Distinct(request.version.list)
            && |request.version.list| <= MAX_RECENT_VISITORS
            && StoredTags(request.version.list) <= TagsOf(base) + {visitor.tag}
            && (forall v :: v in request.version.list ==>
                  StoredTime(v.lastSeen) <= (if base.None? then visitor.lastSeen else now))
  {
    var request := Plan(base, visitor, now).value;
    match base
    case None =>
      LoadAfterStore(visitor);
      var one := LoadAll(request.version.list);
      assert one[1..] == [];
    case Some(version) =>
      var entry := InMemory(version);
      ReviseKeeps(entry, visitor, now, MAX_RECENT_VISITORS);
      StoredAsKept(Revise(entry, visitor, now, MAX_RECENT_VISITORS).value.visitors, request.version.list, now);
      TagsOfLoaded(version.list);
      RecentIffLoadedRecent(version.list, visitor.tag, now);
  }

  /** Every time an update writes is one it read, or its own visitor's time, or its own clock. */
  lemma PlanStamps(base: Option<Version>, visitor: Visitor, now: Time)
    requires DistinctIn(base) && Plan(base, visitor, now).Success?
    ensures forall v :: v in Plan(base, visitor, now).value.version.list ==>
              || (base.Some? && v in base.value.list)
              || Store(visitor) == Success(v)
              || Store(Visitor(visitor.tag, now)) == Success(v)
  {
    if base.Some? {
      PlanParts(base.value, visitor, now);
      hide Plan, Revise, Touch;
      var entry := InMemory(base.value);
      var kept := Revise(entry, visitor, now, MAX_RECENT_VISITORS).value.visitors;
      ReviseStamps(entry, visitor, now, MAX_RECENT_VISITORS);
      forall v | v in StoreAll(kept).value
        ensures v in base.value.list || Store(visitor) == Success(v) || Store(Visitor(visitor.tag, now)) == Success(v)
      {
        var i :| 0 <= i < |kept| && Store(kept[i]) == Success(v);
        assert kept[i] in kept;
        if kept[i] in entry.visitors {
          var j :| 0 <= j < |base.value.list| && LoadAll(base.value.list)[j] == kept[i];
          StoreAfterLoad(base.value.list[j]);
        }
      }
    }
  }

  lemma ReviseStamps(entry: Entry, visitor: Visitor, now: Time, maxRecent: nat)
    requires DistinctTags(entry.visitors) && Revise(entry, visitor, now, maxRecent).Success?
    ensures forall v :: v in Revise(entry, visitor, now, maxRecent).value.visitors ==>
              v in entry.visitors || v == Entered(entry, visitor, now)
  {
    TouchCounts(entry, visitor, now);
    PruneKeepsRecent(Touch(entry, visitor, now).value.visitors, now, maxRecent);
  }

  lemma RecentIffLoadedRecent(list: seq<StoredVisitor>, tag: u32, now: Time)
    ensures RecentIn(list, tag, now) <==> HoldsRecent(LoadAll(list), tag, now)
  {
  }

  /** Storing a pruned list changes no tag and moves no time past `now`. */
  lemma StoredAsKept(kept: seq<Visitor>, list: seq<StoredVisitor>, now: Time)
    requires StoreAll(kept) == Success(list)
    requires forall v :: v in kept ==> v.lastSeen <= now
    ensures Tags(kept) == StoredTags(list)
    ensures DistinctTags(kept) ==> Distinct(list)
    ensures forall v :: v in list ==> StoredTime(v.lastSeen) <= now
  {
    forall i | 0 <= i < |list|
      ensures kept[i].tag == LoadAll(list)[i].tag && LoadAll(list)[i].lastSeen <= kept[i].lastSeen
    {
      LoadAfterStore(kept[i]);
    }
    SameTags(kept, LoadAll(list));
    TagsOfLoaded(list);
    forall v | v in list
      ensures StoredTime(v.lastSeen) <= now
    {
      var i :| 0 <= i < |list| && list[i] == v;
      assert kept[i] in kept;
      assert LoadAll(list)[i] == Load(v);
    }
  }

  /** More visitors are recent when the writer prunes than an item may hold. */
  predicate Crowded(base: Option<Version>, visitor: Visitor, now: Time) {
    && base.Some?
    && Touch(InMemory(base.value), visitor, now).Success?
    && |Filter(RecentAt(now), Touch(InMemory(base.value), visitor, now).value.visitors)| > MAX_RECENT_VISITORS
  }

  /** The list holds the visitor with a time a cutoff or more before `now`. */
  predicate StaleIn(list: seq<StoredVisitor>, tag: u32, now: Time) {
    exists v :: v in list && v.tag == tag && !Recent(Load(v), now)
  }

  /** A visitor that is found recent is refreshed in place. */
  lemma RefreshKept(entry: Entry, visitor: Visitor, now: Time, i: nat)
    requires DistinctTags(entry.visitors) && Touch(entry, visitor, now).Success?
    requires i < |entry.visitors| && entry.visitors[i].tag == visitor.tag && Recent(entry.visitors[i], now)
    ensures Visitor(visitor.tag, now) in Touch(entry, visitor, now).value.visitors
    ensures Recent(Visitor(visitor.tag, now), now)
  {
    var s := entry.visitors;
    var j := FirstMatch(s, visitor.tag).value;
    OnlyMatch(s, j, s[i]);
    assert Touch(entry, visitor, now).value.visitors[j] == Visitor(visitor.tag, now);
  }

  /** A visitor the writer reads as recent stays on the list, unless the list is crowded. */
  lemma PlanRetains(base: Version, visitor: Visitor, now: Time, tag: u32)
    requires Distinct(base.list) && Plan(Some(base), visitor, now).Success?
    requires RecentIn(base.list, tag, now) && !Crowded(Some(base), visitor, now)
    ensures tag in StoredTags(Plan(Some(base), visitor, now).value.version.list)
  {
    var entry := InMemory(base);
    var touched := Touch(entry, visitor, now).value;
    var kept := Prune(touched.visitors, now, MAX_RECENT_VISITORS).value;
    PruneKeepsRecent(touched.visitors, now, MAX_RECENT_VISITORS);
    FilterElements(RecentAt(now), touched.visitors);
    StoredAsKept(kept, Plan(Some(base), visitor, now).value.version.list, now);
    RecentIffLoadedRecent(base.list, tag, now);
    var i :| 0 <= i < |entry.visitors| && entry.visitors[i].tag == tag && Recent(entry.visitors[i], now);
    if tag == visitor.tag {
      RefreshKept(entry, visitor, now, i);
      assert Visitor(tag, now) in kept;
    } else {
      TouchCounts(entry, visitor, now);
      assert entry.visitors[i] in kept;
    }
  }

  /**
   The only two ways an update forgets a visitor: its stored time is stale by the writer's clock,
   or the list is crowded.
   */
  lemma PlanDrops(base: Version, visitor: Visitor, now: Time, tag: u32)
    requires Distinct(base.list) && Plan(Some(base), visitor, now).Success?
    requires tag in StoredTags(base.list) && tag !in StoredTags(Plan(Some(base), visitor, now).value.version.list)
    ensures StaleIn(base.list, tag, now) || Crowded(Some(base), visitor, now)
  {
    var stored :| stored in base.list && stored.tag == tag;
    if RecentIn(base.list, tag, now) && !Crowded(Some(base), visitor, now) {
      PlanRetains(base, visitor, now, tag);
    }
  }

  /** An update never moves a listed visitor's stored time back. */
  lemma PlanNeverSetsBack(base: Version, visitor: Visitor, now: Time, v: StoredVisitor, w: StoredVisitor)
    requires Distinct(base.list) && Plan(Some(base), visitor, now).Success?
    requires v in base.list && w in Plan(Some(base), visitor, now).value.version.list && v.tag == w.tag
    ensures v.lastSeen <= w.lastSeen
  {
    PlanParts(base, visitor, now);
    hide Plan, Revise, Touch, DistinctTags, Store;
    var entry := InMemory(base);
    var kept := Revise(entry, visitor, now, MAX_RECENT_VISITORS).value.visitors;
    var i :| 0 <= i < |base.list| && base.list[i] == v;
    var j :| 0 <= j < |kept| && Store(kept[j]) == Success(w);
    assert kept[j] in kept;
    LoadAfterStore(kept[j]);
    ReviseNeverSetsBack(entry, visitor, now, MAX_RECENT_VISITORS, i, kept[j]);
    StoreAfterLoad(v);
    StoreKeepsOrder(entry.visitors[i], kept[j]);
  }

  lemma ReviseNeverSetsBack(entry: Entry, visitor: Visitor, now: Time, maxRecent: nat, i: nat, w: Visitor)
    requires DistinctTags(entry.visitors) && Revise(entry, visitor, now, maxRecent).Success?
    requires w in Revise(entry, visitor, now, maxRecent).value.visitors
    requires i < |entry.visitors| && entry.visitors[i].tag == w.tag
    ensures entry.visitors[i].lastSeen <= w.lastSeen
  {
    ReviseStamps(entry, visitor, now, maxRecent);
    ReviseKeeps(entry, visitor, now, maxRecent);
    if w in entry.visitors {
      OnlyMatch(entry.visitors, i, w);
    } else {
      EnteredIsNewer(entry, visitor, now, i);
    }
  }

  /** A visitor enters no older than it was on the list, if it enters as recent. */
  lemma EnteredIsNewer(entry: Entry, visitor: Visitor, now: Time, i: nat)
    requires DistinctTags(entry.visitors) && Touch(entry, visitor, now).Success?
    requires i < |entry.visitors| && entry.visitors[i].tag == visitor.tag
    requires Recent(Entered(entry, visitor, now), now)
    ensures entry.visitors[i].lastSeen <= Entered(entry, visitor, now).lastSeen
  {
    OnlyMatch(entry.visitors, FirstMatch(entry.visitors, visitor.tag).value, entry.visitors[i]);
  }

  /**
   A counted visitor is listed with the time it was seen and no other, and is missing from the
   list only if its time was not recent by the clock or the list was crowded.
   */
  lemma PlanCountsAsSeen(base: Option<Version>, visitor: Visitor, now: Time)
    requires DistinctIn(base) && Plan(base, visitor, now).Success? && Plan(base, visitor, now).value.Counts()
    ensures var list := Plan(base, visitor, now).value.version.list;
            && (forall w :: w in list && w.tag == visitor.tag ==> Store(visitor) == Success(w))
            && (visitor.tag !in StoredTags(list) ==> Crowded(base, visitor, now) || !Recent(visitor, now))
  {
    var list := Plan(base, visitor, now).value.version.list;
    PlanKeeps(base, visitor, now);
    if base.None? {
      assert list[0].tag == visitor.tag;
    } else {
      PlanParts(base.value, visitor, now);
      RecentIffLoadedRecent(base.value.list, visitor.tag, now);
      EntersAsSeen(InMemory(base.value), visitor, now, list);
    }
  }

  lemma EntersAsSeen(entry: Entry, visitor: Visitor, now: Time, list: seq<StoredVisitor>)
    requires DistinctTags(entry.visitors) && Revise(entry, visitor, now, MAX_RECENT_VISITORS).Success?
    requires !HoldsRecent(entry.visitors, visitor.tag, now)
    requires StoreAll(Revise(entry, visitor, now, MAX_RECENT_VISITORS).value.visitors) == Success(list)
    ensures forall w :: w in list && w.tag == visitor.tag ==> Store(visitor) == Success(w)
    ensures visitor.tag !in StoredTags(list) ==>
              || !Recent(visitor, now)
              || |Filter(RecentAt(now), Touch(entry, visitor, now).value.visitors)| > MAX_RECENT_VISITORS
  {
    var kept := Revise(entry, visitor, now, MAX_RECENT_VISITORS).value.visitors;
    KeptAsSeen(entry, visitor, now, MAX_RECENT_VISITORS);
    hide Revise, Touch, Filter, Recent, HoldsRecent, DistinctTags, StoredTags;
    ReviseKeeps(entry, visitor, now, MAX_RECENT_VISITORS);
    StoredAsKept(kept, list, now);
    forall w | w in list && w.tag == visitor.tag
      ensures Store(visitor) == Success(w)
    {
      var i :| 0 <= i < |list| && list[i] == w;
      LoadAfterStore(kept[i]);
      assert kept[i] in kept && kept[i].tag == visitor.tag;
    }
  }

  lemma KeptAsSeen(entry: Entry, visitor: Visitor, now: Time, maxRecent: nat)
    requires DistinctTags(entry.visitors) && Revise(entry, visitor, now, maxRecent).Success?
    requires !HoldsRecent(entry.visitors, visitor.tag, now)
    ensures var kept := Revise(entry, visitor, now, maxRecent).value.visitors;
            && (forall v :: v in kept && v.tag == visitor.tag ==> v == visitor)
            && (visitor.tag !in Tags(kept) ==>
                  || !Recent(visitor, now)
                  || |Filter(RecentAt(now), Touch(entry, visitor, now).value.visitors)| > maxRecent)
  {
    ReviseStamps(entry, visitor, now, maxRecent);
    ReviseKeeps(entry, visitor, now, maxRecent);
    if |Filter(RecentAt(now), Touch(entry, visitor, now).value.visitors)| <= maxRecent {
      ReviseEnters(entry, visitor, now, maxRecent);
    }
  }

  /** The in-memory half of the lemma that follows. */
  lemma ReviseWithinWindow(entry: Entry, visitor: Visitor, now: Time, maxRecent: nat)
    requires DistinctTags(entry.visitors) && Revise(entry, visitor, now, maxRecent).Success?
    requires forall v :: v in entry.visitors ==> Recent(v, now)
    requires Recent(visitor, now)
    requires |Tags(entry.visitors) + {visitor.tag}| <= maxRecent
    ensures Tags(Revise(entry, visitor, now, maxRecent).value.visitors) == Tags(entry.visitors) + {visitor.tag}
  {
    var touched := Touch(entry, visitor, now).value;
    var recent := Filter(RecentAt(now), touched.visitors);
    TouchCounts(entry, visitor, now);
    FilterElements(RecentAt(now), touched.visitors);
    TagsWithOneMore(entry.visitors, recent, visitor.tag);
    TouchThenFilterIsDistinct(entry, visitor, now);
    DistinctLength(recent, Tags(entry.visitors) + {visitor.tag});
  }

  lemma TagsWithOneMore(s: seq<Visitor>, t: seq<Visitor>, tag: u32)
    requires forall v :: v in t ==> v in s || v.tag == tag
    requires forall v :: v in s && v.tag != tag ==> v in t
    requires exists v :: v in t && v.tag == tag
    ensures Tags(t) == Tags(s) + {tag}
  {
  }

  /**
   While everything the writer read is recent by its clock, its own visit is, and there is room,
   an update adds its visitor's tag to the list and loses none, and counts exactly a new tag.
   */
  lemma PlanWithinWindow(base: Option<Version>, visitor: Visitor, now: Time)
    requires DistinctIn(base) && Plan(base, visitor, now).Success?
    requires base.Some? ==> forall v :: v in base.value.list ==> Recent(Load(v), now)
    requires Recent(visitor, now)
    requires |TagsOf(base) + {visitor.tag}| <= MAX_RECENT_VISITORS
    ensures var version := Plan(base, visitor, now).value.version;
            && StoredTags(version.list) == TagsOf(base) + {visitor.tag}
            && version.count == CountOf(base) + (if visitor.tag in TagsOf(base) then 0 else 1)
  {
    var version := Plan(base, visitor, now).value.version;
    PlanKeeps(base, visitor, now);
    if base.Some? {
      PlanTagsWithinWindow(base.value, visitor, now);
      assert visitor.tag in TagsOf(base) ==> RecentIn(base.value.list, visitor.tag, now);
    } else {
      assert version.list[0].tag == visitor.tag;
    }
  }

  lemma PlanTagsWithinWindow(base: Version, visitor: Visitor, now: Time)
    requires Distinct(base.list) && Plan(Some(base), visitor, now).Success?
    requires forall v :: v in base.list ==> Recent(Load(v), now)
    requires Recent(visitor, now) && |StoredTags(base.list) + {visitor.tag}| <= MAX_RECENT_VISITORS
    ensures StoredTags(Plan(Some(base), visitor, now).value.version.list) == StoredTags(base.list) + {visitor.tag}
  {
    PlanParts(base, visitor, now);
    hide Plan, Revise, Touch;
    var entry := InMemory(base);
    var kept := Revise(entry, visitor, now, MAX_RECENT_VISITORS).value.visitors;
    TagsOfLoaded(base.list);
    ReviseKeeps(entry, visitor, now, MAX_RECENT_VISITORS);
    ReviseWithinWindow(entry, visitor, now, MAX_RECENT_VISITORS);
    StoredAsKept(kept, Plan(Some(base), visitor, now).value.version.list, now);
  }
}
