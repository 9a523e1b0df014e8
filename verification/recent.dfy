/**
 The recent-visitors list as a value: filtering, the stable descending sort, and what
 `find_recent_mut` and `prune_visitors` (src/store.rs) compute from it.
 */
module RecentVisitors {
  import opened Wrappers
  import opened Visitors

  function Filter(p: Visitor -> bool, s: seq<Visitor>): seq<Visitor> {
    if s == [] then []
    else if p(s[0]) then [s[0]] + Filter(p, s[1..])
    else Filter(p, s[1..])
  }

  function RecentAt(now: Time): Visitor -> bool {
    (v: Visitor) => Recent(v, now)
  }

  function SeenAt(time: Time): Visitor -> bool {
    (v: Visitor) => v.lastSeen == time
  }

  /** Recent at `now`, and seen no earlier than `time`. */
  function RecentSince(now: Time, time: Time): Visitor -> bool {
    (v: Visitor) => Recent(v, now) && v.lastSeen >= time
  }

  function SeenSince(time: Time): Visitor -> bool {
    (v: Visitor) => v.lastSeen >= time
  }

  function Tags(s: seq<Visitor>): set<u32> {
    set v | v in s :: v.tag
  }

  /** No two visitors of the list carry the same tag. */
  predicate DistinctTags(s: seq<Visitor>) {
    s == [] || (s[0].tag !in Tags(s[1..]) && DistinctTags(s[1..]))
  }

  /** Newest first. */
  predicate Descending(s: seq<Visitor>) {
    s == [] || ((forall v :: v in s[1..] ==> s[0].lastSeen >= v.lastSeen) && Descending(s[1..]))
  }

  /** Some visitor was seen after `now`, so that `duration_since` fails. */
  predicate SeenAfter(s: seq<Visitor>, now: Time) {
    exists v :: v in s && v.lastSeen > now
  }

  lemma {:induction false} DescendingAt(s: seq<Visitor>, i: nat, j: nat)
    requires Descending(s) && i <= j < |s|
    ensures s[i].lastSeen >= s[j].lastSeen
  {
    if i > 0 {
      DescendingAt(s[1..], i - 1, j - 1);
    } else if j > 0 {
      assert s[j] == s[1..][j - 1];
    }
  }

  // ---- Filtering ----

  lemma {:induction false} FilterElements(p: Visitor -> bool, s: seq<Visitor>)
    ensures forall v :: v in Filter(p, s) <==> v in s && p(v)
    ensures |Filter(p, s)| <= |s|
  {
    if s != [] {
      FilterElements(p, s[1..]);
      assert forall v :: v in s <==> v == s[0] || v in s[1..];
    }
  }

  lemma {:induction false} FilterAppend(p: Visitor -> bool, a: seq<Visitor>, b: seq<Visitor>)
    ensures Filter(p, a + b) == Filter(p, a) + Filter(p, b)
  {
    if a == [] {
      assert a + b == b;
    } else {
      FilterAppend(p, a[1..], b);
      assert (a + b)[1..] == a[1..] + b;
    }
  }

  lemma {:induction false} FilterAll(p: Visitor -> bool, s: seq<Visitor>)
    requires forall v :: v in s ==> p(v)
    ensures Filter(p, s) == s
  {
    if s != [] {
      FilterAll(p, s[1..]);
    }
  }

  lemma {:induction false} FilterNone(p: Visitor -> bool, s: seq<Visitor>)
    requires forall v :: v in s ==> !p(v)
    ensures Filter(p, s) == []
  {
    if s != [] {
      assert s[0] in s;
      FilterNone(p, s[1..]);
    }
  }

  lemma {:induction false} FilterTwice(p: Visitor -> bool, q: Visitor -> bool, both: Visitor -> bool, s: seq<Visitor>)
    requires forall v :: v in s ==> (both(v) <==> p(v) && q(v))
    ensures Filter(p, Filter(q, s)) == Filter(both, s)
  {
    if s != [] {
      FilterTwice(p, q, both, s[1..]);
      assert s[0] in s;
    }
  }

  lemma {:induction false} FilterKeepsDistinct(p: Visitor -> bool, s: seq<Visitor>)
    requires DistinctTags(s)
    ensures DistinctTags(Filter(p, s))
  {
    if s != [] {
      FilterKeepsDistinct(p, s[1..]);
      FilterElements(p, s[1..]);
      assert ([s[0]] + Filter(p, s[1..]))[1..] == Filter(p, s[1..]);
    }
  }

  /** The predicate prefers newer visitors. */
  ghost predicate Upward(p: Visitor -> bool) {
    forall v: Visitor, w: Visitor :: v.lastSeen >= w.lastSeen && p(w) ==> p(v)
  }

  /** Of a list in descending order such a filter keeps a prefix, and so of every prefix of it. */
  lemma {:induction false} FilterPrefix(p: Visitor -> bool, s: seq<Visitor>, m: nat)
    requires Descending(s) && Upward(p) && m <= |s|
    ensures |Filter(p, s)| <= |s| && Filter(p, s) == s[..|Filter(p, s)|]
    ensures Filter(p, s[..m]) == if |Filter(p, s)| > m then s[..m] else Filter(p, s)
  {
    if s == [] {
    } else if p(s[0]) {
      FilterPrefix(p, s[1..], if m > 0 then m - 1 else 0);
      if m > 0 {
        assert s[..m] == [s[0]] + s[1..][..m - 1];
      }
    } else {
      forall v | v in s
        ensures !p(v)
      {
        assert v == s[0] || v in s[1..];
      }
      FilterNone(p, s);
      FilterNone(p, s[..m]);
    }
  }

  // ---- The stable sort ----

  /** Puts `v` before the first visitor that is not newer. */
  function Insert(v: Visitor, s: seq<Visitor>): (r: seq<Visitor>)
    ensures |r| == |s| + 1
  {
    if s == [] then [v]
    else if v.lastSeen >= s[0].lastSeen then [v] + s
    else [s[0]] + Insert(v, s[1..])
  }

  function SortDescending(s: seq<Visitor>): (r: seq<Visitor>)
    ensures |r| == |s|
  {
    if s == [] then [] else Insert(s[0], SortDescending(s[1..]))
  }

  lemma {:induction false} InsertElements(v: Visitor, s: seq<Visitor>)
    ensures multiset(Insert(v, s)) == multiset{v} + multiset(s)
    ensures forall w :: w in Insert(v, s) <==> w == v || w in s
  {
    if s != [] && v.lastSeen < s[0].lastSeen {
      InsertElements(v, s[1..]);
      assert s == [s[0]] + s[1..];
      assert forall w :: w in s <==> w == s[0] || w in s[1..];
    }
  }

  /** The sort is a permutation. */
  lemma {:induction false} SortElements(s: seq<Visitor>)
    ensures multiset(SortDescending(s)) == multiset(s)
    ensures forall v :: v in SortDescending(s) <==> v in s
  {
    if s != [] {
      SortElements(s[1..]);
      InsertElements(s[0], SortDescending(s[1..]));
      assert s == [s[0]] + s[1..];
      assert forall v :: v in s <==> v == s[0] || v in s[1..];
    }
  }

  lemma {:induction false} InsertDescending(v: Visitor, s: seq<Visitor>)
    requires Descending(s)
    ensures Descending(Insert(v, s))
  {
    if s == [] {
    } else if v.lastSeen >= s[0].lastSeen {
      assert ([v] + s)[1..] == s;
      forall w | w in s
        ensures v.lastSeen >= w.lastSeen
      {
        assert w == s[0] || w in s[1..];
      }
    } else {
      InsertDescending(v, s[1..]);
      InsertElements(v, s[1..]);
      assert Insert(v, s)[1..] == Insert(v, s[1..]);
    }
  }

  lemma {:induction false} SortIsDescending(s: seq<Visitor>)
    ensures Descending(SortDescending(s))
  {
    if s != [] {
      SortIsDescending(s[1..]);
      InsertDescending(s[0], SortDescending(s[1..]));
    }
  }

  lemma {:induction false} InsertNewest(v: Visitor, s: seq<Visitor>)
    requires forall w :: w in s ==> v.lastSeen >= w.lastSeen
    ensures Insert(v, s) == [v] + s
  {
    if s != [] {
      assert s[0] in s;
    }
  }

  lemma {:induction false} FilterInsert(p: Visitor -> bool, v: Visitor, s: seq<Visitor>)
    requires Descending(s)
    ensures Filter(p, Insert(v, s)) == if p(v) then Insert(v, Filter(p, s)) else Filter(p, s)
  {
    if s == [] {
      assert Insert(v, s)[1..] == [];
    } else if v.lastSeen >= s[0].lastSeen {
      assert ([v] + s)[1..] == s;
      FilterElements(p, s);
      assert forall w :: w in s ==> w == s[0] || w in s[1..];
      InsertNewest(v, Filter(p, s));
    } else {
      FilterInsert(p, v, s[1..]);
      assert Insert(v, s)[1..] == Insert(v, s[1..]);
      if p(s[0]) {
        assert Filter(p, s)[1..] == Filter(p, s[1..]);
      } 
    }
  }

  /** The sort is stable in the strongest sense: it commutes with every filter. */
  lemma {:induction false} FilterSort(p: Visitor -> bool, s: seq<Visitor>)
    ensures Filter(p, SortDescending(s)) == SortDescending(Filter(p, s))
  {
    if s != [] {
      FilterSort(p, s[1..]);
      SortIsDescending(s[1..]);
      FilterInsert(p, s[0], SortDescending(s[1..]));
      if p(s[0]) {
        assert Filter(p, s)[1..] == Filter(p, s[1..]);
      }
    }
  }

  lemma {:induction false} SortOfDescending(s: seq<Visitor>)
    requires Descending(s)
    ensures SortDescending(s) == s
  {
    if s != [] {
      SortOfDescending(s[1..]);
      InsertNewest(s[0], s[1..]);
    }
  }

  lemma {:induction false} OneTimeDescending(s: seq<Visitor>, time: Time)
    requires forall v :: v in s ==> v.lastSeen == time
    ensures Descending(s)
  {
    if s != [] {
      OneTimeDescending(s[1..], time);
      assert s[0] in s;
    }
  }

  lemma SortKeepsEqualTimes(s: seq<Visitor>, time: Time)
    ensures Filter(SeenAt(time), SortDescending(s)) == Filter(SeenAt(time), s)
  {
    var same := Filter(SeenAt(time), s);
    FilterSort(SeenAt(time), s);
    FilterElements(SeenAt(time), s);
    OneTimeDescending(same, time);
    SortOfDescending(same);
  }

  ghost predicate SameAtEveryTime(a: seq<Visitor>, b: seq<Visitor>) {
    forall time :: Filter(SeenAt(time), a) == Filter(SeenAt(time), b)
  }

  lemma FirstIsSeenIn(a: seq<Visitor>, b: seq<Visitor>)
    requires SameAtEveryTime(a, b) && Descending(b) && a != []
    ensures b != [] && b[0].lastSeen >= a[0].lastSeen
  {
    var p := SeenAt(a[0].lastSeen);
    FilterElements(p, a);
    FilterElements(p, b);
    assert a[0] in Filter(p, a);
    assert Filter(p, a) == Filter(p, b);
    assert a[0] == b[0] || a[0] in b[1..];
  }

  lemma {:induction false} DescendingDetermined(a: seq<Visitor>, b: seq<Visitor>)
    requires Descending(a) && Descending(b) && SameAtEveryTime(a, b)
    ensures a == b
  {
    if a != [] {
      FirstIsSeenIn(a, b);
      FirstIsSeenIn(b, a);
      var first := SeenAt(a[0].lastSeen);
      assert Filter(first, a)[0] == a[0] && Filter(first, b)[0] == b[0];
      assert Filter(first, a) == Filter(first, b);
      forall time
        ensures Filter(SeenAt(time), a[1..]) == Filter(SeenAt(time), b[1..])
      {
        assert Filter(SeenAt(time), a) == Filter(SeenAt(time), b);
        if time == a[0].lastSeen {
          assert Filter(SeenAt(time), a)[1..] == Filter(SeenAt(time), b)[1..];
        }
      }
      DescendingDetermined(a[1..], b[1..]);
      assert a == [a[0]] + a[1..] && b == [b[0]] + b[1..];
    } else if b != [] {
      FirstIsSeenIn(b, a);
    }
  }

  /**
   The library's `sort_by` is any function that returns its input in descending order and leaves
   visitors with equal times in the order it found them. There is only one, and this is it.
   */
  lemma StableSortIsUnique(s: seq<Visitor>, r: seq<Visitor>)
    ensures r == SortDescending(s) <==> Descending(r) && SameAtEveryTime(r, s)
  {
    SortIsDescending(s);
    forall time
      ensures Filter(SeenAt(time), SortDescending(s)) == Filter(SeenAt(time), s)
    {
      SortKeepsEqualTimes(s, time);
    }
    if Descending(r) && SameAtEveryTime(r, s) {
      forall time
        ensures Filter(SeenAt(time), r) == Filter(SeenAt(time), SortDescending(s))
      {
        assert Filter(SeenAt(time), r) == Filter(SeenAt(time), s);
      }
      DescendingDetermined(r, SortDescending(s));
    }
  }

  lemma {:induction false} InsertDistinct(v: Visitor, s: seq<Visitor>)
    requires DistinctTags(s) && v.tag !in Tags(s)
    ensures DistinctTags(Insert(v, s))
  {
    if s == [] {
    } else if v.lastSeen >= s[0].lastSeen {
      assert ([v] + s)[1..] == s;
    } else {
      InsertDistinct(v, s[1..]);
      InsertElements(v, s[1..]);
      assert Insert(v, s)[1..] == Insert(v, s[1..]);
    }
  }

  lemma {:induction false} SortKeepsDistinct(s: seq<Visitor>)
    requires DistinctTags(s)
    ensures DistinctTags(SortDescending(s))
  {
    if s != [] {
      SortKeepsDistinct(s[1..]);
      SortElements(s[1..]);
      InsertDistinct(s[0], SortDescending(s[1..]));
    }
  }

  lemma {:induction false} TakeKeepsDistinct(s: seq<Visitor>, m: nat)
    requires DistinctTags(s) && m <= |s|
    ensures DistinctTags(s[..m])
  {
    if m > 0 {
      TakeKeepsDistinct(s[1..], m - 1);
      assert s[..m][1..] == s[1..][..m - 1];
    }
  }

  // ---- Finding a visitor ----

  /** The index of the first visitor with this tag. */
  function FirstMatch(s: seq<Visitor>, tag: u32): (r: Option<nat>)
    ensures r.None? ==> forall v :: v in s ==> v.tag != tag
    ensures r.Some? ==> r.value < |s| && s[r.value].tag == tag
    ensures r.Some? ==> forall i :: 0 <= i < r.value ==> s[i].tag != tag
  {
    if s == [] then None
    else if s[0].tag == tag then Some(0)
    else match FirstMatch(s[1..], tag)
      case None => None
      case Some(i) => Some(i + 1)
  }

  /** Only the age of the first match matters: a later, younger match is never considered. */
  function FindRecent(s: seq<Visitor>, tag: u32, now: Time): Result<Option<nat>, Panic> {
    match FirstMatch(s, tag)
    case None => Success(None)
    case Some(i) =>
      if s[i].lastSeen > now then Failure(NowBeforeLastSeen)
      else if Recent(s[i], now) then Success(Some(i))
      else Success(None)
  }

  /** The first entry with this tag. */
  predicate IsFirst(s: seq<Visitor>, tag: u32, i: nat) {
    i < |s| && s[i].tag == tag && forall j :: 0 <= j < i ==> s[j].tag != tag
  }

  /** Seen at most two hours ago, in nanoseconds, and not after `now`. */
  predicate WithinTwoHours(time: Time, now: Time) {
    time <= now < time + 7_200_000_000_000
  }

  /** The first entry with the tag is found iff it was seen within two hours, and panics iff it was seen later. */
  lemma FoundWithinTwoHours(s: seq<Visitor>, tag: u32, now: Time, i: nat)
    ensures FindRecent(s, tag, now) == Success(Some(i))
            <==> IsFirst(s, tag, i) && WithinTwoHours(s[i].lastSeen, now)
    ensures IsFirst(s, tag, i) ==> (FindRecent(s, tag, now) == Failure(NowBeforeLastSeen) <==> s[i].lastSeen > now)
    ensures (forall v :: v in s ==> v.tag != tag) ==> FindRecent(s, tag, now) == Success(None)
  {
    match FirstMatch(s, tag)
    case None =>
    case Some(j) =>
      assert s[j] in s;
      assert IsFirst(s, tag, i) ==> i == j;
  }

  // ---- Pruning ----

  function Prune(s: seq<Visitor>, now: Time, maxRecent: nat): Result<seq<Visitor>, Panic> {
    if SeenAfter(s, now) then
      Failure(NowBeforeLastSeen)
    else
      var recent := Filter(RecentAt(now), s);
      Success(if |recent| > maxRecent then SortDescending(recent)[..maxRecent] else recent)
  }

  /** Pruning only removes: what it keeps was in the list and is recent. */
  lemma PruneKeepsRecent(s: seq<Visitor>, now: Time, maxRecent: nat)
    requires Prune(s, now, maxRecent).Success?
    ensures var kept := Prune(s, now, maxRecent).value;
            && |kept| <= maxRecent
            && (forall v :: v in kept ==> v in s && Recent(v, now) && v.lastSeen <= now)
            && (|Filter(RecentAt(now), s)| <= maxRecent ==> kept == Filter(RecentAt(now), s))
            && (DistinctTags(Filter(RecentAt(now), s)) ==> DistinctTags(kept))
  {
    var recent := Filter(RecentAt(now), s);
    FilterElements(RecentAt(now), s);
    SortElements(recent);
    assert forall v :: v in Prune(s, now, maxRecent).value ==> v in recent;
    assert forall v :: v in s ==> v.lastSeen <= now;
    if DistinctTags(recent) {
      SortKeepsDistinct(recent);
      if |recent| > maxRecent {
        TakeKeepsDistinct(SortDescending(recent), maxRecent);
      }
    }
  }

  /** The recent visitors there is no room for. */
  function Overflow(s: seq<Visitor>, now: Time, maxRecent: nat): seq<Visitor> {
    var recent := Filter(RecentAt(now), s);
    if |recent| > maxRecent then SortDescending(recent)[maxRecent..] else []
  }

  /** Nobody recent vanishes, and nobody recent is dropped in favour of somebody older. */
  lemma PruneKeepsNewest(s: seq<Visitor>, now: Time, maxRecent: nat)
    requires Prune(s, now, maxRecent).Success?
    ensures var kept, dropped := Prune(s, now, maxRecent).value, Overflow(s, now, maxRecent);
            && multiset(kept) + multiset(dropped) == multiset(Filter(RecentAt(now), s))
            && forall k, d :: k in kept && d in dropped ==> k.lastSeen >= d.lastSeen
  {
    var recent := Filter(RecentAt(now), s);
    SortElements(recent);
    SortIsDescending(recent);
    if |recent| > maxRecent {
      SplitDescending(SortDescending(recent), maxRecent);
    }
  }

  /** What a prune keeps, in nanoseconds: with room exactly the visitors seen within two hours. */
  lemma KeptWithinTwoHours(s: seq<Visitor>, now: Time, maxRecent: nat)
    ensures Prune(s, now, maxRecent).Failure? <==> exists v :: v in s && v.lastSeen > now
    ensures Prune(s, now, maxRecent).Success? ==>
              var kept := Prune(s, now, maxRecent).value;
              && (forall v :: v in kept ==> v in s && WithinTwoHours(v.lastSeen, now))
              && (forall v :: v in s && WithinTwoHours(v.lastSeen, now) && v !in kept ==>
                    |kept| == maxRecent && forall k :: k in kept ==> k.lastSeen >= v.lastSeen)
  {
    if Prune(s, now, maxRecent).Success? {
      var kept, dropped := Prune(s, now, maxRecent).value, Overflow(s, now, maxRecent);
      PruneKeepsRecent(s, now, maxRecent);
      PruneKeepsNewest(s, now, maxRecent);
      FilterElements(RecentAt(now), s);
      forall v | v in s && WithinTwoHours(v.lastSeen, now) && v !in kept
        ensures |kept| == maxRecent && forall k :: k in kept ==> k.lastSeen >= v.lastSeen
      {
        assert v in multiset(kept) + multiset(dropped);
        assert v in dropped;
      }
    }
  }

  lemma {:induction false} TakeKeepsDescending(s: seq<Visitor>, m: nat)
    requires Descending(s) && m <= |s|
    ensures Descending(s[..m])
  {
    if m > 0 {
      TakeKeepsDescending(s[1..], m - 1);
      assert s[..m][1..] == s[1..][..m - 1];
      assert forall v :: v in s[1..][..m - 1] ==> v in s[1..];
    }
  }

  /** A list that has to be truncated comes out newest first, and equal times in the order they were in. */
  lemma TruncatedIsNewestFirst(s: seq<Visitor>, now: Time, maxRecent: nat)
    requires Prune(s, now, maxRecent).Success? && |Filter(RecentAt(now), s)| > maxRecent
    ensures var kept := Prune(s, now, maxRecent).value;
            && |kept| == maxRecent && Descending(kept)
            && forall time :: Filter(SeenAt(time), kept) <= Filter(SeenAt(time), s)
  {
    var recent := Filter(RecentAt(now), s);
    var sorted := SortDescending(recent);
    var kept, dropped := sorted[..maxRecent], sorted[maxRecent..];
    SortIsDescending(recent);
    TakeKeepsDescending(sorted, maxRecent);
    forall time
      ensures Filter(SeenAt(time), kept) <= Filter(SeenAt(time), s)
    {
      var p := SeenAt(time);
      assert sorted == kept + dropped;
      FilterAppend(p, kept, dropped);
      SortKeepsEqualTimes(recent, time);
      FilterElements(RecentAt(now), s);
      if now - time < RECENT_CUTOFF {
        FilterTwice(p, RecentAt(now), p, s);
      } else {
        SortElements(recent);
        assert forall v :: v in kept ==> v in sorted;
        FilterNone(p, kept);
      }
    }
  }

  lemma SplitDescending(s: seq<Visitor>, m: nat)
    requires Descending(s) && m <= |s|
    ensures multiset(s[..m]) + multiset(s[m..]) == multiset(s)
    ensures forall k, d :: k in s[..m] && d in s[m..] ==> k.lastSeen >= d.lastSeen
  {
    assert s == s[..m] + s[m..];
    forall k, d | k in s[..m] && d in s[m..]
      ensures k.lastSeen >= d.lastSeen
    {
      var i :| 0 <= i < m && s[i] == k;
      var j :| 0 <= j < |s| - m && s[m..][j] == d;
      DescendingAt(s, i, m + j);
    }
  }

  lemma {:induction false} InsertBeforeOldest(w: Visitor, s: seq<Visitor>, v: Visitor)
    requires w.lastSeen >= v.lastSeen
    ensures Insert(w, s + [v]) == Insert(w, s) + [v]
  {
    if s == [] {
      assert s + [v] == [v];
    } else {
      assert (s + [v])[0] == s[0] && (s + [v])[1..] == s[1..] + [v];
      if w.lastSeen < s[0].lastSeen {
        InsertBeforeOldest(w, s[1..], v);
      } else {
        assert [w] + (s + [v]) == ([w] + s) + [v];
      }
    }
  }

  lemma {:induction false} SortAppendOldest(s: seq<Visitor>, v: Visitor)
    requires forall w :: w in s ==> w.lastSeen >= v.lastSeen
    ensures SortDescending(s + [v]) == SortDescending(s) + [v]
  {
    if s == [] {
      assert s + [v] == [v];
    } else {
      SortAppendOldest(s[1..], v);
      assert (s + [v])[0] == s[0] && (s + [v])[1..] == s[1..] + [v];
      assert s[0] in s;
      InsertBeforeOldest(s[0], SortDescending(s[1..]), v);
    }
  }

  /** Where a visitor appended to a list ends up when the whole is sorted. */
  lemma SortAppend(s: seq<Visitor>, v: Visitor)
    ensures var newer := Filter(SeenSince(v.lastSeen), s);
            && |newer| < |SortDescending(s + [v])|
            && SortDescending(s + [v])[..|newer| + 1] == SortDescending(newer) + [v]
  {
    var p := SeenSince(v.lastSeen);
    var newer := Filter(p, s);
    var sorted := SortDescending(s + [v]);
    FilterElements(p, s);
    FilterAppend(p, s, [v]);
    assert Filter(p, [v]) == [v];
    FilterSort(p, s + [v]);
    SortIsDescending(s + [v]);
    SortAppendOldest(newer, v);
    SortElements(newer);
    FilterPrefix(p, sorted, 0);
  }

  /** The newest `m` of a sorted list contain the last visitor pushed unless `m` others are as new. */
  lemma AppendedAmongNewest(others: seq<Visitor>, v: Visitor, m: nat)
    requires v !in others && m <= |others|
    ensures v in SortDescending(others + [v])[..m] <==> |Filter(SeenSince(v.lastSeen), others)| < m
  {
    var newer := Filter(SeenSince(v.lastSeen), others);
    var sorted := SortDescending(others + [v]);
    var front := SortDescending(newer);
    SortAppend(others, v);
    SortElements(newer);
    FilterElements(SeenSince(v.lastSeen), others);
    assert (front + [v])[|newer|] == v;
    if |newer| < m {
      assert sorted[..m][|newer|] == v;
    } else {
      assert sorted[..m] == (front + [v])[..m] == front[..m];
      assert forall w :: w in front[..m] ==> w in front;
    }
  }

  /**
   A visitor just pushed on the list survives the prune exactly when it is recent and fewer than
   `maxRecent` other recent visitors are at least as new. The list may hold the same visitor, as
   long as that one is stale: if it were recent, it would have been refreshed and not pushed.
   */
  lemma PushedSurvives(s: seq<Visitor>, v: Visitor, now: Time, maxRecent: nat)
    requires !SeenAfter(s + [v], now) && (Recent(v, now) ==> v !in s)
    ensures v in Prune(s + [v], now, maxRecent).value
            <==> Recent(v, now) && |Filter(RecentSince(now, v.lastSeen), s)| < maxRecent
  {
    PruneKeepsRecent(s + [v], now, maxRecent);
    if Recent(v, now) {
      var others := Filter(RecentAt(now), s);
      assert Filter(RecentAt(now), s + [v]) == others + [v] by {
        FilterAppend(RecentAt(now), s, [v]);
      }
      FilterElements(RecentAt(now), s);
      FilterElements(SeenSince(v.lastSeen), others);
      FilterTwice(SeenSince(v.lastSeen), RecentAt(now), RecentSince(now, v.lastSeen), s);
      if |others| + 1 > maxRecent {
        AppendedAmongNewest(others, v, maxRecent);
      }
    }
  }

  /**
   Pruning early never changes what a later prune keeps: the same visitors always, and the same
   sequence when more than `maxRecent` of them are recent at the later time.
   */
  lemma EarlyPruneIsHarmless(s: seq<Visitor>, early: Time, late: Time, maxRecent: nat)
    requires early <= late && !SeenAfter(s, early)
    ensures Prune(s, early, maxRecent).Success? && Prune(s, late, maxRecent).Success?
    ensures var first := Prune(s, early, maxRecent).value;
            var direct := Prune(s, late, maxRecent).value;
            && Prune(first, late, maxRecent).Success?
            && var second := Prune(first, late, maxRecent).value;
               && multiset(second) == multiset(direct)
               && (|Filter(RecentAt(late), s)| > maxRecent ==> second == direct)
               && (early == late ==> second == first)
  {
    var p := RecentAt(late);
    var recent := Filter(RecentAt(early), s);
    var first := Prune(s, early, maxRecent).value;
    PruneKeepsRecent(s, early, maxRecent);
    FilterTwice(p, RecentAt(early), p, s);
    if |recent| > maxRecent {
      PruneOfPruned(recent, late, maxRecent);
    }
    if early == late {
      FilterAll(p, first);
    }
  }

  /** What is recent among the newest `m` is the newest `m` of what is recent. */
  lemma PruneOfPruned(s: seq<Visitor>, now: Time, m: nat)
    requires m < |s|
    ensures var recent := Filter(RecentAt(now), s);
            Filter(RecentAt(now), SortDescending(s)[..m])
            == if |recent| > m then SortDescending(recent)[..m] else SortDescending(recent)
    ensures multiset(SortDescending(Filter(RecentAt(now), s))) == multiset(Filter(RecentAt(now), s))
  {
    var p := RecentAt(now);
    SortIsDescending(s);
    FilterPrefix(p, SortDescending(s), m);
    FilterSort(p, s);
    SortElements(Filter(p, s));
  }
}
