/**
 Visitors and their stored form (src/store.rs). A `SystemTime` is a whole number of nanoseconds
 since the Unix epoch, negative before it. A stored visitor keeps whole seconds since
 TIMESTAMP_OFFSET in 32 bits. Every `expect` of the source that can fire is a `Panic`.
 */
module Visitors {
  import opened Wrappers

  const NANOS_PER_SECOND := 1_000_000_000
  const TIMESTAMP_OFFSET := 1_690_000_000
  const RECENT_CUTOFF := 7200 * NANOS_PER_SECOND

  type Time = int
  type u32 = x: int | 0 <= x < 0x1_0000_0000

  datatype Visitor = Visitor(tag: u32, lastSeen: Time)
  datatype StoredVisitor = StoredVisitor(tag: u32, lastSeen: u32)

  datatype Panic =
    | NowBeforeLastSeen
    | LastSeenBeforeEpoch
    | LastSeenBeforeOffset
    | LastSeenTooLate

  /** The time a stored number of seconds stands for. */
  function StoredTime(seconds: u32): Time {
    (TIMESTAMP_OFFSET + seconds) * NANOS_PER_SECOND
  }

  function Load(stored: StoredVisitor): Visitor {
    Visitor(stored.tag, StoredTime(stored.lastSeen))
  }

  function Store(visitor: Visitor): Result<StoredVisitor, Panic> {
    if visitor.lastSeen < 0 then
      Failure(LastSeenBeforeEpoch)
    else
      var seconds := visitor.lastSeen / NANOS_PER_SECOND;
      if seconds < TIMESTAMP_OFFSET then
        Failure(LastSeenBeforeOffset)
      else if seconds - TIMESTAMP_OFFSET >= 0x1_0000_0000 then
        Failure(LastSeenTooLate)
      else
        Success(StoredVisitor(visitor.tag, seconds - TIMESTAMP_OFFSET))
  }

  /** Younger than the cutoff at `now`; said only of visitors not seen after `now`. */
  predicate Recent(visitor: Visitor, now: Time) {
    now - visitor.lastSeen < RECENT_CUTOFF
  }

  /** What the table keeps of a time: the second it lies in. */
  function WholeSecond(time: Time): Time {
    time - time % NANOS_PER_SECOND
  }

  predicate Storable(time: Time) {
    StoredTime(0) <= time < StoredTime(0xFFFF_FFFF) + NANOS_PER_SECOND
  }

  /** Loading undoes storing on everything the table can hold. */
  lemma StoreAfterLoad(stored: StoredVisitor)
    ensures Store(Load(stored)) == Success(stored)
  {
  }

  /** Storing succeeds on exactly the 32-bit span of seconds, and then floors to the second. */
  lemma LoadAfterStore(visitor: Visitor)
    ensures Store(visitor).Success? <==> Storable(visitor.lastSeen)
    ensures Storable(visitor.lastSeen) ==>
              var again := Load(Store(visitor).value);
              && again.tag == visitor.tag
              && again.lastSeen == WholeSecond(visitor.lastSeen)
              && again.lastSeen <= visitor.lastSeen < again.lastSeen + NANOS_PER_SECOND
  {
  }

  /** The stored seconds in numbers: they are counted from 1 690 000 000 seconds after the epoch. */
  lemma StoredInSeconds(visitor: Visitor, second: u32)
    ensures Store(visitor) == Success(StoredVisitor(visitor.tag, second))
            <==> (1_690_000_000 + second) * 1_000_000_000 <= visitor.lastSeen
                 && visitor.lastSeen < (1_690_000_001 + second) * 1_000_000_000
    ensures Load(StoredVisitor(visitor.tag, second))
         == Visitor(visitor.tag, (1_690_000_000 + second) * 1_000_000_000)
  {
  }

  /** Which `expect` a time that does not fit fails: the spans end at the epoch, the offset and 2^32 seconds. */
  lemma StorePanicsInSeconds(visitor: Visitor)
    ensures Store(visitor) == Failure(LastSeenBeforeEpoch) <==> visitor.lastSeen < 0
    ensures Store(visitor) == Failure(LastSeenBeforeOffset)
            <==> 0 <= visitor.lastSeen < 1_690_000_000 * 1_000_000_000
    ensures Store(visitor) == Failure(LastSeenTooLate)
            <==> visitor.lastSeen >= (1_690_000_000 + 0x1_0000_0000) * 1_000_000_000
    ensures Store(visitor) != Failure(NowBeforeLastSeen)
  {
  }

  /** Storing never reorders two visitors. */
  lemma StoreKeepsOrder(a: Visitor, b: Visitor)
    requires Store(a).Success? && Store(b).Success?
    requires a.lastSeen <= b.lastSeen
    ensures Store(a).value.lastSeen <= Store(b).value.lastSeen
  {
  }

  /** What narrowing does to recency: it only ages a visitor, and by less than a second. */
  lemma StoreAndRecency(visitor: Visitor, now: Time)
    requires Store(visitor).Success?
    ensures var again := Load(Store(visitor).value);
            && (Recent(again, now) <==> now - WholeSecond(visitor.lastSeen) < RECENT_CUTOFF)
            && (Recent(again, now) ==> Recent(visitor, now))
            && (now - visitor.lastSeen <= RECENT_CUTOFF - NANOS_PER_SECOND ==> Recent(again, now))
            && (visitor.lastSeen <= now ==> again.lastSeen <= now)
  {
  }

  /** Stored lists are read back element by element. */
  function LoadAll(list: seq<StoredVisitor>): (visitors: seq<Visitor>)
    ensures |visitors| == |list|
    ensures forall i :: 0 <= i < |list| ==> visitors[i] == Load(list[i])
  {
    seq(|list|, i requires 0 <= i < |list| => Load(list[i]))
  }

  /** Writes a list element by element, panicking at the first element that does not fit. */
  function StoreAll(visitors: seq<Visitor>): (r: Result<seq<StoredVisitor>, Panic>)
    ensures r.Success? <==> forall i :: 0 <= i < |visitors| ==> Store(visitors[i]).Success?
    ensures r.Success? ==> |r.value| == |visitors|
    ensures r.Success? ==> forall i :: 0 <= i < |visitors| ==> Success(r.value[i]) == Store(visitors[i])
  {
    if visitors == [] then
      Success([])
    else
      var first :- Store(visitors[0]);
      var rest :- StoreAll(visitors[1..]);
      Success([first] + rest)
  }

  /** A list written back untouched is the list that was read. */
  lemma StoreAllAfterLoadAll(list: seq<StoredVisitor>)
    ensures StoreAll(LoadAll(list)) == Success(list)
  {
    forall i | 0 <= i < |list|
      ensures Store(LoadAll(list)[i]) == Success(list[i])
    {
      StoreAfterLoad(list[i]);
    }
    var again := StoreAll(LoadAll(list)).value;
    assert forall i :: 0 <= i < |list| ==> again[i] == list[i];
    assert again == list;
  }
}
