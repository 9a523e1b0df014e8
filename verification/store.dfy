/**
 The store (src/store.rs): items as DynamoDB holds them, the calls the source makes, and the loop
 of `maybe_increment_visitors` proved to take exactly the steps of the invocation machine.
 The client answers from a script, as the fakes of the source's own tests do; nothing is
 assumed about the answers, so the script stands for any table, network and rivals.
 */
module Stores {
  import opened Wrappers
  import opened Bytes
  import opened Visitors
  import opened Cbor
  import opened CountEntries
  import opened Invocations
  import RecentVisitors
  import Decimal

  datatype AttributeValue = S(s: string) | N(n: string) | B(b: seq<byte>)

  type Item = map<string, AttributeValue>

  datatype GetItemInput = GetItemInput(tableName: string, key: string)
  datatype GetResponse = GetError | GetOutput(item: Option<Item>)

  datatype Condition = AttributeNotExists(attribute: string) | Equals(attribute: string, value: AttributeValue)
  datatype PutItemInput = PutItemInput(tableName: string, condition: Condition, item: Item)

  datatype StoreError = GetCount(error: ReadError) | PutItem | MaxAttempts | Panic(panic: Visitors.Panic)

  // ---- Items ----

  /** The longest list CBOR has a head for, and longer than any vector. */
  predicate Encodable(version: Version) {
    |version.list| < 0x1_0000_0000_0000_0000
  }

  function ToItem(name: string, version: Version): Item
    requires Encodable(version)
  {
    map["key" := S(name), "count" := N(Decimal.ToText(version.count)), "value" := B(Encode(version.list))]
  }

  function ReadCount(item: Item): Result<nat, ReadError> {
    if "count" !in item then Failure(CountMissing)
    else if !item["count"].N? then Failure(CountNotANumber)
    else match Decimal.ParseU64(item["count"].n)
      case None => Failure(CountUnparsable)
      case Some(count) => Success(count)
  }

  function ReadValue(item: Item): Result<seq<StoredVisitor>, ReadError> {
    if "value" !in item then Failure(ValueMissing)
    else if !item["value"].B? then Failure(ValueNotABlob)
    else match Decode(item["value"].b)
      case None => Failure(ValueUndecodable)
      case Some(list) => Success(list)
  }

  function ReadItem(item: Item): Result<Version, ReadError> {
    var count :- ReadCount(item);
    var list :- ReadValue(item);
    Success(Version(count, list))
  }

  function ReadResponse(response: GetResponse): Result<Option<Version>, ReadError> {
    match response
    case GetError => Failure(GetItemFailed)
    case GetOutput(None) => Success(None)
    case GetOutput(Some(item)) =>
      var version :- ReadItem(item);
      Success(Some(version))
  }

  function ToCondition(expected: Option<nat>): Condition {
    match expected
    case None => AttributeNotExists("key")
    case Some(count) => Equals("count", N(Decimal.ToText(count)))
  }

  function ToInput(tableName: string, name: string, request: Request): PutItemInput
    requires Encodable(request.version)
  {
    PutItemInput(tableName, ToCondition(request.expected), ToItem(name, request.version))
  }

  /** DynamoDB's reading of the two condition expressions the source writes. */
  predicate Meets(item: Option<Item>, condition: Condition) {
    match condition
    case AttributeNotExists(a) => item.None? || a !in item.value
    case Equals(a, value) => item.Some? && a in item.value && item.value[a] == value
  }

  /** The item has a count that parses. */
  predicate HasCount(item: Item) {
    "count" in item && item["count"].N? && Decimal.ParseU64(item["count"].n).Some?
  }

  /** Exactly what is wrong with an item that cannot be read: its count comes first, then its value. */
  lemma ItemErrors(item: Item)
    ensures ReadItem(item) == Failure(CountMissing) <==> "count" !in item
    ensures ReadItem(item) == Failure(CountNotANumber) <==> "count" in item && !item["count"].N?
    ensures ReadItem(item) == Failure(CountUnparsable)
            <==> "count" in item && item["count"].N? && Decimal.ParseU64(item["count"].n) == None
    ensures ReadItem(item) == Failure(ValueMissing) <==> HasCount(item) && "value" !in item
    ensures ReadItem(item) == Failure(ValueNotABlob) <==> HasCount(item) && "value" in item && !item["value"].B?
    ensures ReadItem(item) == Failure(ValueUndecodable)
            <==> HasCount(item) && "value" in item && item["value"].B? && Decode(item["value"].b) == None
    ensures forall count: nat, list :: ReadItem(item) == Success(Version(count, list)) <==>
              && HasCount(item) && Decimal.ParseU64(item["count"].n) == Some(count)
              && "value" in item && item["value"].B? && Decode(item["value"].b) == Some(list)
  {
  }

  /** A version written to the table is the version the next reader gets, if its count fits. */
  lemma ItemRoundTrip(name: string, version: Version)
    requires Encodable(version)
    ensures ReadResponse(GetOutput(Some(ToItem(name, version))))
         == if version.count < Decimal.U64_LIMIT then Success(Some(version)) else Failure(CountUnparsable)
  {
    Decimal.ParseText(version.count);
    assert Encode(version.list) + [] == Encode(version.list);
    RoundTrip(version.list, []);
  }

  /** The condition on the item's text is the condition on the version's number. */
  lemma ConditionOnText(name: string, request: Request, current: Option<Version>)
    requires current.Some? ==> Encodable(current.value)
    ensures Meets(if current.None? then None else Some(ToItem(name, current.value)), ToCondition(request.expected))
            <==> Admits(request, current)
  {
    if current.Some? && request.expected.Some? {
      Decimal.TextIsInjective(current.value.count, request.expected.value);
    }
  }

  // ---- The calls of one invocation ----

  /** The outcome of an invocation, and the puts it makes after the ones in `sent`. */
  function Drive(inv: Invocation, sent: seq<Request>,
                 onGet: nat -> GetResponse, gets: nat, onPut: nat -> Report, puts: nat): (Outcome, seq<Request>)
    requires inv.phase.Reading? && inv.attempt < MAX_ATTEMPTS_FOR_OPTIMISTIC_LOCKING
    decreases MAX_ATTEMPTS_FOR_OPTIMISTIC_LOCKING - inv.attempt
  {
    var read := OnRead(inv, ReadResponse(onGet(gets)));
    if read.phase.Done? then
      (read.phase.outcome, sent)
    else
      var told := OnReport(read, onPut(puts));
      if told.phase.Done? then
        (told.phase.outcome, sent + [read.phase.request])
      else
        Drive(told, sent + [read.phase.request], onGet, gets + 1, onPut, puts + 1)
  }

  /** One pass of the loop, by what was read and what was reported. */
  lemma DriveOnce(inv: Invocation, sent: seq<Request>,
                  onGet: nat -> GetResponse, gets: nat, onPut: nat -> Report, puts: nat)
    requires inv.phase.Reading? && inv.attempt < MAX_ATTEMPTS_FOR_OPTIMISTIC_LOCKING
    ensures match OnRead(inv, ReadResponse(onGet(gets))).phase
            case Reading => false
            case Done(outcome) => Drive(inv, sent, onGet, gets, onPut, puts) == (outcome, sent)
            case Putting(request) =>
              Drive(inv, sent, onGet, gets, onPut, puts)
              == match onPut(puts)
                 case Accepted => (Returned(request.version.count), sent + [request])
                 case Failed => (PutFailed, sent + [request])
                 case ConditionalCheckFailed =>
                   if inv.attempt + 1 == MAX_ATTEMPTS_FOR_OPTIMISTIC_LOCKING then
                     (MaxAttemptsExceeded, sent + [request])
                   else
                     Drive(inv.(attempt := inv.attempt + 1), sent + [request], onGet, gets + 1, onPut, puts + 1)
  {
    hide Plan, ReadResponse;
  }

  function ToOutcome<T>(r: Result<T, StoreError>): Outcome
    requires r.Failure?
  {
    match r.error
    case GetCount(error) => ReadFailed(error)
    case PutItem => PutFailed
    case MaxAttempts => MaxAttemptsExceeded
    case Panic(panic) => Panicked(panic)
  }

  /** After `before`, the client logged the inputs these requests become. */
  predicate Logged(puts: seq<PutItemInput>, before: seq<PutItemInput>, tableName: string, name: string,
                   requests: seq<Request>) {
    && before <= puts
    && |puts| == |before| + |requests|
    && forall i :: 0 <= i < |requests| ==>
         Encodable(requests[i].version) && puts[|before| + i] == ToInput(tableName, name, requests[i])
  }

  lemma LogOneMore(puts: seq<PutItemInput>, before: seq<PutItemInput>, tableName: string, name: string,
                   requests: seq<Request>, request: Request)
    requires Logged(puts, before, tableName, name, requests) && Encodable(request.version)
    ensures Logged(puts + [ToInput(tableName, name, request)], before, tableName, name, requests + [request])
  {
  }

  /** After `before`, every get was for this counter. */
  predicate Asked(gets: seq<GetItemInput>, before: seq<GetItemInput>, tableName: string, name: string) {
    && before <= gets
    && forall i :: |before| <= i < |gets| ==> gets[i] == GetItemInput(tableName, name)
  }

  /** The put writes the item of this counter. */
  predicate IsFor(put: PutItemInput, tableName: string, name: string) {
    put.tableName == tableName && "key" in put.item && put.item["key"] == S(name)
  }

  /** The put writes this count. */
  predicate PutsCount(put: PutItemInput, count: nat) {
    "count" in put.item && put.item["count"] == N(Decimal.ToText(count))
  }

  /** What the client reports on this many puts from here on. */
  function Reports(onPut: nat -> Report, from: nat, n: nat): (reports: seq<Report>)
    ensures |reports| == n
  {
    seq(n, i requires 0 <= i < n => onPut(from + i))
  }

  predicate AllRefused(reports: seq<Report>) {
    forall i :: 0 <= i < |reports| ==> reports[i] == ConditionalCheckFailed
  }

  /**
   How a call that made these puts and heard these reports ends. Only a refused put is followed by
   another attempt. The call succeeds iff its last put was accepted, with the count it put; it
   fails with the put's error iff its last put failed, and for good iff five puts were refused.
   There is one get for each put, and one more iff the last one ended the call.
   */
  predicate EndsAsTold(r: Result<nat, StoreError>, gets: nat, puts: seq<PutItemInput>, reports: seq<Report>) {
    var n := |puts|;
    && |reports| == n <= 5
    && (n > 0 ==> AllRefused(reports[..n - 1]))
    && (r.Success? <==> n > 0 && reports[n - 1] == Accepted)
    && (r.Success? ==> PutsCount(puts[n - 1], r.value))
    && (r == Failure(PutItem) <==> n > 0 && reports[n - 1] == Failed)
    && (r == Failure(MaxAttempts) <==> n == 5 && reports[4] == ConditionalCheckFailed)
    && (gets == if r.Failure? && (r.error.GetCount? || r.error.Panic?) then n + 1 else n)
  }

  lemma EndsAtRead(r: Result<nat, StoreError>, puts: seq<PutItemInput>, reports: seq<Report>)
    requires AllRefused(reports) && |reports| == |puts| < 5
    requires r.Failure? && (r.error.GetCount? || r.error.Panic?)
    ensures EndsAsTold(r, |puts| + 1, puts, reports)
  {
  }

  lemma EndsAtPut(r: Result<nat, StoreError>, puts: seq<PutItemInput>, earlier: seq<Report>, report: Report)
    requires AllRefused(earlier) && |puts| == |earlier| + 1 <= 5
    requires match report
             case Accepted => r.Success? && PutsCount(puts[|earlier|], r.value)
             case Failed => r == Failure(PutItem)
             case ConditionalCheckFailed => |puts| == 5 && r == Failure(MaxAttempts)
    ensures EndsAsTold(r, |puts|, puts, earlier + [report])
  {
    assert (earlier + [report])[..|earlier|] == earlier;
  }

  lemma EndsRefused(puts: seq<PutItemInput>, reports: seq<Report>)
    requires AllRefused(reports) && |puts| == |reports| == 5
    ensures EndsAsTold(Failure(MaxAttempts), 5, puts, reports)
  {
  }

  lemma LoggedIsFor(puts: seq<PutItemInput>, before: seq<PutItemInput>, tableName: string, name: string,
                    requests: seq<Request>)
    requires Logged(puts, before, tableName, name, requests)
    ensures |puts| == |before| + |requests|
    ensures forall put :: put in puts[|before|..] ==> IsFor(put, tableName, name)
    ensures forall i :: 0 <= i < |requests| ==> PutsCount(puts[|before|..][i], requests[i].version.count)
  {
    hide Encodable;
    forall i | 0 <= i < |requests|
      ensures IsFor(puts[|before|..][i], tableName, name)
      ensures PutsCount(puts[|before|..][i], requests[i].version.count)
    {
      assert puts[|before|..][i] == puts[|before| + i] == ToInput(tableName, name, requests[i]);
    }
  }

  lemma NothingYet(client: Dynamo, tableName: string, name: string)
    ensures Asked(client.gets, client.gets, tableName, name)
    ensures Logged(client.puts, client.puts, tableName, name, [])
    ensures forall from: nat :: AllRefused(Reports(client.onPut, from, 0))
  {
  }

  lemma AskOneMore(gets: seq<GetItemInput>, before: seq<GetItemInput>, tableName: string, name: string)
    requires Asked(gets, before, tableName, name)
    ensures |before| <= |gets|
    ensures Asked(gets + [GetItemInput(tableName, name)], before, tableName, name)
  {
  }

  lemma ReportOneMore(onPut: nat -> Report, from: nat, n: nat)
    ensures Reports(onPut, from, n + 1) == Reports(onPut, from, n) + [onPut(from + n)]
  {
  }

  /** A scripted client: the n-th get and the n-th put are answered by the script. */
  class Dynamo {
    const onGet: nat -> GetResponse
    const onPut: nat -> Report
    var gets: seq<GetItemInput>
    var puts: seq<PutItemInput>

    constructor (onGet: nat -> GetResponse, onPut: nat -> Report)
      ensures this.onGet == onGet && this.onPut == onPut && gets == [] && puts == []
    {
      this.onGet, this.onPut, gets, puts := onGet, onPut, [], [];
    }

    method GetItem(input: GetItemInput) returns (response: GetResponse)
      modifies this
      ensures gets == old(gets) + [input] && puts == old(puts)
      ensures response == onGet(|old(gets)|)
    {
      response := onGet(|gets|);
      gets := gets + [input];
    }

    method PutItem(input: PutItemInput) returns (report: Report)
      modifies this
      ensures gets == old(gets) && puts == old(puts) + [input]
      ensures report == onPut(|old(puts)|)
    {
      report := onPut(|puts|);
      puts := puts + [input];
    }
  }

  class Store {
    const client: Dynamo
    const tableName: string

    constructor (client: Dynamo, tableName: string)
      ensures this.client == client && this.tableName == tableName
    {
      this.client, this.tableName := client, tableName;
    }

    /** Loads an entry, or null if there is no item. */
    method GetCountEntry(name: string) returns (r: Result<CountEntry?, ReadError>)
      modifies client
      ensures client.gets == old(client.gets) + [GetItemInput(tableName, name)] && client.puts == old(client.puts)
      ensures r.Success? && r.value != null ==> fresh(r.value)
      ensures match ReadResponse(client.onGet(|old(client.gets)|))
              case Failure(error) => r == Failure(error)
              case Success(None) => r == Success(null)
              case Success(Some(version)) => r.Success? && r.value != null && r.value.Value() == InMemory(version)
      ensures match client.onGet(|old(client.gets)|)
              case GetError => r == Failure(GetItemFailed)
              case GetOutput(None) => r == Success(null)
              case GetOutput(Some(item)) =>
                && r != Failure(GetItemFailed) && r != Success(null)
                && (r.Success? <==>
                      && HasCount(item)
                      && "value" in item && item["value"].B? && Decode(item["value"].b).Some?)
    {
      var output := client.GetItem(GetItemInput(tableName, name));
      match output
      case GetError =>
        return Failure(GetItemFailed);
      case GetOutput(None) =>
        return Success(null);
      case GetOutput(Some(item)) =>
        var count := ReadCount(item);
        if count.Failure? {
          return Failure(count.error);
        }
        var value := ReadValue(item);
        if value.Failure? {
          return Failure(value.error);
        }
        var entry := new CountEntry(0, LoadAll(value.value));
        entry.count := count.value;
        return Success(entry);
    }

    method TryPutNewCountEntry(name: string, visitor: Visitor) returns (r: Result<bool, StoreError>)
      modifies client
      ensures client.gets == old(client.gets)
      ensures match Plan(None, visitor, 0)
              case Failure(panic) => r == Failure(Panic(panic)) && client.puts == old(client.puts)
              case Success(request) =>
                && Encodable(request.version)
                && client.puts == old(client.puts) + [ToInput(tableName, name, request)]
                && r == PutResult(client.onPut(|old(client.puts)|))
      ensures client.puts != old(client.puts) ==>
                && Visitors.Store(visitor).Success?
                && client.puts == old(client.puts) + [PutItemInput(tableName, AttributeNotExists("key"),
                     map["key" := S(name), "count" := N("1"), "value" := B(OnWire([Visitors.Store(visitor).value]))])]
    {
      var stored := Visitors.Store(visitor);
      if stored.Failure? {
        return Failure(Panic(stored.error));
      }
      var value := ToCbor([stored.value]);
      var item: Item := map["key" := S(name), "count" := N("1"), "value" := B(value)];
      assert Decimal.ToText(1) == "1";
      var report := client.PutItem(PutItemInput(tableName, AttributeNotExists("key"), item));
      return PutResult(report);
    }

    method TryPutCountEntry(name: string, initialCount: nat, entry: CountEntry) returns (r: Result<bool, StoreError>)
      requires |entry.recentVisitors| < 0x1_0000_0000_0000_0000
      modifies client
      ensures client.gets == old(client.gets)
      ensures match StoreAll(entry.recentVisitors)
              case Failure(panic) => r == Failure(Panic(panic)) && client.puts == old(client.puts)
              case Success(list) =>
                && client.puts == old(client.puts)
                                  + [ToInput(tableName, name, Request(Some(initialCount), Version(entry.count, list)))]
                && client.puts == old(client.puts) + [PutItemInput(
                     tableName,
                     Equals("count", N(Decimal.ToText(initialCount))),
                     map["key" := S(name), "count" := N(Decimal.ToText(entry.count)), "value" := B(OnWire(list))])]
                && r == PutResult(client.onPut(|old(client.puts)|))
    {
      var list := StoreAll(entry.recentVisitors);
      if list.Failure? {
        return Failure(Panic(list.error));
      }
      var value := ToCbor(list.value);
      var item: Item := map["key" := S(name), "count" := N(Decimal.ToText(entry.count)), "value" := B(value)];
      var condition := Equals("count", N(Decimal.ToText(initialCount)));
      var report := client.PutItem(PutItemInput(tableName, condition, item));
      return PutResult(report);
    }

    /** One pass of the loop: the count if the put was accepted, nothing if it is to be retried. */
    method Attempt(visitor: Visitor, name: string, now: Time, ghost inv: Invocation)
      returns (r: Result<Option<nat>, StoreError>)
      requires inv.visitor == visitor && inv.now == now && inv.phase.Reading?
      modifies client
      ensures client.gets == old(client.gets) + [GetItemInput(tableName, name)]
      ensures match OnRead(inv, ReadResponse(client.onGet(|old(client.gets)|))).phase
              case Done(outcome) =>
                && client.puts == old(client.puts)
                && r.Failure? && ToOutcome(r) == outcome && (r.error.GetCount? || r.error.Panic?)
              case Putting(request) =>
                && Encodable(request.version)
                && client.puts == old(client.puts) + [ToInput(tableName, name, request)]
                && (match client.onPut(|old(client.puts)|)
                    case Accepted => r == Success(Some(request.version.count))
                    case ConditionalCheckFailed => r == Success(None)
                    case Failed => r == Failure(PutItem))
    {
      ghost var reading := ReadResponse(client.onGet(|client.gets|));
      var loaded := GetCountEntry(name);
      if loaded.Failure? {
        return Failure(GetCount(loaded.error));
      }
      var done;
      var count := 1;
      if loaded.value != null {
        var entry := loaded.value;
        var initialCount := entry.count;
        var panic := entry.Update(visitor, now, MAX_RECENT_VISITORS);
        if panic.Some? {
          return Failure(Panic(panic.value));
        }
        UpdateFits(InMemory(reading.value.value), visitor, now);
        done := TryPutCountEntry(name, initialCount, entry);
        count := entry.count;
      } else {
        done := TryPutNewCountEntry(name, visitor);
      }
      if done.Failure? {
        return Failure(done.error);
      }
      return Success(if done.value then Some(count) else None);
    }

    /**
     Increments the count if the visitor is recently unique, and returns the count. Its result and
     the puts it makes are the ones the invocation machine has for the same answers. It asks for
     and writes the item of its own counter only, and ends as the reports on its puts say.
     */
    method MaybeIncrementVisitors(visitor: Visitor, name: string, now: Time) returns (r: Result<nat, StoreError>)
      modifies client
      ensures var (outcome, requests) := Drive(Start(visitor, now), [], client.onGet, |old(client.gets)|,
                                               client.onPut, |old(client.puts)|);
              && outcome == (if r.Success? then Returned(r.value) else ToOutcome(r))
              && Logged(client.puts, old(client.puts), tableName, name, requests)
      ensures Asked(client.gets, old(client.gets), tableName, name) && |client.puts| >= |old(client.puts)|
      ensures forall put :: put in client.puts[|old(client.puts)|..] ==> IsFor(put, tableName, name)
      ensures EndsAsTold(r, |client.gets| - |old(client.gets)|, client.puts[|old(client.puts)|..],
                         Reports(client.onPut, |old(client.puts)|, |client.puts| - |old(client.puts)|))
    {
      hide Plan, ToInput, ReadResponse, Encodable, IsFor, PutsCount, Asked, Reports, Logged, Drive, OnRead, EndsAsTold;
      ghost var g, p := |client.gets|, |client.puts|;
      ghost var run := Drive(Start(visitor, now), [], client.onGet, g, client.onPut, p);
      ghost var sent: seq<Request> := [];
      NothingYet(client, tableName, name);
      var attempt := 0;
      while attempt < MAX_ATTEMPTS_FOR_OPTIMISTIC_LOCKING
        invariant 0 <= attempt <= MAX_ATTEMPTS_FOR_OPTIMISTIC_LOCKING
        invariant |client.gets| == g + attempt && |client.puts| == p + attempt && |sent| == attempt
        invariant Asked(client.gets, old(client.gets), tableName, name)
        invariant Logged(client.puts, old(client.puts), tableName, name, sent)
        invariant AllRefused(Reports(client.onPut, p, attempt))
        invariant run == if attempt < MAX_ATTEMPTS_FOR_OPTIMISTIC_LOCKING
                         then Drive(Start(visitor, now).(attempt := attempt), sent,
                                    client.onGet, g + attempt, client.onPut, p + attempt)
                         else (MaxAttemptsExceeded, sent)
      {
        ghost var inv := Start(visitor, now).(attempt := attempt);
        ghost var read := OnRead(inv, ReadResponse(client.onGet(g + attempt)));
        ghost var gets, puts := client.gets, client.puts;
        var result := Attempt(visitor, name, now, inv);
        DriveOnce(inv, sent, client.onGet, g + attempt, client.onPut, p + attempt);
        AskOneMore(gets, old(client.gets), tableName, name);
        ReportOneMore(client.onPut, p, attempt);
        if read.phase.Putting? {
          LogOneMore(puts, old(client.puts), tableName, name, sent, read.phase.request);
          sent := sent + [read.phase.request];
        }
        LoggedIsFor(client.puts, old(client.puts), tableName, name, sent);
        ghost var news, told := client.puts[p..], Reports(client.onPut, p, attempt);
        if result.Failure? {
          if read.phase.Putting? {
            EndsAtPut(Failure(result.error), news, told, Failed);
          } else {
            EndsAtRead(Failure(result.error), news, told);
          }
          return Failure(result.error);
        } else if result.value.Some? {
          EndsAtPut(Success(result.value.value), news, told, Accepted);
          return Success(result.value.value);
        }
        attempt := attempt + 1;
      }
      LoggedIsFor(client.puts, old(client.puts), tableName, name, sent);
      EndsRefused(client.puts[p..], Reports(client.onPut, p, attempt));
      return Failure(MaxAttempts);
    }
  }

  /** What `?` and the match on the service error make of a put's report. */
  function PutResult(report: Report): Result<bool, StoreError> {
    match report
    case Accepted => Success(true)
    case ConditionalCheckFailed => Success(false)
    case Failed => Failure(PutItem)
  }

  lemma UpdateFits(entry: Entry, visitor: Visitor, now: Time)
    requires Revise(entry, visitor, now, MAX_RECENT_VISITORS).Success?
    ensures |Revise(entry, visitor, now, MAX_RECENT_VISITORS).value.visitors| <= MAX_RECENT_VISITORS
  {
    RecentVisitors.PruneKeepsRecent(Touch(entry, visitor, now).value.visitors, now, MAX_RECENT_VISITORS);
  }
}
