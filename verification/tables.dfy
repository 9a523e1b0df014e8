/**
 The puts of the store on a table (src/store.rs, lines 303 to 399): a map from table name and key to
 item, in which a put is stored under the "key" attribute of its own item. Who reads what was
 written, who does not, and what two visits on their own come to.
 */
module Tables {
  import opened Wrappers
  import opened Visitors
  import opened CountEntries
  import opened Updates
  import opened Panics
  import opened Plans
  import opened Invocations
  import opened Stores
  import Decimal

  /** Items by table name and primary key. */
  type Table = map<(string, string), Item>

  function ItemIn(table: Table, tableName: string, key: string): Option<Item> {
    if (tableName, key) in table then Some(table[(tableName, key)]) else None
  }

  function GetFrom(table: Table, input: GetItemInput): GetResponse {
    GetOutput(ItemIn(table, input.tableName, input.key))
  }

  /** The primary key is an attribute of the item that is put. */
  function KeyOf(item: Item): Option<string> {
    if "key" in item && item["key"].S? then Some(item["key"].s) else None
  }

  /** A conditional put is tested on, and replaces, the item that has its primary key. */
  function PutInto(table: Table, input: PutItemInput): (Table, Report) {
    match KeyOf(input.item)
    case None => (table, Failed)
    case Some(key) =>
      if Meets(ItemIn(table, input.tableName, key), input.condition)
      then (table[(input.tableName, key) := input.item], Accepted)
      else (table, ConditionalCheckFailed)
  }

  /** What a get for this counter answers. */
  function Answer(table: Table, tableName: string, name: string): GetResponse {
    GetFrom(table, GetItemInput(tableName, name))
  }

  /**
   A put that is for a counter (as Stores.Store.MaybeIncrementVisitors promises of all of its puts)
   is tested on the item that a get for the counter answers with. If accepted it is what the next
   get for the counter answers, and if refused nothing changes; no other get can tell.
   */
  lemma PutIsForItsCounter(table: Table, put: PutItemInput, tableName: string, name: string)
    requires IsFor(put, tableName, name)
    ensures var (after, report) := PutInto(table, put);
            var before := Answer(table, tableName, name).item;
            && report == (if Meets(before, put.condition) then Accepted else ConditionalCheckFailed)
            && Answer(after, tableName, name) == GetOutput(if report == Accepted then Some(put.item) else before)
            && forall t, n :: (t, n) != (tableName, name) ==> Answer(after, t, n) == Answer(table, t, n)
  {
  }

  /** What the two conditions ask of the item: that there is none, or that it has this count as text. */
  lemma WhatConditionsAsk(item: Option<Item>, expected: Option<nat>)
    ensures Meets(item, ToCondition(expected)) <==>
              match expected
              case None => item.None? || "key" !in item.value
              case Some(count) => item.Some? && "count" in item.value && item.value["count"] == N(Decimal.ToText(count))
  {
  }

  /** The table holds this version for the counter. */
  predicate Holds(table: Table, tableName: string, name: string, version: Option<Version>) {
    match version
    case None => (tableName, name) !in table
    case Some(v) =>
      && v.count < Decimal.U64_LIMIT && Encodable(v)
      && (tableName, name) in table && table[(tableName, name)] == ToItem(name, v)
  }

  /**
   A request put to a table is accepted iff its count condition holds of the version there, and then
   the next reader of the counter gets the request's version, and readers of others what they got before.
   */
  lemma RequestIsRead(table: Table, tableName: string, name: string, base: Option<Version>, request: Request)
    requires Holds(table, tableName, name, base)
    requires Encodable(request.version) && request.version.count < Decimal.U64_LIMIT
    ensures ReadResponse(Answer(table, tableName, name)) == Success(base)
    ensures var (after, report) := PutInto(table, ToInput(tableName, name, request));
            && report == (if Admits(request, base) then Accepted else ConditionalCheckFailed)
            && Holds(after, tableName, name, if report == Accepted then Some(request.version) else base)
            && (report == Accepted ==>
                  ReadResponse(Answer(after, tableName, name)) == Success(Some(request.version)))
            && forall t, n :: (t, n) != (tableName, name) ==> Answer(after, t, n) == Answer(table, t, n)
  {
    var put := ToInput(tableName, name, request);
    PutIsForItsCounter(table, put, tableName, name);
    if base.Some? {
      ItemRoundTrip(name, base.value);
    }
    ItemRoundTrip(name, request.version);
    ConditionOnText(name, request, base);
  }

  datatype Served = Served(outcome: Outcome, requests: seq<Request>, after: Table)

  /** A call on its own: the loop, with the table's answers to its get and to the put it makes from it. */
  function Serve(table: Table, tableName: string, name: string, visitor: Visitor, now: Time): Served {
    var answer := Answer(table, tableName, name);
    var phase := OnRead(Start(visitor, now), ReadResponse(answer)).phase;
    var (after, report) :=
      if phase.Putting? && Encodable(phase.request.version)
      then PutInto(table, ToInput(tableName, name, phase.request))
      else (table, Failed);
    var (outcome, requests) := Drive(Start(visitor, now), [], (_: nat) => answer, 0, (_: nat) => report, 0);
    Served(outcome, requests, after)
  }

  /** A call on its own puts once, and is counted unless the list there has its visitor as recent. */
  lemma ServedFromTable(table: Table, tableName: string, name: string, base: Option<Version>, visitor: Visitor,
                        now: Time)
    requires Holds(table, tableName, name, base) && DistinctIn(base) && CountOf(base) + 1 < Decimal.U64_LIMIT
    requires Plan(base, visitor, now).Success?
    ensures var served := Serve(table, tableName, name, visitor, now);
            var seen := base.Some? && RecentIn(base.value.list, visitor.tag, now);
            && served.outcome == Returned(CountOf(base) + (if seen then 0 else 1))
            && served.requests == [Plan(base, visitor, now).value]
            && Holds(served.after, tableName, name, Some(Plan(base, visitor, now).value.version))
            && forall t, n :: (t, n) != (tableName, name) ==> Answer(served.after, t, n) == Answer(table, t, n)
  {
    hide Plan, ReadResponse, ToInput, Meets, PutInto, Drive, Holds, Answer;
    var request, answer := Plan(base, visitor, now).value, Answer(table, tableName, name);
    PlanKeeps(base, visitor, now);
    RequestIsRead(table, tableName, name, base, request);
    DriveOnce(Start(visitor, now), [], (_: nat) => answer, 0, (_: nat) => Accepted, 0);
    assert [] + [request] == [request];
  }

  /**
   Two visits of one visitor on their own, from an absent item: the second is counted iff it comes
   7200 seconds or more after the second in which the first one came.
   */
  lemma SecondVisit(table: Table, tableName: string, name: string, tag: u32, first: Time, second: Time)
    requires (tableName, name) !in table
    requires first <= second && Storable(first) && Storable(second)
    ensures var one := Serve(table, tableName, name, Visitor(tag, first), first);
            var two := Serve(one.after, tableName, name, Visitor(tag, second), second);
            && one.outcome == Returned(1)
            && two.outcome == Returned(if second - (first - first % 1_000_000_000) >= 7_200_000_000_000 then 2 else 1)
  {
    hide Plan, Serve, RecentIn, Distinct, Visitors.Store;
    var visitor, later := Visitor(tag, first), Visitor(tag, second);
    var version := FirstPlans(visitor);
    SecondPlans(version, later);
    ServedFromTable(table, tableName, name, None, visitor, first);
    var between := Serve(table, tableName, name, visitor, first).after;
    ServedFromTable(between, tableName, name, Some(version), later, second);
  }

  /** What the first visit writes: the visitor alone, at the second it came in. */
  lemma FirstPlans(visitor: Visitor) returns (version: Version)
    requires Storable(visitor.lastSeen)
    ensures Plan(None, visitor, visitor.lastSeen) == Success(Request(None, version))
    ensures version.count == 1 && |version.list| == 1 && version.list[0].tag == visitor.tag
    ensures StoredTime(version.list[0].lastSeen) == visitor.lastSeen - visitor.lastSeen % 1_000_000_000
    ensures Distinct(version.list)
  {
    LoadAfterStore(visitor);
    version := Version(1, [Visitors.Store(visitor).value]);
    PlanKeeps(None, visitor, visitor.lastSeen);
  }

  /** The second visit does not panic, and is counted by the age of the first. */
  lemma SecondPlans(version: Version, later: Visitor)
    requires |version.list| == 1 && Distinct(version.list) && version.list[0].tag == later.tag
    requires StoredTime(version.list[0].lastSeen) <= later.lastSeen && Storable(later.lastSeen)
    ensures Plan(Some(version), later, later.lastSeen).Success?
    ensures RecentIn(version.list, later.tag, later.lastSeen)
            <==> later.lastSeen - StoredTime(version.list[0].lastSeen) < RECENT_CUTOFF
  {
    hide Plan;
    assert version.list[0] in version.list;
    PlanPanicsExactly(Some(version), later, later.lastSeen);
  }

  /** In whole seconds: 7199 seconds after the first visit the second is a refresh, and at 7200 it counts. */
  lemma SecondVisitInSeconds(table: Table, tableName: string, name: string, tag: u32, first: u32, second: u32)
    requires (tableName, name) !in table && first <= second
    ensures var one := Serve(table, tableName, name, Visitor(tag, At(first)), At(first));
            var two := Serve(one.after, tableName, name, Visitor(tag, At(second)), At(second));
            two.outcome == Returned(if second - first <= 7199 then 1 else 2)
  {
    hide Serve;
    SecondVisit(table, tableName, name, tag, At(first), At(second));
  }
}
