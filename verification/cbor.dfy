/**
 The CBOR form of the recent-visitors list (src/store.rs): RFC 8949 heads in preferred
 serialization (sections 3, 3.1 and 4.1) around the schema {"v": [{"g": tag, "t": time}, ...]}.
 */
module Cbor {
  import opened Wrappers
  import opened Bytes
  import opened Visitors

  const DYNAMO_MAX_ITEM_SIZE_BYTES := 400_000
  const RESERVED_NON_VALUE_SIZE_BYTES := 1024
  const SIZE_SINGLE_VISITOR_BYTES := 15
  const MAX_RECENT_VISITORS: nat :=
    (DYNAMO_MAX_ITEM_SIZE_BYTES - RESERVED_NON_VALUE_SIZE_BYTES) / SIZE_SINGLE_VISITOR_BYTES

  type u64 = x: int | 0 <= x < 0x1_0000_0000_0000_0000

  datatype Major = Unsigned | Negative | Bytes | Text | Array | Map | Tag | Simple
  {
    function Code(): (c: nat)
      ensures c < 8
    {
      match this
      case Unsigned => 0 case Negative => 1 case Bytes => 2 case Text => 3
      case Array => 4 case Map => 5 case Tag => 6 case Simple => 7
    }
  }

  function MajorOf(code: nat): (m: Major)
    requires code < 8
    ensures m.Code() == code
  {
    match code
    case 0 => Unsigned case 1 => Negative case 2 => Bytes case 3 => Text
    case 4 => Array case 5 => Map case 6 => Tag case _ => Simple
  }

  /** One more than the largest number `width` bytes can hold. */
  function Capacity(width: nat): (c: nat)
    ensures c > 0
  {
    if width == 0 then 1 else 256 * Capacity(width - 1)
  }

  function BigEndian(n: nat, width: nat): (bytes: seq<byte>)
    ensures |bytes| == width
  {
    if width == 0 then [] else BigEndian(n / 256, width - 1) + [n % 256]
  }

  function FromBigEndian(bytes: seq<byte>): nat {
    if bytes == [] then 0
    else 256 * FromBigEndian(bytes[..|bytes| - 1]) + bytes[|bytes| - 1]
  }

  lemma {:induction false} BigEndianRoundTrip(n: nat, width: nat)
    requires n < Capacity(width)
    ensures FromBigEndian(BigEndian(n, width)) == n
  {
    if width > 0 {
      BigEndianRoundTrip(n / 256, width - 1);
      assert BigEndian(n, width)[..width - 1] == BigEndian(n / 256, width - 1);
    }
  }

  lemma {:induction false} FromBigEndianBound(bytes: seq<byte>)
    ensures FromBigEndian(bytes) < Capacity(|bytes|)
  {
    if bytes != [] {
      FromBigEndianBound(bytes[..|bytes| - 1]);
    }
  }

  lemma Capacities()
    ensures Capacity(1) == 0x100 && Capacity(2) == 0x1_0000
    ensures Capacity(4) == 0x1_0000_0000 && Capacity(8) == 0x1_0000_0000_0000_0000
  {
  }

  /** A head in its shortest form: the argument in the initial byte, or in 1, 2, 4 or 8 more. */
  function Head(major: Major, arg: u64): (bytes: seq<byte>)
    ensures 1 <= |bytes| <= 9
  {
    var high := 32 * major.Code();
    if arg < 24 then [high + arg]
    else if arg < 0x100 then [high + 24] + BigEndian(arg, 1)
    else if arg < 0x1_0000 then [high + 25] + BigEndian(arg, 2)
    else if arg < 0x1_0000_0000 then [high + 26] + BigEndian(arg, 4)
    else [high + 27] + BigEndian(arg, 8)
  }

  datatype Parsed<+T> = Parsed(value: T, rest: seq<byte>)

  /** The number of bytes that follow an initial byte with this additional information. */
  function ArgumentWidth(info: nat): Option<nat> {
    match info
    case 24 => Some(1) case 25 => Some(2) case 26 => Some(4) case 27 => Some(8)
    case _ => None
  }

  /** Reads any definite-length head, shortest or not. */
  function ReadHead(bytes: seq<byte>): (r: Option<Parsed<(Major, nat)>>)
    ensures r.Some? ==> |r.value.rest| < |bytes|
  {
    if bytes == [] then None
    else
      var major, info := MajorOf(bytes[0] / 32), bytes[0] % 32;
      if info < 24 then Some(Parsed((major, info), bytes[1..]))
      else match ArgumentWidth(info)
        case None => None
        case Some(width) =>
          if |bytes| < 1 + width then None
          else Some(Parsed((major, FromBigEndian(bytes[1..1 + width])), bytes[1 + width..]))
  }

  lemma InitialByte(major: Major, info: nat)
    requires info < 32
    ensures (32 * major.Code() + info) / 32 == major.Code() && (32 * major.Code() + info) % 32 == info
    ensures MajorOf((32 * major.Code() + info) / 32) == major
  {
  }

  /** Reading a head whose argument follows in `width` bytes. */
  lemma LongHeadRoundTrip(major: Major, info: nat, width: nat, arg: u64, rest: seq<byte>)
    requires info < 32 && ArgumentWidth(info) == Some(width) && arg < Capacity(width)
    ensures ReadHead(([32 * major.Code() + info] + BigEndian(arg, width)) + rest) == Some(Parsed((major, arg), rest))
  {
    var bytes := ([32 * major.Code() + info] + BigEndian(arg, width)) + rest;
    InitialByte(major, info);
    BigEndianRoundTrip(arg, width);
    assert bytes[0] == 32 * major.Code() + info;
    assert bytes[1..1 + width] == BigEndian(arg, width);
    assert bytes[1 + width..] == rest;
  }

  lemma HeadRoundTrip(major: Major, arg: u64, rest: seq<byte>)
    ensures ReadHead(Head(major, arg) + rest) == Some(Parsed((major, arg), rest))
  {
    Capacities();
    if arg < 24 {
      InitialByte(major, arg);
      assert (Head(major, arg) + rest)[1..] == rest;
    } else if arg < 0x100 {
      LongHeadRoundTrip(major, 24, 1, arg, rest);
    } else if arg < 0x1_0000 {
      LongHeadRoundTrip(major, 25, 2, arg, rest);
    } else if arg < 0x1_0000_0000 {
      LongHeadRoundTrip(major, 26, 4, arg, rest);
    } else {
      LongHeadRoundTrip(major, 27, 8, arg, rest);
    }
  }

  /** Preferred serialization: no bytes that read as this head are fewer than the ones written. */
  lemma HeadIsShortest(bytes: seq<byte>, arg: u64)
    requires ReadHead(bytes).Some? && ReadHead(bytes).value.value.1 == arg
    ensures |Head(ReadHead(bytes).value.value.0, arg)| <= |bytes| - |ReadHead(bytes).value.rest|
  {
    Capacities();
    var info := bytes[0] % 32;
    if info >= 24 {
      var width := ArgumentWidth(info).value;
      FromBigEndianBound(bytes[1..1 + width]);
    }
  }

  /** A one-letter text string. */
  function Key(letter: char): seq<byte>
    requires letter < 128 as char
  {
    Head(Text, 1) + [letter as int]
  }

  function EncodeVisitor(v: StoredVisitor): seq<byte> {
    Head(Map, 2) + (Key('g') + (Head(Unsigned, v.tag) + (Key('t') + Head(Unsigned, v.lastSeen))))
  }

  function EncodeVisitors(list: seq<StoredVisitor>): seq<byte> {
    if list == [] then [] else EncodeVisitors(list[..|list| - 1]) + EncodeVisitor(list[|list| - 1])
  }

  function Encode(list: seq<StoredVisitor>): seq<byte>
    requires |list| < 0x1_0000_0000_0000_0000
  {
    Head(Map, 1) + (Key('v') + (Head(Array, |list|) + EncodeVisitors(list)))
  }

  function ReadKey(letter: char, bytes: seq<byte>): Option<seq<byte>>
    requires letter < 128 as char
  {
    match ReadHead(bytes)
    case Some(Parsed((Text, n), rest)) =>
      if n == 1 && rest != [] && rest[0] == letter as int then Some(rest[1..]) else None
    case _ => None
  }

  function ReadU32(bytes: seq<byte>): Option<Parsed<u32>> {
    match ReadHead(bytes)
    case Some(Parsed((Unsigned, n), rest)) =>
      if n < 0x1_0000_0000 then Some(Parsed(n, rest)) else None
    case _ => None
  }

  function ReadVisitor(bytes: seq<byte>): Option<Parsed<StoredVisitor>> {
    match ReadHead(bytes)
    case Some(Parsed((Map, n), afterMap)) =>
      if n != 2 then None else
      (match ReadKey('g', afterMap)
       case None => None
       case Some(afterG) =>
         match ReadU32(afterG)
         case None => None
         case Some(Parsed(tag, afterTag)) =>
           match ReadKey('t', afterTag)
           case None => None
           case Some(afterT) =>
             match ReadU32(afterT)
             case None => None
             case Some(Parsed(time, rest)) => Some(Parsed(StoredVisitor(tag, time), rest)))
    case _ => None
  }

  function ReadVisitors(n: nat, bytes: seq<byte>): Option<seq<StoredVisitor>> {
    if n == 0 then Some([])
    else
      match ReadVisitor(bytes)
      case None => None
      case Some(Parsed(v, rest)) =>
        match ReadVisitors(n - 1, rest)
        case None => None
        case Some(others) => Some([v] + others)
  }

  /** Reads one value and ignores what follows it. */
  function Decode(bytes: seq<byte>): Option<seq<StoredVisitor>> {
    match ReadHead(bytes)
    case Some(Parsed((Map, n), afterMap)) =>
      if n != 1 then None else
      (match ReadKey('v', afterMap)
       case None => None
       case Some(afterV) =>
         match ReadHead(afterV)
         case Some(Parsed((Array, len), rest)) => ReadVisitors(len, rest)
         case _ => None)
    case _ => None
  }

  lemma KeyRoundTrip(letter: char, rest: seq<byte>)
    requires letter < 128 as char
    ensures ReadKey(letter, Key(letter) + rest) == Some(rest)
  {
    HeadRoundTrip(Text, 1, [letter as int] + rest);
    assert Key(letter) + rest == Head(Text, 1) + ([letter as int] + rest);
    assert ([letter as int] + rest)[1..] == rest;
  }

  lemma AppendToFive(a: seq<byte>, b: seq<byte>, c: seq<byte>, d: seq<byte>, e: seq<byte>, rest: seq<byte>)
    ensures (a + (b + (c + (d + e)))) + rest == a + (b + (c + (d + (e + rest))))
  {
    assert (d + e) + rest == d + (e + rest);
    assert (c + (d + e)) + rest == c + ((d + e) + rest);
    assert (b + (c + (d + e))) + rest == b + ((c + (d + e)) + rest);
  }

  lemma VisitorRoundTrip(v: StoredVisitor, rest: seq<byte>)
    ensures ReadVisitor(EncodeVisitor(v) + rest) == Some(Parsed(v, rest))
  {
    var time := Head(Unsigned, v.lastSeen) + rest;
    var afterTag := Key('t') + time;
    var tag := Head(Unsigned, v.tag) + afterTag;
    var afterMap := Key('g') + tag;
    hide Head, ReadHead, Key, ReadKey;
    AppendToFive(Head(Map, 2), Key('g'), Head(Unsigned, v.tag), Key('t'), Head(Unsigned, v.lastSeen), rest);
    HeadRoundTrip(Map, 2, afterMap);
    KeyRoundTrip('g', tag);
    HeadRoundTrip(Unsigned, v.tag, afterTag);
    KeyRoundTrip('t', time);
    HeadRoundTrip(Unsigned, v.lastSeen, rest);
  }

  lemma Reassociate(a: seq<byte>, b: seq<byte>, c: seq<byte>, d: seq<byte>)
    ensures ((a + b) + c) + d == a + (b + (c + d))
  {
  }

  lemma {:induction false} EncodeVisitorsFromFront(list: seq<StoredVisitor>)
    requires list != []
    ensures EncodeVisitors(list) == EncodeVisitor(list[0]) + EncodeVisitors(list[1..])
  {
    hide EncodeVisitor;
    if |list| == 1 {
      assert list[..0] == [] && list[1..] == [];
      assert EncodeVisitors(list) == [] + EncodeVisitor(list[0]);
    } else {
      var front, last := list[..|list| - 1], list[|list| - 1];
      EncodeVisitorsFromFront(front);
      assert list[1..][..|list| - 2] == front[1..];
      var first, middle := EncodeVisitor(list[0]), EncodeVisitors(front[1..]);
      assert EncodeVisitors(list[1..]) == middle + EncodeVisitor(last);
      assert EncodeVisitors(list) == (first + middle) + EncodeVisitor(last);
      hide EncodeVisitors;
      Reassociate([], first, middle, EncodeVisitor(last));
    }
  }

  lemma {:induction false} VisitorsRoundTrip(list: seq<StoredVisitor>, rest: seq<byte>)
    ensures ReadVisitors(|list|, EncodeVisitors(list) + rest) == Some(list)
  {
    hide ReadVisitor, EncodeVisitor;
    if list != [] {
      var first, others := EncodeVisitor(list[0]), EncodeVisitors(list[1..]);
      assert EncodeVisitors(list) + rest == first + (others + rest) by {
        EncodeVisitorsFromFront(list);
        Reassociate([], first, others, rest);
      }
      VisitorsRoundTrip(list[1..], rest);
      VisitorRoundTrip(list[0], others + rest);
      assert [list[0]] + list[1..] == list;
    }
  }

  /** Every list is read back from its encoding, whatever follows it. */
  lemma RoundTrip(list: seq<StoredVisitor>, rest: seq<byte>)
    requires |list| < 0x1_0000_0000_0000_0000
    ensures Decode(Encode(list) + rest) == Some(list)
  {
    var body := EncodeVisitors(list) + rest;
    var elements := Head(Array, |list|) + body;
    var afterMap := Key('v') + elements;
    assert Encode(list) + rest == Head(Map, 1) + afterMap;
    HeadRoundTrip(Map, 1, afterMap);
    KeyRoundTrip('v', elements);
    HeadRoundTrip(Array, |list|, body);
    VisitorsRoundTrip(list, rest);
  }

  // ---- The bytes ----

  /** A 32-bit number on the wire: an initial byte, and the number in 1, 2 or 4 bytes if it is not in it. */
  function UnsignedOnWire(n: u32): seq<byte> {
    if n <= 0x17 then [n]
    else if n <= 0xFF then [0x18, n]
    else if n <= 0xFFFF then [0x19, n / 0x100, n % 0x100]
    else [0x1A, n / 0x100_0000, n / 0x1_0000 % 0x100, n / 0x100 % 0x100, n % 0x100]
  }

  /** The start of an array of this length on the wire. */
  function ArrayOnWire(n: u64): seq<byte> {
    if n <= 0x17 then [0x80 + n]
    else if n <= 0xFF then [0x98, n]
    else if n <= 0xFFFF then [0x99, n / 0x100, n % 0x100]
    else if n <= 0xFFFF_FFFF then
      [0x9A, n / 0x100_0000, n / 0x1_0000 % 0x100, n / 0x100 % 0x100, n % 0x100]
    else
      [0x9B, n / 0x100_0000_0000_0000, n / 0x1_0000_0000_0000 % 0x100,
       n / 0x100_0000_0000 % 0x100, n / 0x1_0000_0000 % 0x100,
       n / 0x100_0000 % 0x100, n / 0x1_0000 % 0x100, n / 0x100 % 0x100, n % 0x100]
  }

  /** A map of two: "g" and the tag, "t" and the time. */
  function VisitorOnWire(v: StoredVisitor): seq<byte> {
    [0xA2, 0x61, 0x67] + UnsignedOnWire(v.tag) + [0x61, 0x74] + UnsignedOnWire(v.lastSeen)
  }

  function VisitorsOnWire(list: seq<StoredVisitor>): seq<byte> {
    if list == [] then [] else VisitorOnWire(list[0]) + VisitorsOnWire(list[1..])
  }

  /** The whole value, byte for byte: a map of one, "v", and the array of visitors. */
  function OnWire(list: seq<StoredVisitor>): seq<byte>
    requires |list| < 0x1_0000_0000_0000_0000
  {
    [0xA1, 0x61, 0x76] + ArrayOnWire(|list|) + VisitorsOnWire(list)
  }

  /** The last four bytes of a big-endian number. */
  lemma LastFourBytes(n: nat, width: nat)
    ensures BigEndian(n, width + 4)
         == BigEndian(n / 0x1_0000_0000, width)
            + [n / 0x100_0000 % 0x100, n / 0x1_0000 % 0x100, n / 0x100 % 0x100, n % 0x100]
  {
    assert n / 0x100 / 0x100 == n / 0x1_0000;
    assert n / 0x1_0000 / 0x100 == n / 0x100_0000;
    assert n / 0x100_0000 / 0x100 == n / 0x1_0000_0000;
    assert BigEndian(n, width + 4) == BigEndian(n / 0x100, width + 3) + [n % 0x100];
    assert BigEndian(n / 0x100, width + 3) == BigEndian(n / 0x1_0000, width + 2) + [n / 0x100 % 0x100];
    assert BigEndian(n / 0x1_0000, width + 2) == BigEndian(n / 0x100_0000, width + 1) + [n / 0x1_0000 % 0x100];
    assert BigEndian(n / 0x100_0000, width + 1)
        == BigEndian(n / 0x1_0000_0000, width) + [n / 0x100_0000 % 0x100];
  }

  lemma BigEndianOfTwo(n: nat)
    ensures BigEndian(n, 1) == [n % 0x100] && BigEndian(n, 2) == [n / 0x100 % 0x100, n % 0x100]
  {
    assert BigEndian(n / 0x100, 1) == [] + [n / 0x100 % 0x100];
  }

  lemma BigEndianOfFour(n: nat)
    ensures BigEndian(n, 4) == [n / 0x100_0000 % 0x100, n / 0x1_0000 % 0x100, n / 0x100 % 0x100, n % 0x100]
  {
    LastFourBytes(n, 0);
  }

  lemma BigEndianOfEight(n: nat)
    ensures BigEndian(n, 8)
         == [n / 0x100_0000_0000_0000 % 0x100, n / 0x1_0000_0000_0000 % 0x100,
             n / 0x100_0000_0000 % 0x100, n / 0x1_0000_0000 % 0x100,
             n / 0x100_0000 % 0x100, n / 0x1_0000 % 0x100, n / 0x100 % 0x100, n % 0x100]
  {
    var high := n / 0x1_0000_0000;
    LastFourBytes(n, 4);
    BigEndianOfFour(high);
    hide BigEndian;
    assert high / 0x100_0000 == n / 0x100_0000_0000_0000;
    assert high / 0x1_0000 == n / 0x1_0000_0000_0000;
    assert high / 0x100 == n / 0x100_0000_0000;
  }

  lemma UnsignedHeadOnWire(n: u32)
    ensures Head(Unsigned, n) == UnsignedOnWire(n)
  {
    hide BigEndian;
    BigEndianOfTwo(n);
    BigEndianOfFour(n);
  }

  lemma ArrayHeadOnWire(n: u64)
    ensures Head(Array, n) == ArrayOnWire(n)
  {
    hide BigEndian;
    if n <= 0xFFFF {
      BigEndianOfTwo(n);
    } else if n <= 0xFFFF_FFFF {
      BigEndianOfFour(n);
    } else {
      LongArrayHeadOnWire(n);
    }
  }

  lemma LongArrayHeadOnWire(n: u64)
    requires n > 0xFFFF_FFFF
    ensures Head(Array, n) == ArrayOnWire(n)
  {
    hide BigEndian;
    BigEndianOfEight(n);
  }

  lemma VisitorEncodedOnWire(v: StoredVisitor)
    ensures EncodeVisitor(v) == VisitorOnWire(v)
  {
    UnsignedHeadOnWire(v.tag);
    UnsignedHeadOnWire(v.lastSeen);
    hide UnsignedOnWire;
    assert Key('g') == [0x61, 0x67] && Key('t') == [0x61, 0x74];
    assert Head(Map, 2) == [0xA2];
  }

  lemma {:induction false} VisitorsEncodedOnWire(list: seq<StoredVisitor>)
    ensures EncodeVisitors(list) == VisitorsOnWire(list)
  {
    if list != [] {
      EncodeVisitorsFromFront(list);
      VisitorEncodedOnWire(list[0]);
      VisitorsEncodedOnWire(list[1..]);
    }
  }

  /** The encoding in bytes. */
  lemma EncodedOnWire(list: seq<StoredVisitor>)
    requires |list| < 0x1_0000_0000_0000_0000
    ensures Encode(list) == OnWire(list)
  {
    ArrayHeadOnWire(|list|);
    VisitorsEncodedOnWire(list);
    hide ArrayOnWire, EncodeVisitors;
    assert Key('v') == [0x61, 0x76] && Head(Map, 1) == [0xA1];
  }

  /** Writes the list into a growing buffer, one visitor at a time. */
  method ToCbor(list: seq<StoredVisitor>) returns (output: seq<byte>)
    requires |list| < 0x1_0000_0000_0000_0000
    ensures output == Encode(list) == OnWire(list)
    ensures Decode(output) == Some(list)
  {
    output := Head(Map, 1);
    output := output + Key('v');
    output := output + Head(Array, |list|);
    ghost var start := output;
    for i := 0 to |list|
      invariant output == start + EncodeVisitors(list[..i])
    {
      EncodeOneMore(start, list, i);
      output := output + EncodeVisitor(list[i]);
    }
    assert list[..|list|] == list;
    Reassociate(Head(Map, 1), Key('v'), Head(Array, |list|), EncodeVisitors(list));
    assert Encode(list) + [] == Encode(list);
    RoundTrip(list, []);
    EncodedOnWire(list);
  }

  lemma EncodeOneMore(start: seq<byte>, list: seq<StoredVisitor>, i: nat)
    requires i < |list|
    ensures (start + EncodeVisitors(list[..i])) + EncodeVisitor(list[i]) == start + EncodeVisitors(list[..i + 1])
  {
    assert list[..i + 1][..i] == list[..i];
    Reassociate([], start, EncodeVisitors(list[..i]), EncodeVisitor(list[i]));
  }

  predicate WideVisitor(v: StoredVisitor) {
    v.tag >= 0x1_0000 && v.lastSeen >= 0x1_0000
  }

  lemma VisitorSize(v: StoredVisitor)
    ensures |EncodeVisitor(v)| <= SIZE_SINGLE_VISITOR_BYTES
    ensures |EncodeVisitor(v)| == SIZE_SINGLE_VISITOR_BYTES <==> WideVisitor(v)
  {
  }

  lemma {:induction false} VisitorsSize(list: seq<StoredVisitor>)
    ensures |EncodeVisitors(list)| <= SIZE_SINGLE_VISITOR_BYTES * |list|
    ensures |EncodeVisitors(list)| == SIZE_SINGLE_VISITOR_BYTES * |list|
            <==> forall i :: 0 <= i < |list| ==> WideVisitor(list[i])
  {
    if list != [] {
      var front, last := list[..|list| - 1], list[|list| - 1];
      VisitorsSize(front);
      VisitorSize(last);
    }
  }

  /**
   A list that prune lets through fits the space an item has for it, and the bound is met
   exactly by a full list of wide visitors and by nothing else. In numbers: 26 598 visitors at
   most, and 398 976 bytes.
   */
  lemma EncodedSize(list: seq<StoredVisitor>)
    requires |list| <= MAX_RECENT_VISITORS
    ensures |Encode(list)| <= 6 + SIZE_SINGLE_VISITOR_BYTES * |list|
    ensures |Encode(list)| <= DYNAMO_MAX_ITEM_SIZE_BYTES - RESERVED_NON_VALUE_SIZE_BYTES
    ensures |Encode(list)| == DYNAMO_MAX_ITEM_SIZE_BYTES - RESERVED_NON_VALUE_SIZE_BYTES
            <==> |list| == MAX_RECENT_VISITORS && forall i :: 0 <= i < |list| ==> WideVisitor(list[i])
    ensures |list| <= 26_598 && |Encode(list)| <= 398_976
    ensures |Encode(list)| == 398_976 <==> |list| == 26_598 && forall i :: 0 <= i < |list| ==> WideVisitor(list[i])
  {
    VisitorsSize(list);
  }
}
