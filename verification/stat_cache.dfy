/**
 * The server stat cache of multiclass_data.cpp: the EdgeStat packet
 * (opcode 0x1338: a little-endian `uint32` count followed by packed
 * 12-byte entries, a `uint32` key and an `int64` value) folded into a
 * key -> value map, and the query API over that map.
 */
module StatCache {
  import opened Opt
  import opened CInt

  type byte = x: int | 0 <= x < 256

  const OP_EdgeStat := 0x1338
  const CLASSLESS_VALUE := 17
  const EntrySize := 12

  /** `eStatEntry` keys used by the queries. */
  const Classless: uint32 := 1
  const CurHP: uint32 := 2
  const CurMana: uint32 := 3
  const CurEndur: uint32 := 4
  const MaxHP: uint32 := 5
  const MaxMana: uint32 := 6
  const MaxEndur: uint32 := 7
  const SynergyLevel: uint32 := 36
  const Class1: uint32 := 56
  const Class2: uint32 := 57
  const Class3: uint32 := 58
  const ClassCount: uint32 := 59
  const Class1Level: uint32 := 60
  const Class2Level: uint32 := 61
  const Class3Level: uint32 := 62

  /** `s_stats` and `s_hasData`. */
  datatype Cache = Cache(stats: map<uint32, int64>, hasData: bool)

  const Empty := Cache(map[], false)

  // ---------------------------------------------------------------------
  // Little-endian integers
  // ---------------------------------------------------------------------

  function Pow256(n: nat): (r: nat)
    ensures r >= 1
  {
    if n == 0 then 1 else 256 * Pow256(n - 1)
  }

  /** The unsigned value of little-endian bytes. */
  function FromLE(bs: seq<byte>): (r: nat)
    ensures r < Pow256(|bs|)
  {
    if bs == [] then 0 else bs[0] + 256 * FromLE(bs[1..])
  }

  /** The `n` little-endian bytes of `x`, modulo 256^n. */
  function ToLE(x: nat, n: nat): (r: seq<byte>)
    ensures |r| == n
  {
    if n == 0 then [] else [x % 256] + ToLE(x / 256, n - 1)
  }

  lemma {:induction false} FromToLE(x: nat, n: nat)
    requires x < Pow256(n)
    ensures FromLE(ToLE(x, n)) == x
  {
    if n > 0 {
      assert x / 256 < Pow256(n - 1);
      FromToLE(x / 256, n - 1);
      assert ToLE(x, n)[1..] == ToLE(x / 256, n - 1);
    }
  }

  /** Two's complement reading of 8 bytes. */
  function ToInt64(u: nat): (v: int64)
    requires u < TWO64
    ensures (u - v) % TWO64 == 0
  {
    if u <= INT64_MAX then u else u - TWO64
  }

  function FromInt64(v: int64): (u: nat)
    ensures u < TWO64 && ToInt64(u) == v
  {
    if v >= 0 then v else v + TWO64
  }

  // ---------------------------------------------------------------------
  // Packet decoding
  // ---------------------------------------------------------------------

  datatype Entry = Entry(key: uint32, value: int64)

  function DecodeEntry(b: seq<byte>): (e: Entry)
    requires |b| >= EntrySize
  {
    Pow256Values();
    Entry(FromLE(b[..4]), ToInt64(FromLE(b[4..12])))
  }

  lemma {:induction false} Pow256Values()
    ensures Pow256(4) == TWO32 && Pow256(8) == TWO64
  {
  }

  /** `count` packed entries from the start of `body`. */
  function DecodeEntries(body: seq<byte>, count: nat): (es: seq<Entry>)
    requires |body| >= EntrySize * count
    ensures |es| == count
  {
    if count == 0 then []
    else [DecodeEntry(body)] + DecodeEntries(body[EntrySize..], count - 1)
  }

  /** `s_stats[key] = value` for each entry in order: later duplicates win. */
  function Upsert(m: map<uint32, int64>, es: seq<Entry>): (r: map<uint32, int64>)
    ensures forall k :: k in m ==> k in r
    ensures forall e :: e in es ==> e.key in r
    ensures forall k :: k in r ==> k in m || exists e :: e in es && e.key == k
    decreases |es|
  {
    if es == [] then m else Upsert(m[es[0].key := es[0].value], es[1..])
  }

  /** What `OnIncomingMessage` does with a message. */
  datatype Outcome =
    | OtherOpcode
    | TooSmall
    | SizeMismatch
    | Accepted(entries: seq<Entry>)
    | ReadsPastEnd

  /** The packet's declared entry count. */
  function Count(packet: seq<byte>): nat
    requires |packet| >= 4
  {
    FromLE(packet[..4])
  }

  /**
   * The size check exactly as written: `4 + count * 12` in `uint32`
   * arithmetic. When it wraps, a short packet passes and the entry loop
   * reads past its end, reported as `ReadsPastEnd`.
   */
  function ClassifyAsWritten(opcode: uint32, packet: seq<byte>): (r: Outcome)
    requires |packet| < TWO32
  {
    if opcode != OP_EdgeStat then OtherOpcode
    else if |packet| < 4 then TooSmall
    else
      var count := Count(packet);
      if |packet| < U32(4 + count * EntrySize) then SizeMismatch
      else if |packet| < 4 + count * EntrySize then ReadsPastEnd
      else Accepted(DecodeEntries(packet[4..], count))
  }

  /** The size check with the bound computed without wrap-around. */
  function Classify(opcode: uint32, packet: seq<byte>): (r: Outcome)
    requires |packet| < TWO32
    ensures r.Accepted? ==> |packet| >= 4 && |packet| >= 4 + EntrySize * Count(packet) && |r.entries| == Count(packet)
    ensures opcode == OP_EdgeStat && |packet| >= 4 && !r.Accepted? ==> |packet| < 4 + EntrySize * Count(packet)
    ensures !r.ReadsPastEnd?
  {
    if opcode != OP_EdgeStat then OtherOpcode
    else if |packet| < 4 then TooSmall
    else
      var count := Count(packet);
      if |packet| < 4 + count * EntrySize then SizeMismatch
      else Accepted(DecodeEntries(packet[4..], count))
  }

  /** Whenever the check as written does not wrap, the two agree. */
  lemma {:induction false} AsWrittenAgrees(opcode: uint32, packet: seq<byte>)
    requires |packet| < TWO32
    requires |packet| >= 4 ==> 4 + Count(packet) * EntrySize < TWO32
    ensures ClassifyAsWritten(opcode, packet) == Classify(opcode, packet)
  {
  }

  /** A 12-byte packet declaring 0x15555556 entries passes the check as written and overreads. */
  lemma {:induction false} WrappedCountOverreads()
    ensures var p := ToLE(0x1555_5556, 4) + [0, 0, 0, 0, 0, 0, 0, 0];
      |p| == 12 && ClassifyAsWritten(OP_EdgeStat, p) == ReadsPastEnd
      && Classify(OP_EdgeStat, p) == SizeMismatch
  {
    var p := ToLE(0x1555_5556, 4) + [0, 0, 0, 0, 0, 0, 0, 0];
    Pow256Values();
    FromToLE(0x1555_5556, 4);
    assert p[..4] == ToLE(0x1555_5556, 4);
    assert U32(4 + 0x1555_5556 * 12) == 12;
  }

  /**
   * `OnIncomingMessage` (with the corrected size check): an accepted packet
   * upserts its entries and sets `hasData`; every other message leaves
   * the cache alone. The handler always returns true.
   */
  function OnIncomingMessage(c: Cache, opcode: uint32, packet: seq<byte>): (r: (Cache, bool))
    requires |packet| < TWO32
    ensures r.1
    ensures !Classify(opcode, packet).Accepted? ==> r.0 == c
    ensures Classify(opcode, packet).Accepted? ==> r.0.hasData
    ensures forall k :: k in c.stats ==> k in r.0.stats
  {
    match Classify(opcode, packet)
    case Accepted(es) => (Cache(Upsert(c.stats, es), true), true)
    case _ => (c, true)
  }

  /** Outside the overread, the check as written and the corrected check classify alike. */
  lemma {:induction false} AgreesUnlessOverread(opcode: uint32, packet: seq<byte>)
    requires |packet| < TWO32
    ensures !ClassifyAsWritten(opcode, packet).ReadsPastEnd? ==>
      ClassifyAsWritten(opcode, packet) == Classify(opcode, packet)
  {
  }

  /**
   * `OnIncomingMessage` with the size check as written: `None` is the read
   * past the packet's end, whose effect C++ leaves undefined; on every
   * other message it does what the corrected handler does.
   */
  function OnIncomingMessageAsWritten(c: Cache, opcode: uint32, packet: seq<byte>): (r: Option<(Cache, bool)>)
    requires |packet| < TWO32
    ensures r.None? <==> ClassifyAsWritten(opcode, packet).ReadsPastEnd?
    ensures r.Some? ==> r.value == OnIncomingMessage(c, opcode, packet)
  {
    AgreesUnlessOverread(opcode, packet);
    match ClassifyAsWritten(opcode, packet)
    case ReadsPastEnd => None
    case Accepted(es) => Some((Cache(Upsert(c.stats, es), true), true))
    case _ => Some((c, true))
  }

  // ---------------------------------------------------------------------
  // Encoding, and the round trip
  // ---------------------------------------------------------------------

  function EncodeEntry(e: Entry): (b: seq<byte>)
    ensures |b| == EntrySize
  {
    ToLE(e.key, 4) + ToLE(FromInt64(e.value), 8)
  }

  function EncodeEntries(es: seq<Entry>): (b: seq<byte>)
    ensures |b| == EntrySize * |es|
  {
    if es == [] then [] else EncodeEntry(es[0]) + EncodeEntries(es[1..])
  }

  /** The packet a server sends for `es`. */
  function Encode(es: seq<Entry>): (b: seq<byte>)
    requires |es| < TWO32
    ensures |b| == 4 + EntrySize * |es|
  {
    Pow256Values();
    ToLE(|es|, 4) + EncodeEntries(es)
  }

  lemma {:induction false} EntryRoundTrip(e: Entry, rest: seq<byte>)
    ensures DecodeEntry(EncodeEntry(e) + rest) == e
  {
    var b := EncodeEntry(e) + rest;
    Pow256Values();
    assert b[..4] == ToLE(e.key, 4);
    assert b[4..12] == ToLE(FromInt64(e.value), 8);
    FromToLE(e.key, 4);
    FromToLE(FromInt64(e.value), 8);
  }

  lemma {:induction false} EntriesRoundTrip(es: seq<Entry>, rest: seq<byte>)
    ensures DecodeEntries(EncodeEntries(es) + rest, |es|) == es
  {
    if es != [] {
      var tail := EncodeEntries(es[1..]) + rest;
      var b := EncodeEntries(es) + rest;
      assert b == EncodeEntry(es[0]) + tail;
      assert b[EntrySize..] == tail;
      EntryRoundTrip(es[0], tail);
      EntriesRoundTrip(es[1..], rest);
      assert DecodeEntries(b, |es|) == [DecodeEntry(b)] + DecodeEntries(tail, |es| - 1);
      assert es == [es[0]] + es[1..];
    }
  }

  /** Decoding an encoded packet gives its entries back, and the cache takes them in. */
  lemma {:induction false} PacketRoundTrip(c: Cache, es: seq<Entry>)
    requires |es| < TWO32 && 4 + EntrySize * |es| < TWO32
    ensures Classify(OP_EdgeStat, Encode(es)) == Accepted(es)
    ensures OnIncomingMessage(c, OP_EdgeStat, Encode(es)).0 == Cache(Upsert(c.stats, es), true)
  {
    EncodedParts(es);
    EntriesRoundTrip(es, []);
  }

  /** An encoded packet declares its entry count and carries the encoded entries after it. */
  lemma {:induction false} EncodedParts(es: seq<Entry>)
    requires |es| < TWO32
    ensures Count(Encode(es)) == |es|
    ensures Encode(es)[4..] == EncodeEntries(es) + []
  {
    var p := Encode(es);
    Pow256Values();
    assert p[..4] == ToLE(|es|, 4);
    FromToLE(|es|, 4);
  }

  // ---------------------------------------------------------------------
  // Upsert: the last entry for a key wins
  // ---------------------------------------------------------------------

  /** The index of the last entry with key `k`, if any. */
  function LastFor(es: seq<Entry>, k: uint32): (r: int)
    ensures -1 <= r < |es|
    ensures r >= 0 ==> es[r].key == k
    ensures forall j :: r < j < |es| ==> es[j].key != k
  {
    if es == [] then -1
    else if es[|es| - 1].key == k then |es| - 1
    else LastFor(es[..|es| - 1], k)
  }

  lemma {:induction false} UpsertLastWins(m: map<uint32, int64>, es: seq<Entry>, k: uint32)
    ensures var i := LastFor(es, k);
      i >= 0 ==> Upsert(m, es)[k] == es[i].value
    ensures LastFor(es, k) < 0 ==> (k in Upsert(m, es) <==> k in m)
    ensures LastFor(es, k) < 0 && k in m ==> Upsert(m, es)[k] == m[k]
    decreases |es|
  {
    if es != [] {
      var init := es[..|es| - 1];
      var last := es[|es| - 1];
      assert init + [last] == es;
      UpsertSnoc(m, init, last);
      UpsertLastWins(m, init, k);
    }
  }

  lemma {:induction false} UpsertSnoc(m: map<uint32, int64>, es: seq<Entry>, e: Entry)
    ensures Upsert(m, es + [e]) == Upsert(m, es)[e.key := e.value]
    decreases |es|
  {
    if es == [] {
      assert es + [e] == [e];
    } else {
      assert (es + [e])[1..] == es[1..] + [e];
      UpsertSnoc(m[es[0].key := es[0].value], es[1..], e);
    }
  }

  // ---------------------------------------------------------------------
  // Query API
  // ---------------------------------------------------------------------

  /** `GetStat`: the cached value, 0 when absent. */
  function GetStat(c: Cache, k: uint32): (v: int64)
    ensures k !in c.stats ==> v == 0
    ensures k in c.stats ==> v == c.stats[k]
  {
    if k in c.stats then c.stats[k] else 0
  }

  /** `HasStat`. */
  predicate HasStat(c: Cache, k: uint32)
  {
    k in c.stats
  }

  /** `IsClassless`: the Classless stat equals 17. */
  predicate IsClassless(c: Cache)
  {
    GetStat(c, Classless) == CLASSLESS_VALUE
  }

  /** `GetClassCount`: the ClassCount stat narrowed to `int`. */
  function GetClassCount(c: Cache): (n: int32)
    ensures INT32_MIN <= GetStat(c, ClassCount) <= INT32_MAX ==> n == GetStat(c, ClassCount)
    ensures (GetStat(c, ClassCount) - n) % TWO32 == 0
  {
    Wrap32(GetStat(c, ClassCount))
  }

  /** `Shutdown`: clears the map and `hasData`. */
  function Shutdown(c: Cache): (r: Cache)
    ensures forall k :: !HasStat(r, k) && GetStat(r, k) == 0
    ensures !r.hasData
  {
    Empty
  }

  /** After a packet, a key it carries reads back its last value; other keys read as before. */
  lemma {:induction false} QueryAfterPacket(c: Cache, es: seq<Entry>, k: uint32)
    requires |es| < TWO32 && 4 + EntrySize * |es| < TWO32
    ensures var r := OnIncomingMessage(c, OP_EdgeStat, Encode(es)).0;
      && (LastFor(es, k) >= 0 ==> HasStat(r, k) && GetStat(r, k) == es[LastFor(es, k)].value)
      && (LastFor(es, k) < 0 ==> HasStat(r, k) == HasStat(c, k) && GetStat(r, k) == GetStat(c, k))
  {
    PacketRoundTrip(c, es);
    UpsertLastWins(c.stats, es, k);
    if LastFor(es, k) >= 0 {
      assert es[LastFor(es, k)] in es;
    }
  }
}
