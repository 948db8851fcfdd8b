/** The persisted list of temporary display profiles: its blob, and how entries are replaced. */
module DriverState {
  import opened Wrappers
  import opened Arithmetic
  import opened ConnectorPolicy

  const MAX_PERMANENT: nat := 4
  const MAX_TEMPORARY: nat := 8
  const SCHEMA_VERSION: nat := 1
  const HEADER_BYTES: nat := 8
  const PROFILE_BYTES: nat := 36

  newtype Byte = x: int | 0 <= x < 256
  type U16 = x: int | 0 <= x < 0x1_0000
  type U32 = x: int | 0 <= x < 0x1_0000_0000
  type U64 = x: int | 0 <= x < 0x1_0000_0000_0000_0000
  type EightBytes = b: seq<Byte> | |b| == 8 witness [0, 0, 0, 0, 0, 0, 0, 0]

  datatype Guid = Guid(data1: U32, data2: U16, data3: U16, data4: EightBytes)

  datatype Profile = Profile(displayId: U64, connector: U32, container: Guid, product: U32, serial: U32)
  {
    predicate Valid() { displayId != 0 && MAX_PERMANENT <= connector < MAX_PERMANENT + MAX_TEMPORARY }
  }

  ghost predicate AllValid(profiles: seq<Profile>) {
    forall p | p in profiles :: p.Valid()
  }

  // ---------------------------------------------------------------- little-endian integers

  function Pow256(width: nat): nat {
    if width == 0 then 1 else 256 * Pow256(width - 1)
  }

  function ToBytes(value: nat, width: nat): (b: seq<Byte>)
    ensures |b| == width
  {
    if width == 0 then [] else [(value % 256) as Byte] + ToBytes(value / 256, width - 1)
  }

  function FromBytes(b: seq<Byte>): nat {
    if b == [] then 0 else b[0] as nat + 256 * FromBytes(b[1..])
  }

  lemma ByteSplits(low: Byte, rest: nat)
    ensures var value := low as nat + 256 * rest; value % 256 == low as nat && value / 256 == rest
  {
  }

  lemma FirstByte(value: nat, width: nat)
    requires width > 0
    ensures FromBytes(ToBytes(value, width)) == value % 256 + 256 * FromBytes(ToBytes(value / 256, width - 1))
  {
    var rest := ToBytes(value / 256, width - 1);
    assert ToBytes(value, width)[1..] == rest;
  }

  lemma {:induction false} FromToBytes(value: nat, width: nat)
    requires value < Pow256(width)
    ensures FromBytes(ToBytes(value, width)) == value
    decreases width
  {
    if width > 0 {
      hide FromBytes;
      FromToBytes(value / 256, width - 1);
      FirstByte(value, width);
    }
  }

  lemma {:induction false} ToFromBytes(b: seq<Byte>)
    ensures FromBytes(b) < Pow256(|b|) && ToBytes(FromBytes(b), |b|) == b
    decreases |b|
  {
    if b != [] {
      ToFromBytes(b[1..]);
      var rest := FromBytes(b[1..]);
      ByteSplits(b[0], rest);
      assert ToBytes(FromBytes(b), |b|) == [b[0]] + ToBytes(rest, |b| - 1);
      assert b == [b[0]] + b[1..];
    }
  }

  lemma Widths()
    ensures Pow256(2) == 0x1_0000 && Pow256(4) == 0x1_0000_0000 && Pow256(8) == 0x1_0000_0000_0000_0000
  {
  }

  function ReadU16(b: seq<Byte>): U16
    requires |b| == 2
  {
    Widths(); ToFromBytes(b); FromBytes(b)
  }

  function ReadU32(b: seq<Byte>): U32
    requires |b| == 4
  {
    Widths(); ToFromBytes(b); FromBytes(b)
  }

  function ReadU64(b: seq<Byte>): U64
    requires |b| == 8
  {
    Widths(); ToFromBytes(b); FromBytes(b)
  }

  // ---------------------------------------------------------------- one profile

  function EncodeGuid(g: Guid): (b: seq<Byte>)
    ensures |b| == 16
  {
    ToBytes(g.data1, 4) + ToBytes(g.data2, 2) + ToBytes(g.data3, 2) + g.data4
  }

  function DecodeGuid(b: seq<Byte>): Guid
    requires |b| == 16
  {
    Guid(ReadU32(b[..4]), ReadU16(b[4..6]), ReadU16(b[6..8]), b[8..])
  }

  function Encode(p: Profile): (b: seq<Byte>)
    ensures |b| == PROFILE_BYTES
  {
    ToBytes(p.displayId, 8) + ToBytes(p.connector, 4) + EncodeGuid(p.container) +
    ToBytes(p.product, 4) + ToBytes(p.serial, 4)
  }

  function Decode(b: seq<Byte>): Profile
    requires |b| == PROFILE_BYTES
  {
    Profile(ReadU64(b[..8]), ReadU32(b[8..12]), DecodeGuid(b[12..28]), ReadU32(b[28..32]), ReadU32(b[32..]))
  }

  /** Two pieces put together lie where they are read. */
  lemma Halves(a: seq<Byte>, b: seq<Byte>)
    ensures (a + b)[..|a|] == a && (a + b)[|a|..] == b
  {
  }

  /** A piece of the front of a longer sequence. */
  lemma InFront(a: seq<Byte>, b: seq<Byte>, from: nat, to: nat)
    requires from <= to <= |a|
    ensures (a + b)[from..to] == a[from..to]
  {
  }

  lemma DecodeEncodeGuid(g: Guid)
    ensures DecodeGuid(EncodeGuid(g)) == g
  {
    hide ToBytes, FromBytes, Pow256;
    var p1, p2, p3 := ToBytes(g.data1, 4), ToBytes(g.data2, 2), ToBytes(g.data3, 2);
    Halves(p1 + p2 + p3, g.data4);
    InFront(p1 + p2 + p3, g.data4, 6, 8);
    Halves(p1 + p2, p3);
    InFront(p1 + p2 + p3, g.data4, 4, 6);
    InFront(p1 + p2, p3, 4, 6);
    Halves(p1, p2);
    InFront(p1 + p2 + p3, g.data4, 0, 4);
    InFront(p1 + p2, p3, 0, 4);
    Widths();
    FromToBytes(g.data1, 4);
    FromToBytes(g.data2, 2);
    FromToBytes(g.data3, 2);
  }

  lemma EncodeDecodeGuid(b: seq<Byte>)
    requires |b| == 16
    ensures EncodeGuid(DecodeGuid(b)) == b
  {
    hide ToBytes, FromBytes, Pow256;
    ToFromBytes(b[..4]);
    ToFromBytes(b[4..6]);
    ToFromBytes(b[6..8]);
    assert b == b[..4] + b[4..6] + b[6..8] + b[8..];
  }

  /** The five pieces of an encoded profile lie where they are read. */
  lemma EncodedPieces(p: Profile)
    ensures var b := Encode(p);
            && b[..8] == ToBytes(p.displayId, 8) && b[8..12] == ToBytes(p.connector, 4)
            && b[12..28] == EncodeGuid(p.container)
            && b[28..32] == ToBytes(p.product, 4) && b[32..] == ToBytes(p.serial, 4)
  {
    hide ToBytes, EncodeGuid;
    var p1, p2, p3 := ToBytes(p.displayId, 8), ToBytes(p.connector, 4), EncodeGuid(p.container);
    var p4, p5 := ToBytes(p.product, 4), ToBytes(p.serial, 4);
    var b3, b4 := p1 + p2 + p3, p1 + p2 + p3 + p4;
    Halves(b4, p5);
    Halves(b3, p4);
    InFront(b4, p5, 28, 32);
    Halves(p1 + p2, p3);
    InFront(b4, p5, 12, 28);
    InFront(b3, p4, 12, 28);
    Halves(p1, p2);
    InFront(b4, p5, 8, 12);
    InFront(b3, p4, 8, 12);
    InFront(p1 + p2, p3, 8, 12);
    InFront(b4, p5, 0, 8);
    InFront(b3, p4, 0, 8);
    InFront(p1 + p2, p3, 0, 8);
  }

  lemma DecodeEncode(p: Profile)
    ensures Decode(Encode(p)) == p
  {
    hide ToBytes, FromBytes, Pow256, Encode, EncodeGuid, DecodeGuid;
    EncodedPieces(p);
    DecodeEncodeGuid(p.container);
    Widths();
    FromToBytes(p.displayId, 8);
    FromToBytes(p.connector, 4);
    FromToBytes(p.product, 4);
    FromToBytes(p.serial, 4);
  }

  lemma EncodeDecode(b: seq<Byte>)
    requires |b| == PROFILE_BYTES
    ensures Encode(Decode(b)) == b
  {
    hide ToBytes, FromBytes, Pow256, EncodeGuid, DecodeGuid;
    ToFromBytes(b[..8]);
    ToFromBytes(b[8..12]);
    EncodeDecodeGuid(b[12..28]);
    ToFromBytes(b[28..32]);
    ToFromBytes(b[32..]);
    assert b == b[..8] + b[8..12] + b[12..28] + b[28..32] + b[32..];
  }

  // ---------------------------------------------------------------- the blob

  function EncodeAll(profiles: seq<Profile>): (b: seq<Byte>)
    ensures |b| == |profiles| * PROFILE_BYTES
  {
    if profiles == [] then [] else EncodeAll(profiles[..|profiles| - 1]) + Encode(profiles[|profiles| - 1])
  }

  /** The count is cast to 32 bits. */
  function Serialize(profiles: seq<Profile>): seq<Byte> {
    ToBytes(SCHEMA_VERSION, 4) + ToBytes(|profiles| % 0x1_0000_0000, 4) + EncodeAll(profiles)
  }

  function Record(blob: seq<Byte>, i: nat): (b: seq<Byte>)
    requires HEADER_BYTES + (i + 1) * PROFILE_BYTES <= |blob|
    ensures |b| == PROFILE_BYTES
  {
    blob[HEADER_BYTES + i * PROFILE_BYTES..HEADER_BYTES + (i + 1) * PROFILE_BYTES]
  }

  predicate HeaderFits(blob: seq<Byte>, count: nat) {
    && |blob| >= HEADER_BYTES && ReadU32(blob[..4]) == SCHEMA_VERSION && ReadU32(blob[4..8]) == count
    && count <= MAX_TEMPORARY && |blob| == HEADER_BYTES + count * PROFILE_BYTES
  }

  method SerializeProfiles(profiles: seq<Profile>) returns (blob: seq<Byte>)
    ensures blob == Serialize(profiles)
  {
    blob := ToBytes(SCHEMA_VERSION, 4) + ToBytes(|profiles| % 0x1_0000_0000, 4);
    ghost var header := blob;
    for i := 0 to |profiles|
      invariant blob == header + EncodeAll(profiles[..i])
    {
      blob := blob + Encode(profiles[i]);
      assert profiles[..i + 1][..i] == profiles[..i];
    }
    assert profiles[..|profiles|] == profiles;
  }

  /** Accepts exactly the serializations of bounded lists of valid profiles. */
  method ParseProfiles(blob: seq<Byte>) returns (r: Option<seq<Profile>>)
    ensures r.Some? ==> |r.value| <= MAX_TEMPORARY && AllValid(r.value) && Serialize(r.value) == blob
    ensures r.None? ==>
              forall profiles: seq<Profile> | |profiles| <= MAX_TEMPORARY && AllValid(profiles) ::
                Serialize(profiles) != blob
  {
    if |blob| < HEADER_BYTES || ReadU32(blob[..4]) != SCHEMA_VERSION || ReadU32(blob[4..8]) > MAX_TEMPORARY ||
       |blob| != HEADER_BYTES + ReadU32(blob[4..8]) * PROFILE_BYTES {
      forall profiles: seq<Profile> | |profiles| <= MAX_TEMPORARY ensures Serialize(profiles) != blob {
        SerializedHeader(profiles);
      }
      return None;
    }
    var count := ReadU32(blob[4..8]);
    var profiles: seq<Profile> := [];
    for i := 0 to count
      invariant |profiles| == i && AllValid(profiles)
      invariant forall k | 0 <= k < i :: profiles[k] == Decode(Record(blob, k))
    {
      var profile := Decode(Record(blob, i));
      if !profile.Valid() {
        forall all: seq<Profile> | |all| <= MAX_TEMPORARY && AllValid(all) ensures Serialize(all) != blob {
          if Serialize(all) == blob {
            SerializedHeader(all);
            SerializedRecord(all, i);
          }
        }
        return None;
      }
      profiles := profiles + [profile];
    }
    ParsedSerializes(blob, profiles);
    return Some(profiles);
  }

  lemma {:induction false} EncodedRecord(profiles: seq<Profile>, i: nat)
    requires i < |profiles|
    ensures EncodeAll(profiles)[i * PROFILE_BYTES..(i + 1) * PROFILE_BYTES] == Encode(profiles[i])
    decreases |profiles|
  {
    hide Encode;
    var rest := profiles[..|profiles| - 1];
    if i < |rest| {
      EncodedRecord(rest, i);
      var from, to := i * PROFILE_BYTES, (i + 1) * PROFILE_BYTES;
      assert EncodeAll(profiles)[from..to] == EncodeAll(rest)[from..to];
    }
  }

  lemma SerializedHeader(profiles: seq<Profile>)
    requires |profiles| <= MAX_TEMPORARY
    ensures HeaderFits(Serialize(profiles), |profiles|)
  {
    hide ToBytes, FromBytes, EncodeAll, Pow256;
    var blob := Serialize(profiles);
    assert blob[..4] == ToBytes(SCHEMA_VERSION, 4) && blob[4..8] == ToBytes(|profiles|, 4);
    Widths();
    FromToBytes(SCHEMA_VERSION, 4);
    FromToBytes(|profiles|, 4);
  }

  lemma SerializedRecord(profiles: seq<Profile>, i: nat)
    requires |profiles| <= MAX_TEMPORARY && i < |profiles|
    ensures HEADER_BYTES + (i + 1) * PROFILE_BYTES <= |Serialize(profiles)|
    ensures Decode(Record(Serialize(profiles), i)) == profiles[i]
  {
    hide ToBytes, EncodeAll, Encode, Decode;
    EncodedRecord(profiles, i);
    assert Record(Serialize(profiles), i) == EncodeAll(profiles)[i * PROFILE_BYTES..(i + 1) * PROFILE_BYTES];
    DecodeEncode(profiles[i]);
  }

  lemma ParsedSerializes(blob: seq<Byte>, profiles: seq<Profile>)
    requires HeaderFits(blob, |profiles|)
    requires forall k | 0 <= k < |profiles| :: profiles[k] == Decode(Record(blob, k))
    ensures Serialize(profiles) == blob
  {
    hide ToBytes, FromBytes, EncodeAll, Encode, Decode;
    ToFromBytes(blob[..4]);
    ToFromBytes(blob[4..8]);
    RecordsEncode(blob, profiles, |profiles|);
    assert profiles[..|profiles|] == profiles;
    assert blob == blob[..4] + blob[4..8] + blob[HEADER_BYTES..];
  }

  lemma {:induction false} RecordsEncode(blob: seq<Byte>, profiles: seq<Profile>, n: nat)
    requires n <= |profiles| && |blob| == HEADER_BYTES + |profiles| * PROFILE_BYTES
    requires forall k | 0 <= k < |profiles| :: profiles[k] == Decode(Record(blob, k))
    ensures HEADER_BYTES + n * PROFILE_BYTES <= |blob|
    ensures EncodeAll(profiles[..n]) == blob[HEADER_BYTES..HEADER_BYTES + n * PROFILE_BYTES]
    decreases n
  {
    hide Encode, Decode;
    if n > 0 {
      RecordsEncode(blob, profiles, n - 1);
      assert profiles[..n][..n - 1] == profiles[..n - 1];
      EncodeDecode(Record(blob, n - 1));
    }
  }

  /** Two bounded lists with one blob are one list: so parsing what was serialized gives it back. */
  lemma SerializeInjective(a: seq<Profile>, b: seq<Profile>)
    requires |a| <= MAX_TEMPORARY && |b| <= MAX_TEMPORARY && Serialize(a) == Serialize(b)
    ensures a == b
  {
    hide Serialize, Decode;
    SerializedHeader(a);
    SerializedHeader(b);
    forall i | 0 <= i < |a| ensures a[i] == b[i] {
      SerializedRecord(a, i);
      SerializedRecord(b, i);
    }
  }

  // ---------------------------------------------------------------- byte by byte

  /** Little-endian values at a byte offset. */
  function At2(b: seq<Byte>, at: nat): nat
    requires at + 2 <= |b|
  {
    b[at] as nat + 0x100 * b[at + 1] as nat
  }

  function At4(b: seq<Byte>, at: nat): nat
    requires at + 4 <= |b|
  {
    b[at] as nat + 0x100 * b[at + 1] as nat + 0x1_0000 * b[at + 2] as nat + 0x100_0000 * b[at + 3] as nat
  }

  function At8(b: seq<Byte>, at: nat): nat
    requires at + 8 <= |b|
  {
    At4(b, at) + 0x1_0000_0000 * At4(b, at + 4)
  }

  lemma ValueOfTwo(b: seq<Byte>)
    requires |b| == 2
    ensures FromBytes(b) == At2(b, 0)
  {
    assert FromBytes(b[1..]) == b[1] as nat + 256 * FromBytes(b[1..][1..]);
  }

  lemma ValueOfFour(b: seq<Byte>)
    requires |b| == 4
    ensures FromBytes(b) == At4(b, 0)
  {
    assert b[1..][1..] == b[2..];
    assert FromBytes(b) == b[0] as nat + 256 * (b[1] as nat + 256 * FromBytes(b[2..]));
    ValueOfTwo(b[2..]);
  }

  lemma ValueOfEight(b: seq<Byte>)
    requires |b| == 8
    ensures FromBytes(b) == At8(b, 0)
  {
    var rest := b[4..];
    assert b[1..][1..] == b[2..] && b[2..][1..] == b[3..] && b[3..][1..] == rest;
    ValueOfFour(rest);
    assert FromBytes(b[2..]) == b[2] as nat + 256 * FromBytes(b[3..]);
    assert FromBytes(b[3..]) == b[3] as nat + 256 * FromBytes(rest);
    assert FromBytes(b) == b[0] as nat + 256 * (b[1] as nat + 256 * FromBytes(b[2..]));
  }

  /** The fields of a profile, at their offsets. */
  ghost predicate FieldsAt(b: seq<Byte>, at: nat, p: Profile)
    requires at + 36 <= |b|
  {
    && At8(b, at) == p.displayId && At4(b, at + 8) == p.connector
    && At4(b, at + 12) == p.container.data1 && At2(b, at + 16) == p.container.data2
    && At2(b, at + 18) == p.container.data3 && b[at + 20..at + 28] == p.container.data4
    && At4(b, at + 28) == p.product && At4(b, at + 32) == p.serial
  }

  lemma GuidFields(b: seq<Byte>)
    requires |b| == 16
    ensures var g := DecodeGuid(b);
            At4(b, 0) == g.data1 && At2(b, 4) == g.data2 && At2(b, 6) == g.data3 && b[8..] == g.data4
  {
    hide FromBytes;
    ValueOfFour(b[..4]);
    ValueOfTwo(b[4..6]);
    ValueOfTwo(b[6..8]);
  }

  lemma RecordFields(b: seq<Byte>)
    requires |b| == PROFILE_BYTES
    ensures FieldsAt(b, 0, Decode(b))
  {
    hide FromBytes, DecodeGuid;
    ValueOfEight(b[..8]);
    ValueOfFour(b[8..12]);
    GuidFields(b[12..28]);
    ValueOfFour(b[28..32]);
    ValueOfFour(b[32..]);
    assert b[20..28] == b[12..28][8..];
  }

  lemma FieldsMove(b: seq<Byte>, at: nat, p: Profile)
    requires at + PROFILE_BYTES <= |b| && FieldsAt(b[at..at + PROFILE_BYTES], 0, p)
    ensures FieldsAt(b, at, p)
  {
    var r := b[at..at + PROFILE_BYTES];
    forall k | 0 <= k < 8 ensures b[at + 20..at + 28][k] == r[20..28][k] {
      assert r[20 + k] == b[at + 20 + k];
    }
    assert b[at + 20..at + 28] == r[20..28];
  }

  /**
   The blob of a bounded list, byte by byte: version 1, the count, then 36 bytes a profile:
   display, connector, the four parts of the container id, product and serial, all little-endian.
   */
  lemma BlobLayout(profiles: seq<Profile>, i: nat)
    requires |profiles| <= 8 && i < |profiles|
    ensures var b := Serialize(profiles);
            && |b| == 8 + 36 * |profiles| && At4(b, 0) == 1 && At4(b, 4) == |profiles|
            && FieldsAt(b, 8 + 36 * i, profiles[i])
  {
    hide FromBytes, Serialize, Decode, FieldsAt;
    var b, at := Serialize(profiles), 8 + 36 * i;
    SerializedHeader(profiles);
    ValueOfFour(b[..4]);
    ValueOfFour(b[4..8]);
    SerializedRecord(profiles, i);
    RecordFields(Record(b, i));
    assert Record(b, i) == b[at..at + PROFILE_BYTES];
    FieldsMove(b, at, profiles[i]);
  }

  // ---------------------------------------------------------------- replacing entries

  /** The entries that may stay beside `p`: those not on its connector, or already its own. */
  function Evict(profiles: seq<Profile>, p: Profile): seq<Profile> {
    if profiles == [] then []
    else
      var rest, last := Evict(profiles[..|profiles| - 1], p), profiles[|profiles| - 1];
      if last.connector == p.connector && last.displayId != p.displayId then rest else rest + [last]
  }

  /** The first entry of a display, or the length if there is none. */
  function IndexOf(profiles: seq<Profile>, displayId: U64): (i: nat)
    ensures i <= |profiles| && (i < |profiles| ==> profiles[i].displayId == displayId)
    ensures forall k | 0 <= k < i :: profiles[k].displayId != displayId
  {
    if profiles == [] || profiles[0].displayId == displayId then 0 else 1 + IndexOf(profiles[1..], displayId)
  }

  function Upsert(profiles: seq<Profile>, p: Profile): Option<seq<Profile>> {
    if !p.Valid() then None
    else
      var kept := Evict(profiles, p);
      var i := IndexOf(kept, p.displayId);
      if i < |kept| then Some(kept[i := p])
      else if |kept| >= MAX_TEMPORARY then None
      else Some(kept + [p])
  }

  function RemoveProfile(profiles: seq<Profile>, displayId: U64): seq<Profile> {
    if profiles == [] then []
    else
      var rest, last := RemoveProfile(profiles[..|profiles| - 1], displayId), profiles[|profiles| - 1];
      if last.displayId == displayId then rest else rest + [last]
  }

  /** Valid entries, no two for one display and no two on one connector. */
  ghost predicate WellFormed(profiles: seq<Profile>) {
    && AllValid(profiles)
    && forall i, j | 0 <= i < j < |profiles| ::
         profiles[i].displayId != profiles[j].displayId && profiles[i].connector != profiles[j].connector
  }

  lemma {:induction false} EvictKeeps(profiles: seq<Profile>, p: Profile)
    requires WellFormed(profiles)
    ensures WellFormed(Evict(profiles, p))
    ensures forall q :: q in Evict(profiles, p) <==>
              q in profiles && (q.connector != p.connector || q.displayId == p.displayId)
    decreases |profiles|
  {
    if profiles != [] {
      var front, last := profiles[..|profiles| - 1], profiles[|profiles| - 1];
      assert profiles == front + [last];
      EvictKeeps(front, p);
    }
  }

  lemma {:induction false} RemoveKeeps(profiles: seq<Profile>, displayId: U64)
    requires WellFormed(profiles)
    ensures WellFormed(RemoveProfile(profiles, displayId))
    ensures forall q :: q in RemoveProfile(profiles, displayId) <==> q in profiles && q.displayId != displayId
    decreases |profiles|
  {
    if profiles != [] {
      var front, last := profiles[..|profiles| - 1], profiles[|profiles| - 1];
      assert profiles == front + [last];
      RemoveKeeps(front, displayId);
    }
  }

  ghost function ConnectorsOf(profiles: seq<Profile>): set<int> {
    set p | p in profiles :: p.connector
  }

  lemma {:induction false} ConnectorsCounted(profiles: seq<Profile>)
    requires WellFormed(profiles)
    ensures |ConnectorsOf(profiles)| == |profiles|
    decreases |profiles|
  {
    if profiles != [] {
      var front, last := profiles[..|profiles| - 1], profiles[|profiles| - 1];
      assert profiles == front + [last];
      ConnectorsCounted(front);
      assert ConnectorsOf(profiles) == ConnectorsOf(front) + {last.connector};
      assert last.connector !in ConnectorsOf(front);
    }
  }

  ghost function Slots(n: nat): (s: set<int>)
    ensures |s| == n && forall c :: c in s <==> MAX_PERMANENT <= c < MAX_PERMANENT + n
  {
    if n == 0 then {} else Slots(n - 1) + {MAX_PERMANENT + n - 1}
  }

  /** Pigeonhole: entries that all avoid one connector leave a place. */
  lemma RoomLeft(profiles: seq<Profile>, connector: int)
    requires WellFormed(profiles) && MAX_PERMANENT <= connector < MAX_PERMANENT + MAX_TEMPORARY
    requires forall p | p in profiles :: p.connector != connector
    ensures |profiles| < MAX_TEMPORARY
  {
    ConnectorsCounted(profiles);
    SubsetSize(ConnectorsOf(profiles), Slots(MAX_TEMPORARY) - {connector});
  }

  /** An entry of the display is replaced where it is. */
  lemma UpsertReplaces(profiles: seq<Profile>, p: Profile)
    requires WellFormed(profiles) && p.Valid()
    requires IndexOf(Evict(profiles, p), p.displayId) < |Evict(profiles, p)|
    ensures var kept := Evict(profiles, p); Upsert(profiles, p) == Some(kept[IndexOf(kept, p.displayId) := p])
    ensures Stands(Upsert(profiles, p).value, profiles, p)
  {
    var kept := Evict(profiles, p);
    EvictKeeps(profiles, p);
    ConnectorsCounted(kept);
    ConnectorsFit(kept);
    ReplaceKeeps(kept, IndexOf(kept, p.displayId), p);
  }

  /** Otherwise there is room to add one. */
  lemma UpsertAppends(profiles: seq<Profile>, p: Profile)
    requires WellFormed(profiles) && p.Valid()
    requires IndexOf(Evict(profiles, p), p.displayId) == |Evict(profiles, p)|
    ensures Upsert(profiles, p) == Some(Evict(profiles, p) + [p]) && Stands(Upsert(profiles, p).value, profiles, p)
  {
    var kept := Evict(profiles, p);
    EvictKeeps(profiles, p);
    assert forall q | q in kept :: q.displayId != p.displayId && q.connector != p.connector;
    RoomLeft(kept, p.connector);
  }

  lemma ConnectorsFit(profiles: seq<Profile>)
    requires WellFormed(profiles)
    ensures |ConnectorsOf(profiles)| <= MAX_TEMPORARY
  {
    SubsetSize(ConnectorsOf(profiles), Slots(MAX_TEMPORARY));
  }

  /**
   The list is well-formed and bounded, holds `p`, and of the old entries exactly those that share
   nothing with it.
   */
  ghost predicate Stands(r: seq<Profile>, profiles: seq<Profile>, p: Profile) {
    && WellFormed(r) && |r| <= MAX_TEMPORARY
    && forall q :: q in r <==> q == p || (q in profiles && q.displayId != p.displayId && q.connector != p.connector)
  }

  /**
   A valid profile always finds its place in a well-formed list: the result is
   well-formed and bounded, holds the new entry, and of the old ones exactly those
   that share neither its display nor its connector.
   */
  lemma UpsertSucceeds(profiles: seq<Profile>, p: Profile)
    requires WellFormed(profiles) && p.Valid()
    ensures Upsert(profiles, p).Some? && Stands(Upsert(profiles, p).value, profiles, p)
  {
    hide Upsert, Stands, WellFormed;
    if IndexOf(Evict(profiles, p), p.displayId) < |Evict(profiles, p)| {
      UpsertReplaces(profiles, p);
    } else {
      UpsertAppends(profiles, p);
    }
  }

  lemma ReplaceKeeps(kept: seq<Profile>, i: nat, p: Profile)
    requires WellFormed(kept) && i < |kept| && kept[i].displayId == p.displayId && p.Valid()
    requires forall q | q in kept :: q.connector != p.connector || q.displayId == p.displayId
    ensures WellFormed(kept[i := p])
    ensures forall q :: q in kept[i := p] <==>
              q == p || (q in kept && q.displayId != p.displayId && q.connector != p.connector)
  {
    var r := kept[i := p];
    assert r[i] == p;
    forall q | q in kept && q.displayId != p.displayId ensures q in r {
      var k :| 0 <= k < |kept| && kept[k] == q;
      assert r[k] == q;
    }
    forall k | 0 <= k < |r| && k != i
      ensures r[k] == kept[k] && r[k].displayId != p.displayId && r[k].connector != p.connector
    {
      assert r[k] in kept;
    }
    forall q | q in r && q != p ensures q in kept && q.displayId != p.displayId && q.connector != p.connector {
      var k :| 0 <= k < |r| && r[k] == q;
    }
  }

  // ---------------------------------------------------------------- reservations

  /** The connector reservations a list gives the store; a display's first entry counts. */
  method ConnectorReservations(profiles: seq<Profile>) returns (m: map<nat, nat>)
    ensures forall p | p in profiles :: p.displayId in m
    ensures forall d | d in m :: exists i | 0 <= i < |profiles| ::
              && profiles[i].displayId == d && profiles[i].connector == m[d]
              && forall k | 0 <= k < i :: profiles[k].displayId != d
    ensures WellFormed(profiles) ==> OneToOne(m) && forall p | p in profiles :: m[p.displayId] == p.connector
  {
    m := map[];
    for n := 0 to |profiles|
      invariant forall k | 0 <= k < n :: profiles[k].displayId in m
      invariant forall d | d in m :: exists i | 0 <= i < n :: First(profiles, i, d) && profiles[i].connector == m[d]
    {
      if profiles[n].displayId !in m {
        assert First(profiles, n, profiles[n].displayId);
        m := m[profiles[n].displayId := profiles[n].connector];
      }
    }
    forall d | d in m
      ensures exists i | 0 <= i < |profiles| ::
                && profiles[i].displayId == d && profiles[i].connector == m[d]
                && forall k | 0 <= k < i :: profiles[k].displayId != d
    {
      var i :| 0 <= i < |profiles| && First(profiles, i, d) && profiles[i].connector == m[d];
    }
  }

  ghost predicate First(profiles: seq<Profile>, i: int, d: nat) {
    0 <= i < |profiles| && profiles[i].displayId == d && forall k | 0 <= k < i :: profiles[k].displayId != d
  }
}
