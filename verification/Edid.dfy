/** The EDID encoder, which fills a 256-byte array, and the readers that must get back what went in. */
module Edid {
  import opened Wrappers
  import opened EdidTiming
  import opened CtaBlocks
  import Decimal = BrokerCommands

  const EDID_SIZE: nat := 256

  type Letters = s: seq<Byte> | |s| == 3 witness [65, 65, 65]

  datatype Options = Options(manufacturer: Letters, product: U16, serial: U32, mode: Mode, name: seq<Byte>, hdr: bool)

  function ByteOf(value: nat): Byte { value % 256 }

  // ---------------------------------------------------------------- bytes of the descriptors

  /** The detailed timing descriptor (section 3.10.2 of VESA E-EDID Release A2); nibbles are disjoint, so `|` is `+`. */
  function TimingBytes(t: Timing, m: Mode): (b: seq<Byte>)
    ensures |b| == 18
  {
    var syncOffset, syncWidth := Clamp(t.hBlank / 3, 8, 255), Clamp(t.hBlank / 5, 8, 255);
    [ByteOf(t.clock10kHz), ByteOf(t.clock10kHz / 256),
     ByteOf(t.hActive), ByteOf(t.hBlank), ByteOf(t.hActive / 256 * 16 + t.hBlank / 256),
     ByteOf(t.vActive), ByteOf(t.vBlank), ByteOf(t.vActive / 256 * 16 + t.vBlank / 256),
     ByteOf(syncOffset), ByteOf(syncWidth), 3 * 16 + 5, ByteOf(syncOffset / 256 * 64 + syncWidth / 256 * 16),
     ByteOf(m.physicalWidth), ByteOf(m.physicalHeight), ByteOf(m.physicalWidth / 256 * 16 + m.physicalHeight / 256),
     0, 0, 0x1a]
  }

  /** The display range limits descriptor (section 3.10.3 of VESA E-EDID Release A2). */
  function RangeBytes(r: Range): (b: seq<Byte>)
    ensures |b| == 11
  {
    [0, 0, 0, 0xfd, 0, ByteOf(r.minVertical), ByteOf(r.maxVertical), ByteOf(r.minHorizontal), ByteOf(r.maxHorizontal),
     ByteOf(r.maxClock10MHz), 0x20]
  }

  predicate Printable(c: Byte) { 0x20 <= c <= 0x7e }

  function TrimSpaces(s: seq<Byte>): (r: seq<Byte>)
    ensures r <= s && (r == [] || r[|r| - 1] != 0x20)
  {
    if s != [] && s[|s| - 1] == 0x20 then TrimSpaces(s[..|s| - 1]) else s
  }

  function Cleaned(text: seq<Byte>, max: nat): (r: seq<Byte>)
    ensures |r| <= max && forall c | c in r :: Printable(c)
  {
    if text == [] || max == 0 then []
    else [if Printable(text[0]) then text[0] else 0x20] + Cleaned(text[1..], max - 1)
  }

  function SanitizedText(text: seq<Byte>, max: nat): (r: seq<Byte>)
    ensures |r| <= max && (forall c | c in r :: Printable(c)) && (r == [] || r[|r| - 1] != 0x20)
  {
    TrimSpaces(Cleaned(text, max))
  }

  function Spaces(n: nat): seq<Byte> {
    seq(n, _ => 0x20)
  }

  function TextBytes(kind: Byte, text: seq<Byte>): (b: seq<Byte>)
    ensures |b| == 18
  {
    var safe := SanitizedText(text, 12);
    [0, 0, 0, kind, 0] + safe + [10] + Spaces(12 - |safe|)
  }

  method SanitizeText(text: seq<Byte>, max: nat) returns (r: seq<Byte>)
    ensures r == SanitizedText(text, max)
  {
    r := [];
    var i := 0;
    assert text[0..] == text && [] + Cleaned(text, max) == Cleaned(text, max);
    while i < |text| && |r| != max
      invariant i <= |text| && |r| <= max && Cleaned(text, max) == r + Cleaned(text[i..], max - |r|)
    {
      assert text[i..][1..] == text[i + 1..];
      r := r + [if Printable(text[i]) then text[i] else 0x20];
      i := i + 1;
    }
    assert r == Cleaned(text, max);
    while r != [] && r[|r| - 1] == 0x20
      invariant TrimSpaces(r) == SanitizedText(text, max)
      decreases |r|
    {
      r := r[..|r| - 1];
    }
  }

  // ---------------------------------------------------------------- checksums

  function Sum(s: seq<Byte>): nat {
    if s == [] then 0 else Sum(s[..|s| - 1]) + s[|s| - 1]
  }

  ghost predicate ChecksumHolds(block: seq<Byte>) {
    Sum(block) % 256 == 0
  }

  lemma RoundsToZero(sum: nat)
    ensures (sum + (256 - sum % 256) % 256) % 256 == 0
  {
    if sum % 256 == 0 {
      assert (256 - sum % 256) % 256 == 0;
    } else {
      assert sum + (256 - sum % 256) == 256 * (sum / 256 + 1);
    }
  }

  lemma CompletesChecksum(body: seq<Byte>, last: Byte)
    requires last == (256 - Sum(body) % 256) % 256
    ensures ChecksumHolds(body + [last])
  {
    assert (body + [last])[..|body|] == body;
    RoundsToZero(Sum(body));
  }

  method WriteChecksum(a: array<Byte>, start: nat)
    requires start + BLOCK_SIZE <= a.Length
    modifies a
    ensures ChecksumHolds(a[start..start + BLOCK_SIZE])
    ensures forall i | 0 <= i < a.Length && i != start + BLOCK_SIZE - 1 :: a[i] == old(a[i])
  {
    var sum: nat, last := 0, start + BLOCK_SIZE - 1;
    for i := 0 to BLOCK_SIZE - 1
      invariant sum == Sum(a[start..start + i])
    {
      assert a[start..start + i + 1][..i] == a[start..start + i];
      sum := sum + a[start + i];
    }
    hide Sum;
    ghost var body := a[start..last];
    a[last] := (256 - sum % 256) % 256;
    assert a[start..last] == body;
    assert a[start..start + BLOCK_SIZE] == body + [a[last]];
    CompletesChecksum(body, a[last]);
  }

  method HasValidChecksums(e: seq<Byte>) returns (ok: bool)
    requires |e| == EDID_SIZE
    ensures ok <==> ChecksumHolds(e[..BLOCK_SIZE]) && ChecksumHolds(e[BLOCK_SIZE..])
  {
    for block := 0 to 2
      invariant block >= 1 ==> ChecksumHolds(e[..BLOCK_SIZE])
      invariant block >= 2 ==> ChecksumHolds(e[BLOCK_SIZE..])
    {
      var sum: nat := 0;
      ghost var bytes := e[block * BLOCK_SIZE..(block + 1) * BLOCK_SIZE];
      for offset := 0 to BLOCK_SIZE
        invariant sum == Sum(bytes[..offset])
      {
        assert bytes[..offset + 1][..offset] == bytes[..offset];
        sum := sum + e[block * BLOCK_SIZE + offset];
      }
      assert bytes[..BLOCK_SIZE] == bytes;
      assert bytes == if block == 0 then e[..BLOCK_SIZE] else e[BLOCK_SIZE..];
      if sum % 256 != 0 { return false; }
    }
    return true;
  }

  // ---------------------------------------------------------------- writing

  method Put(a: array<Byte>, offset: nat, bytes: seq<Byte>)
    requires offset + |bytes| <= a.Length
    modifies a
    ensures a[offset..offset + |bytes|] == bytes
    ensures forall i | 0 <= i < a.Length && !(offset <= i < offset + |bytes|) :: a[i] == old(a[i])
  {
    for i := 0 to |bytes|
      invariant forall k | 0 <= k < i :: a[offset + k] == bytes[k]
      invariant forall k | 0 <= k < a.Length && !(offset <= k < offset + i) :: a[k] == old(a[k])
    {
      a[offset + i] := bytes[i];
    }
  }

  method WriteText(a: array<Byte>, offset: nat, kind: Byte, text: seq<Byte>)
    requires offset + 18 <= a.Length
    modifies a
    ensures a[offset..offset + 18] == TextBytes(kind, text)
    ensures forall i | 0 <= i < a.Length && !(offset <= i < offset + 18) :: a[i] == old(a[i])
  {
    hide SanitizedText;
    Put(a, offset, [0, 0, 0, kind, 0]);
    ghost var head := a[offset..offset + 5];
    Put(a, offset + 5, Spaces(13));
    assert forall i | offset + 5 <= i < offset + 18 :: a[i] == a[offset + 5..offset + 18][i - offset - 5] == 0x20;
    var safe := SanitizeText(text, 12);
    var end := offset + 5 + |safe|;
    Put(a, offset + 5, safe);
    a[end] := 10;
    assert a[offset..offset + 5] == head;
    assert a[offset + 5..end] == safe;
    assert a[end + 1..offset + 18] == Spaces(12 - |safe|);
    assert a[offset..offset + 18] == a[offset..offset + 5] + a[offset + 5..end] + [a[end]] + a[end + 1..offset + 18];
  }

  // ---------------------------------------------------------------- identification

  function LetterCode(c: Byte): nat {
    if c < 65 || c > 90 then 1 else c - 64
  }

  function ManufacturerCode(m: Letters): nat {
    LetterCode(m[0]) * 1024 + LetterCode(m[1]) * 32 + LetterCode(m[2])
  }

  const HEADER: seq<Byte> := [0x00, 0xff, 0xff, 0xff, 0xff, 0xff, 0xff, 0x00]

  function IdBytes(o: Options): (b: seq<Byte>)
    ensures |b| == 8
  {
    var code := ManufacturerCode(o.manufacturer);
    [ByteOf(code / 256), ByteOf(code), ByteOf(o.product), ByteOf(o.product / 256),
     ByteOf(o.serial), ByteOf(o.serial / 256), ByteOf(o.serial / 0x1_0000), ByteOf(o.serial / 0x100_0000)]
  }

  function SizeInCm(millimeters: nat): Byte {
    Clamp((millimeters + 5) / 10, 1, 255)
  }

  // Chromaticity coordinates (section 3.7 of VESA E-EDID Release A2), rounded to ten bits.
  const SDR_CHROMATICITY: seq<Byte> := [0xee, 0x91, 0xa3, 0x54, 0x4c, 0x99, 0x26, 0x0f, 0x50, 0x54]
  const BT2020_CHROMATICITY: seq<Byte> := [0x78, 0xb1, 181, 74, 43, 204, 33, 11, 80, 84]

  /** Bytes 16 to 53: version, basic parameters, chromaticity, no established and no standard timings. */
  function FeatureBytes(m: Mode, hdr: bool): (b: seq<Byte>)
    ensures |b| == 38
  {
    [1, 36, 1, 4, 0xa5, SizeInCm(m.physicalWidth), SizeInCm(m.physicalHeight), 0x78, 0x0a] +
    (if hdr then BT2020_CHROMATICITY else SDR_CHROMATICITY) + [0, 0, 0] + seq(16, _ => 1)
  }

  // The data blocks of an HDR display, each headed by its tag and length.
  const VIDEO: seq<Byte> := [0x51, 0x5d, 0x5e, 0x5f, 0x60, 0x61, 0x10, 0x1f, 0x22, 0x21, 0x20, 0x05, 0x14, 0x04, 0x13,
                             0x12, 0x03, 0x01]
  const AUDIO: seq<Byte> := [0x23, 0x0f, 0x56, 0x05]
  const SPEAKERS: seq<Byte> := [0x83, 0x0f, 0x08, 0x00]
  const HDMI: seq<Byte> := [0x6d, 0x03, 0x0c, 0x00, 0x10, 0x00, 0x38, 0x78, 0x20, 0x00, 0x60, 0x01, 0x02, 0x03]
  const HDMI_FORUM: seq<Byte> := [0x67, 0xd8, 0x5d, 0xc4, 0x01, 0x78, 0x80, 0x03]
  const COLORIMETRY: seq<Byte> := [0xe3, 0x05, 0xe0, 0x01]
  const YCBCR420: seq<Byte> := [0xe4, 0x0f, 0x18, 0x00, 0x00]

  function HdrBlock(luminance: Byte): seq<Byte> {
    [0xe6, 0x06, 0x0f, 0x01, luminance, luminance, 0x00]
  }

  /** The extension's data; `luminance` is the coded maximum luminance. */
  function ExtensionBytes(hdr: bool, luminance: Byte): seq<Byte> {
    if hdr then
      [2, 3, 68, 0xf0] + VIDEO + AUDIO + SPEAKERS + HDMI + HDMI_FORUM + COLORIMETRY + YCBCR420 + HdrBlock(luminance)
    else [2, 3, 4, 0]
  }

  function Ascii(text: string): seq<Byte> {
    if text == "" then [] else [text[0] as int % 256] + Ascii(text[1..])
  }

  function SerialText(serial: U32): seq<Byte> {
    Ascii(Decimal.PrintNat(serial))
  }

  ghost predicate Zeros(e: seq<Byte>, from: nat, to: nat)
    requires to <= |e|
  {
    forall i | from <= i < to :: e[i] == 0
  }

  /** Where everything lies in the base block (section 3.1 of VESA E-EDID Release A2). */
  ghost predicate BaseLaidOut(e: seq<Byte>, o: Options) {
    && |e| == EDID_SIZE && o.mode.Sane() && DetailedTiming(o.mode).Total() > 0
    && e[..8] == HEADER && e[8..16] == IdBytes(o) && e[16..54] == FeatureBytes(o.mode, o.hdr)
    && e[54..72] == TimingBytes(DetailedTiming(o.mode), o.mode)
    && e[72..90] == TextBytes(0xff, SerialText(o.serial)) && e[90..108] == TextBytes(0xfc, o.name)
    && e[108..119] == RangeBytes(RangeOf(DetailedTiming(o.mode))) && Zeros(e, 119, 126)
    && e[126] == 1
  }

  ghost predicate LaidOut(e: seq<Byte>, o: Options, luminance: Byte) {
    && BaseLaidOut(e, o)
    && var end := BLOCK_SIZE + |ExtensionBytes(o.hdr, luminance)|;
    && end <= EDID_SIZE - 1 && e[BLOCK_SIZE..end] == ExtensionBytes(o.hdr, luminance) && Zeros(e, end, EDID_SIZE - 1)
  }

  lemma SameBase(e: seq<Byte>, base: seq<Byte>, o: Options)
    requires BaseLaidOut(base, o) && |e| == EDID_SIZE && forall i | 0 <= i < 127 :: e[i] == base[i]
    ensures BaseLaidOut(e, o)
  {
    hide IdBytes, FeatureBytes, TimingBytes, TextBytes, RangeBytes, DetailedTiming, RangeOf, SerialText;
    assert e[..8] == base[..8] && e[8..16] == base[8..16] && e[16..54] == base[16..54];
    assert e[54..72] == base[54..72] && e[72..90] == base[72..90] && e[90..108] == base[90..108];
    assert e[108..119] == base[108..119];
  }

  function SanitizedOptions(o: Options): (r: Options)
    ensures r.mode.Sane()
  {
    o.(mode := Sanitized(o.mode))
  }

  /** What is not written between keeps its place. */
  lemma Kept(before: seq<Byte>, after: seq<Byte>, from: nat, to: nat)
    requires from <= to <= |before| == |after| && forall i | from <= i < to :: after[i] == before[i]
    ensures after[from..to] == before[from..to]
  {
  }

  /** Header, identity, features and timing. */
  method WriteFront(e: array<Byte>, o: Options)
    requires e.Length == EDID_SIZE && o.mode.Sane()
    modifies e
    ensures e[..][..8] == HEADER && e[..][8..16] == IdBytes(o) && e[..][16..54] == FeatureBytes(o.mode, o.hdr)
    ensures e[..][54..72] == TimingBytes(DetailedTiming(o.mode), o.mode)
    ensures forall i | 72 <= i < EDID_SIZE :: e[i] == old(e[i])
  {
    hide IdBytes, FeatureBytes, TimingBytes, DetailedTiming;
    Put(e, 0, HEADER);
    ghost var first := e[..];
    Put(e, 8, IdBytes(o));
    ghost var second := e[..];
    Kept(first, second, 0, 8);
    Put(e, 16, FeatureBytes(o.mode, o.hdr));
    ghost var third := e[..];
    Kept(second, third, 0, 8);
    Kept(second, third, 8, 16);
    Put(e, 54, TimingBytes(DetailedTiming(o.mode), o.mode));
    Kept(third, e[..], 0, 8);
    Kept(third, e[..], 8, 16);
    Kept(third, e[..], 16, 54);
  }

  /** The two texts, the range limits and the extension count. */
  method WriteBack(e: array<Byte>, o: Options)
    requires e.Length == EDID_SIZE && o.mode.Sane() && DetailedTiming(o.mode).Total() > 0
    modifies e
    ensures e[..][72..90] == TextBytes(0xff, SerialText(o.serial)) && e[..][90..108] == TextBytes(0xfc, o.name)
    ensures e[..][108..119] == RangeBytes(RangeOf(DetailedTiming(o.mode))) && e[126] == 1
    ensures forall i | 0 <= i < EDID_SIZE && (i < 72 || (i >= 119 && i != 126)) :: e[i] == old(e[i])
  {
    hide TextBytes, RangeBytes, DetailedTiming, RangeOf, SerialText;
    WriteText(e, 72, 0xff, SerialText(o.serial));
    ghost var first := e[..];
    WriteText(e, 90, 0xfc, o.name);
    ghost var second := e[..];
    Kept(first, second, 72, 90);
    Put(e, 108, RangeBytes(RangeOf(DetailedTiming(o.mode))));
    ghost var third := e[..];
    Kept(second, third, 72, 90);
    Kept(second, third, 90, 108);
    e[126] := 1;
    Kept(third, e[..], 72, 90);
    Kept(third, e[..], 90, 108);
    Kept(third, e[..], 108, 119);
  }

  /** Fills the base block but for its checksum. */
  method WriteBase(e: array<Byte>, o: Options)
    requires e.Length == EDID_SIZE && o.mode.Sane() && Zeros(e[..], 0, EDID_SIZE)
    modifies e
    ensures BaseLaidOut(e[..], o) && Zeros(e[..], BLOCK_SIZE, EDID_SIZE)
  {
    hide IdBytes, FeatureBytes, TimingBytes, TextBytes, RangeBytes, DetailedTiming, RangeOf, SerialText;
    DetailedTotal(o.mode);
    ghost var blank := e[..];
    WriteFront(e, o);
    ghost var front := e[..];
    WriteBack(e, o);
    Kept(front, e[..], 0, 8);
    Kept(front, e[..], 8, 16);
    Kept(front, e[..], 16, 54);
    Kept(front, e[..], 54, 72);
    Kept(blank, e[..], 119, 126);
    Kept(blank, e[..], BLOCK_SIZE, EDID_SIZE);
  }

  /** Encodes any options: every section in its place, and both checksums right. */
  method CreateEdid(options: Options, luminance: Byte) returns (e: array<Byte>)
    ensures fresh(e) && LaidOut(e[..], SanitizedOptions(options), luminance)
    ensures ChecksumHolds(e[..BLOCK_SIZE]) && ChecksumHolds(e[BLOCK_SIZE..])
  {
    hide BaseLaidOut, Sum, ExtensionBytes;
    var o := SanitizedOptions(options);
    e := new Byte[EDID_SIZE](_ => 0);
    WriteBase(e, o);
    ghost var base := e[..];
    WriteChecksum(e, 0);
    ghost var block := e[0..0 + BLOCK_SIZE];
    var extension := ExtensionBytes(o.hdr, luminance);
    ExtensionFits(o.hdr, luminance);
    Put(e, BLOCK_SIZE, extension);
    ghost var data := e[BLOCK_SIZE..BLOCK_SIZE + |extension|];
    WriteChecksum(e, BLOCK_SIZE);
    assert e[..BLOCK_SIZE] == block;
    assert e[..][BLOCK_SIZE..BLOCK_SIZE + |extension|] == data;
    assert e[BLOCK_SIZE..] == e[BLOCK_SIZE..BLOCK_SIZE + BLOCK_SIZE];
    SameBase(e[..], base, o);
  }

  lemma ExtensionFits(hdr: bool, luminance: Byte)
    ensures |ExtensionBytes(hdr, luminance)| == if hdr then 68 else 4
  {
  }

  // ---------------------------------------------------------------- reading

  function Join(low: nat, high: nat): nat { low + high * 256 }

  function ReadTiming(e: seq<Byte>): Timing
    requires |e| == EDID_SIZE
  {
    Timing(Join(e[54], e[55]),
           Join(e[56], e[58] / 16), Join(e[57], e[58] % 16),
           Join(e[59], e[61] / 16), Join(e[60], e[61] % 16))
  }

  /** Three five-bit letters, if all of them are letters. */
  function LettersOf(code: nat): Option<Letters> {
    var first, second, third := code / 1024 % 32, code / 32 % 32, code % 32;
    if 1 <= first <= 26 && 1 <= second <= 26 && 1 <= third <= 26
    then Some([first + 64, second + 64, third + 64]) else None
  }

  function ReadManufacturer(e: seq<Byte>): Option<Letters>
    requires |e| == EDID_SIZE
  {
    LettersOf(Join(e[9], e[8]))
  }

  function ReadProduct(e: seq<Byte>): nat
    requires |e| == EDID_SIZE
  {
    Join(e[10], e[11])
  }

  function ReadSerial(e: seq<Byte>): nat
    requires |e| == EDID_SIZE
  {
    Join(e[12], Join(e[13], Join(e[14], e[15])))
  }

  function ReadRange(e: seq<Byte>): Range
    requires |e| == EDID_SIZE
  {
    Range(e[113], e[114], e[115], e[116], e[117])
  }

  /** The text up to a terminator; nothing if a byte cannot be text. */
  function TextUntilEnd(b: seq<Byte>): Option<seq<Byte>> {
    if b == [] || b[0] == 0 || b[0] == 10 || b[0] == 13 then Some([])
    else if !Printable(b[0]) then None
    else
      var rest := TextUntilEnd(b[1..]);
      if rest.None? then None else Some([b[0]] + rest.value)
  }

  predicate IsNameDescriptor(e: seq<Byte>, offset: nat)
    requires offset + 18 <= |e|
  {
    e[offset] == 0 && e[offset + 1] == 0 && e[offset + 2] == 0 && e[offset + 3] == 0xfc && e[offset + 4] == 0
  }

  /** The first name descriptor with a visible name, from the `n`th of the four descriptors on. */
  function NameFrom(e: seq<Byte>, n: nat): Option<seq<Byte>>
    requires |e| == EDID_SIZE && n <= 4
    decreases 4 - n
  {
    if n == 4 then None
    else
      var offset := 54 + 18 * n;
      if !IsNameDescriptor(e, offset) then NameFrom(e, n + 1)
      else
        var text := TextUntilEnd(e[offset + 5..offset + 18]);
        if text.None? then None
        else if TrimSpaces(text.value) == [] then NameFrom(e, n + 1)
        else Some(TrimSpaces(text.value))
  }

  method ReadText(field: seq<Byte>) returns (text: Option<seq<Byte>>)
    ensures text == TextUntilEnd(field)
  {
    var read: seq<Byte> := [];
    assert field[0..] == field;
    PrefixedNone(TextUntilEnd(field));
    for i := 0 to |field|
      invariant TextUntilEnd(field) == Prefixed(read, TextUntilEnd(field[i..]))
    {
      assert read + [] == read;
      if field[i] == 0 || field[i] == 10 || field[i] == 13 { return Some(read); }
      if !Printable(field[i]) { return None; }
      assert field[i..][1..] == field[i + 1..];
      PrefixedTwice(read, field[i], TextUntilEnd(field[i + 1..]));
      read := read + [field[i]];
    }
    assert read + [] == read;
    return Some(read);
  }

  lemma PrefixedNone(rest: Option<seq<Byte>>)
    ensures Prefixed([], rest) == rest
  {
    if rest.Some? {
      assert [] + rest.value == rest.value;
    }
  }

  lemma PrefixedTwice(text: seq<Byte>, c: Byte, rest: Option<seq<Byte>>)
    ensures Prefixed(text, Prefixed([c], rest)) == Prefixed(text + [c], rest)
  {
    if rest.Some? {
      assert text + ([c] + rest.value) == text + [c] + rest.value;
    }
  }

  method ReadMonitorName(e: seq<Byte>) returns (name: Option<seq<Byte>>)
    requires |e| == EDID_SIZE
    ensures name == NameFrom(e, 0)
  {
    hide TextUntilEnd;
    for n := 0 to 4
      invariant NameFrom(e, 0) == NameFrom(e, n)
    {
      var offset := 54 + 18 * n;
      if IsNameDescriptor(e, offset) {
        var read := ReadText(e[offset + 5..offset + 18]);
        if read.None? { return None; }
        var text := read.value;
        while text != [] && text[|text| - 1] == 0x20
          invariant TrimSpaces(text) == TrimSpaces(read.value)
          decreases |text|
        {
          text := text[..|text| - 1];
        }
        if text != [] { return Some(text); }
      }
    }
    return None;
  }

  ghost function Prefixed(text: seq<Byte>, rest: Option<seq<Byte>>): Option<seq<Byte>> {
    if rest.None? then None else Some(text + rest.value)
  }

  // ---------------------------------------------------------------- what was written is read

  lemma TwelveBits(active: nat, blank: nat)
    requires active < 4096 && blank < 4096
    ensures var packed := ByteOf(active / 256 * 16 + blank / 256);
            Join(ByteOf(active), packed / 16) == active && Join(ByteOf(blank), packed % 16) == blank
  {
    hide Join;
    JoinSplits(active);
    JoinSplits(blank);
    Nibbles(active / 256, blank / 256);
  }

  lemma Nibbles(a: nat, b: nat)
    requires a < 16 && b < 16
    ensures ByteOf(a * 16 + b) / 16 == a && ByteOf(a * 16 + b) % 16 == b
  {
  }

  lemma TimingDecodes(t: Timing, m: Mode)
    requires t.clock10kHz < 0x1_0000 && t.hActive < 4096 && t.hBlank < 4096 && t.vActive < 4096 && t.vBlank < 4096
    ensures var b := TimingBytes(t, m);
            t == Timing(Join(b[0], b[1]), Join(b[2], b[4] / 16), Join(b[3], b[4] % 16), Join(b[5], b[7] / 16),
                        Join(b[6], b[7] % 16))
    ensures TimingBytes(t, m)[0] == 0 && TimingBytes(t, m)[1] == 0 ==> t.clock10kHz == 0
  {
    hide Join, ByteOf;
    TwoBytes(t.clock10kHz);
    TwelveBits(t.hActive, t.hBlank);
    TwelveBits(t.vActive, t.vBlank);
    NoBytesNoValue();
  }

  lemma NoBytesNoValue()
    ensures Join(0, 0) == 0
  {
  }

  lemma TimingSection(e: seq<Byte>, o: Options)
    requires BaseLaidOut(e, o)
    ensures forall i | 0 <= i < 18 :: e[54 + i] == TimingBytes(DetailedTiming(o.mode), o.mode)[i]
  {
    hide DetailedTiming, TextBytes, TimingBytes, IdBytes, FeatureBytes, RangeBytes, RangeOf, SerialText;
    var b := e[54..72];
    assert forall i | 0 <= i < 18 :: e[54 + i] == b[i];
  }

  /** The timing reader returns exactly the computed timing. */
  lemma TimingReadBack(e: seq<Byte>, o: Options)
    requires BaseLaidOut(e, o)
    ensures ReadTiming(e) == DetailedTiming(o.mode)
  {
    hide DetailedTiming, TimingBytes, BaseLaidOut;
    BaseSane(e, o);
    ClockNeverSaturates(o.mode);
    TimingSection(e, o);
    TimingDecodes(DetailedTiming(o.mode), o.mode);
    assert e[54] == e[54 + 0] && e[55] == e[54 + 1] && e[56] == e[54 + 2] && e[57] == e[54 + 3] && e[58] == e[54 + 4];
    assert e[59] == e[54 + 5] && e[60] == e[54 + 6] && e[61] == e[54 + 7];
  }

  lemma IdSection(e: seq<Byte>, o: Options)
    requires BaseLaidOut(e, o)
    ensures forall i | 0 <= i < 8 :: e[8 + i] == IdBytes(o)[i]
  {
    hide DetailedTiming, TextBytes, TimingBytes, IdBytes, FeatureBytes, RangeBytes, RangeOf, SerialText;
    var b := e[8..16];
    assert forall i | 0 <= i < 8 :: e[8 + i] == b[i];
  }

  lemma JoinSplits(v: nat)
    ensures Join(ByteOf(v), v / 256) == v
  {
  }

  lemma FourBytes(v: U32)
    ensures Join(ByteOf(v), Join(ByteOf(v / 256), Join(ByteOf(v / 0x1_0000), ByteOf(v / 0x100_0000)))) == v
  {
    hide Join;
    assert v / 256 / 256 == v / 0x1_0000 && v / 0x1_0000 / 256 == v / 0x100_0000;
    assert v / 0x100_0000 < 256;
    JoinSplits(v);
    JoinSplits(v / 256);
    JoinSplits(v / 0x1_0000);
  }

  lemma TwoBytes(v: nat)
    requires v < 0x1_0000
    ensures Join(ByteOf(v), ByteOf(v / 256)) == v
  {
  }

  lemma IdDecodes(o: Options)
    ensures var b := IdBytes(o);
            && Join(b[1], b[0]) == ManufacturerCode(o.manufacturer)
            && Join(b[2], b[3]) == o.product && Join(b[4], Join(b[5], Join(b[6], b[7]))) == o.serial
  {
    hide Join, ByteOf, ManufacturerCode;
    CodeBound(o.manufacturer);
    TwoBytes(ManufacturerCode(o.manufacturer));
    TwoBytes(o.product);
    FourBytes(o.serial);
  }

  lemma CodeBound(m: Letters)
    ensures ManufacturerCode(m) < 0x1_0000
  {
  }

  lemma LettersDecode(a: nat, b: nat, c: nat)
    requires a < 32 && b < 32 && c < 32
    ensures var code := a * 1024 + b * 32 + c; code / 1024 % 32 == a && code / 32 % 32 == b && code % 32 == c
  {
  }

  /** What the code of three letters decodes to. */
  lemma ManufacturerDecodes(m: Letters)
    ensures LettersOf(ManufacturerCode(m)) == Some([LetterCode(m[0]) + 64, LetterCode(m[1]) + 64,
                                                    LetterCode(m[2]) + 64])
    ensures LettersOf(ManufacturerCode(m)) == Some(m) <==> forall c | c in m :: 65 <= c <= 90
  {
    LettersDecode(LetterCode(m[0]), LetterCode(m[1]), LetterCode(m[2]));
    assert m == [m[0], m[1], m[2]];
    assert m[0] in m && m[1] in m && m[2] in m;
    assert (forall c | c in m :: 65 <= c <= 90) <==> 65 <= m[0] <= 90 && 65 <= m[1] <= 90 && 65 <= m[2] <= 90;
  }

  /** Product code and serial number come back; letters too, and what is no letter comes back as `A`. */
  lemma IdentityReadBack(e: seq<Byte>, o: Options)
    requires BaseLaidOut(e, o)
    ensures ReadProduct(e) == o.product && ReadSerial(e) == o.serial
    ensures var m := o.manufacturer;
            ReadManufacturer(e) == Some([LetterCode(m[0]) + 64, LetterCode(m[1]) + 64, LetterCode(m[2]) + 64])
    ensures ReadManufacturer(e) == Some(o.manufacturer) <==> forall c | c in o.manufacturer :: 65 <= c <= 90
  {
    hide BaseLaidOut, IdBytes, Join, ManufacturerCode, LettersOf, LetterCode;
    BaseSane(e, o);
    IdSection(e, o);
    IdDecodes(o);
    assert e[8] == e[8 + 0] && e[9] == e[8 + 1] && e[10] == e[8 + 2] && e[11] == e[8 + 3];
    assert e[12] == e[8 + 4] && e[13] == e[8 + 5] && e[14] == e[8 + 6] && e[15] == e[8 + 7];
    ManufacturerDecodes(o.manufacturer);
  }

  lemma {:induction false} TextReadBack(safe: seq<Byte>, rest: seq<Byte>)
    requires forall c | c in safe :: Printable(c)
    ensures TextUntilEnd(safe + [10] + rest) == Some(safe)
    decreases |safe|
  {
    if safe == [] {
      assert safe + [10] + rest == [10] + rest;
    } else {
      assert (safe + [10] + rest)[1..] == safe[1..] + [10] + rest;
      assert safe[0] in safe;
      TextReadBack(safe[1..], rest);
      assert [safe[0]] + safe[1..] == safe;
    }
  }

  /** The timing, the serial text and the range limits are not taken for a name; the name is. */
  lemma DescriptorKinds(e: seq<Byte>, o: Options)
    requires BaseLaidOut(e, o)
    ensures !IsNameDescriptor(e, 54) && !IsNameDescriptor(e, 72) && !IsNameDescriptor(e, 108) && IsNameDescriptor(e, 90)
    ensures e[95..108] == TextBytes(0xfc, o.name)[5..]
  {
    hide DetailedTiming, TimingBytes, IdBytes, FeatureBytes, RangeOf, SerialText, SanitizedText;
    var t := DetailedTiming(o.mode);
    ClockNeverSaturates(o.mode);
    TimingSection(e, o);
    TimingDecodes(t, o.mode);
    assert e[54] == e[54 + 0] && e[55] == e[54 + 1];
    var serial, name, range := e[72..90], e[90..108], e[108..119];
    assert e[75] == serial[3] == 0xff;
    assert e[111] == range[3] == 0xfd;
    assert forall i | 0 <= i < 5 :: e[90 + i] == name[i];
    assert e[90] == e[90 + 0] && e[91] == e[90 + 1] && e[92] == e[90 + 2] && e[93] == e[90 + 3] && e[94] == e[90 + 4];
    assert e[95..108] == name[5..];
  }

  /** The name reader skips the other descriptors, and returns the sanitized name, if any of it is left. */
  lemma NameReadBack(e: seq<Byte>, o: Options)
    requires BaseLaidOut(e, o)
    ensures var safe := SanitizedText(o.name, 12);
            NameFrom(e, 0) == if safe == [] then None else Some(safe)
  {
    hide BaseLaidOut, SanitizedText, IsNameDescriptor, TextUntilEnd, TrimSpaces;
    BaseSane(e, o);
    DescriptorKinds(e, o);
    var safe := SanitizedText(o.name, 12);
    assert TextBytes(0xfc, o.name)[5..] == safe + [10] + Spaces(12 - |safe|);
    TextReadBack(safe, Spaces(12 - |safe|));
    Untrimmed(safe);
    assert NameFrom(e, 4) == None;
    assert NameFrom(e, 3) == NameFrom(e, 4);
    assert NameFrom(e, 0) == NameFrom(e, 1) && NameFrom(e, 1) == NameFrom(e, 2);
  }

  lemma Untrimmed(s: seq<Byte>)
    requires s == [] || s[|s| - 1] != 0x20
    ensures TrimSpaces(s) == s
  {
  }

  lemma RangeIsBytes(t: Timing)
    requires t.Total() > 0
    ensures var r := RangeOf(t);
            r.minVertical < 256 && r.maxVertical < 256 && r.minHorizontal < 256 && r.maxHorizontal < 256 &&
              r.maxClock10MHz < 256
  {
  }

  lemma RangeSection(e: seq<Byte>, o: Options)
    requires BaseLaidOut(e, o)
    ensures forall i | 0 <= i < 11 :: e[108 + i] == RangeBytes(RangeOf(DetailedTiming(o.mode)))[i]
  {
    hide DetailedTiming, TextBytes, IdBytes, FeatureBytes, TimingBytes, SerialText, RangeOf, RangeBytes;
    var b := e[108..119];
    assert forall i | 0 <= i < 11 :: e[108 + i] == b[i];
  }

  lemma RangeReadBack(e: seq<Byte>, o: Options)
    requires BaseLaidOut(e, o)
    ensures DetailedTiming(o.mode).Total() > 0 && ReadRange(e) == RangeOf(DetailedTiming(o.mode))
  {
    hide BaseLaidOut, DetailedTiming, RangeOf;
    BaseSane(e, o);
    DetailedTotal(o.mode);
    RangeIsBytes(DetailedTiming(o.mode));
    RangeSection(e, o);
    var r := RangeOf(DetailedTiming(o.mode));
    assert r == Range(r.minVertical, r.maxVertical, r.minHorizontal, r.maxHorizontal, r.maxClock10MHz);
    var b := RangeBytes(r);
    assert b[5] == r.minVertical && b[6] == r.maxVertical && b[7] == r.minHorizontal && b[8] == r.maxHorizontal;
    assert b[9] == r.maxClock10MHz;
    assert e[108 + 5] == b[5] && e[108 + 6] == b[6] && e[108 + 7] == b[7] && e[108 + 8] == b[8] && e[108 + 9] == b[9];
  }

  /**
   For every EDID the encoder makes, the limits a reader finds cover the timing a
   reader finds: vertical rate and pixel clock from above always, the vertical
   rate from below exactly on the condition the mode asked for gives.
   */
  lemma AdvertisedRangeCovers(e: seq<Byte>, o: Options)
    requires BaseLaidOut(e, o)
    ensures var t, r := ReadTiming(e), ReadRange(e);
            && t.Total() > 0 && t.Hertz() <= r.maxVertical * t.Total() && t.Hertz() <= r.maxClock10MHz * 10_000_000
            && (r.minVertical * t.Total() <= t.Hertz() <==>
                  var total := TotalPixels(o.mode);
                  total > 0 && if o.mode.refresh >= 30_000 then CoveredFrom(total) <= total * o.mode.refresh
                               else 10_000 * Max(1, total * o.mode.refresh / 10_000_000) % total == 0)
  {
    hide BaseLaidOut, DetailedTiming, RangeOf, CoveredFrom, TotalPixels;
    BaseSane(e, o);
    TimingReadBack(e, o);
    RangeReadBack(e, o);
    RangeCoversFromAbove(o.mode);
    LowerVerticalCoversModeIff(o.mode);
  }

  lemma BaseSane(e: seq<Byte>, o: Options)
    requires BaseLaidOut(e, o)
    ensures o.mode.Sane() && |e| == EDID_SIZE
  {
  }

  // ---------------------------------------------------------------- the extension

  datatype HdrMetadata = HdrMetadata(eotfs: nat, types: nat, maxLuminance: nat, maxAverage: nat, minLuminance: nat)

  /** Reads the HDR static metadata block, if the extension has one. */
  method ReadHdrMetadata(e: seq<Byte>) returns (r: Option<HdrMetadata>)
    requires |e| == EDID_SIZE
    ensures forall o: Options, luminance: Byte :: LaidOut(e, o, luminance) ==>
              r == if o.hdr then Some(HdrMetadata(0x0f, 1, luminance, luminance, 0)) else None
  {
    hide LaidOut, IsMatch;
    var extension := e[BLOCK_SIZE..];
    var found := FindDataBlock(extension, 6, 3);
    forall o: Options, luminance: Byte | LaidOut(e, o, luminance)
      ensures if o.hdr then found == Some(61) && HdrAt61(extension, luminance) else found == None
    {
      ExtensionRead(e, o, luminance, found);
    }
    if found.None? { return None; }
    var at := found.value;
    MatchInBounds(extension, 6, 3, at);
    var length := Length(extension[at]);
    r := Some(HdrMetadata(extension[at + 2], extension[at + 3],
                          if length >= 4 then extension[at + 4] else 0,
                          if length >= 5 then extension[at + 5] else 0,
                          if length >= 6 then extension[at + 6] else 0));
  }

  lemma MatchInBounds(x: seq<Byte>, tag: nat, minLength: nat, at: nat)
    requires |x| >= BLOCK_SIZE && IsMatch(x, tag, minLength, at)
    ensures at < BLOCK_SIZE && minLength <= Length(x[at]) && at + Length(x[at]) < BLOCK_SIZE
  {
  }

  ghost predicate HdrAt61(x: seq<Byte>, luminance: Byte) {
    && |x| == BLOCK_SIZE && Length(x[61]) == 6
    && x[63] == 0x0f && x[64] == 1 && x[65] == luminance && x[66] == luminance && x[67] == 0
  }

  /** What the walk finds in an extension the encoder made. */
  lemma ExtensionRead(e: seq<Byte>, o: Options, luminance: Byte, found: Option<nat>)
    requires |e| == EDID_SIZE && LaidOut(e, o, luminance)
    requires var x := e[BLOCK_SIZE..];
             && (found.Some? ==>
                   IsMatch(x, 6, 3, found.value) && forall k | 0 <= k < found.value :: !IsMatch(x, 6, 3, k))
             && (found.None? && x[0] == 2 ==> forall k: nat :: !IsMatch(x, 6, 3, k))
    ensures if o.hdr then found == Some(61) && HdrAt61(e[BLOCK_SIZE..], luminance) else found == None
  {
    hide LaidOut, IsMatch, ExtensionBytes;
    var x := e[BLOCK_SIZE..];
    ExtensionStart(e, o, luminance);
    ExtensionFits(o.hdr, luminance);
    if o.hdr {
      HdrBlockFound(x, luminance);
    } else {
      NoBlocks(x, luminance);
    }
  }

  lemma ExtensionStart(e: seq<Byte>, o: Options, luminance: Byte)
    requires LaidOut(e, o, luminance)
    ensures var x, b := e[BLOCK_SIZE..], ExtensionBytes(o.hdr, luminance); |b| <= |x| && x[..|b|] == b
  {
    hide BaseLaidOut, ExtensionBytes;
    ExtensionFits(o.hdr, luminance);
    BaseSane(e, o);
    var b := ExtensionBytes(o.hdr, luminance);
    assert e[BLOCK_SIZE..][..|b|] == e[BLOCK_SIZE..BLOCK_SIZE + |b|];
  }

  lemma NoBlocks(x: seq<Byte>, luminance: Byte)
    requires |x| == BLOCK_SIZE && x[..4] == ExtensionBytes(false, luminance)
    ensures DataEnd(x) == 4 && forall k: nat :: !IsMatch(x, 6, 3, k)
  {
  }

  /** In the HDR extension the chain of blocks leads to the metadata block, and nothing on it matches earlier. */
  lemma HdrBlockFound(x: seq<Byte>, luminance: Byte)
    requires |x| == BLOCK_SIZE && x[..68] == ExtensionBytes(true, luminance)
    ensures x[0] == 2 && IsMatch(x, 6, 3, 61) && HdrAt61(x, luminance) && forall k | 0 <= k < 61 :: !IsMatch(x, 6, 3, k)
  {
    var b := ExtensionBytes(true, luminance);
    assert forall i | 0 <= i < 68 :: x[i] == b[i];
    assert DataEnd(x) == 68;
    assert b[4] == VIDEO[0] && b[22] == AUDIO[0] && b[26] == SPEAKERS[0] && b[30] == HDMI[0] && b[44] == HDMI_FORUM[0];
    assert b[52] == COLORIMETRY[0] && b[53] == COLORIMETRY[1] && b[56] == YCBCR420[0] && b[57] == YCBCR420[1];
    assert b[61..] == HdrBlock(luminance);
    assert HdrHeaders(x);
    Chain(x);
    forall k | 0 <= k < 61 ensures !IsMatch(x, 6, 3, k) {
      NoEarlierMatch(x, k);
    }
  }

  ghost predicate HdrHeaders(x: seq<Byte>) {
    && |x| == BLOCK_SIZE && DataEnd(x) == 68
    && x[4] == 0x51 && x[22] == 0x23 && x[26] == 0x83 && x[30] == 0x6d && x[44] == 0x67
    && x[52] == 0xe3 && x[53] == 5 && x[56] == 0xe4 && x[57] == 0x0f && x[61] == 0xe6 && x[62] == 6
  }

  lemma Chain(x: seq<Byte>)
    requires HdrHeaders(x)
    ensures Leads(x, 4, 22) && Leads(x, 4, 26) && Leads(x, 4, 30) && Leads(x, 4, 44) && Leads(x, 4, 52)
    ensures Leads(x, 4, 56) && Leads(x, 4, 61)
  {
    LeadsOn(x, 4, 4);
    LeadsOn(x, 4, 22);
    LeadsOn(x, 4, 26);
    LeadsOn(x, 4, 30);
    LeadsOn(x, 4, 44);
    LeadsOn(x, 4, 52);
    LeadsOn(x, 4, 56);
  }

  /** A place on the chain is one of the eight block starts. */
  lemma ChainStarts(x: seq<Byte>, k: nat)
    requires HdrHeaders(x) && Leads(x, 4, k) && k < 61
    ensures k in {4, 22, 26, 30, 44, 52, 56}
  {
    Chain(x);
    LeadsUp(x, 4, k);
    if k > 4 { SkipsInside(x, 4, k); }
    if k > 22 { SkipsInside(x, 22, k); }
    if k > 26 { SkipsInside(x, 26, k); }
    if k > 30 { SkipsInside(x, 30, k); }
    if k > 44 { SkipsInside(x, 44, k); }
    if k > 52 { SkipsInside(x, 52, k); }
    if k > 56 { SkipsInside(x, 56, k); }
  }

  lemma NoEarlierMatch(x: seq<Byte>, k: nat)
    requires HdrHeaders(x) && k < 61
    ensures !IsMatch(x, 6, 3, k)
  {
    if Leads(x, 4, k) {
      ChainStarts(x, k);
    }
  }
}
