/** What a standard reader finds in the finished EDID besides identity and timing: sizes, sync, colours, texts. */
module EdidFeatures {
  import opened Wrappers
  import opened EdidTiming
  import opened CtaBlocks
  import opened Edid
  import Decimal = BrokerCommands

  // ---------------------------------------------------------------- sanitized options

  ghost predicate Nearest(x: int, kept: int, low: int, high: int) {
    && low <= kept <= high && (low <= x <= high ==> kept == x)
    && (x < low ==> kept == low) && (x > high ==> kept == high)
  }

  /** The encoder's options: sizes and rate moved into range, and no further; all else as given. */
  lemma SanitizedIsNearest(o: Options)
    ensures var r := SanitizedOptions(o);
            && Nearest(o.mode.width, r.mode.width, 1, 4095) && Nearest(o.mode.height, r.mode.height, 1, 4095)
            && Nearest(o.mode.physicalWidth, r.mode.physicalWidth, 1, 4095)
            && Nearest(o.mode.physicalHeight, r.mode.physicalHeight, 1, 4095)
            && r.mode.refresh == (if o.mode.refresh == 0 then 1 else o.mode.refresh)
            && r == o.(mode := r.mode)
  {
  }

  // ---------------------------------------------------------------- sizes

  /** Image size in millimetres, from the 12-bit fields of the detailed timing. */
  function ReadWidthMm(e: seq<Byte>): nat
    requires |e| == EDID_SIZE
  {
    Join(e[66], e[68] / 16)
  }

  function ReadHeightMm(e: seq<Byte>): nat
    requires |e| == EDID_SIZE
  {
    Join(e[67], e[68] % 16)
  }

  /** The byte is the size in whole centimetres, rounded half up, kept between 1 and 255. */
  ghost predicate InCentimetres(cm: Byte, mm: nat) {
    if mm < 5 then cm == 1
    else if mm >= 2555 then cm == 255
    else 10 * cm - 5 <= mm < 10 * cm + 5
  }

  lemma CentimetresRounded(mm: nat)
    ensures InCentimetres(SizeInCm(mm), mm)
  {
  }

  lemma SizeBytes(t: Timing, m: Mode)
    requires m.physicalWidth < 4096 && m.physicalHeight < 4096
    ensures var b := TimingBytes(t, m);
            Join(b[12], b[14] / 16) == m.physicalWidth && Join(b[13], b[14] % 16) == m.physicalHeight
  {
    TwelveBits(m.physicalWidth, m.physicalHeight);
  }

  lemma FeatureSection(e: seq<Byte>, o: Options)
    requires BaseLaidOut(e, o)
    ensures forall i | 0 <= i < 38 :: e[16 + i] == FeatureBytes(o.mode, o.hdr)[i]
  {
    hide DetailedTiming, TextBytes, TimingBytes, IdBytes, FeatureBytes, RangeBytes, RangeOf, SerialText;
    var b := e[16..54];
    assert forall i | 0 <= i < 38 :: e[16 + i] == b[i];
  }

  lemma SizeInFeatures(m: Mode, hdr: bool)
    ensures FeatureBytes(m, hdr)[5] == SizeInCm(m.physicalWidth) &&
            FeatureBytes(m, hdr)[6] == SizeInCm(m.physicalHeight)
  {
  }

  /** Width and height come back exactly in millimetres, and rounded in the centimetre bytes. */
  lemma SizesReadBack(e: seq<Byte>, o: Options)
    requires BaseLaidOut(e, o)
    ensures ReadWidthMm(e) == o.mode.physicalWidth && ReadHeightMm(e) == o.mode.physicalHeight
    ensures InCentimetres(e[21], o.mode.physicalWidth) && InCentimetres(e[22], o.mode.physicalHeight)
  {
    hide BaseLaidOut, DetailedTiming, TimingBytes, InCentimetres, SizeInCm, FeatureBytes, Join;
    BaseSane(e, o);
    SizeInFeatures(o.mode, o.hdr);
    TimingSection(e, o);
    SizeBytes(DetailedTiming(o.mode), o.mode);
    assert e[66] == e[54 + 12] && e[67] == e[54 + 13] && e[68] == e[54 + 14];
    FeatureSection(e, o);
    assert e[21] == e[16 + 5] && e[22] == e[16 + 6];
    CentimetresRounded(o.mode.physicalWidth);
    CentimetresRounded(o.mode.physicalHeight);
  }

  // ---------------------------------------------------------------- sync

  datatype Sync = Sync(hOffset: nat, hWidth: nat, vOffset: nat, vWidth: nat)

  /** Ten bits for each horizontal value, six for each vertical one. */
  function ReadSync(e: seq<Byte>): Sync
    requires |e| == EDID_SIZE
  {
    Sync(Join(e[62], e[65] / 64), Join(e[63], e[65] / 16 % 4),
         e[64] / 16 + 16 * (e[65] / 4 % 4), e[64] % 16 + 16 * (e[65] % 4))
  }

  /** `part` is this share of the whole, or the most a byte can say. */
  ghost predicate Share(part: nat, parts: nat, whole: nat) {
    if whole < 256 * parts then parts * part <= whole < parts * part + parts else part == 255
  }

  lemma SyncBytes(t: Timing, m: Mode)
    requires 160 <= t.hBlank < 4096
    ensures var b, h, w := TimingBytes(t, m), Clamp(t.hBlank / 3, 8, 255), Clamp(t.hBlank / 5, 8, 255);
            b[8] == h && b[9] == w && b[10] == 53 && b[11] == 0 && b[15] == 0 && b[16] == 0 && b[17] == 26
    ensures Share(Clamp(t.hBlank / 3, 8, 255), 3, t.hBlank) && Share(Clamp(t.hBlank / 5, 8, 255), 5, t.hBlank)
  {
  }

  lemma BlankingBounds(m: Mode)
    requires m.Sane()
    ensures 160 <= DetailedTiming(m).hBlank < 4096 && 45 <= DetailedTiming(m).vBlank
  {
    DetailedFits(m);
    TotalBounds(m);
  }

  /**
   The sync pulses a reader finds lie within the blanking it finds: offset and width are a third
   and a fifth of it, and three and five lines. The picture has no border and is not interlaced.
   */
  lemma SyncReadBack(e: seq<Byte>, o: Options)
    requires BaseLaidOut(e, o)
    ensures var t, sync := ReadTiming(e), ReadSync(e);
            && Share(sync.hOffset, 3, t.hBlank) && Share(sync.hWidth, 5, t.hBlank)
            && 1 <= sync.hOffset && 1 <= sync.hWidth && sync.hOffset + sync.hWidth < t.hBlank
            && sync.vOffset == 3 && sync.vWidth == 5 && sync.vOffset + sync.vWidth < t.vBlank
    ensures e[69] == 0 && e[70] == 0 && e[71] / 128 == 0 && e[71] / 8 % 4 == 3
  {
    hide BaseLaidOut, DetailedTiming, TimingBytes, Share, ReadTiming;
    BaseSane(e, o);
    TimingReadBack(e, o);
    TimingSection(e, o);
    BlankingBounds(o.mode);
    SyncBytes(DetailedTiming(o.mode), o.mode);
    assert e[62] == e[54 + 8] && e[63] == e[54 + 9] && e[64] == e[54 + 10] && e[65] == e[54 + 11];
    assert e[69] == e[54 + 15] && e[70] == e[54 + 16] && e[71] == e[54 + 17];
  }

  // ---------------------------------------------------------------- version and colours

  /** A chromaticity coordinate: eight high bits in a byte of its own, two low bits in byte 25 or 26. */
  function ReadCoordinate(e: seq<Byte>, k: nat): nat
    requires |e| == EDID_SIZE && k < 8
  {
    var low := e[25 + k / 4];
    4 * (e[27 + k] as int) + (if k % 4 == 0 then low / 64 else if k % 4 == 1 then low / 16 % 4
                     else if k % 4 == 2 then low / 4 % 4 else low % 4)
  }

  /** Red, green, blue and white of ITU-R BT.2020 and of sRGB, in ten-thousandths. */
  const BT2020: seq<nat> := [7080, 2920, 1700, 7970, 1310, 460, 3127, 3290]
  const SRGB: seq<nat> := [6400, 3300, 3000, 6000, 1500, 600, 3127, 3290]

  /** The coordinate, in units of 1/1024, is the nearest to the fraction. */
  ghost predicate Rounds(coordinate: nat, tenThousandths: nat) {
    -5000 <= 10_000 * coordinate - 1024 * tenThousandths <= 5000
  }

  lemma ColourBytes(e: seq<Byte>, m: Mode, hdr: bool, k: nat)
    requires |e| == EDID_SIZE && k < 8 && forall i | 0 <= i < 38 :: e[16 + i] == FeatureBytes(m, hdr)[i]
    ensures Rounds(ReadCoordinate(e, k), if hdr then BT2020[k] else SRGB[k])
  {
    var b := FeatureBytes(m, hdr);
    assert e[25] == e[16 + 9] && e[26] == e[16 + 10];
    assert e[27 + k] == e[16 + (11 + k)];
    var c := if hdr then BT2020_CHROMATICITY else SDR_CHROMATICITY;
    assert b[9] == c[0] && b[10] == c[1] && b[11 + k] == c[2 + k];
    assert k == 0 || k == 1 || k == 2 || k == 3 || k == 4 || k == 5 || k == 6 || k == 7;
  }

  /** Every chromaticity coordinate read is the nearest to that of BT.2020 with HDR, and of sRGB without. */
  lemma ColoursReadBack(e: seq<Byte>, o: Options, k: nat)
    requires BaseLaidOut(e, o) && k < 8
    ensures Rounds(ReadCoordinate(e, k), if o.hdr then BT2020[k] else SRGB[k])
  {
    hide BaseLaidOut, FeatureBytes, ReadCoordinate, Rounds;
    BaseSane(e, o);
    FeatureSection(e, o);
    ColourBytes(e, o.mode, o.hdr, k);
  }

  /**
   EDID version 1.4, a digital input of eight bits a colour over DisplayPort, gamma 2.2, neither
   established nor standard timings, and one extension block.
   */
  lemma BasicsReadBack(e: seq<Byte>, o: Options)
    requires BaseLaidOut(e, o)
    ensures e[18] == 1 && e[19] == 4 && e[126] == 1
    ensures e[20] / 128 == 1 && e[20] / 16 % 8 == 2 && e[20] % 16 == 5 && e[23] + 100 == 220
    ensures e[35] == 0 && e[36] == 0 && e[37] == 0 && forall i | 38 <= i < 54 :: e[i] == 1
  {
    hide BaseLaidOut, FeatureBytes;
    LastByte(e, o);
    FeatureSection(e, o);
    BasicBytes(o.mode, o.hdr);
    assert e[18] == e[16 + 2] && e[19] == e[16 + 3] && e[20] == e[16 + 4] && e[23] == e[16 + 7];
    assert e[35] == e[16 + 19] && e[36] == e[16 + 20] && e[37] == e[16 + 21];
    forall i | 38 <= i < 54 ensures e[i] == 1 {
      var j := i - 16;
      assert e[16 + j] == FeatureBytes(o.mode, o.hdr)[j] == 1;
    }
  }

  lemma BasicBytes(m: Mode, hdr: bool)
    ensures var b := FeatureBytes(m, hdr);
            && b[2] == 1 && b[3] == 4 && b[4] == 0xa5 && b[7] == 120 && b[19] == 0 && b[20] == 0 && b[21] == 0
            && forall i | 22 <= i < 38 :: b[i] == 1
  {
  }

  lemma LastByte(e: seq<Byte>, o: Options)
    requires BaseLaidOut(e, o)
    ensures |e| == EDID_SIZE && e[126] == 1
  {
  }

  // ---------------------------------------------------------------- texts

  /** Cleaning keeps each character in its place, printable ones unchanged and the others as spaces. */
  lemma {:induction false} CleanedAt(text: seq<Byte>, max: nat, k: nat)
    requires k < |text| && k < max
    ensures k < |Cleaned(text, max)| && Cleaned(text, max)[k] == if Printable(text[k]) then text[k] else 0x20
    decreases k
  {
    if k > 0 {
      CleanedAt(text[1..], max - 1, k - 1);
    }
  }

  lemma {:induction false} CleanedLength(text: seq<Byte>, max: nat)
    ensures |Cleaned(text, max)| == if |text| < max then |text| else max
    decreases |text|
  {
    if text != [] && max > 0 {
      CleanedLength(text[1..], max - 1);
    }
  }

  /** A text that is short, printable and has no space at its end is written as it is. */
  lemma CleanTextKept(text: seq<Byte>, max: nat)
    requires |text| <= max && (forall c | c in text :: Printable(c)) && (text == [] || text[|text| - 1] != 0x20)
    ensures SanitizedText(text, max) == text
  {
    CleanedLength(text, max);
    forall k | 0 <= k < |text| ensures Cleaned(text, max)[k] == text[k] {
      CleanedAt(text, max, k);
      assert text[k] in text;
    }
    assert Cleaned(text, max) == text;
    Untrimmed(text);
  }

  ghost predicate AllDigits(text: seq<Byte>) {
    forall i | 0 <= i < |text| :: 48 <= text[i] <= 57
  }

  /** What a text of decimal digits says. */
  function NumberIn(text: seq<Byte>): nat
    requires AllDigits(text)
  {
    if text == [] then 0 else 10 * NumberIn(text[..|text| - 1]) + (text[|text| - 1] - 48)
  }

  lemma {:induction false} AsciiAppend(text: string, c: char)
    ensures Ascii(text + [c]) == Ascii(text) + [c as int % 256]
    decreases |text|
  {
    if text == "" {
      assert text + [c] == [c];
      assert Ascii([c]) == [c as int % 256] + Ascii([c][1..]);
    } else {
      assert (text + [c])[1..] == text[1..] + [c];
      AsciiAppend(text[1..], c);
    }
  }

  lemma LastDigit(n: nat)
    ensures Decimal.PrintNat(n) == (if n < 10 then "" else Decimal.PrintNat(n / 10)) + ['0' + (n % 10) as char]
  {
  }

  lemma DigitByte(d: nat)
    requires d < 10
    ensures ('0' + d as char) as int % 256 == 48 + d
  {
  }

  /** The digits of a number are those of its tenth, and one more. */
  lemma DigitsOf(n: nat)
    ensures var text := Ascii(Decimal.PrintNat(n)); var last: Byte := 48 + n % 10;
            text == (if n < 10 then [] else Ascii(Decimal.PrintNat(n / 10))) + [last]
  {
    hide Decimal.PrintNat;
    LastDigit(n);
    DigitByte(n % 10);
    var front := if n < 10 then "" else Decimal.PrintNat(n / 10);
    assert Ascii("") == [];
    hide Ascii;
    AsciiAppend(front, '0' + (n % 10) as char);
  }

  lemma NumberAppend(text: seq<Byte>, last: Byte)
    requires AllDigits(text) && 48 <= last <= 57
    ensures AllDigits(text + [last]) && NumberIn(text + [last]) == 10 * NumberIn(text) + (last - 48)
  {
    assert (text + [last])[..|text|] == text;
  }

  lemma NumberNone()
    ensures AllDigits([]) && NumberIn([]) == 0
  {
  }

  lemma {:induction false} PrintedNumber(n: nat)
    ensures var text := Ascii(Decimal.PrintNat(n));
            AllDigits(text) && text != [] && NumberIn(text) == n
    decreases n
  {
    hide Ascii, Decimal.PrintNat, NumberIn, AllDigits;
    DigitsOf(n);
    if n < 10 {
      NumberNone();
      NumberAppend([], 48 + n);
    } else {
      PrintedNumber(n / 10);
      NumberAppend(Ascii(Decimal.PrintNat(n / 10)), 48 + n % 10);
    }
  }

  lemma {:induction false} PrintedLength(n: nat, places: nat, bound: nat)
    requires n < bound && bound == Power(places) && places >= 1
    ensures |Ascii(Decimal.PrintNat(n))| <= places
    decreases places
  {
    hide Ascii, Decimal.PrintNat;
    DigitsOf(n);
    if n >= 10 {
      PrintedLength(n / 10, places - 1, bound / 10);
    }
  }

  function Power(places: nat): nat {
    if places == 0 then 1 else 10 * Power(places - 1)
  }

  lemma TenPlaces(serial: U32)
    ensures |SerialText(serial)| <= 10
  {
    assert Power(10) == 10_000_000_000;
    PrintedLength(serial, 10, 10_000_000_000);
  }

  /** The serial text descriptor says the serial number, in full, in decimal. */
  lemma SerialTextReadBack(e: seq<Byte>, o: Options)
    requires BaseLaidOut(e, o)
    ensures e[72..77] == [0, 0, 0, 0xff, 0]
    ensures var text := TextUntilEnd(e[77..90]);
            text.Some? && text.value != [] && AllDigits(text.value) && NumberIn(text.value) == o.serial
  {
    hide NumberIn, TextUntilEnd, SanitizedText, Ascii;
    var digits := SerialText(o.serial);
    SerialSection(e, o);
    PrintedNumber(o.serial);
    TenPlaces(o.serial);
    assert digits[|digits| - 1] in digits && forall c | c in digits :: Printable(c);
    CleanTextKept(digits, 12);
    var b := TextBytes(0xff, digits);
    assert b[5..] == digits + [10] + Spaces(12 - |digits|);
    TextReadBack(digits, Spaces(12 - |digits|));
    assert e[77..90] == e[72..90][5..];
    assert e[72..77] == e[72..90][..5];
  }

  lemma SerialSection(e: seq<Byte>, o: Options)
    requires BaseLaidOut(e, o)
    ensures |e| == EDID_SIZE && e[72..90] == TextBytes(0xff, SerialText(o.serial))
  {
  }

  // ---------------------------------------------------------------- colorimetry

  datatype Colorimetry = Colorimetry(rgb: bool, ycc: bool, cycc: bool)

  /** Reads which BT.2020 encodings the extension announces, if it has a colorimetry block. */
  method ReadColorimetry(e: seq<Byte>) returns (r: Option<Colorimetry>)
    requires |e| == EDID_SIZE
    ensures forall o: Options, luminance: Byte :: LaidOut(e, o, luminance) ==>
              r == if o.hdr then Some(Colorimetry(true, true, true)) else None
  {
    hide LaidOut, IsMatch;
    var extension := e[BLOCK_SIZE..];
    var found := FindDataBlock(extension, 5, 2);
    forall o: Options, luminance: Byte | LaidOut(e, o, luminance)
      ensures if o.hdr then found == Some(52) && extension[54] == 0xe0 else found == None
    {
      ColorimetryFound(e, o, luminance, found);
    }
    if found.None? { return None; }
    MatchInBounds(extension, 5, 2, found.value);
    var bits := extension[found.value + 2];
    r := Some(Colorimetry(bits / 128 == 1, bits / 64 % 2 == 1, bits / 32 % 2 == 1));
  }

  lemma ColorimetryFound(e: seq<Byte>, o: Options, luminance: Byte, found: Option<nat>)
    requires |e| == EDID_SIZE && LaidOut(e, o, luminance)
    requires var x := e[BLOCK_SIZE..];
             && (found.Some? ==>
                   IsMatch(x, 5, 2, found.value) && forall k | 0 <= k < found.value :: !IsMatch(x, 5, 2, k))
             && (found.None? && x[0] == 2 ==> forall k: nat :: !IsMatch(x, 5, 2, k))
    ensures if o.hdr then found == Some(52) && e[BLOCK_SIZE..][54] == 0xe0 else found == None
  {
    hide LaidOut, IsMatch, ExtensionBytes;
    var x := e[BLOCK_SIZE..];
    ExtensionStart(e, o, luminance);
    ExtensionFits(o.hdr, luminance);
    if o.hdr {
      ColorimetryBlock(x, luminance);
    } else {
      NoBlocksAtAll(x, luminance);
    }
  }

  lemma NoBlocksAtAll(x: seq<Byte>, luminance: Byte)
    requires |x| == BLOCK_SIZE && x[..4] == ExtensionBytes(false, luminance)
    ensures forall k: nat :: !IsMatch(x, 5, 2, k)
  {
  }

  lemma ColorimetryBlock(x: seq<Byte>, luminance: Byte)
    requires |x| == BLOCK_SIZE && x[..68] == ExtensionBytes(true, luminance)
    ensures x[0] == 2 && x[54] == 0xe0 && IsMatch(x, 5, 2, 52) && forall k | 0 <= k < 52 :: !IsMatch(x, 5, 2, k)
  {
    hide ExtensionBytes, IsMatch;
    ColorimetryBytes(x, luminance);
    Chain(x);
    assert IsMatch(x, 5, 2, 52) by { MatchesAt52(x); }
    forall k | 0 <= k < 52 ensures !IsMatch(x, 5, 2, k) {
      NoneBefore52(x, k);
    }
  }

  lemma MatchesAt52(x: seq<Byte>)
    requires HdrHeaders(x)
    ensures IsMatch(x, 5, 2, 52)
  {
    Chain(x);
  }

  lemma NoneBefore52(x: seq<Byte>, k: nat)
    requires HdrHeaders(x) && k < 52
    ensures !IsMatch(x, 5, 2, k)
  {
    if Leads(x, 4, k) {
      ChainStarts(x, k);
    }
  }

  lemma ColorimetryBytes(x: seq<Byte>, luminance: Byte)
    requires |x| == BLOCK_SIZE && x[..68] == ExtensionBytes(true, luminance)
    ensures HdrHeaders(x) && x[0] == 2 && x[54] == 0xe0
  {
    var b := ExtensionBytes(true, luminance);
    assert forall i | 0 <= i < 68 :: x[i] == b[i];
    assert DataEnd(x) == 68;
    assert b[4] == VIDEO[0] && b[22] == AUDIO[0] && b[26] == SPEAKERS[0] && b[30] == HDMI[0] && b[44] == HDMI_FORUM[0];
    assert b[52] == COLORIMETRY[0] && b[53] == COLORIMETRY[1] && b[54] == COLORIMETRY[2];
    assert b[56] == YCBCR420[0] && b[57] == YCBCR420[1];
    assert b[61..] == HdrBlock(luminance);
    assert b[61] == b[61..][0] && b[62] == b[61..][1];
  }

  /**
   The extension is of CTA-861, revision 3; with HDR it holds 64 bytes of data blocks and announces
   basic audio and both YCbCr encodings, and without it nothing.
   */
  lemma ExtensionReadBack(e: seq<Byte>, o: Options, luminance: Byte)
    requires LaidOut(e, o, luminance)
    ensures |e| == EDID_SIZE && e[128] == 2 && e[129] == 3
    ensures if o.hdr then e[130] == 4 + 64 && e[131] == 0xf0 else e[130] == 4 && e[131] == 0
  {
    ExtensionStart(e, o, luminance);
    hide LaidOut;
    var x, b := e[BLOCK_SIZE..], ExtensionBytes(o.hdr, luminance);
    FourHead(o.hdr, luminance);
    assert forall i | 0 <= i < 4 :: e[128 + i] == x[i] == b[i];
    assert e[128] == e[128 + 0] && e[129] == e[128 + 1] && e[130] == e[128 + 2] && e[131] == e[128 + 3];
  }

  lemma FourHead(hdr: bool, luminance: Byte)
    ensures var b := ExtensionBytes(hdr, luminance);
            |b| >= 4 && b[0] == 2 && b[1] == 3 && (if hdr then b[2] == 68 && b[3] == 0xf0 else b[2] == 4 && b[3] == 0)
  {
  }
}
