/** The timing an EDID advertises, and the range limits that must cover it. */
module EdidTiming {
  import opened Arithmetic

  const MAX_CLOCK_HZ: nat := 0xFFFF * 10_000
  const MAX_VERTICAL_HZ: nat := 255

  type U16 = x: int | 0 <= x < 0x1_0000
  type U32 = x: int | 0 <= x < 0x1_0000_0000

  function Min(a: int, b: int): int { if a < b then a else b }
  function Max(a: int, b: int): int { if a > b then a else b }

  function Clamp(x: int, low: int, high: int): int
    requires low <= high
  {
    if x < low then low else if x > high then high else x
  }

  /** The mode of a display, with its size in millimetres. */
  datatype Mode = Mode(width: U32, height: U32, physicalWidth: U32, physicalHeight: U32, refresh: U32)
  {
    predicate Sane() {
      1 <= width <= 4095 && 1 <= height <= 4095 && 1 <= physicalWidth <= 4095 && 1 <= physicalHeight <= 4095 &&
        1 <= refresh
    }
  }

  function Sanitized(m: Mode): (r: Mode)
    ensures r.Sane()
  {
    Mode(Clamp(m.width, 1, 4095), Clamp(m.height, 1, 4095), Clamp(m.physicalWidth, 1, 4095),
         Clamp(m.physicalHeight, 1, 4095), Clamp(m.refresh, 1, 0xFFFF_FFFF))
  }

  datatype Timing = Timing(clock10kHz: nat, hActive: nat, hBlank: nat, vActive: nat, vBlank: nat)
  {
    function Total(): nat { (hActive + hBlank) * (vActive + vBlank) }
    function Hertz(): nat { clock10kHz * 10_000 }
  }

  function HorizontalBlanking(width: nat): nat {
    (Clamp(width / 5, 160, 2047) + 7) / 8 * 8
  }

  function VerticalBlanking(height: nat): nat {
    Clamp(height / 20, 45, 1023)
  }

  function TotalPixels(m: Mode): nat {
    NonNegative(m.width + HorizontalBlanking(m.width), m.height + VerticalBlanking(m.height));
    (m.width + HorizontalBlanking(m.width)) * (m.height + VerticalBlanking(m.height))
  }

  function PixelClock(m: Mode): nat {
    NonNegative(TotalPixels(m), Max(m.refresh, 1));
    TotalPixels(m) * Max(m.refresh, 1) / 1000
  }

  function PreferredTiming(m: Mode): Timing {
    Timing(Clamp(PixelClock(m) / 10_000, 1, 0xFFFF), m.width, HorizontalBlanking(m.width), m.height,
           VerticalBlanking(m.height))
  }

  /** The mode that the base block can express: a lower refresh rate if need be. */
  function Detailed(m: Mode): Mode
    requires m.Sane()
  {
    if PixelClock(m) <= MAX_CLOCK_HZ && m.refresh <= MAX_VERTICAL_HZ * 1000 then m
    else
      var slower := m.(refresh := Min(m.refresh, 60_000));
      if PixelClock(slower) <= MAX_CLOCK_HZ then slower
      else
        TotalBounds(m);
        SlowestRate(TotalPixels(slower));
        slower.(refresh := Max(1, MAX_CLOCK_HZ * 1000 / TotalPixels(slower)))
  }

  lemma SlowestRate(total: nat)
    requires total >= 161 * 46
    ensures MAX_CLOCK_HZ * 1000 / total < 0x1_0000_0000
  {
  }

  function DetailedTiming(m: Mode): Timing
    requires m.Sane()
  {
    PreferredTiming(Detailed(m))
  }

  // ---------------------------------------------------------------- arithmetic

  lemma TotalBounds(m: Mode)
    requires m.Sane()
    ensures 161 * 46 <= TotalPixels(m) <= 4919 * 4299
    ensures HorizontalBlanking(m.width) < 4096 && VerticalBlanking(m.height) < 4096
  {
    ProductBounds(m.width + HorizontalBlanking(m.width), m.height + VerticalBlanking(m.height), 161, 4919, 46, 4299);
  }

  // ---------------------------------------------------------------- the detailed timing fits

  /** The expressible mode keeps the picture, and its rate and clock are in range. */
  lemma DetailedFits(m: Mode)
    requires m.Sane()
    ensures var d := Detailed(m);
            && d.Sane() && d == m.(refresh := d.refresh) && TotalPixels(d) == TotalPixels(m)
            && d.refresh <= m.refresh && d.refresh <= MAX_VERTICAL_HZ * 1000 && PixelClock(d) <= MAX_CLOCK_HZ
  {
    var total := TotalPixels(m);
    var slower := m.(refresh := Min(m.refresh, 60_000));
    TotalBounds(m);
    if !(PixelClock(m) <= MAX_CLOCK_HZ && m.refresh <= MAX_VERTICAL_HZ * 1000) && PixelClock(slower) > MAX_CLOCK_HZ {
      var rate := MAX_CLOCK_HZ * 1000 / total;
      QuotientBounds(MAX_CLOCK_HZ * 1000, total);
      assert total * slower.refresh >= MAX_CLOCK_HZ * 1000;
      CancelsAbove(total, rate, slower.refresh);
      MultiplesApart(total, 0, rate);
      assert total * Max(rate, 1) <= MAX_CLOCK_HZ * 1000;
    }
  }

  /** The 16-bit clock field is never clipped at the top. */
  lemma ClockNeverSaturates(m: Mode)
    requires m.Sane()
    ensures var t := DetailedTiming(m);
            && t.clock10kHz == Max(1, PixelClock(Detailed(m)) / 10_000) && 1 <= t.clock10kHz <= 0xFFFF
            && t.hActive == m.width && t.vActive == m.height && t.Total() == TotalPixels(m)
            && t.hActive < 4096 && t.hBlank < 4096 && t.vActive < 4096 && t.vBlank < 4096
            && t.Hertz() <= MAX_VERTICAL_HZ * t.Total()
  {
    DetailedFits(m);
    TotalBounds(m);
    var d, total := Detailed(m), TotalPixels(m);
    assert PixelClock(d) / 10_000 <= 0xFFFF;
    ProductBounds(total, d.refresh, total, total, 0, MAX_VERTICAL_HZ * 1000);
    assert total * d.refresh <= total * (MAX_VERTICAL_HZ * 1000);
    assert PixelClock(d) <= MAX_VERTICAL_HZ * total;
  }

  /** Blanking: across, a fifth of the width, at least 160, up to a multiple of 8; down, a twentieth, at least 45. */
  lemma BlankingShape(m: Mode)
    requires m.Sane()
    ensures var t := DetailedTiming(m);
            && t.hBlank % 8 == 0 && Max(160, m.width / 5) <= t.hBlank < Max(160, m.width / 5) + 8
            && t.vBlank == Max(45, m.height / 20)
  {
    DetailedFits(m);
  }

  /** The greatest rate, in millihertz, at which this many pixels stay within 655.35 MHz. */
  ghost predicate Fastest(rate: nat, total: nat) {
    total * rate <= 655_350_000_000 < total * (rate + 1)
  }

  /**
   The rate is the one asked for, if the base block can express it: at most 255 Hz and 655.35 MHz.
   Failing that it is 60 Hz, or what was asked for if that is less; and if even that is too fast,
   the greatest rate that is not.
   */
  lemma RateExpressed(m: Mode)
    requires m.Sane()
    ensures var rate, total := Detailed(m).refresh, TotalPixels(m);
            if total * m.refresh < 655_350_001_000 && m.refresh <= 255_000 then rate == m.refresh
            else if total * Min(m.refresh, 60_000) < 655_350_001_000 then rate == Min(m.refresh, 60_000)
            else Fastest(rate, total)
  {
    hide TotalPixels;
    TotalBounds(m);
    SamePixels(m, Min(m.refresh, 60_000));
    var total := TotalPixels(m);
    ClockReaches(total * m.refresh);
    ClockReaches(total * Min(m.refresh, 60_000));
    QuotientBounds(MAX_CLOCK_HZ * 1000, total);
    Distributes(total, MAX_CLOCK_HZ * 1000 / total, MAX_CLOCK_HZ * 1000 / total + 1);
  }

  lemma ClockReaches(product: nat)
    ensures product / 1000 <= MAX_CLOCK_HZ <==> product < 655_350_001_000
  {
  }

  /** The clock is that of total pixels at this rate, cut to its unit of 10 kHz, and never zero. */
  lemma ClockExpressed(m: Mode)
    requires m.Sane()
    ensures var clock, product := DetailedTiming(m).clock10kHz, TotalPixels(m) * Detailed(m).refresh;
            if product < 10_000_000 then clock == 1 else 10_000_000 * clock <= product < 10_000_000 * (clock + 1)
  {
    hide DetailedTiming, Detailed, TotalPixels;
    ClockInTicks(m);
  }

  // ---------------------------------------------------------------- range limits

  /** The limits of the display range descriptor: vertical in Hz, horizontal in kHz, clock in 10 MHz. */
  datatype Range = Range(minVertical: nat, maxVertical: nat, minHorizontal: nat, maxHorizontal: nat, maxClock10MHz: nat)

  function RangeOf(t: Timing): Range
    requires t.Total() > 0
  {
    var horizontalTotal, hertz := t.hActive + t.hBlank, t.Hertz();
    assert horizontalTotal > 0;
    var horizontal := (hertz + horizontalTotal * 1000 - 1) / (horizontalTotal * 1000);
    var vertical := (hertz + t.Total() - 1) / t.Total();
    Range(Clamp(Min(30, vertical), 1, 255), Clamp(Max(60, vertical), 1, 255),
          30, Clamp(Max(30, horizontal), 1, 255), Clamp((hertz + 9_999_999) / 10_000_000, 30, 255))
  }

  lemma DetailedTotal(m: Mode)
    requires m.Sane()
    ensures DetailedTiming(m).Total() > 0 && DetailedTiming(m).Hertz() > 0
  {
    ClockNeverSaturates(m);
    TotalBounds(m);
  }

  /** The vertical and clock limits of the descriptor cover the detailed timing from above. */
  lemma RangeCoversFromAbove(m: Mode)
    requires m.Sane()
    ensures DetailedTiming(m).Total() > 0
    ensures var t := DetailedTiming(m); var r := RangeOf(t);
            && t.Hertz() <= r.maxVertical * t.Total() && r.maxVertical <= 255
            && t.Hertz() <= r.maxClock10MHz * 10_000_000
  {
    hide DetailedTiming;
    DetailedTotal(m);
    ClockNeverSaturates(m);
    var t := DetailedTiming(m);
    CeilingBounds(t.Hertz(), t.Total(), MAX_VERTICAL_HZ);
    CeilingBounds(t.Hertz(), t.Total(), RangeOf(t).maxVertical);
  }

  /**
   The limits are no wider than they must be: the upper ones are the least that cover the timing, or
   60 Hz, 30 kHz and 300 MHz if those do; the lower ones are 30 kHz, and 30 Hz or the rate rounded up.
   Only the horizontal one can run out of its byte.
   */
  lemma RangeIsTight(m: Mode)
    requires m.Sane()
    ensures DetailedTiming(m).Total() > 0
    ensures var t := DetailedTiming(m); var r, hertz, line := RangeOf(t), t.Hertz(), 1000 * (t.hActive + t.hBlank);
            && r.maxVertical >= 60 && (r.maxVertical > 60 ==> (r.maxVertical - 1) * t.Total() < hertz)
            && r.maxClock10MHz >= 30 && (r.maxClock10MHz > 30 ==> (r.maxClock10MHz - 1) * 10_000_000 < hertz)
            && 30 <= r.maxHorizontal <= 255 && (r.maxHorizontal > 30 ==> (r.maxHorizontal - 1) * line < hertz)
            && r.minHorizontal == 30 && 1 <= r.minVertical <= 30
            && (r.minVertical - 1) * t.Total() < hertz && (r.minVertical < 30 ==> hertz <= r.minVertical * t.Total())
  {
    hide DetailedTiming;
    DetailedTotal(m);
    ClockNeverSaturates(m);
    var t := DetailedTiming(m);
    var r, hertz, total, line := RangeOf(t), t.Hertz(), t.Total(), 1000 * (t.hActive + t.hBlank);
    CeilingBounds(hertz, total, r.maxVertical - 1);
    CeilingBounds(hertz, total, r.minVertical - 1);
    CeilingBounds(hertz, total, r.minVertical);
    CeilingBounds(hertz, total, MAX_VERTICAL_HZ);
    CeilingBounds(hertz, line, r.maxHorizontal - 1);
    CeilingBounds(hertz, 10_000_000, r.maxClock10MHz - 1);
  }

  /**
   The lower vertical limit covers the timing exactly if the timing is at 30 Hz or
   above, or at a whole number of hertz: below 30 Hz the limit is rounded up.
   */
  lemma LowerVerticalCoversIff(m: Mode)
    requires m.Sane()
    ensures DetailedTiming(m).Total() > 0
    ensures var t := DetailedTiming(m);
            RangeOf(t).minVertical * t.Total() <= t.Hertz() <==>
              30 * t.Total() <= t.Hertz() || t.Hertz() % t.Total() == 0
  {
    hide DetailedTiming;
    DetailedTotal(m);
    var t := DetailedTiming(m);
    var total, hertz := t.Total(), t.Hertz();
    CeilingCovers(hertz, total);
    CeilingBounds(hertz, total, 29);
    WholeIsCeiling(hertz, total);
    var vertical := (hertz + total - 1) / total;
    if vertical >= 30 {
      LeastAbove(hertz, total, vertical);
    } else {
      Scale(total, vertical, 29);
    }
  }

  /** Rounded up to 30 or more, a rate is either at 30 or short of it. */
  lemma LeastAbove(hertz: nat, total: nat, vertical: nat)
    requires hertz > 0 && total > 0 && vertical == (hertz + total - 1) / total && vertical >= 30
    ensures hertz % total == 0 ==> 30 * total <= hertz
  {
    WholeIsCeiling(hertz, total);
    Scale(total, 30, vertical);
  }

  // ---------------------------------------------------------------- in terms of the mode asked for

  const SLOWEST_COVERED: nat := 31_351

  lemma ClockInTicks(m: Mode)
    requires m.Sane()
    ensures var t, d := DetailedTiming(m), Detailed(m);
            && t.Total() == TotalPixels(m) && t.clock10kHz == Max(1, TotalPixels(m) * d.refresh / 10_000_000)
  {
    hide DetailedTiming;
    ClockNeverSaturates(m);
    var total, d := TotalPixels(m), Detailed(m);
    DetailedFits(m);
    TwoDivisions(total * d.refresh);
  }

  lemma TwoDivisions(a: nat)
    ensures a / 1000 / 10_000 == a / 10_000_000
  {
  }

  /** A rate no faster than 30 Hz fits the base block as it is. */
  lemma SlowIsDetailed(m: Mode)
    requires m.Sane() && m.refresh <= 30_000
    ensures Detailed(m) == m
  {
    TotalBounds(m);
    ProductBounds(TotalPixels(m), m.refresh, 0, 4919 * 4299, 0, 30_000);
  }

  /** A timing short of 30 Hz by less than one clock unit is not at a whole number of hertz either. */
  lemma JustShort(clock: nat, total: nat)
    requires 161 * 46 <= total && 10_000 * clock < 30 * total < 10_000 * clock + 10_000
    ensures (10_000 * clock) % total != 0
  {
    var hertz := 10_000 * clock;
    assert hertz == total * (hertz / total) + hertz % total;
    NoMultiple(clock, total, hertz / total);
  }

  lemma NoMultiple(clock: nat, total: nat, q: nat)
    requires 161 * 46 <= total && 10_000 * clock < 30 * total < 10_000 * clock + 10_000
    ensures total * q != 10_000 * clock
  {
    MultiplesApart(total, q, 30);
    MultiplesApart(total, q, 28);
  }

  /** How fast a mode must be to be covered, in the product of total pixels and rate. */
  function CoveredFrom(total: nat): nat {
    10_000_000 * ((30 * total + 9_999) / 10_000)
  }

  lemma TicksReach(product: nat, total: nat)
    ensures 30 * total <= 10_000 * (product / 10_000_000) <==> CoveredFrom(total) <= product
  {
    var clock, least := product / 10_000_000, (30 * total + 9_999) / 10_000;
    assert 30 * total <= 10_000 * clock <==> least <= clock;
    assert least <= clock <==> 10_000_000 * least <= product;
  }

  /** At 30 Hz or more, the limit covers exactly from that product on. */
  lemma FastCoversIff(total: nat, rate: nat, clock: nat)
    requires 161 * 46 <= total && rate >= 30_000 && clock == Max(1, total * rate / 10_000_000)
    ensures 30 * total <= 10_000 * clock || (10_000 * clock) % total == 0 <==> CoveredFrom(total) <= total * rate
  {
    Scale(total, 30_000, rate);
    assert total * 30_000 / 10_000_000 <= total * rate / 10_000_000;
    assert clock == total * rate / 10_000_000 && 30 * total < 10_000 * clock + 10_000;
    TicksReach(total * rate, total);
    if 10_000 * clock < 30 * total {
      JustShort(clock, total);
    }
  }

  /** Below 30 Hz the timing is below 30 Hz too, so only a whole number of hertz is covered. */
  lemma SlowStaysSlow(total: nat, rate: nat, clock: nat)
    requires 161 * 46 <= total && rate < 30_000 && clock == Max(1, total * rate / 10_000_000)
    ensures 10_000 * clock < 30 * total
  {
    Scale(total, rate, 29_999);
  }

  /** A rate lowered to what the clock field can say is still far above 30 Hz. */
  lemma LoweredIsCovered(m: Mode)
    requires m.Sane() && m.refresh >= 30_000 && Detailed(m).refresh != m.refresh
    ensures Detailed(m).refresh >= 30_000
    ensures CoveredFrom(TotalPixels(m)) <= TotalPixels(m) * Detailed(m).refresh
    ensures CoveredFrom(TotalPixels(m)) <= TotalPixels(m) * m.refresh
  {
    var total, d := TotalPixels(m), Detailed(m);
    TotalBounds(m);
    DetailedFits(m);
    var slower := m.(refresh := Min(m.refresh, 60_000));
    if PixelClock(slower) <= MAX_CLOCK_HZ {
      Scale(total, SLOWEST_COVERED, d.refresh);
    } else {
      QuotientBounds(MAX_CLOCK_HZ * 1000, total);
      LoweredRate(total);
    }
    Scale(total, d.refresh, m.refresh);
  }

  lemma LoweredRate(total: nat)
    requires 161 * 46 <= total <= 4919 * 4299
    ensures var rate := MAX_CLOCK_HZ * 1000 / total; rate >= 30_000 && CoveredFrom(total) <= total * rate
  {
    var rate := MAX_CLOCK_HZ * 1000 / total;
    QuotientBounds(MAX_CLOCK_HZ * 1000, total);
    assert total * 30_000 <= MAX_CLOCK_HZ * 1000 < total * rate + total;
    CancelsAbove(total, 30_000, rate + 1);
    MultiplesApart(total, rate, 29_999);
  }

  /**
   Whether the lower vertical limit covers the timing, read off the mode asked for.
   From 30 Hz on: exactly if total pixels times rate reaches 30 Hz rounded up to
   the clock's unit. Below: exactly if the clock is a whole number of hertz.
   */
  lemma LowerVerticalCoversModeIff(m: Mode)
    requires m.Sane()
    ensures DetailedTiming(m).Total() > 0
    ensures var t, total := DetailedTiming(m), TotalPixels(m);
            total > 0 &&
            (RangeOf(t).minVertical * t.Total() <= t.Hertz() <==>
               if m.refresh >= 30_000 then CoveredFrom(total) <= total * m.refresh
               else 10_000 * Max(1, total * m.refresh / 10_000_000) % total == 0)
  {
    hide DetailedTiming, Detailed, CoveredFrom, RangeOf;
    TotalBounds(m);
    LowerVerticalCoversIff(m);
    ClockInTicks(m);
    var total, clock := TotalPixels(m), DetailedTiming(m).clock10kHz;
    if m.refresh < 30_000 {
      SlowIsDetailed(m);
      SlowStaysSlow(total, m.refresh, clock);
    } else if Detailed(m).refresh == m.refresh {
      FastCoversIff(total, m.refresh, clock);
    } else {
      LoweredIsCovered(m);
      FastCoversIff(total, Detailed(m).refresh, clock);
    }
  }

  lemma ThousandFold(a: nat)
    ensures 10_000_000 * ((a + 9_999) / 10_000) <= 1_000 * a <==> (a + 9_999) / 10_000 * 10_000 <= a
  {
  }

  lemma SharpTicks(total: nat)
    ensures CoveredFrom(total) <= total * 30_000 <==> total * 30 % 10_000 == 0
  {
    ThousandFold(30 * total);
    if total > 0 {
      WholeIsCeiling(30 * total, 10_000);
    }
  }

  /** At 30 Hz sharp it is covered exactly if the 30 Hz clock is a whole number of clock units. */
  lemma CoversAt30Iff(m: Mode)
    requires m.Sane() && m.refresh == 30_000
    ensures DetailedTiming(m).Total() > 0
    ensures var t := DetailedTiming(m);
            RangeOf(t).minVertical * t.Total() <= t.Hertz() <==> TotalPixels(m) * 30 % 10_000 == 0
  {
    hide DetailedTiming, RangeOf, CoveredFrom, TotalPixels;
    LowerVerticalCoversModeIff(m);
    SharpTicks(TotalPixels(m));
  }

  /** From 31.351 Hz on it is always covered, whatever the picture. */
  lemma AlwaysCoversAbove(m: Mode)
    requires m.Sane() && m.refresh >= SLOWEST_COVERED
    ensures DetailedTiming(m).Total() > 0
    ensures var t := DetailedTiming(m); RangeOf(t).minVertical * t.Total() <= t.Hertz()
  {
    hide DetailedTiming, RangeOf;
    TotalBounds(m);
    LowerVerticalCoversModeIff(m);
    Scale(TotalPixels(m), SLOWEST_COVERED, m.refresh);
  }

  function Hd(refresh: U32): Mode {
    Mode(1920, 1080, 600, 340, refresh)
  }

  lemma HdTotal(refresh: U32)
    ensures TotalPixels(Hd(refresh)) == 2_612_736
  {
  }

  /** A plain 1920x1080 at 30 Hz is not covered: the clock is cut to 78.38 MHz, just short, and the limit is 30. */
  lemma HdAt30IsNotCovered()
    ensures Hd(30_000).Sane() && DetailedTiming(Hd(30_000)).Total() > 0
    ensures var t := DetailedTiming(Hd(30_000)); RangeOf(t).minVertical * t.Total() > t.Hertz()
  {
    hide DetailedTiming, RangeOf, TotalPixels;
    HdTotal(30_000);
    CoversAt30Iff(Hd(30_000));
  }

  /** The clock of the detailed timing, in its unit of 10 kHz. */
  function Ticks(m: Mode): nat
    requires m.Sane()
  {
    Max(1, TotalPixels(m) * Detailed(m).refresh / 10_000_000)
  }

  /** Pixels of a whole line. */
  function LineTotal(m: Mode): nat {
    m.width + HorizontalBlanking(m.width)
  }

  /** Below 30 Hz the limit does cover a timing at a whole number of hertz: 10,000 pixels at 29 Hz. */
  lemma SlowCoveredOnce()
    ensures var m := Mode(40, 5, 600, 340, 29_000); m.Sane() && DetailedTiming(m).Total() > 0
    ensures var t := DetailedTiming(Mode(40, 5, 600, 340, 29_000)); RangeOf(t).minVertical * t.Total() <= t.Hertz()
  {
    hide DetailedTiming, RangeOf;
    var m := Mode(40, 5, 600, 340, 29_000);
    assert TotalPixels(m) == 10_000;
    LowerVerticalCoversModeIff(m);
  }

  /**
   The horizontal limits, 30 to 255 kHz, cover the timing exactly when its clock lies between 3 and
   25.5 units a pixel.
   */
  lemma HorizontalCoversIff(m: Mode)
    requires m.Sane()
    ensures DetailedTiming(m).Total() > 0
    ensures var t := DetailedTiming(m); var r, line := RangeOf(t), 1000 * LineTotal(m);
            && (t.Hertz() <= r.maxHorizontal * line <==> 10 * Ticks(m) <= 255 * LineTotal(m))
            && (r.minHorizontal * line <= t.Hertz() <==> 3 * LineTotal(m) <= Ticks(m))
  {
    hide Detailed, DetailedTiming, TotalPixels;
    DetailedTotal(m);
    ClockInTicks(m);
    DetailedWidth(m);
    var t, line := DetailedTiming(m), 1000 * LineTotal(m);
    CeilingBounds(t.Hertz(), line, RangeOf(t).maxHorizontal);
    CeilingBounds(t.Hertz(), line, 255);
  }

  /** Lines of a whole frame. */
  function RowTotal(m: Mode): nat {
    m.height + VerticalBlanking(m.height)
  }

  /** The clock field cannot say even 60 Hz, or what rate below that is asked for. */
  predicate ClockLimited(m: Mode) {
    PixelClock(m.(refresh := Min(m.refresh, 60_000))) > MAX_CLOCK_HZ
  }

  /** Otherwise, the rate that the base block expresses. */
  function ExpressedRate(m: Mode): nat {
    if PixelClock(m) <= MAX_CLOCK_HZ && m.refresh <= MAX_VERTICAL_HZ * 1000 then m.refresh else Min(m.refresh, 60_000)
  }

  lemma ClockLimitedRate(total: nat, line: nat)
    requires 161 * 46 <= total <= 4919 * 4299 && 161 <= line <= 4919
    ensures var rate := MAX_CLOCK_HZ * 1000 / total; var clock := Max(1, total * rate / 10_000_000);
            rate >= 1 && 3 * line <= clock && (10 * clock <= 255 * line <==> line >= 2570)
  {
    QuotientBounds(MAX_CLOCK_HZ * 1000, total);
    var rate := MAX_CLOCK_HZ * 1000 / total;
    LoweredRate(total);
    assert MAX_CLOCK_HZ * 1000 - total < total * rate <= MAX_CLOCK_HZ * 1000;
  }

  lemma TicksAtMost(product: nat, n: nat)
    ensures product / 10_000_000 <= n <==> product < 10_000_000 * (n + 1)
  {
  }

  lemma TenthsAtMost(q: nat, width: nat)
    ensures 10 * q <= 255 * width <==> q <= 255 * width / 10
  {
  }

  lemma TicksAtLeast(product: nat, n: nat)
    ensures n <= product / 10_000_000 <==> 10_000_000 * n <= product
  {
  }

  lemma TicksBetween(product: nat, line: nat)
    requires line >= 161
    ensures var clock := Max(1, product / 10_000_000);
            && (10 * clock <= 255 * line <==> product < 10_000_000 * (255 * line / 10 + 1))
            && (3 * line <= clock <==> 30_000_000 * line <= product)
  {
    var q := product / 10_000_000;
    TicksAtMost(product, 255 * line / 10);
    TenthsAtMost(q, line);
    TicksAtLeast(product, 3 * line);
    assert 255 * line / 10 >= 1 by { TenthsAtMost(1, line); }
    if q == 0 {
      assert product < 10_000_000;
    }
  }

  lemma Regroups(a: nat, b: nat, c: nat)
    ensures a * b * c == a * (b * c) && b * c >= 0
  {
    NonNegative(b, c);
  }

  lemma RateReaches(line: nat, rows: nat, rate: nat)
    requires line >= 161
    ensures line * rows * rate >= 0
    ensures var clock := Max(1, line * rows * rate / 10_000_000);
            && (10 * clock <= 255 * line <==> line * rows * rate < 10_000_000 * (255 * line / 10 + 1))
            && (3 * line <= clock <==> 30_000_000 <= rows * rate)
  {
    Regroups(line, rows, rate);
    NonNegative(line, rows * rate);
    var total := rows * rate;
    TicksBetween(line * total, line);
    MultiplesApart(line, 30_000_000, total);
  }

  lemma LinesTimesRows(m: Mode)
    requires m.Sane()
    ensures TotalPixels(m) == LineTotal(m) * RowTotal(m) && 161 <= LineTotal(m) <= 4919
  {
  }

  /**
   In terms of the mode asked for. If the clock field limits the rate, the lower limit
   covers always and the upper one exactly from 2570 pixels a line on; otherwise both
   depend on lines, rows and the rate expressed, which is the rate asked for unless
   that is over 255 Hz or out of the clock field's reach.
   */
  lemma HorizontalCoversModeIff(m: Mode)
    requires m.Sane()
    ensures DetailedTiming(m).Total() > 0
    ensures var t := DetailedTiming(m); var r, line, rows := RangeOf(t), LineTotal(m), RowTotal(m);
            && (t.Hertz() <= r.maxHorizontal * (1000 * line) <==>
                  if ClockLimited(m) then line >= 2570
                  else line * rows * ExpressedRate(m) < 10_000_000 * (255 * line / 10 + 1))
            && (r.minHorizontal * (1000 * line) <= t.Hertz() <==>
                  ClockLimited(m) || 30_000_000 <= rows * ExpressedRate(m))
  {
    hide DetailedTiming, RangeOf, TotalPixels, LineTotal, RowTotal;
    HorizontalCoversIff(m);
    TotalBounds(m);
    LinesTimesRows(m);
    if ClockLimited(m) {
      LimitedDetailed(m);
      ClockLimitedRate(TotalPixels(m), LineTotal(m));
    } else {
      ExpressedDetailed(m);
      RateReaches(LineTotal(m), RowTotal(m), ExpressedRate(m));
    }
  }

  lemma LimitedDetailed(m: Mode)
    requires m.Sane() && ClockLimited(m)
    ensures TotalPixels(m) >= 161 * 46
    ensures Detailed(m).refresh == Max(1, MAX_CLOCK_HZ * 1000 / TotalPixels(m))
  {
    hide TotalPixels;
    TotalBounds(m);
    SamePixels(m, Min(m.refresh, 60_000));
    Scale(TotalPixels(m), Min(m.refresh, 60_000), m.refresh);
  }

  lemma ExpressedDetailed(m: Mode)
    requires m.Sane() && !ClockLimited(m)
    ensures Detailed(m).refresh == ExpressedRate(m)
  {
  }

  lemma SamePixels(m: Mode, rate: U32)
    ensures TotalPixels(m.(refresh := rate)) == TotalPixels(m)
  {
  }

  lemma DetailedWidth(m: Mode)
    requires m.Sane()
    ensures DetailedTiming(m).hActive + DetailedTiming(m).hBlank == LineTotal(m)
  {
    DetailedFits(m);
  }

  const NARROW := Mode(1, 4095, 600, 340, 255_000)

  lemma NarrowTicks()
    ensures NARROW.Sane() && LineTotal(NARROW) == 161 && Ticks(NARROW) == 17_649
  {
    assert TotalPixels(NARROW) == 692_139;
  }

  lemma HdTicks()
    ensures Hd(10_000).Sane() && LineTotal(Hd(10_000)) == 2304 && Ticks(Hd(10_000)) == 2_612
  {
    SlowIsDetailed(Hd(10_000));
    HdTotal(10_000);
  }

  /** Neither end is always covered: a one-pixel column at 255 Hz runs over, and 1920x1080 at 10 Hz runs under. */
  lemma HorizontalMisses()
    ensures NARROW.Sane() && DetailedTiming(NARROW).Total() > 0
    ensures DetailedTiming(NARROW).Hertz() > RangeOf(DetailedTiming(NARROW)).maxHorizontal * (1000 * LineTotal(NARROW))
    ensures Hd(10_000).Sane() && DetailedTiming(Hd(10_000)).Total() > 0
    ensures var hd, t := Hd(10_000), DetailedTiming(Hd(10_000));
            t.Hertz() < RangeOf(t).minHorizontal * (1000 * LineTotal(hd))
  {
    hide DetailedTiming, RangeOf, Ticks, LineTotal;
    NarrowTicks();
    HdTicks();
    HorizontalCoversIff(NARROW);
    HorizontalCoversIff(Hd(10_000));
  }
}
