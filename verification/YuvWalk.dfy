/** Reading a line of subsampled YUV pixels with moving pointers, against addressing each pixel directly. */
module YuvWalk {
  import opened Arithmetic

  /** Division and remainder as C computes them: towards zero. */
  function CDiv(a: int, b: int): int
    requires b > 0
  {
    if a >= 0 then a / b else -((-a) / b)
  }

  function CMod(a: int, b: int): int
    requires b > 0
  {
    a - b * CDiv(a, b)
  }

  datatype Direction = LeftToRight | RightToLeft | TopToBottom | BottomToTop

  /** One plane of a format whose blocks are single pixels. */
  datatype Plane = Plane(offset: int, pitch: int, charPerBlock: int)

  datatype Format = Format(hsub: int, vsub: int)
  {
    predicate Valid() { hsub > 0 && vsub > 0 }
  }

  function Address(p: Plane, x: int, y: int): int {
    p.offset + y * p.pitch + x * p.charPerBlock
  }

  function StepBytes(p: Plane, direction: Direction): int {
    match direction
    case LeftToRight => p.charPerBlock
    case RightToLeft => -p.charPerBlock
    case TopToBottom => p.pitch
    case BottomToTop => -p.pitch
  }

  function Subsampling(f: Format, direction: Direction): int {
    match direction
    case LeftToRight => f.hsub
    case RightToLeft => f.hsub
    case TopToBottom => f.vsub
    case BottomToTop => f.vsub
  }

  function SubsamplingOffset(direction: Direction, x: int, y: int): int {
    match direction
    case LeftToRight => x
    case RightToLeft => -x - 1
    case TopToBottom => y
    case BottomToTop => -y - 1
  }

  // ---------------------------------------------------------------- direct addressing

  /** The coordinate along the line that a read moves in, after `i` pixels. */
  function Along(direction: Direction, start: int, i: int): int {
    if direction.LeftToRight? || direction.TopToBottom? then start + i else start - i
  }

  predicate Horizontal(direction: Direction) {
    direction.LeftToRight? || direction.RightToLeft?
  }

  function PixelX(direction: Direction, x: int, i: int): int {
    if Horizontal(direction) then Along(direction, x, i) else x
  }

  function PixelY(direction: Direction, y: int, i: int): int {
    if Horizontal(direction) then y else Along(direction, y, i)
  }

  /** Where the chroma of pixel (x, y) lies. */
  function ChromaAddress(p: Plane, f: Format, x: int, y: int): int
    requires f.Valid()
  {
    Address(p, CDiv(x, f.hsub), CDiv(y, f.vsub))
  }

  // ---------------------------------------------------------------- the walk

  /** The chroma coordinate a walk reaches: where C division put the start, moved by the boundaries crossed. */
  function WalkedCoordinate(start: int, now: int, sub: int): int
    requires sub > 0
  {
    CDiv(start, sub) + now / sub - start / sub
  }

  function WalkedChroma(p: Plane, f: Format, direction: Direction, x: int, y: int, i: int): int
    requires f.Valid()
  {
    Address(p, WalkedCoordinate(x, PixelX(direction, x, i), f.hsub),
            WalkedCoordinate(y, PixelY(direction, y, i), f.vsub))
  }

  /** Going up by one, the quotient moves exactly when the new value is a multiple. */
  lemma QuotientStep(a: int, b: int)
    requires b > 0
    ensures (a + 1) / b == a / b + if (a + 1) % b == 0 then 1 else 0
  {
    var q := (a + 1) / b;
    assert a + 1 == b * q + (a + 1) % b;
    if (a + 1) % b == 0 {
      assert b * (q - 1) == b * q - b;
      QuotientUnique(a, b, q - 1);
    } else {
      QuotientUnique(a, b, q);
    }
  }

  lemma NegatedMultiple(a: int, b: int)
    requires b > 0
    ensures (-a) % b == 0 <==> a % b == 0
  {
    if a % b == 0 {
      assert -a == b * (-(a / b));
      QuotientUnique(-a, b, -(a / b));
    }
    if (-a) % b == 0 {
      assert a == b * (-((-a) / b));
      QuotientUnique(a, b, -((-a) / b));
    }
  }

  lemma CModZero(a: int, b: int)
    requires b > 0
    ensures CMod(a, b) == 0 <==> a % b == 0
  {
    NegatedMultiple(a, b);
    if a >= 0 {
      assert a == b * (a / b) + a % b;
    } else {
      assert -a == b * ((-a) / b) + (-a) % b;
      assert b * CDiv(a, b) == -(b * ((-a) / b));
    }
  }

  /** The code's remainder test fires exactly where the line crosses a chroma boundary. */
  lemma TestFindsBoundary(direction: Direction, x: int, y: int, i: int, sub: int)
    requires sub > 0
    ensures var start := if Horizontal(direction) then x else y;
            var here, next := Along(direction, start, i), Along(direction, start, i + 1);
            var sign := if direction.LeftToRight? || direction.TopToBottom? then 1 else -1;
            next / sub - here / sub ==
              if CMod(i + SubsamplingOffset(direction, x, y) + 1, sub) == 0 then sign else 0
  {
    var start := if Horizontal(direction) then x else y;
    var value := i + SubsamplingOffset(direction, x, y) + 1;
    var here := Along(direction, start, i);
    CModZero(value, sub);
    if direction.LeftToRight? || direction.TopToBottom? {
      QuotientStep(here, sub);
      assert value == here + 1;
    } else {
      QuotientStep(here - 1, sub);
      assert value == -here;
      NegatedMultiple(here, sub);
    }
  }

  lemma ScaledStep(p: Plane, x: int, y: int, dx: int, dy: int)
    ensures Address(p, x + dx, y + dy) == Address(p, x, y) + dx * p.charPerBlock + dy * p.pitch
  {
  }

  /** The incremental step lands on the next walked chroma address. */
  lemma ChromaStep(p: Plane, f: Format, direction: Direction, x: int, y: int, i: int)
    requires f.Valid()
    ensures WalkedChroma(p, f, direction, x, y, i + 1) ==
              WalkedChroma(p, f, direction, x, y, i) +
              if CMod(i + SubsamplingOffset(direction, x, y) + 1, Subsampling(f, direction)) == 0
              then StepBytes(p, direction) else 0
  {
    hide CDiv, CMod;
    var sub := Subsampling(f, direction);
    TestFindsBoundary(direction, x, y, i, sub);
    var cx, cy := WalkedCoordinate(x, PixelX(direction, x, i), f.hsub),
                  WalkedCoordinate(y, PixelY(direction, y, i), f.vsub);
    var cx', cy' := WalkedCoordinate(x, PixelX(direction, x, i + 1), f.hsub),
                    WalkedCoordinate(y, PixelY(direction, y, i + 1), f.vsub);
    ScaledStep(p, cx, cy, cx' - cx, cy' - cy);
  }

  lemma LumaStep(p: Plane, direction: Direction, x: int, y: int, i: int)
    ensures Address(p, PixelX(direction, x, i + 1), PixelY(direction, y, i + 1)) ==
              Address(p, PixelX(direction, x, i), PixelY(direction, y, i)) + StepBytes(p, direction)
  {
  }

  // ---------------------------------------------------------------- the walk against direct addressing

  /** C division of this coordinate differs from rounding down. */
  predicate RoundsUp(a: int, sub: int)
    requires sub > 0
  {
    a < 0 && a % sub != 0
  }

  lemma CDivFloor(a: int, sub: int)
    requires sub > 0
    ensures CDiv(a, sub) == a / sub + if RoundsUp(a, sub) then 1 else 0
  {
    if a < 0 {
      var q := (-a) / sub;
      assert -a == sub * q + (-a) % sub;
      NegatedMultiple(a, sub);
      if a % sub == 0 {
        assert a == sub * (-q);
        QuotientUnique(a, sub, -q);
      } else {
        assert sub * (-q - 1) == -(sub * q) - sub;
        QuotientUnique(a, sub, -q - 1);
      }
    }
  }

  /**
   A walked coordinate is the directly divided one exactly if C rounds the start
   and the pixel the same way; so always, when neither is negative.
   */
  lemma WalkedIsDirectIff(start: int, now: int, sub: int)
    requires sub > 0
    ensures WalkedCoordinate(start, now, sub) == CDiv(now, sub) <==> (RoundsUp(start, sub) <==> RoundsUp(now, sub))
  {
    CDivFloor(start, sub);
    CDivFloor(now, sub);
  }

  /** Every pixel of the line has coordinates in the picture. */
  predicate InPicture(direction: Direction, x: int, y: int, count: int) {
    forall i | 0 <= i < count :: PixelX(direction, x, i) >= 0 && PixelY(direction, y, i) >= 0
  }

  lemma WalkIsDirect(p: Plane, f: Format, direction: Direction, x: int, y: int, count: int, i: int)
    requires f.Valid() && InPicture(direction, x, y, count) && 0 <= i < count
    ensures WalkedChroma(p, f, direction, x, y, i) ==
              ChromaAddress(p, f, PixelX(direction, x, i), PixelY(direction, y, i))
  {
    assert PixelX(direction, x, 0) == x && PixelY(direction, y, 0) == y;
    WalkedIsDirectIff(x, PixelX(direction, x, i), f.hsub);
    WalkedIsDirectIff(y, PixelY(direction, y, i), f.vsub);
  }

  // ---------------------------------------------------------------- the line readers

  /** Two planes: luma and interleaved chroma. `convert` reads the pixel at its two addresses. */
  method ReadSemiplanar<Pixel>(luma: Plane, chroma: Plane, f: Format, x: int, y: int, direction: Direction, count: int,
                               convert: (int, int) -> Pixel, out: array<Pixel>)
    requires f.Valid() && count <= out.Length
    modifies out
    ensures forall i | 0 <= i < count ::
              out[i] == convert(Address(luma, PixelX(direction, x, i), PixelY(direction, y, i)),
                                WalkedChroma(chroma, f, direction, x, y, i))
    ensures InPicture(direction, x, y, count) ==> forall i | 0 <= i < count ::
              out[i] == convert(Address(luma, PixelX(direction, x, i), PixelY(direction, y, i)),
                                ChromaAddress(chroma, f, PixelX(direction, x, i), PixelY(direction, y, i)))
    ensures forall i | 0 <= i < out.Length && i >= count :: out[i] == old(out[i])
  {
    hide CDiv, CMod, Address;
    var plane1, plane2 := Address(luma, x, y), ChromaAddress(chroma, f, x, y);
    var step1, step2 := StepBytes(luma, direction), StepBytes(chroma, direction);
    var subsampling, offset := Subsampling(f, direction), SubsamplingOffset(direction, x, y);
    var i := 0;
    while i < count
      invariant 0 <= i && (i <= count || i == 0)
      invariant plane1 == Address(luma, PixelX(direction, x, i), PixelY(direction, y, i))
      invariant plane2 == WalkedChroma(chroma, f, direction, x, y, i)
      invariant forall k | 0 <= k < i ::
                  out[k] == convert(Address(luma, PixelX(direction, x, k), PixelY(direction, y, k)),
                                    WalkedChroma(chroma, f, direction, x, y, k))
      invariant forall k | 0 <= k < out.Length && k >= i :: out[k] == old(out[k])
    {
      out[i] := convert(plane1, plane2);
      LumaStep(luma, direction, x, y, i);
      ChromaStep(chroma, f, direction, x, y, i);
      plane1 := plane1 + step1;
      if CMod(i + offset + 1, subsampling) == 0 {
        plane2 := plane2 + step2;
      }
      i := i + 1;
    }
    if InPicture(direction, x, y, count) {
      forall k | 0 <= k < count
        ensures WalkedChroma(chroma, f, direction, x, y, k) ==
                  ChromaAddress(chroma, f, PixelX(direction, x, k), PixelY(direction, y, k))
      {
        WalkIsDirect(chroma, f, direction, x, y, count, k);
      }
    }
  }

  /** Three planes: luma and one for each chroma channel. */
  method ReadPlanar<Pixel>(luma: Plane, first: Plane, second: Plane, f: Format, x: int, y: int, direction: Direction,
                           count: int, convert: (int, int, int) -> Pixel, out: array<Pixel>)
    requires f.Valid() && count <= out.Length
    modifies out
    ensures forall i | 0 <= i < count ::
              out[i] == convert(Address(luma, PixelX(direction, x, i), PixelY(direction, y, i)),
                                WalkedChroma(first, f, direction, x, y, i), WalkedChroma(second, f, direction, x, y, i))
    ensures InPicture(direction, x, y, count) ==> forall i | 0 <= i < count ::
              out[i] == convert(Address(luma, PixelX(direction, x, i), PixelY(direction, y, i)),
                                ChromaAddress(first, f, PixelX(direction, x, i), PixelY(direction, y, i)),
                                ChromaAddress(second, f, PixelX(direction, x, i), PixelY(direction, y, i)))
    ensures forall i | 0 <= i < out.Length && i >= count :: out[i] == old(out[i])
  {
    hide CDiv, CMod, Address;
    var plane, channel1, channel2 := Address(luma, x, y), ChromaAddress(first, f, x, y), ChromaAddress(second, f, x, y);
    var step, step1, step2 := StepBytes(luma, direction), StepBytes(first, direction), StepBytes(second, direction);
    var subsampling, offset := Subsampling(f, direction), SubsamplingOffset(direction, x, y);
    var i := 0;
    while i < count
      invariant 0 <= i && (i <= count || i == 0)
      invariant plane == Address(luma, PixelX(direction, x, i), PixelY(direction, y, i))
      invariant channel1 == WalkedChroma(first, f, direction, x, y, i)
      invariant channel2 == WalkedChroma(second, f, direction, x, y, i)
      invariant forall k | 0 <= k < i ::
                  out[k] == convert(Address(luma, PixelX(direction, x, k), PixelY(direction, y, k)),
                                    WalkedChroma(first, f, direction, x, y, k),
                                      WalkedChroma(second, f, direction, x, y, k))
      invariant forall k | 0 <= k < out.Length && k >= i :: out[k] == old(out[k])
    {
      out[i] := convert(plane, channel1, channel2);
      LumaStep(luma, direction, x, y, i);
      ChromaStep(first, f, direction, x, y, i);
      ChromaStep(second, f, direction, x, y, i);
      plane := plane + step;
      if CMod(i + offset + 1, subsampling) == 0 {
        channel1, channel2 := channel1 + step1, channel2 + step2;
      }
      i := i + 1;
    }
    if InPicture(direction, x, y, count) {
      forall k | 0 <= k < count
        ensures WalkedChroma(first, f, direction, x, y, k) ==
                  ChromaAddress(first, f, PixelX(direction, x, k), PixelY(direction, y, k))
        ensures WalkedChroma(second, f, direction, x, y, k) ==
                  ChromaAddress(second, f, PixelX(direction, x, k), PixelY(direction, y, k))
      {
        WalkIsDirect(first, f, direction, x, y, count, k);
        WalkIsDirect(second, f, direction, x, y, count, k);
      }
    }
  }
}
