/** Conversion between RGBA and HSLA and blending, over exact reals. */
module Colors {

  datatype Rgba = Rgba(r: real, g: real, b: real, a: real) {
    /** Paints `other` over this color. */
    function Blend(other: Rgba): Rgba {
      if other.a >= 1.0 then other
      else if other.a <= 0.0 then this
      else Rgba(Mix(r, other.r, other.a), Mix(g, other.g, other.a), Mix(b, other.b, other.a), a)
    }
  }

  datatype Hsla = Hsla(h: real, s: real, l: real, a: real) {
    /** Paints `other` over this color by way of RGBA. */
    function Blend(other: Hsla): Hsla {
      if other.a >= 1.0 then other
      else if other.a <= 0.0 then this
      else ToHsla(ToRgba(this).Blend(ToRgba(other)))
    }
  }

  function Mix(below: real, above: real, alpha: real): real {
    below * (1.0 - alpha) + above * alpha
  }

  // ---------- Arithmetic on reals ----------

  function Abs(x: real): real {
    if x < 0.0 then -x else x
  }

  function Max(x: real, y: real): real {
    if x >= y then x else y
  }

  function Min(x: real, y: real): real {
    if x <= y then x else y
  }

  function Clamp(x: real): real {
    if x < 0.0 then 0.0 else if x > 1.0 then 1.0 else x
  }

  /** Remainder of division by 2 that truncates toward zero. */
  function Rem2(x: real): real {
    if x >= 0.0 then x - 2.0 * (x / 2.0).Floor as real
    else -(-x - 2.0 * (-x / 2.0).Floor as real)
  }

  /** Euclidean remainder of division by 6, in `[0, 6)`. */
  function RemEuclid6(x: real): real {
    x - 6.0 * (x / 6.0).Floor as real
  }

  // ---------- Conversions ----------

  /** Chroma of a color with this saturation and lightness. */
  function Chroma(s: real, l: real): real {
    (1.0 - Abs(2.0 * l - 1.0)) * s
  }

  /** The second largest component, above the smallest, for a hue in sixths of the circle. */
  function Second(c: real, h6: real): real {
    c * (1.0 - Abs(Rem2(h6) - 1.0))
  }

  /** Distributes the three levels over the channels by the sector of the hue. */
  function BySector(sector: int, cm: real, xm: real, m: real): (real, real, real) {
    match sector
    case 0 => (cm, xm, m)
    case 6 => (cm, xm, m)
    case 1 => (xm, cm, m)
    case 2 => (m, cm, xm)
    case 3 => (m, xm, cm)
    case 4 => (xm, m, cm)
    case _ => (cm, m, xm)
  }

  /** The channels for a hue in sixths, a chroma and the smallest channel. */
  function Channels(h6: real, c: real, m: real): (real, real, real) {
    BySector(h6.Floor, c + m, Second(c, h6) + m, m)
  }

  function ToRgba(color: Hsla): Rgba {
    var c := Chroma(color.s, color.l);
    var (r, g, b) := Channels(color.h * 6.0, c, color.l - c / 2.0);
    Rgba(Clamp(r), Clamp(g), Clamp(b), color.a)
  }

  function Top(color: Rgba): real {
    Max(color.r, Max(color.g, color.b))
  }

  function Bottom(color: Rgba): real {
    Min(color.r, Min(color.g, color.b))
  }

  function Saturation(delta: real, l: real): real {
    if l == 0.0 || l == 1.0 then 0.0
    else if l < 0.5 then delta / (2.0 * l)
    else delta / (2.0 - 2.0 * l)
  }

  /** The hue in sixths of the circle. */
  function Hue6(color: Rgba): real {
    var max, delta := Top(color), Top(color) - Bottom(color);
    if delta == 0.0 then 0.0
    else if max == color.r then RemEuclid6((color.g - color.b) / delta)
    else if max == color.g then (color.b - color.r) / delta + 2.0
    else (color.r - color.g) / delta + 4.0
  }

  function ToHsla(color: Rgba): Hsla {
    var max, min := Top(color), Bottom(color);
    var l := (max + min) / 2.0;
    Hsla(Hue6(color) / 6.0, Saturation(max - min, l), l, color.a)
  }

  // ---------- The unit cube ----------

  predicate InUnit(x: real) {
    0.0 <= x <= 1.0
  }

  /** All channels in range; any alpha. */
  predicate InCube(color: Rgba) {
    InUnit(color.r) && InUnit(color.g) && InUnit(color.b)
  }

  lemma QuotientTimes(a: real, d: real)
    requires d != 0.0
    ensures d * (a / d) == a
  {
  }

  lemma QuotientBounds(a: real, d: real)
    requires d > 0.0 && -d <= a <= d
    ensures -1.0 <= a / d <= 1.0
    ensures a / d < 0.0 <==> a < 0.0
    ensures a / d == 1.0 <==> a == d
    ensures a / d == -1.0 <==> a == -d
  {
    QuotientTimes(a, d);
  }

  /** Saturation is chosen so that the chroma is the spread of the channels. */
  lemma ChromaIsSpread(max: real, min: real)
    requires 0.0 <= min <= max <= 1.0
    ensures var l := (max + min) / 2.0; Chroma(Saturation(max - min, l), l) == max - min
  {
    var l, delta := (max + min) / 2.0, max - min;
    if l != 0.0 && l != 1.0 {
      if l < 0.5 {
        QuotientTimes(delta, 2.0 * l);
      } else {
        QuotientTimes(delta, 2.0 - 2.0 * l);
      }
    }
  }

  lemma FloorIs(x: real, n: int)
    requires n as real <= x < n as real + 1.0
    ensures x.Floor == n
  {
  }

  /** The remainder by 2 on the range of hues. */
  lemma Rem2Is(h6: real)
    requires 0.0 <= h6 < 6.0
    ensures Rem2(h6) == if h6 < 2.0 then h6 else if h6 < 4.0 then h6 - 2.0 else h6 - 4.0
  {
    FloorIs(h6 / 2.0, if h6 < 2.0 then 0 else if h6 < 4.0 then 1 else 2);
  }

  lemma RemEuclid6Is(q: real)
    requires -1.0 <= q <= 1.0
    ensures RemEuclid6(q) == if q < 0.0 then q + 6.0 else q
  {
    FloorIs(q / 6.0, if q < 0.0 then -1 else 0);
  }

  /** In the second half of a pair of sectors the second channel falls... */
  lemma SecondFalling(delta: real, h6: real, q: real)
    requires Rem2(h6) == q + 2.0 && -1.0 <= q < 0.0
    ensures Second(delta, h6) == -(delta * q)
  {
    assert 1.0 - Abs(Rem2(h6) - 1.0) == -q;
  }

  /** ... and in the first half it rises. */
  lemma SecondRising(delta: real, h6: real, q: real)
    requires 0.0 <= q <= 1.0 && Rem2(h6) == q
    ensures Second(delta, h6) == delta * q
  {
    assert 1.0 - Abs(Rem2(h6) - 1.0) == q;
  }

  lemma RedHue(r: real, g: real, b: real, delta: real, min: real)
    requires delta > 0.0 && r == min + delta && min <= g <= r && min <= b <= r && (g == min || b == min)
    ensures Channels(RemEuclid6((g - b) / delta), delta, min) == (r, g, b)
  {
    var q := (g - b) / delta;
    QuotientBounds(g - b, delta);
    QuotientTimes(g - b, delta);
    RemEuclid6Is(q);
    var h6 := RemEuclid6(q);
    Rem2Is(h6);
    FloorIs(h6, if q < 0.0 then 5 else if q < 1.0 then 0 else 1);
    if q < 0.0 {
      SecondFalling(delta, h6, q);
    } else {
      SecondRising(delta, h6, q);
    }
  }

  lemma GreenHue(r: real, g: real, b: real, delta: real, min: real)
    requires delta > 0.0 && g == min + delta && min <= r < g && min <= b <= g && (r == min || b == min)
    ensures Channels((b - r) / delta + 2.0, delta, min) == (r, g, b)
  {
    var q := (b - r) / delta;
    QuotientBounds(b - r, delta);
    QuotientTimes(b - r, delta);
    var h6 := q + 2.0;
    Rem2Is(h6);
    FloorIs(h6, if q < 0.0 then 1 else if q < 1.0 then 2 else 3);
    if q < 0.0 {
      SecondFalling(delta, h6, q);
    } else {
      SecondRising(delta, h6, q);
    }
  }

  lemma BlueHue(r: real, g: real, b: real, delta: real, min: real)
    requires delta > 0.0 && b == min + delta && min <= r < b && min <= g < b && (r == min || g == min)
    ensures Channels((r - g) / delta + 4.0, delta, min) == (r, g, b)
  {
    var q := (r - g) / delta;
    QuotientBounds(r - g, delta);
    QuotientTimes(r - g, delta);
    var h6 := q + 4.0;
    Rem2Is(h6);
    FloorIs(h6, if q < 0.0 then 3 else 4);
    if q < 0.0 {
      SecondFalling(delta, h6, q);
    } else {
      SecondRising(delta, h6, q);
    }
  }

  /** The hue leads back to the channels, in each sector and on the borders between sectors. */
  lemma HueLeadsBack(color: Rgba)
    requires InCube(color)
    ensures Channels(Hue6(color), Top(color) - Bottom(color), Bottom(color)) == (color.r, color.g, color.b)
  {
    if Top(color) == Bottom(color) {
      GrayHue(Bottom(color));
    } else if Top(color) == color.r {
      RedHue(color.r, color.g, color.b, Top(color) - Bottom(color), Bottom(color));
    } else if Top(color) == color.g {
      GreenHue(color.r, color.g, color.b, Top(color) - Bottom(color), Bottom(color));
    } else {
      BlueHue(color.r, color.g, color.b, Top(color) - Bottom(color), Bottom(color));
    }
  }

  lemma GrayHue(level: real)
    ensures Channels(0.0, 0.0, level) == (level, level, level)
  {
  }

  /** RGBA to HSLA and back is the identity on every color whose channels are in range. */
  lemma RoundTrip(color: Rgba)
    requires InCube(color)
    ensures ToRgba(ToHsla(color)) == color
  {
    ChromaIsSpread(Top(color), Bottom(color));
    HueLeadsBack(color);
    assert (Hue6(color) / 6.0) * 6.0 == Hue6(color);
  }

  lemma MixInUnit(below: real, above: real, alpha: real)
    requires InUnit(below) && InUnit(above) && InUnit(alpha)
    ensures InUnit(Mix(below, above, alpha))
  {
    var p, q := below * (1.0 - alpha), above * alpha;
    Scaled(below, 1.0 - alpha, p);
    Scaled(above, alpha, q);
    SumInUnit(p, q, alpha);
  }

  lemma SumInUnit(p: real, q: real, alpha: real)
    requires 0.0 <= p <= 1.0 - alpha && 0.0 <= q <= alpha
    ensures InUnit(p + q)
  {
  }

  lemma Scaled(x: real, w: real, product: real)
    requires InUnit(x) && w >= 0.0 && product == x * w
    ensures 0.0 <= product <= w
    ensures 0.0 < x && 0.0 < w ==> 0.0 < product
  {
    var rest := (1.0 - x) * w;
    assert rest == w - product;
    NotNegative(1.0 - x, w, rest);
    NotNegative(x, w, product);
  }

  lemma NotNegative(x: real, w: real, product: real)
    requires 0.0 <= x && 0.0 <= w && product == x * w
    ensures 0.0 <= product
    ensures 0.0 < x && 0.0 < w ==> 0.0 < product
  {
  }

  lemma Cancel(t: real, d: real)
    requires d != 0.0
    ensures (t * d) / d == t
  {
    var u := (t * d) / d;
    QuotientTimes(t * d, d);
    assert d * (u - t) == 0.0;
  }

  // ---------- The other way round ----------

  /**
   * The HSLA colors that stand for themselves: grays have no hue, and black and white no saturation.
   */
  predicate Canonical(color: Hsla) {
    && 0.0 <= color.h < 1.0 && InUnit(color.s) && InUnit(color.l)
    && (color.s == 0.0 ==> color.h == 0.0)
    && (color.l == 0.0 || color.l == 1.0 ==> color.s == 0.0)
  }

  /** The saturation of a spread that is not zero. */
  lemma SaturationInUnit(max: real, min: real)
    requires 0.0 <= min < max <= 1.0
    ensures var l := (max + min) / 2.0; 0.0 < l < 1.0 && 0.0 < Saturation(max - min, l) <= 1.0
  {
    var l, delta := (max + min) / 2.0, max - min;
    if l < 0.5 {
      QuotientBounds(delta, 2.0 * l);
    } else {
      QuotientBounds(delta, 2.0 - 2.0 * l);
    }
    ChromaIsSpread(max, min);
  }

  lemma NoSaturation(l: real)
    ensures Saturation(0.0, l) == 0.0
  {
    if l != 0.0 && l != 1.0 {
      if l < 0.5 {
        Cancel(0.0, 2.0 * l);
      } else {
        Cancel(0.0, 2.0 - 2.0 * l);
      }
    }
  }

  lemma Hue6InCircle(color: Rgba)
    ensures 0.0 <= Hue6(color) < 6.0
  {
    var delta := Top(color) - Bottom(color);
    if delta != 0.0 {
      if Top(color) == color.r {
        QuotientBounds(color.g - color.b, delta);
        RemEuclid6Is((color.g - color.b) / delta);
      } else if Top(color) == color.g {
        QuotientBounds(color.b - color.r, delta);
      } else {
        QuotientBounds(color.r - color.g, delta);
      }
    }
  }

  /** Conversion to HSLA gives canonical colors only. */
  lemma ToHslaCanonical(color: Rgba)
    requires InCube(color)
    ensures Canonical(ToHsla(color))
  {
    Hue6InCircle(color);
    if Top(color) == Bottom(color) {
      NoSaturation((Top(color) + Bottom(color)) / 2.0);
    } else {
      SaturationInUnit(Top(color), Bottom(color));
    }
  }

  /** Chroma and smallest channel of a canonical color, and the saturation they lead back to. */
  lemma ChromaFits(s: real, l: real)
    requires 0.0 < s <= 1.0 && 0.0 < l < 1.0
    ensures var c := Chroma(s, l);
            && 0.0 < c && 0.0 <= l - c / 2.0 && l + c / 2.0 <= 1.0
            && Saturation(c, l) == s
  {
    var width := 1.0 - Abs(2.0 * l - 1.0);
    assert 0.0 < width <= 1.0;
    var c := width * s;
    Scaled(s, width, c);
    Cancel(s, width);
    assert c == s * width;
    assert Saturation(c, l) == c / width by {
      assert width == if l < 0.5 then 2.0 * l else 2.0 - 2.0 * l;
    }
  }

  lemma SecondFits(c: real, h6: real)
    requires 0.0 < c && 0.0 <= h6 < 6.0
    ensures 0.0 <= Second(c, h6) <= c
    ensures Second(c, h6) / c == 1.0 - Abs(Rem2(h6) - 1.0)
  {
    Rem2Is(h6);
    var t := 1.0 - Abs(Rem2(h6) - 1.0);
    Scaled(t, c, t * c);
    assert t * c == c * t == Second(c, h6);
    Cancel(t, c);
  }

  /** The hue comes back from the channels it leads to, whatever the sector. */
  lemma ChannelsLeadBack(h6: real, c: real, m: real, a: real)
    requires 0.0 < c && 0.0 <= h6 < 6.0
    ensures var (r, g, b) := Channels(h6, c, m); var color := Rgba(r, g, b, a);
            && Top(color) == c + m && Bottom(color) == m && Hue6(color) == h6
  {
    var x := Second(c, h6);
    SecondFits(c, h6);
    Rem2Is(h6);
    SectorIs(h6);
    if h6 < 2.0 {
      UpperThird(h6, c, x, m, a);
    } else if h6 < 4.0 {
      MiddleThird(h6, c, x, m, a);
    } else {
      LowerThird(h6, c, x, m, a);
    }
  }

  lemma SectorIs(h6: real)
    requires 0.0 <= h6 < 6.0
    ensures h6.Floor == if h6 < 1.0 then 0 else if h6 < 2.0 then 1 else if h6 < 3.0 then 2
                        else if h6 < 4.0 then 3 else if h6 < 5.0 then 4 else 5
  {
  }

  lemma Negated(x: real, c: real)
    requires c != 0.0
    ensures (-x) / c == -(x / c)
  {
    QuotientTimes(x, c);
    QuotientTimes(-x, c);
    assert c * (-(x / c)) == -x;
  }

  lemma UpperThird(h6: real, c: real, x: real, m: real, a: real)
    requires 0.0 < c && 0.0 <= x <= c && 0.0 <= h6 < 2.0
    requires x / c == 1.0 - Abs(h6 - 1.0)
    ensures h6 < 1.0 ==> Hue6(Rgba(c + m, x + m, m, a)) == h6
    ensures 1.0 <= h6 ==> Hue6(Rgba(x + m, c + m, m, a)) == h6
  {
    QuotientBounds(x, c);
    Negated(x, c);
    if h6 < 1.0 {
      var color := Rgba(c + m, x + m, m, a);
      assert color.g - color.b == x && Top(color) - Bottom(color) == c;
      RemEuclid6Is(x / c);
    } else {
      var color := Rgba(x + m, c + m, m, a);
      assert color.b - color.r == -x && color.g - color.b == c && Top(color) - Bottom(color) == c;
      RemEuclid6Is(1.0);
    }
  }

  lemma MiddleThird(h6: real, c: real, x: real, m: real, a: real)
    requires 0.0 < c && 0.0 <= x <= c && 2.0 <= h6 < 4.0
    requires x / c == 1.0 - Abs(h6 - 3.0)
    ensures h6 < 3.0 ==> Hue6(Rgba(m, c + m, x + m, a)) == h6
    ensures 3.0 <= h6 ==> Hue6(Rgba(m, x + m, c + m, a)) == h6
  {
    QuotientBounds(x, c);
    Negated(x, c);
    if h6 < 3.0 {
      var color := Rgba(m, c + m, x + m, a);
      assert color.b - color.r == x && Top(color) - Bottom(color) == c;
    } else {
      var color := Rgba(m, x + m, c + m, a);
      assert color.r - color.g == -x && color.b - color.r == c && Top(color) - Bottom(color) == c;
    }
  }

  lemma LowerThird(h6: real, c: real, x: real, m: real, a: real)
    requires 0.0 < c && 0.0 <= x <= c && 4.0 <= h6 < 6.0
    requires x / c == 1.0 - Abs(h6 - 5.0)
    ensures h6 < 5.0 ==> Hue6(Rgba(x + m, m, c + m, a)) == h6
    ensures 5.0 <= h6 ==> Hue6(Rgba(c + m, m, x + m, a)) == h6
  {
    QuotientBounds(x, c);
    Negated(x, c);
    if h6 < 5.0 {
      var color := Rgba(x + m, m, c + m, a);
      assert color.r - color.g == x && Top(color) - Bottom(color) == c;
    } else {
      var color := Rgba(c + m, m, x + m, a);
      assert color.g - color.b == -x && Top(color) - Bottom(color) == c;
      RemEuclid6Is(-(x / c));
    }
  }

  /** No channel of a canonical color needs clamping. */
  lemma NoClamping(color: Hsla)
    requires Canonical(color) && color.s > 0.0
    ensures var c := Chroma(color.s, color.l);
            var (r, g, b) := Channels(color.h * 6.0, c, color.l - c / 2.0);
            ToRgba(color) == Rgba(r, g, b, color.a)
  {
    var c, h6 := Chroma(color.s, color.l), color.h * 6.0;
    ChromaFits(color.s, color.l);
    SecondFits(c, h6);
    InRangeBySector(h6.Floor, c + (color.l - c / 2.0), Second(c, h6) + (color.l - c / 2.0), color.l - c / 2.0);
  }

  lemma InRangeBySector(sector: int, cm: real, xm: real, m: real)
    requires InUnit(cm) && InUnit(xm) && InUnit(m)
    ensures var (r, g, b) := BySector(sector, cm, xm, m); InUnit(r) && InUnit(g) && InUnit(b)
  {
  }

  lemma GrayComesBack(color: Hsla)
    requires Canonical(color) && color.s == 0.0
    ensures ToHsla(ToRgba(color)) == color
  {
    NoChroma(color.s, color.l);
    GrayHue(color.l);
    NoSaturation(color.l);
  }

  lemma NoChroma(s: real, l: real)
    requires s == 0.0
    ensures Chroma(s, l) == 0.0
  {
  }

  lemma ColorComesBack(color: Hsla)
    requires Canonical(color) && color.s > 0.0
    ensures ToHsla(ToRgba(color)) == color
  {
    var c := Chroma(color.s, color.l);
    NoClamping(color);
    ChromaFits(color.s, color.l);
    ChannelsLeadBack(color.h * 6.0, c, color.l - c / 2.0, color.a);
    Assembled(ToRgba(color), color, c);
  }

  lemma Assembled(from: Rgba, color: Hsla, c: real)
    requires Top(from) == color.l + c / 2.0 && Bottom(from) == color.l - c / 2.0
    requires Hue6(from) == color.h * 6.0 && Saturation(c, color.l) == color.s && from.a == color.a
    ensures ToHsla(from) == color
  {
    assert (color.h * 6.0) / 6.0 == color.h;
  }

  /** HSLA to RGBA and back is the identity on exactly the canonical colors. */
  lemma RoundTripFromHsla(color: Hsla)
    ensures ToHsla(ToRgba(color)) == color <==> Canonical(color)
  {
    if Canonical(color) {
      if color.s == 0.0 {
        GrayComesBack(color);
      } else {
        ColorComesBack(color);
      }
    } else {
      ToHslaCanonical(ToRgba(color));
    }
  }

  /** Blending commutes with conversion, for all colors, in range or not. */
  lemma BlendCommutes(below: Hsla, above: Hsla)
    ensures ToRgba(below.Blend(above)) == ToRgba(below).Blend(ToRgba(above))
  {
    if 0.0 < above.a < 1.0 {
      var p, q := ToRgba(below), ToRgba(above);
      MixInUnit(p.r, q.r, above.a);
      MixInUnit(p.g, q.g, above.a);
      MixInUnit(p.b, q.b, above.a);
      RoundTrip(p.Blend(q));
    }
  }

  // ---------- The formula of CSS Color Module Level 4, section 7.1 ----------

  /** One channel of an HSLA color as that section computes it; `n` is 0 for red, 8 for green and 4 for blue. */
  function CssChannel(h: real, s: real, l: real, n: real): real {
    var turned := n + 12.0 * h;
    var k := if turned >= 12.0 then turned - 12.0 else turned;
    l - s * Min(l, 1.0 - l) * Max(-1.0, Min(k - 3.0, Min(9.0 - k, 1.0)))
  }

  /** Half of the chroma: the saturation's share in the distance to the nearer of black and white. */
  function HalfChroma(s: real, l: real): real {
    s * Min(l, 1.0 - l)
  }

  lemma HalfChromaFits(s: real, l: real)
    requires InUnit(s) && InUnit(l)
    ensures Chroma(s, l) == 2.0 * HalfChroma(s, l)
    ensures 0.0 <= HalfChroma(s, l) <= l && HalfChroma(s, l) <= 1.0 - l
  {
    var w := Min(l, 1.0 - l);
    assert 1.0 - Abs(2.0 * l - 1.0) == 2.0 * w;
    assert (2.0 * w) * s == 2.0 * (s * w);
    Scaled(s, w, s * w);
  }

  /** A channel of the formula whose bounded term is `u`. */
  lemma CssTerm(h: real, s: real, l: real, n: real, u: real)
    requires var turned := n + 12.0 * h; var k := if turned >= 12.0 then turned - 12.0 else turned;
             Max(-1.0, Min(k - 3.0, Min(9.0 - k, 1.0))) == u
    ensures CssChannel(h, s, l, n) == l - HalfChroma(s, l) * u
  {
  }

  /** Between the ends: the second component above the smallest. */
  lemma CssMiddle(h: real, s: real, l: real, n: real, u: real, x: real)
    requires var turned := n + 12.0 * h; var k := if turned >= 12.0 then turned - 12.0 else turned;
             Max(-1.0, Min(k - 3.0, Min(9.0 - k, 1.0))) == u
    requires u == 1.0 - 2.0 * (1.0 - Abs(Rem2(h * 6.0) - 1.0)) && x == Second(2.0 * HalfChroma(s, l), h * 6.0)
    ensures CssChannel(h, s, l, n) == x + (l - HalfChroma(s, l))
  {
    CssTerm(h, s, l, n, u);
    var a, t := HalfChroma(s, l), 1.0 - Abs(Rem2(h * 6.0) - 1.0);
    TwoWays(a, t, u, (2.0 * a) * t, a * u);
  }

  lemma TwoWays(a: real, t: real, u: real, x: real, y: real)
    requires u == 1.0 - 2.0 * t && x == (2.0 * a) * t && y == a * u
    ensures -y == x - a
  {
    assert a * u == a - 2.0 * (a * t);
  }

  lemma CssEnds(h: real, s: real, l: real, n: real, u: real)
    requires var turned := n + 12.0 * h; var k := if turned >= 12.0 then turned - 12.0 else turned;
             Max(-1.0, Min(k - 3.0, Min(9.0 - k, 1.0))) == u
    ensures u == -1.0 ==> CssChannel(h, s, l, n) == l + HalfChroma(s, l)
    ensures u == 1.0 ==> CssChannel(h, s, l, n) == l - HalfChroma(s, l)
  {
    CssTerm(h, s, l, n, u);
  }

  /** Which channel is at which level, sector by sector. */
  lemma CssBySector(h: real, s: real, l: real, x: real)
    requires 0.0 <= h < 1.0 && x == Second(2.0 * HalfChroma(s, l), h * 6.0)
    ensures BySector((h * 6.0).Floor, l + HalfChroma(s, l), x + (l - HalfChroma(s, l)), l - HalfChroma(s, l))
            == (CssChannel(h, s, l, 0.0), CssChannel(h, s, l, 8.0), CssChannel(h, s, l, 4.0))
  {
    var h6 := h * 6.0;
    Rem2Is(h6);
    SectorIs(h6);
    var u := 1.0 - 2.0 * (1.0 - Abs(Rem2(h6) - 1.0));
    match h6.Floor
    case 0 => CssEnds(h, s, l, 0.0, -1.0); CssMiddle(h, s, l, 8.0, u, x); CssEnds(h, s, l, 4.0, 1.0);
    case 1 => CssMiddle(h, s, l, 0.0, u, x); CssEnds(h, s, l, 8.0, -1.0); CssEnds(h, s, l, 4.0, 1.0);
    case 2 => CssEnds(h, s, l, 0.0, 1.0); CssEnds(h, s, l, 8.0, -1.0); CssMiddle(h, s, l, 4.0, u, x);
    case 3 => CssEnds(h, s, l, 0.0, 1.0); CssMiddle(h, s, l, 8.0, u, x); CssEnds(h, s, l, 4.0, -1.0);
    case 4 => CssMiddle(h, s, l, 0.0, u, x); CssEnds(h, s, l, 8.0, 1.0); CssEnds(h, s, l, 4.0, -1.0);
    case _ => CssEnds(h, s, l, 0.0, -1.0); CssEnds(h, s, l, 8.0, 1.0); CssMiddle(h, s, l, 4.0, u, x);
  }

  lemma SecondBetween(c: real, h6: real)
    requires 0.0 <= c && 0.0 <= h6 < 6.0
    ensures 0.0 <= Second(c, h6) <= c
  {
    Rem2Is(h6);
    var t := 1.0 - Abs(Rem2(h6) - 1.0);
    Scaled(t, c, t * c);
    assert t * c == c * t;
  }

  /** An in-range color needs no clamping, and its channels are the levels distributed by the sector. */
  lemma InRangeChannels(color: Hsla, x: real)
    requires 0.0 <= color.h < 1.0 && InUnit(color.s) && InUnit(color.l)
    requires x == Second(2.0 * HalfChroma(color.s, color.l), color.h * 6.0)
    ensures var a := HalfChroma(color.s, color.l);
            var (r, g, b) := BySector((color.h * 6.0).Floor, color.l + a, x + (color.l - a), color.l - a);
            && ToRgba(color) == Rgba(r, g, b, color.a)
            && 0.0 <= a && 0.0 <= x <= 2.0 * a
  {
    HalfChromaFits(color.s, color.l);
    var a := HalfChroma(color.s, color.l);
    SecondBetween(2.0 * a, color.h * 6.0);
    LevelsFit(color.l, a, x);
    InRangeBySector((color.h * 6.0).Floor, color.l + a, x + (color.l - a), color.l - a);
  }

  lemma LevelsFit(l: real, a: real, x: real)
    requires 0.0 <= a <= l && a <= 1.0 - l && 0.0 <= x <= 2.0 * a
    ensures InUnit(l + a) && InUnit(x + (l - a)) && InUnit(l - a)
    ensures 2.0 * a + (l - (2.0 * a) / 2.0) == l + a && l - (2.0 * a) / 2.0 == l - a
  {
  }

  function CssRgba(color: Hsla): Rgba {
    Rgba(CssChannel(color.h, color.s, color.l, 0.0), CssChannel(color.h, color.s, color.l, 8.0),
         CssChannel(color.h, color.s, color.l, 4.0), color.a)
  }

  /** For every color in range the conversion gives what the formula of the standard gives; a full turn of the
      hue is no turn. */
  lemma AgreesWithCss(color: Hsla)
    requires 0.0 <= color.h <= 1.0 && InUnit(color.s) && InUnit(color.l)
    ensures ToRgba(color) == CssRgba(color)
  {
    if color.h == 1.0 {
      FullTurn(color);
      CssFullTurn(color);
      AgreesBelowFullTurn(color.(h := 0.0));
    } else {
      AgreesBelowFullTurn(color);
    }
  }

  lemma CssFullTurn(color: Hsla)
    requires color.h == 1.0
    ensures CssRgba(color) == CssRgba(color.(h := 0.0))
  {
  }

  lemma AgreesBelowFullTurn(color: Hsla)
    requires 0.0 <= color.h < 1.0 && InUnit(color.s) && InUnit(color.l)
    ensures ToRgba(color) == CssRgba(color)
  {
    var x := Second(2.0 * HalfChroma(color.s, color.l), color.h * 6.0);
    InRangeChannels(color, x);
    CssBySector(color.h, color.s, color.l, x);
  }

  lemma FullTurn(color: Hsla)
    requires color.h == 1.0
    ensures ToRgba(color) == ToRgba(color.(h := 0.0))
  {
    FloorIs(3.0, 3);
    assert Rem2(6.0) == 0.0 == Rem2(0.0);
  }

  /** Lightness is the middle between the largest and the smallest channel, and saturation the share that their
      distance from it has in the largest possible one. */
  lemma SpreadIsSaturation(color: Hsla)
    requires 0.0 <= color.h < 1.0 && InUnit(color.s) && InUnit(color.l)
    ensures Top(ToRgba(color)) == color.l + HalfChroma(color.s, color.l)
    ensures Bottom(ToRgba(color)) == color.l - HalfChroma(color.s, color.l)
  {
    var x := Second(2.0 * HalfChroma(color.s, color.l), color.h * 6.0);
    InRangeChannels(color, x);
    EndsBySector(ToRgba(color), (color.h * 6.0).Floor, color.l, HalfChroma(color.s, color.l), x);
  }

  lemma EndsBySector(color: Rgba, sector: int, l: real, a: real, x: real)
    requires 0.0 <= a && 0.0 <= x <= 2.0 * a
    requires (color.r, color.g, color.b) == BySector(sector, l + a, x + (l - a), l - a)
    ensures Top(color) == l + a && Bottom(color) == l - a
  {
  }

  // ---------- What blending does ----------

  /** The weight of the color painted over another one. */
  function Weight(alpha: real): real {
    if alpha >= 1.0 then 1.0 else if alpha <= 0.0 then 0.0 else alpha
  }

  lemma MixMoves(below: real, above: real, alpha: real)
    ensures Mix(below, above, alpha) - below == alpha * (above - below)
  {
    assert below * (1.0 - alpha) == below - below * alpha;
    assert alpha * (above - below) == above * alpha - below * alpha;
  }

  ghost predicate IsBlend(blended: Rgba, below: Rgba, above: Rgba) {
    && Moved(below.r, above.r, Weight(above.a), blended.r)
    && Moved(below.g, above.g, Weight(above.a), blended.g)
    && Moved(below.b, above.b, Weight(above.a), blended.b)
    && blended.a == if above.a >= 1.0 then above.a else below.a
  }

  ghost predicate Moved(from: real, to: real, weight: real, after: real) {
    after - from == weight * (to - from)
  }

  /** Each channel moves toward the color on top by the share that its alpha says. The alpha of the result is
      that of the color below, unless the one on top is opaque. */
  lemma BlendMoves(below: Rgba, above: Rgba)
    ensures IsBlend(below.Blend(above), below, above)
  {
    MixMoves(below.r, above.r, above.a);
    MixMoves(below.g, above.g, above.a);
    MixMoves(below.b, above.b, above.a);
  }

  lemma MixTwice(below: real, above: real, p: real, q: real)
    ensures Mix(Mix(below, above, p), above, q) == Mix(below, above, p + q - p * q)
  {
    var d, once, w := above - below, Mix(below, above, p), p + q - p * q;
    MixMoves(below, above, p);
    MixMoves(once, above, q);
    MixMoves(below, above, w);
    assert above - once == d - p * d;
    assert q * (d - p * d) == q * d - (p * q) * d by {
      assert q * (p * d) == (p * q) * d;
    }
    assert w * d == p * d + q * d - (p * q) * d;
  }

  lemma BothWeights(p: real, q: real)
    requires InUnit(p) && InUnit(q)
    ensures InUnit(p + q - p * q)
    ensures p + q - p * q == 1.0 <==> p == 1.0 || q == 1.0
    ensures p + q - p * q == 0.0 <==> p == 0.0 && q == 0.0
  {
    var rest := (1.0 - p) * (1.0 - q);
    assert rest == 1.0 - (p + q - p * q);
    Scaled(1.0 - p, 1.0 - q, rest);
  }

  /** Painting a color twice is painting it once, with what both coats hide together. */
  lemma PaintedTwice(below: Rgba, color: Rgba, p: real, q: real)
    requires InUnit(p) && InUnit(q)
    ensures below.Blend(color.(a := p)).Blend(color.(a := q)) == below.Blend(color.(a := p + q - p * q))
  {
    BothWeights(p, q);
    MixTwice(below.r, color.r, p, q);
    MixTwice(below.g, color.g, p, q);
    MixTwice(below.b, color.b, p, q);
    if p == 1.0 {
      MixMoves(color.r, color.r, q);
      MixMoves(color.g, color.g, q);
      MixMoves(color.b, color.b, q);
    }
  }

  /** The same of HSLA: what is moved is the color it stands for. */
  lemma HslaBlendMoves(below: Hsla, above: Hsla)
    ensures IsBlend(ToRgba(below.Blend(above)), ToRgba(below), ToRgba(above))
    ensures above.a >= 1.0 ==> below.Blend(above) == above
    ensures above.a <= 0.0 ==> below.Blend(above) == below
  {
    BlendCommutes(below, above);
    BlendMoves(ToRgba(below), ToRgba(above));
  }

  /** So the result of mixing is determined: it is canonical, and canonical colors are told apart by what they
      stand for (`RoundTripFromHsla`). */
  lemma HslaBlendCanonical(below: Hsla, above: Hsla)
    requires 0.0 < above.a < 1.0
    ensures Canonical(below.Blend(above)) && below.Blend(above).a == below.a
  {
    var from, to := ToRgba(below), ToRgba(above);
    BlendInCube(from, to);
    ToHslaCanonical(from.Blend(to));
  }

  lemma BlendInCube(below: Rgba, above: Rgba)
    requires InCube(below) && InCube(above)
    ensures InCube(below.Blend(above))
  {
    if 0.0 < above.a < 1.0 {
      MixInUnit(below.r, above.r, above.a);
      MixInUnit(below.g, above.g, above.a);
      MixInUnit(below.b, above.b, above.a);
    }
  }
}
