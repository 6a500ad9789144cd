/**
 hsl.go and ThemeColor (styles.go) over the reals: the two colour conversions are inverse, channels
 stay in range, and a tint changes the lightness and nothing else.
 */
module Colours {

  datatype RGB = RGB(r: real, g: real, b: real)

  datatype HSL = HSL(h: real, s: real, l: real)

  function Max(a: real, b: real): (m: real) { if a < b then b else a }

  function Min(a: real, b: real): (m: real) { if a < b then a else b }

  function MaxOf(c: RGB): (m: real) { Max(Max(c.r, c.g), c.b) }

  function MinOf(c: RGB): (m: real) { Min(Min(c.r, c.g), c.b) }

  predicate Unit(x: real) { 0.0 <= x <= 1.0 }

  predicate InUnit(c: RGB) { Unit(c.r) && Unit(c.g) && Unit(c.b) }

  // ---------- the conversions

  function Saturation(max: real, min: real): (s: real)
    requires Unit(max) && Unit(min) && min < max
  {
    var d := max - min;
    if (max + min) / 2.0 > 0.5 then d / (2.0 - max - min) else d / (max + min)
  }

  /** The hue in sixths of a turn. */
  function Sector(c: RGB): (w: real)
    requires MinOf(c) < MaxOf(c)
  {
    var max, d := MaxOf(c), MaxOf(c) - MinOf(c);
    if max == c.r then (c.g - c.b) / d + (if c.g < c.b then 6.0 else 0.0)
    else if max == c.g then (c.b - c.r) / d + 2.0
    else (c.r - c.g) / d + 4.0
  }

  /** RGBToHSL, on channels divided by 255. */
  function ToHSL(c: RGB): (hsl: HSL)
    requires InUnit(c)
  {
    var max, min := MaxOf(c), MinOf(c);
    var l := (max + min) / 2.0;
    if max == min then HSL(0.0, 0.0, l)
    else HSL(Sector(c) / 6.0, Saturation(max, min), l)
  }

  function HueToRGB(p: real, q: real, t0: real): (x: real) {
    var t1 := if t0 < 0.0 then t0 + 1.0 else t0;
    var t := if t1 > 1.0 then t1 - 1.0 else t1;
    if t < 1.0 / 6.0 then p + (q - p) * 6.0 * t
    else if t < 0.5 then q
    else if t < 2.0 / 3.0 then p + (q - p) * (2.0 / 3.0 - t) * 6.0
    else p
  }

  /** The upper channel value that HSLToRGB computes. */
  function Upper(s: real, l: real): (q: real) {
    if l < 0.5 then l * (1.0 + s) else l + s - s * l
  }

  /** HSLToRGB, before scaling by 255 and rounding. */
  function FromHSL(c: HSL): (rgb: RGB) {
    if c.s == 0.0 then RGB(c.l, c.l, c.l)
    else
      var q := Upper(c.s, c.l);
      var p := 2.0 * c.l - q;
      RGB(HueToRGB(p, q, c.h + 1.0 / 3.0), HueToRGB(p, q, c.h), HueToRGB(p, q, c.h - 1.0 / 3.0))
  }

  // ---------- channels stay in range

  /** The two extreme channel values are in range and have the lightness as their mean. */
  lemma Bounds(s: real, l: real)
    requires Unit(s) && Unit(l)
    ensures var q := Upper(s, l); var p := 2.0 * l - q; 0.0 <= p <= q <= 1.0
  {
    var d := if l < 0.5 then l else 1.0 - l;
    ScaledDown(d, s);
    assert Upper(s, l) == l + d * s;
  }

  lemma Ramp(p: real, q: real, d: real, k: real, x: real)
    requires p <= q && d == q - p && Unit(k) && x == p + d * k
    ensures p <= x <= q
  {
    ScaledDown(d, k);
  }

  lemma ScaledDown(d: real, k: real)
    requires d >= 0.0 && Unit(k)
    ensures 0.0 <= d * k <= d
  {
    assert d - d * k == d * (1.0 - k);
  }

  /** Every channel lies between the extremes. */
  lemma ChannelBetween(p: real, q: real, t: real)
    requires p <= q && -1.0 <= t <= 2.0
    ensures p <= HueToRGB(p, q, t) <= q
  {
    var t1 := if t < 0.0 then t + 1.0 else t;
    var u := if t1 > 1.0 then t1 - 1.0 else t1;
    var d := q - p;
    if u < 1.0 / 6.0 {
      var k := 6.0 * u;
      assert d * 6.0 * u == d * k;
      Ramp(p, q, d, k, HueToRGB(p, q, t));
    } else if 0.5 <= u < 2.0 / 3.0 {
      var v := 2.0 / 3.0 - u;
      var k := v * 6.0;
      assert d * v * 6.0 == d * k;
      Ramp(p, q, d, k, HueToRGB(p, q, t));
    }
  }

  /** For every hue some channel is the upper extreme and some channel the lower. */
  lemma ExtremesReached(p: real, q: real, h: real)
    requires p <= q && Unit(h)
    ensures var c := RGB(HueToRGB(p, q, h + 1.0 / 3.0), HueToRGB(p, q, h), HueToRGB(p, q, h - 1.0 / 3.0));
            MaxOf(c) == q && MinOf(c) == p
  {
    ChannelBetween(p, q, h + 1.0 / 3.0);
    ChannelBetween(p, q, h);
    ChannelBetween(p, q, h - 1.0 / 3.0);
  }

  /** For every colour in range the channels are in range and the lightness is the given one. */
  lemma FromHSLInRange(c: HSL)
    requires Unit(c.h) && Unit(c.s) && Unit(c.l)
    ensures InUnit(FromHSL(c)) && (MaxOf(FromHSL(c)) + MinOf(FromHSL(c))) / 2.0 == c.l
  {
    if c.s != 0.0 {
      Bounds(c.s, c.l);
      var q := Upper(c.s, c.l);
      ExtremesReached(2.0 * c.l - q, q, c.h);
    }
  }

  /** The uint8 conversion of a channel: x * 255 + 0.5 cut to an integer, which does not wrap. */
  function Byte(x: real): (b: int) { (x * 255.0 + 0.5).Floor }

  /** The conversion rounds to the nearest byte, halves up. */
  lemma ByteIsNearest(x: real)
    ensures Byte(x) as real - 0.5 <= 255.0 * x < Byte(x) as real + 0.5
  {
  }

  lemma ByteFits(x: real)
    requires Unit(x)
    ensures 0 <= Byte(x) <= 255
  {
  }

  // ---------- the round trip

  /** Saturation and lightness give the extremes back. */
  lemma UpperRestored(max: real, min: real)
    requires Unit(max) && Unit(min) && min < max
    ensures Upper(Saturation(max, min), (max + min) / 2.0) == max
    ensures 0.0 < Saturation(max, min) <= 1.0
  {
    var l, d := (max + min) / 2.0, max - min;
    var s := Saturation(max, min);
    if l > 0.5 {
      Quotient(d, 2.0 - max - min);
      assert s * (2.0 - max - min) == d;
      assert s * (1.0 - l) == d / 2.0;
      assert Upper(s, l) == l + s * (1.0 - l);
    } else {
      Quotient(d, max + min);
      assert s * (max + min) == d;
      assert s * l == d / 2.0;
      if l < 0.5 {
        assert Upper(s, l) == l + l * s;
      } else {
        assert Upper(s, l) == l + s - s * l;
      }
    }
  }

  lemma Quotient(a: real, b: real)
    requires 0.0 < a <= b
    ensures (a / b) * b == a && 0.0 < a / b <= 1.0
  {
    var k := a / b;
    assert k * b == a;
  }

  // The six ways a channel is computed, by its position on the colour wheel.

  lemma Rising(p: real, q: real, k: real, t: real)
    requires Unit(k) && (t == k / 6.0 || (t == k / 6.0 + 1.0 && k > 0.0))
    ensures HueToRGB(p, q, t) == p + (q - p) * k
  {
    assert (q - p) * 6.0 * (k / 6.0) == (q - p) * k;
  }

  lemma Top(p: real, q: real, k: real, t: real)
    requires -1.0 <= k <= 1.0 && (t == 1.0 / 3.0 + k / 6.0 || t == 4.0 / 3.0 + k / 6.0)
    ensures HueToRGB(p, q, t) == q
  {
    if k == 1.0 { assert (q - p) * (2.0 / 3.0 - 0.5) * 6.0 == q - p; }
  }

  lemma Falling(p: real, q: real, k: real, t: real)
    requires Unit(k) && t == 2.0 / 3.0 - k / 6.0
    ensures HueToRGB(p, q, t) == p + (q - p) * k
  {
    if k > 0.0 {
      assert 2.0 / 3.0 - t == k / 6.0;
      assert (q - p) * (k / 6.0) * 6.0 == (q - p) * k;
    }
  }

  lemma Bottom(p: real, q: real, k: real, t: real)
    requires Unit(k) && (t == 2.0 / 3.0 + k / 6.0 || t == k / 6.0 - 1.0 / 3.0 || t == 1.0 - k / 6.0 || t == 0.0 - k / 6.0)
    ensures HueToRGB(p, q, t) == p
  {
  }

  /** A difference of channels as a share of the largest difference. */
  lemma Share(x: real, d: real)
    requires d > 0.0 && 0.0 <= x <= d
    ensures Unit(x / d) && d * (x / d) == x && (0.0 - x) / d == 0.0 - x / d
  {
    var k := x / d;
    assert k * d == x;
  }

  /** The wheel position of the hue of c gives every channel of c back. */
  lemma ChannelsRestored(c: RGB)
    requires InUnit(c) && MinOf(c) < MaxOf(c)
    ensures var p, q, h := MinOf(c), MaxOf(c), Sector(c) / 6.0;
            && HueToRGB(p, q, h + 1.0 / 3.0) == c.r
            && HueToRGB(p, q, h) == c.g
            && HueToRGB(p, q, h - 1.0 / 3.0) == c.b
  {
    var max, min := MaxOf(c), MinOf(c);
    if max == c.r {
      RedRestored(c);
    } else if max == c.g {
      GreenRestored(c);
    } else {
      BlueRestored(c);
    }
  }

  lemma RedRestored(c: RGB)
    requires InUnit(c) && MinOf(c) < MaxOf(c) == c.r
    ensures var p, q, h := MinOf(c), MaxOf(c), Sector(c) / 6.0;
            && HueToRGB(p, q, h + 1.0 / 3.0) == c.r
            && HueToRGB(p, q, h) == c.g
            && HueToRGB(p, q, h - 1.0 / 3.0) == c.b
  {
    hide HueToRGB;
    var p, q, h := MinOf(c), MaxOf(c), Sector(c) / 6.0;
    if c.g >= c.b {
      Share(c.g - c.b, q - p);
      var k := (c.g - c.b) / (q - p);
      Top(p, q, k, h + 1.0 / 3.0);
      Rising(p, q, k, h);
      Bottom(p, q, k, h - 1.0 / 3.0);
    } else {
      Share(c.b - c.g, q - p);
      var k := (c.b - c.g) / (q - p);
      assert h == 1.0 - k / 6.0;
      assert k > 0.0;
      Top(p, q, -k, h + 1.0 / 3.0);
      Bottom(p, q, k, h);
      Falling(p, q, k, h - 1.0 / 3.0);
    }
  }

  lemma GreenRestored(c: RGB)
    requires InUnit(c) && MinOf(c) < MaxOf(c) == c.g && c.r < c.g
    ensures var p, q, h := MinOf(c), MaxOf(c), Sector(c) / 6.0;
            && HueToRGB(p, q, h + 1.0 / 3.0) == c.r
            && HueToRGB(p, q, h) == c.g
            && HueToRGB(p, q, h - 1.0 / 3.0) == c.b
  {
    hide HueToRGB;
    var p, q, h := MinOf(c), MaxOf(c), Sector(c) / 6.0;
    if c.b >= c.r {
      Share(c.b - c.r, q - p);
      var k := (c.b - c.r) / (q - p);
      Top(p, q, k, h);
      Bottom(p, q, k, h + 1.0 / 3.0);
      Rising(p, q, k, h - 1.0 / 3.0);
    } else {
      Share(c.r - c.b, q - p);
      var k := (c.r - c.b) / (q - p);
      assert h == 1.0 / 3.0 - k / 6.0 && k > 0.0;
      Top(p, q, -k, h);
      Falling(p, q, k, h + 1.0 / 3.0);
      Bottom(p, q, k, h - 1.0 / 3.0);
    }
  }

  lemma BlueRestored(c: RGB)
    requires InUnit(c) && MinOf(c) < MaxOf(c) == c.b && c.r < c.b && c.g < c.b
    ensures var p, q, h := MinOf(c), MaxOf(c), Sector(c) / 6.0;
            && HueToRGB(p, q, h + 1.0 / 3.0) == c.r
            && HueToRGB(p, q, h) == c.g
            && HueToRGB(p, q, h - 1.0 / 3.0) == c.b
  {
    hide HueToRGB;
    var p, q, h := MinOf(c), MaxOf(c), Sector(c) / 6.0;
    if c.r > c.g {
      Share(c.r - c.g, q - p);
      var k := (c.r - c.g) / (q - p);
      assert h == 2.0 / 3.0 + k / 6.0 && k > 0.0;
      Top(p, q, k, h - 1.0 / 3.0);
      Rising(p, q, k, h + 1.0 / 3.0);
      Bottom(p, q, k, h);
    } else {
      Share(c.g - c.r, q - p);
      var k := (c.g - c.r) / (q - p);
      assert h == 2.0 / 3.0 - k / 6.0;
      Top(p, q, -k, h - 1.0 / 3.0);
      Falling(p, q, k, h);
      Bottom(p, q, k, h + 1.0 / 3.0);
    }
  }

  /** HSLToRGB inverts RGBToHSL before rounding, for every colour. */
  lemma RGBRoundTrip(c: RGB)
    requires InUnit(c)
    ensures FromHSL(ToHSL(c)) == c
    ensures var x := ToHSL(c); 0.0 <= x.h <= 1.0 && Unit(x.s) && Unit(x.l)
  {
    var max, min := MaxOf(c), MinOf(c);
    if min < max {
      hide Saturation, Sector, HueToRGB, Upper;
      UpperRestored(max, min);
      ChannelsRestored(c);
      SectorInRange(c);
    }
  }

  lemma SectorInRange(c: RGB)
    requires InUnit(c) && MinOf(c) < MaxOf(c)
    ensures 0.0 <= Sector(c) <= 6.0
  {
    var d := MaxOf(c) - MinOf(c);
    if c.g >= c.b { Share(c.g - c.b, d); } else { Share(c.b - c.g, d); }
    if c.b >= c.r { Share(c.b - c.r, d); } else { Share(c.r - c.b, d); }
    if c.r >= c.g { Share(c.r - c.g, d); } else { Share(c.g - c.r, d); }
  }

  function Scaled(r: int, g: int, b: int): (c: RGB) {
    RGB(r as real / 255.0, g as real / 255.0, b as real / 255.0)
  }

  /** On bytes, rounding included, the round trip is exact. */
  lemma BytesRoundTrip(r: int, g: int, b: int)
    requires 0 <= r <= 255 && 0 <= g <= 255 && 0 <= b <= 255
    ensures InUnit(Scaled(r, g, b))
    ensures var c := FromHSL(ToHSL(Scaled(r, g, b))); Byte(c.r) == r && Byte(c.g) == g && Byte(c.b) == b
  {
    hide ToHSL, FromHSL;
    RGBRoundTrip(Scaled(r, g, b));
    ByteRestored(r);
    ByteRestored(g);
    ByteRestored(b);
  }

  lemma ByteRestored(r: int)
    requires 0 <= r <= 255
    ensures Byte(r as real / 255.0) == r
  {
    assert r as real / 255.0 * 255.0 == r as real;
  }

  // ---------- the other direction

  lemma QuotientIs(a: real, b: real, k: real)
    requires b > 0.0 && a == k * b
    ensures a / b == k
  {
  }

  /** The extremes computed from saturation and lightness have that saturation. */
  lemma SaturationRestored(s: real, l: real)
    requires 0.0 < s <= 1.0 && 0.0 < l < 1.0
    ensures var q := Upper(s, l); var p := 2.0 * l - q;
            0.0 <= p < q <= 1.0 && (q + p) / 2.0 == l && Saturation(q, p) == s
  {
    Bounds(s, l);
    var q := Upper(s, l);
    var p := 2.0 * l - q;
    if l < 0.5 {
      assert q - l == l * s;
      assert l * s > 0.0;
      QuotientIs(q - p, q + p, s);
    } else {
      assert q - l == s * (1.0 - l);
      assert s * (1.0 - l) > 0.0;
      if l > 0.5 { QuotientIs(q - p, 2.0 - q - p, s); } else { QuotientIs(q - p, q + p, s); }
    }
  }

  function Wheel(p: real, q: real, h: real): (c: RGB) {
    RGB(HueToRGB(p, q, h + 1.0 / 3.0), HueToRGB(p, q, h), HueToRGB(p, q, h - 1.0 / 3.0))
  }

  /** A value on the ramp between two extremes, seen as a share of their difference. */
  lemma RampShare(p: real, q: real, d: real, k: real, x: real)
    requires d == q - p && d > 0.0 && Unit(k) && x == p + d * k
    ensures (x - p) / d == k && (p - x) / d == -k && (q - p) / d == 1.0
    ensures p <= x <= q && (x == q <==> k == 1.0) && (x == p <==> k == 0.0)
  {
    var y := d * k;
    QuotientIs(x - p, d, k);
    QuotientIs(p - x, d, -k);
    QuotientIs(d, d, 1.0);
    ScaledDown(d, k);
    assert d - y == d * (1.0 - k);
    if k > 0.0 { assert y > 0.0; }
    if k < 1.0 { assert d * (1.0 - k) > 0.0; }
  }

  /** The value of the ramp at k. */
  function On(p: real, q: real, k: real): (x: real) { p + (q - p) * k }

  /** The three channels in each of the six sectors. */
  lemma WheelChannels(p: real, q: real, h: real)
    requires 0.0 <= h < 1.0
    ensures var w := 6.0 * h;
            Wheel(p, q, h) ==
            if w < 1.0 then RGB(q, On(p, q, w), p)
            else if w < 2.0 then RGB(On(p, q, 2.0 - w), q, p)
            else if w < 3.0 then RGB(p, q, On(p, q, w - 2.0))
            else if w < 4.0 then RGB(p, On(p, q, 4.0 - w), q)
            else if w < 5.0 then RGB(On(p, q, w - 4.0), p, q)
            else RGB(q, p, On(p, q, 6.0 - w))
  {
    hide HueToRGB;
    var w := 6.0 * h;
    if w < 1.0 {
      Top(p, q, w, h + 1.0 / 3.0);
      Rising(p, q, w, h);
      Bottom(p, q, w, h - 1.0 / 3.0);
    } else if w < 2.0 {
      Falling(p, q, 2.0 - w, h + 1.0 / 3.0);
      Top(p, q, w - 2.0, h);
      Bottom(p, q, 2.0 - w, h - 1.0 / 3.0);
    } else if w < 3.0 {
      Bottom(p, q, w - 2.0, h + 1.0 / 3.0);
      Top(p, q, w - 2.0, h);
      Rising(p, q, w - 2.0, h - 1.0 / 3.0);
    } else if w < 4.0 {
      Bottom(p, q, 4.0 - w, h + 1.0 / 3.0);
      Falling(p, q, 4.0 - w, h);
      Top(p, q, w - 4.0, h - 1.0 / 3.0);
    } else if w < 5.0 {
      if w > 4.0 { Rising(p, q, w - 4.0, h + 1.0 / 3.0); } else { Bottom(p, q, 0.0, h + 1.0 / 3.0); }
      Bottom(p, q, w - 4.0, h);
      Top(p, q, w - 4.0, h - 1.0 / 3.0);
    } else {
      Top(p, q, w - 6.0, h + 1.0 / 3.0);
      Bottom(p, q, 6.0 - w, h);
      Falling(p, q, 6.0 - w, h - 1.0 / 3.0);
    }
  }

  /** The hue of a colour on the wheel is its position. */
  lemma SectorRestored(p: real, q: real, h: real)
    requires p < q && 0.0 <= h < 1.0
    ensures MinOf(Wheel(p, q, h)) == p && MaxOf(Wheel(p, q, h)) == q
    ensures Sector(Wheel(p, q, h)) == 6.0 * h
  {
    WheelChannels(p, q, h);
    hide Wheel, On;
    if h < 0.5 { LowSectors(p, q, h); } else { HighSectors(p, q, h); }
  }

  /** x is the k-th part of the way from p to q. */
  predicate OnTheWay(p: real, q: real, k: real, x: real) {
    && p < q && Unit(k) && p <= x <= q && (x == q <==> k == 1.0) && (x == p <==> k == 0.0)
    && (x - p) / (q - p) == k && (p - x) / (q - p) == -k && (q - p) / (q - p) == 1.0
  }

  lemma OnIsOnTheWay(p: real, q: real, k: real)
    requires p < q && Unit(k)
    ensures OnTheWay(p, q, k, On(p, q, k))
  {
    OnRamp(p, q, k);
    RampShare(p, q, q - p, k, On(p, q, k));
  }

  lemma LowSectors(p: real, q: real, h: real)
    requires p < q && 0.0 <= h < 0.5
    ensures MinOf(Wheel(p, q, h)) == p && MaxOf(Wheel(p, q, h)) == q
    ensures Sector(Wheel(p, q, h)) == 6.0 * h
  {
    WheelChannels(p, q, h);
    hide Wheel, On, OnTheWay;
    var w := 6.0 * h;
    var k := if w < 1.0 then w else if w < 2.0 then 2.0 - w else w - 2.0;
    OnIsOnTheWay(p, q, k);
    if w < 1.0 { RedDown(p, q, k, On(p, q, k)); } else if w < 2.0 { GreenUp(p, q, k, On(p, q, k)); } else { GreenDown(p, q, k, On(p, q, k)); }
  }

  lemma HighSectors(p: real, q: real, h: real)
    requires p < q && 0.5 <= h < 1.0
    ensures MinOf(Wheel(p, q, h)) == p && MaxOf(Wheel(p, q, h)) == q
    ensures Sector(Wheel(p, q, h)) == 6.0 * h
  {
    WheelChannels(p, q, h);
    hide Wheel, On, OnTheWay;
    var w := 6.0 * h;
    var k := if w < 4.0 then 4.0 - w else if w < 5.0 then w - 4.0 else 6.0 - w;
    OnIsOnTheWay(p, q, k);
    if w < 4.0 { BlueUp(p, q, k, On(p, q, k)); } else if w < 5.0 { BlueDown(p, q, k, On(p, q, k)); } else { RedUp(p, q, k, On(p, q, k)); }
  }

  lemma RedDown(p: real, q: real, k: real, x: real)
    requires OnTheWay(p, q, k, x)
    ensures var c := RGB(q, x, p); MinOf(c) == p && MaxOf(c) == q && Sector(c) == k
  {
  }

  lemma GreenUp(p: real, q: real, k: real, x: real)
    requires OnTheWay(p, q, k, x)
    ensures var c := RGB(x, q, p); MinOf(c) == p && MaxOf(c) == q && Sector(c) == 2.0 - k
  {
  }

  lemma GreenDown(p: real, q: real, k: real, x: real)
    requires OnTheWay(p, q, k, x)
    ensures var c := RGB(p, q, x); MinOf(c) == p && MaxOf(c) == q && Sector(c) == 2.0 + k
  {
  }

  lemma BlueUp(p: real, q: real, k: real, x: real)
    requires OnTheWay(p, q, k, x)
    ensures var c := RGB(p, x, q); MinOf(c) == p && MaxOf(c) == q && Sector(c) == 4.0 - k
  {
  }

  lemma BlueDown(p: real, q: real, k: real, x: real)
    requires OnTheWay(p, q, k, x) && k < 1.0
    ensures var c := RGB(x, p, q); MinOf(c) == p && MaxOf(c) == q && Sector(c) == 4.0 + k
  {
  }

  lemma RedUp(p: real, q: real, k: real, x: real)
    requires OnTheWay(p, q, k, x) && k > 0.0
    ensures var c := RGB(q, p, x); MinOf(c) == p && MaxOf(c) == q && Sector(c) == 6.0 - k
  {
  }

  lemma OnRamp(p: real, q: real, k: real)
    ensures On(p, q, k) == p + (q - p) * k
  {
  }

  /** RGBToHSL inverts HSLToRGB before rounding, wherever hue and saturation are defined. */
  lemma HSLRoundTrip(c: HSL)
    requires 0.0 <= c.h < 1.0 && 0.0 < c.s <= 1.0 && 0.0 < c.l < 1.0
    ensures InUnit(FromHSL(c)) && ToHSL(FromHSL(c)) == c
  {
    FromHSLInRange(c);
    var q := Upper(c.s, c.l);
    var p := 2.0 * c.l - q;
    SaturationRestored(c.s, c.l);
    SectorRestored(p, q, c.h);
    assert FromHSL(c) == Wheel(p, q, c.h);
    hide HueToRGB, Wheel, Upper, Saturation, Sector;
  }

  // ---------- tints

  /** The lightness that ThemeColor computes for a tint. */
  function Tinted(l: real, tint: real): (lightness: real) {
    if tint < 0.0 then l * (1.0 + tint) else l * (1.0 - tint) + (1.0 - (1.0 - tint))
  }

  lemma Part(d: real, k: real) returns (x: real)
    requires d >= 0.0 && Unit(k)
    ensures x == d * k && 0.0 <= x <= d
  {
    x := d * k;
    ScaledDown(d, k);
  }

  lemma Spread(l: real, tint: real, d: real, kept: real, rise: real)
    requires d == 1.0 - l && kept == l * (1.0 - tint) && rise == d * tint
    ensures kept + tint == l + rise
  {
  }

  lemma TintParts(l: real, tint: real, kept: real)
    requires tint >= 0.0 && kept == l * (1.0 - tint)
    ensures Tinted(l, tint) == kept + tint
  {
  }

  lemma TintRises(l: real, tint: real)
    requires Unit(l) && Unit(tint)
    ensures l <= Tinted(l, tint) <= 1.0
  {
    hide Tinted;
    var kept, d := l * (1.0 - tint), 1.0 - l;
    var rise := Part(d, tint);
    Spread(l, tint, d, kept, rise);
    TintParts(l, tint, kept);
  }

  lemma TintFalls(l: real, tint: real)
    requires Unit(l) && -1.0 <= tint < 0.0
    ensures 0.0 <= Tinted(l, tint) <= l
  {
    ScaledDown(l, 1.0 + tint);
  }

  lemma TintInRange(l: real, tint: real)
    requires Unit(l) && -1.0 <= tint <= 1.0
    ensures Unit(Tinted(l, tint))
    ensures tint < 0.0 ==> Tinted(l, tint) <= l
    ensures tint >= 0.0 ==> Tinted(l, tint) >= l
    ensures Tinted(l, 0.0) == l
  {
    assert Tinted(l, 0.0) == l;
    hide Tinted;
    if tint < 0.0 { TintFalls(l, tint); } else { TintRises(l, tint); }
  }

  /** ThemeColor on channels, before rounding. */
  function ThemeColor(c: RGB, tint: real): (c': RGB)
    requires InUnit(c)
  {
    if tint == 0.0 then c
    else
      var x := ToHSL(c);
      FromHSL(x.(l := Tinted(x.l, tint)))
  }

  /**
   A tint between -1 and 1 gives a colour of the tinted lightness, in range, and keeps hue and
   saturation as long as the colour has them and the result is neither black nor white.
   */
  lemma TintedColour(c: RGB, tint: real)
    requires InUnit(c) && -1.0 <= tint <= 1.0
    ensures var x, y := ToHSL(c), ThemeColor(c, tint);
            && InUnit(y) && ToHSL(y).l == Tinted(x.l, tint)
            && (x.s > 0.0 && 0.0 < Tinted(x.l, tint) < 1.0 ==> ToHSL(y).h == x.h && ToHSL(y).s == x.s)
  {
    RGBRoundTrip(c);
    var x := ToHSL(c);
    TintInRange(x.l, tint);
    var z := x.(l := Tinted(x.l, tint));
    FromHSLInRange(z);
    HueBelowOne(c);
    hide Tinted;
    if x.s > 0.0 && 0.0 < z.l < 1.0 { HSLRoundTrip(z); }
    LightnessOf(FromHSL(z));
  }

  lemma TintDarkens(l: real, tint: real)
    requires tint < 0.0
    ensures Tinted(l, tint) == l * (1.0 + tint)
  {
  }

  lemma TintLightens(l: real, tint: real)
    requires tint >= 0.0
    ensures 1.0 - Tinted(l, tint) == (1.0 - l) * (1.0 - tint)
  {
    var kept, d := l * (1.0 - tint), 1.0 - l;
    TintParts(l, tint, kept);
    Spread(l, tint, d, kept, d * tint);
    assert d * (1.0 - tint) == d - d * tint;
  }

  /**
   A negative tint scales the lightness by 1 + tint, any other the distance from white by 1 - tint;
   hue and saturation stay as long as there are any before and after. At -1 the colour is black, at
   1 white, at 0 itself.
   */
  lemma ThemeColorTints(c: RGB, tint: real)
    requires InUnit(c) && -1.0 <= tint <= 1.0
    ensures InUnit(ThemeColor(c, tint))
    ensures var x, y := ToHSL(c), ToHSL(ThemeColor(c, tint));
            && (tint < 0.0 ==> y.l == x.l * (1.0 + tint))
            && (tint >= 0.0 ==> 1.0 - y.l == (1.0 - x.l) * (1.0 - tint))
            && (x.s > 0.0 && 0.0 < y.l < 1.0 ==> y.h == x.h && y.s == x.s)
    ensures tint == -1.0 ==> ThemeColor(c, tint) == RGB(0.0, 0.0, 0.0)
    ensures tint == 0.0 ==> ThemeColor(c, tint) == c
    ensures tint == 1.0 ==> ThemeColor(c, tint) == RGB(1.0, 1.0, 1.0)
  {
    hide ToHSL, FromHSL, Tinted;
    TintedColour(c, tint);
    var l := ToHSL(c).l;
    if tint < 0.0 { TintDarkens(l, tint); } else { TintLightens(l, tint); }
    if tint == -1.0 || tint == 1.0 { Extremes(ThemeColor(c, tint)); }
  }

  lemma Extremes(c: RGB)
    requires InUnit(c)
    ensures ToHSL(c).l == 0.0 ==> c == RGB(0.0, 0.0, 0.0)
    ensures ToHSL(c).l == 1.0 ==> c == RGB(1.0, 1.0, 1.0)
  {
    LightnessOf(c);
  }

  /** A grey has no hue and no saturation. */
  lemma Greys(c: RGB)
    requires InUnit(c) && c.r == c.g && c.g == c.b
    ensures ToHSL(c) == HSL(0.0, 0.0, c.r)
  {
  }

  lemma LightnessOf(c: RGB)
    requires InUnit(c)
    ensures ToHSL(c).l == (MaxOf(c) + MinOf(c)) / 2.0
  {
  }

  lemma HueBelowOne(c: RGB)
    requires InUnit(c)
    ensures 0.0 <= ToHSL(c).h < 1.0
  {
    if MinOf(c) < MaxOf(c) {
      hide Saturation;
      SectorInRange(c);
      SectorBelowSix(c);
    }
  }

  lemma SectorBelowSix(c: RGB)
    requires InUnit(c) && MinOf(c) < MaxOf(c)
    ensures Sector(c) < 6.0
  {
    var d := MaxOf(c) - MinOf(c);
    if c.g >= c.b { Share(c.g - c.b, d); } else { Share(c.b - c.g, d); }
    if c.b >= c.r { Share(c.b - c.r, d); } else { Share(c.r - c.b, d); }
    if c.r >= c.g { Share(c.r - c.g, d); } else { Share(c.g - c.r, d); }
    if MaxOf(c) == c.r && c.g < c.b {
      var k := (c.b - c.g) / d;
      assert d * k > 0.0;
      if k <= 0.0 { ScaledUp(d, k); }
    }
  }

  lemma ScaledUp(d: real, k: real)
    requires d > 0.0 && k <= 0.0
    ensures d * k <= 0.0
  {
  }
}
