/** The luminance quantizer: a pixel's weighted luminance, truncated to 8 bits,
    is bucketed by the first level of an ordered table whose threshold exceeds
    it; a luminance that no threshold exceeds becomes white. */
module Quantizer {
  import opened GoInts

  /** The 16-bit-per-channel samples `RGBA()` returns, each held in a `uint32`;
      `a` is alpha, which the quantizer reads and discards. */
  datatype Pixel = Pixel(r: int, g: int, b: int, a: int)

  /** The red, green and blue samples fit in 16 bits, as `RGBA()` promises. */
  predicate Rgb16(p: Pixel) {
    0 <= p.r <= 0xFFFF && 0 <= p.g <= 0xFFFF && 0 <= p.b <= 0xFFFF
  }

  /** One row of the table: luminances below `level` become gray `color`. */
  datatype Level = Level(level: int, color: int)

  /** The quantizer's configuration: the ordered level table. */
  datatype Config = Config(levels: seq<Level>) {

    /** The gray intensity `convert` gives the pixel `p`. */
    function GrayOf(p: Pixel): (g: uint8) {
      Band(levels, Luminance(p))
    }

    /** `(*config).convert`: the first-match scan over the levels, with an
        early return, falling back to white. */
    method Convert(p: Pixel) returns (g: uint8)
      ensures g == GrayOf(p)
    {
      var y := Luminance(p);
      for i := 0 to |levels|
        invariant Band(levels[i..], y) == Band(levels, y)
      {
        if y < Uint8(levels[i].level) {
          return Uint8(levels[i].color);
        }
      }
      return 255;
    }
  }

  /** The table `main` installs: below 50 black, below 100 gray 50, below 150
      gray 100, white otherwise. */
  function DefaultConfig(): Config {
    Config([Level(50, 0), Level(100, 50), Level(150, 100)])
  }

  /** 299·r + 587·g + 114·b, the weighted sum before Go's `uint32` wrap. */
  function WeightedSum(p: Pixel): (s: int) {
    299 * p.r + 587 * p.g + 114 * p.b
  }

  /** `uint8((299*r + 587*g + 114*b) / 1000)` with r, g, b of type `uint32`. */
  function Luminance(p: Pixel): (y: uint8) {
    Uint8(Wrap32(WeightedSum(p)) / 1000)
  }

  /** Level `lv` takes luminance `y`: the strict comparison of the source. */
  predicate Captures(lv: Level, y: uint8) {
    y < Uint8(lv.level)
  }

  /** The gray value a luminance gets from a level table: the color of the
      first capturing level, or white when none captures it. */
  function Band(levels: seq<Level>, y: uint8): (g: uint8) {
    if |levels| == 0 then 255
    else if Captures(levels[0], y) then Uint8(levels[0].color)
    else Band(levels[1..], y)
  }

  /** `i` is the lowest index whose level captures `y`. */
  predicate IsFirstMatch(levels: seq<Level>, y: uint8, i: int) {
    0 <= i < |levels| && Captures(levels[i], y) &&
    forall j :: 0 <= j < i ==> !Captures(levels[j], y)
  }

  /** Colours never decrease along the table. */
  predicate ColorsAscending(levels: seq<Level>) {
    forall i, j :: 0 <= i < j < |levels| ==> Uint8(levels[i].color) <= Uint8(levels[j].color)
  }

  /** Thresholds never decrease along the table. */
  predicate ThresholdsAscending(levels: seq<Level>) {
    forall i, j :: 0 <= i < j < |levels| ==> Uint8(levels[i].level) <= Uint8(levels[j].level)
  }

  // ---------------------------------------------------------------------------
  // Luminance

  /** With 16-bit samples the `uint32` sum cannot wrap, so the luminance is the
      exact weighted quotient reduced modulo 256. */
  lemma LuminanceNoWrap(p: Pixel)
    requires Rgb16(p)
    ensures 0 <= WeightedSum(p) <= 1000 * 0xFFFF < Two32
    ensures Luminance(p) as int == (WeightedSum(p) / 1000) % 256
  {
  }

  /** Alpha plays no part: changing it leaves the luminance and the gray value alone. */
  lemma AlphaIgnored(cfg: Config, p: Pixel, alpha: int)
    ensures Luminance(p.(a := alpha)) == Luminance(p)
    ensures cfg.GrayOf(p.(a := alpha)) == cfg.GrayOf(p)
  {
  }

  /** An achromatic pixel r = g = b = v has luminance v modulo 256, so it gets
      the band of that value whatever the table. */
  lemma AchromaticLuminance(cfg: Config, v: int, alpha: int)
    requires 0 <= v <= 0xFFFF
    ensures Luminance(Pixel(v, v, v, alpha)) == Uint8(v)
    ensures cfg.GrayOf(Pixel(v, v, v, alpha)) == Band(cfg.levels, Uint8(v))
  {
    assert WeightedSum(Pixel(v, v, v, alpha)) == 1000 * v;
  }

  /** The 8-bit truncation wraps bright samples around: the near-white gray
      0xFF00 has luminance 0 and comes out black under the default table, while
      full white 0xFFFF has luminance 255 and stays white. */
  lemma LuminanceWrapsAround()
    ensures Luminance(Pixel(0xFF00, 0xFF00, 0xFF00, 0xFFFF)) == 0
    ensures DefaultConfig().GrayOf(Pixel(0xFF00, 0xFF00, 0xFF00, 0xFFFF)) == 0
    ensures Luminance(Pixel(0xFFFF, 0xFFFF, 0xFFFF, 0xFFFF)) == 255
    ensures DefaultConfig().GrayOf(Pixel(0xFFFF, 0xFFFF, 0xFFFF, 0xFFFF)) == 255
  {
    AchromaticLuminance(DefaultConfig(), 0xFF00, 0xFFFF);
    AchromaticLuminance(DefaultConfig(), 0xFFFF, 0xFFFF);
    DefaultBands(0);
    DefaultBands(255);
  }

  // ---------------------------------------------------------------------------
  // The first-match scan

  /** The first capturing level decides the result: its colour, truncated. */
  lemma {:induction false} BandFirstMatch(levels: seq<Level>, y: uint8, i: int)
    requires IsFirstMatch(levels, y, i)
    ensures Band(levels, y) == Uint8(levels[i].color)
  {
    if i > 0 {
      BandFirstMatch(levels[1..], y, i - 1);
    }
  }

  /** When no level's threshold exceeds the luminance (an empty table
      included) the result is white. */
  lemma {:induction false} BandNoMatch(levels: seq<Level>, y: uint8)
    requires forall j :: 0 <= j < |levels| ==> !Captures(levels[j], y)
    ensures Band(levels, y) == 255
  {
    if |levels| > 0 {
      BandNoMatch(levels[1..], y);
    }
  }

  /** Conversely, every result is explained by the scan: either some level
      captures `y` and the first such level supplies the colour, or none does
      and the result is white. */
  lemma {:induction false} BandCases(levels: seq<Level>, y: uint8)
    ensures (exists i :: IsFirstMatch(levels, y, i) && Band(levels, y) == Uint8(levels[i].color))
         || ((forall j :: 0 <= j < |levels| ==> !Captures(levels[j], y)) && Band(levels, y) == 255)
  {
    if |levels| == 0 {
    } else if Captures(levels[0], y) {
      assert IsFirstMatch(levels, y, 0);
    } else {
      BandCases(levels[1..], y);
      if k :| IsFirstMatch(levels[1..], y, k) && Band(levels[1..], y) == Uint8(levels[1..][k].color) {
        assert IsFirstMatch(levels, y, k + 1);
      } else {
        assert forall j :: 0 <= j < |levels| ==> !Captures(levels[j], y) by {
          forall j | 0 <= j < |levels| ensures !Captures(levels[j], y) {
            if j > 0 { assert levels[j] == levels[1..][j - 1]; }
          }
        }
      }
    }
  }

  /** Strictness: a level whose threshold is at or below the luminance, in
      particular one exactly equal to it, never takes it; removing that level
      from the table does not change the result. */
  lemma {:induction false} BandSkipsNonCapturing(levels: seq<Level>, y: uint8, i: int)
    requires 0 <= i < |levels| && Uint8(levels[i].level) <= y
    ensures Band(levels, y) == Band(levels[..i] + levels[i + 1..], y)
  {
    if i > 0 {
      BandSkipsNonCapturing(levels[1..], y, i - 1);
      assert levels[..i] + levels[i + 1..] == [levels[0]] + (levels[1..][..i - 1] + levels[1..][i..]);
    } else {
      assert levels[..i] + levels[i + 1..] == levels[1..];
    }
  }

  /** A lower bound on every colour of the table is a lower bound on the result. */
  lemma {:induction false} BandAtLeast(levels: seq<Level>, y: uint8, c: uint8)
    requires forall j :: 0 <= j < |levels| ==> c <= Uint8(levels[j].color)
    ensures c <= Band(levels, y)
  {
    if |levels| > 0 && !Captures(levels[0], y) {
      BandAtLeast(levels[1..], y, c);
    }
  }

  /** The scan is a non-decreasing step function of the luminance whenever the
      colours ascend along the table; the order of the thresholds plays no part. */
  lemma {:induction false} BandMonotone(levels: seq<Level>, y1: uint8, y2: uint8)
    requires ColorsAscending(levels)
    requires y1 <= y2
    ensures Band(levels, y1) <= Band(levels, y2)
  {
    if |levels| > 0 {
      if Captures(levels[0], y2) {
      } else if Captures(levels[0], y1) {
        BandAtLeast(levels[1..], y2, Uint8(levels[0].color));
      } else {
        BandMonotone(levels[1..], y1, y2);
      }
    }
  }

  /** Ascending thresholds alone do not make the scan monotone: the table
      (50, 100), (100, 0) maps luminance 0 to 100 and luminance 60 to 0. */
  lemma AscendingThresholdsNotEnough()
    ensures ThresholdsAscending([Level(50, 100), Level(100, 0)])
    ensures Band([Level(50, 100), Level(100, 0)], 0) == 100
    ensures Band([Level(50, 100), Level(100, 0)], 60) == 0
  {
  }

  // ---------------------------------------------------------------------------
  // The default table

  /** The bands of the default table, boundaries included. */
  lemma DefaultBands(y: uint8)
    ensures Band(DefaultConfig().levels, y) ==
      if y < 50 then 0 else if y < 100 then 50 else if y < 150 then 100 else 255
  {
    var levels := DefaultConfig().levels;
    assert Uint8(50) == 50 && Uint8(100) == 100 && Uint8(150) == 150;
    assert Uint8(0) == 0 && Uint8(50) == 50 && Uint8(100) == 100;
    var rest1, rest2 := levels[1..], levels[2..];
    assert rest1 == [Level(100, 50), Level(150, 100)] && rest1[1..] == rest2;
    assert rest2 == [Level(150, 100)] && rest2[1..] == [];
    assert Band(rest2, y) == if y < 150 then 100 else 255;
    assert Band(rest1, y) == if y < 100 then 50 else Band(rest2, y);
    assert Band(levels, y) == if y < 50 then 0 else Band(rest1, y);
  }

  /** Under the default table a brighter luminance never yields a darker gray. */
  lemma DefaultMonotone(y1: uint8, y2: uint8)
    requires y1 <= y2
    ensures Band(DefaultConfig().levels, y1) <= Band(DefaultConfig().levels, y2)
  {
    DefaultBands(y1);
    DefaultBands(y2);
  }
}
