/**
 * The colour palettes of the regional maps and the classifier `getColor`
 * that turns a region's percentage into a fill colour (carte.js).
 */
module Palette {
  import opened Wrappers

  /** One row of a palette: values at or above `threshold` get `color`. */
  datatype Step = Step(threshold: real, color: string)

  /** A palette lists its steps by ascending threshold. */
  type Palette = seq<Step>

  /** Fill of a region whose value is absent. */
  const Unknown := "#444"

  const TabacPalette: Palette := [
    Step(0.0, "#222"),
    Step(20.0, "#3a1008"),
    Step(23.0, "#5c1a0f"),
    Step(26.0, "#7e2416"),
    Step(28.0, "#a02e1d"),
    Step(30.0, "#c23824")
  ]

  const VapePalette: Palette := [
    Step(0.0, "#222"),
    Step(3.0, "#0a1e2a"),
    Step(5.0, "#0f3d55"),
    Step(6.0, "#145c80"),
    Step(7.0, "#197baa"),
    Step(8.0, "#1e9ad5")
  ]

  /** The palette of each display mode, keyed by the mode's name. */
  const Palettes: map<string, Palette> := map["tabac" := TabacPalette, "vape" := VapePalette]

  /** Thresholds start at 0 and strictly increase. */
  predicate WellFormed(p: Palette)
  {
    && |p| > 0
    && p[0].threshold == 0.0
    && forall i, j :: 0 <= i < j < |p| ==> p[i].threshold < p[j].threshold
  }

  function ColorsOf(p: Palette): set<string>
  {
    set i | 0 <= i < |p| :: p[i].color
  }

  /**
   * The index the downward scan over p[..n] stops at: the first i, going
   * from n - 1 down to 0, whose threshold the value reaches; None when the
   * value is below all of them.
   */
  function ScanDown(p: Palette, n: nat, v: real): (r: Option<nat>)
    requires n <= |p|
    ensures r.Some? ==> r.value < n && p[r.value].threshold <= v
    ensures r.Some? ==> forall j :: r.value < j < n ==> v < p[j].threshold
    ensures r.None? ==> forall j :: 0 <= j < n ==> v < p[j].threshold
  {
    if n == 0 then None
    else if v >= p[n - 1].threshold then Some(n - 1)
    else ScanDown(p, n - 1, v)
  }

  /**
   * The bucket a present value falls in: where the scan over the whole
   * palette stops, or the first step when it never stops.
   */
  function Bucket(p: Palette, v: real): (k: nat)
    requires |p| > 0
    ensures k < |p|
    ensures k == 0 || p[k].threshold <= v
    ensures forall j :: k < j < |p| ==> v < p[j].threshold
    ensures v < p[k].threshold ==> forall j :: 0 <= j < |p| ==> v < p[j].threshold
  {
    match ScanDown(p, |p|, v)
    case Some(i) => i
    case None => 0
  }

  /**
   * getColor: the fill of a value under a mode. An absent value gets
   * `Unknown` without the palette being looked at; a present value gets
   * the colour of its bucket, which is never `Unknown`.
   */
  function GetColor(value: Option<real>, mode: string): (c: string)
    requires value.None? || mode in Palettes
    ensures value.None? <==> c == Unknown
    ensures value.Some? ==> c in ColorsOf(Palettes[mode])
  {
    match value
    case None => Unknown
    case Some(v) =>
      PalettesWellFormed();
      var p := Palettes[mode];
      var k := Bucket(p, v);
      assert p[k].color in ColorsOf(p);
      p[k].color
  }

  /**
   * getColor as the source writes it: a loop from the last step down that
   * returns the first colour whose threshold the value reaches, and the
   * first step's colour after the loop.
   */
  method GetColorScan(value: Option<real>, mode: string) returns (c: string)
    requires value.None? || mode in Palettes
    ensures c == GetColor(value, mode)
  {
    if value.None? {
      return Unknown;
    }
    var v := value.value;
    var palette := Palettes[mode];
    PalettesWellFormed();
    var i := |palette| - 1;
    while i >= 0
      invariant -1 <= i < |palette|
      invariant ScanDown(palette, |palette|, v) == ScanDown(palette, i + 1, v)
    {
      if v >= palette[i].threshold {
        return palette[i].color;
      }
      i := i - 1;
    }
    return palette[0].color;
  }

  /**
   * Both palettes have six steps, start at 0, strictly increase, and do not
   * use the unknown colour.
   */
  lemma PalettesWellFormed()
    ensures Palettes.Keys == {"tabac", "vape"}
    ensures |TabacPalette| == 6 && |VapePalette| == 6
    ensures forall mode :: mode in Palettes ==> WellFormed(Palettes[mode])
    ensures forall mode :: mode in Palettes ==> Unknown !in ColorsOf(Palettes[mode])
  {
    assert Palettes["tabac"] == TabacPalette;
    assert Palettes["vape"] == VapePalette;
  }

  /** Buckets never go down as the value goes up. */
  lemma BucketMonotone(p: Palette, v1: real, v2: real)
    requires |p| > 0
    requires v1 <= v2
    ensures Bucket(p, v1) <= Bucket(p, v2)
  {
  }

  /**
   * On a well-formed palette a value v >= 0 lands on the step with the
   * greatest threshold not above v.
   */
  lemma BucketIsGreatestThreshold(p: Palette, v: real)
    requires WellFormed(p)
    requires v >= 0.0
    ensures p[Bucket(p, v)].threshold <= v
    ensures forall j :: 0 <= j < |p| && p[j].threshold <= v ==> p[j].threshold <= p[Bucket(p, v)].threshold
  {
  }

  /**
   * On a well-formed palette step i receives exactly the values from its
   * threshold (any value at all for the first step) up to, but not
   * including, the next step's threshold.
   */
  lemma BucketInterval(p: Palette, i: nat, v: real)
    requires WellFormed(p)
    requires i < |p|
    ensures Bucket(p, v) == i <==>
      (i == 0 || p[i].threshold <= v) && (i + 1 < |p| ==> v < p[i + 1].threshold)
  {
  }

  /** A value exactly at a threshold gets that step's colour. */
  lemma GetColorAtThreshold(mode: string, i: nat)
    requires mode in Palettes
    requires i < |Palettes[mode]|
    ensures GetColor(Some(Palettes[mode][i].threshold), mode) == Palettes[mode][i].color
  {
    PalettesWellFormed();
    BucketInterval(Palettes[mode], i, Palettes[mode][i].threshold);
  }

  /**
   * A present value gets the colour paired with the greatest threshold it
   * reaches; values between two thresholds get the lower one's colour.
   */
  lemma GetColorPicksGreatest(mode: string, v: real, i: nat)
    requires mode in Palettes
    requires i < |Palettes[mode]|
    requires Palettes[mode][i].threshold <= v
    requires i + 1 < |Palettes[mode]| ==> v < Palettes[mode][i + 1].threshold
    ensures GetColor(Some(v), mode) == Palettes[mode][i].color
  {
    PalettesWellFormed();
    BucketInterval(Palettes[mode], i, v);
  }

  /**
   * A value below every threshold (a negative one; in the source also NaN,
   * which fails every comparison) falls through to the first step's colour.
   */
  lemma GetColorBelowEveryThreshold(mode: string, v: real)
    requires mode in Palettes
    requires v < 0.0
    ensures GetColor(Some(v), mode) == Palettes[mode][0].color == "#222"
  {
    PalettesWellFormed();
    assert Palettes[mode][0].color == "#222";
  }

  /** Examples: tabac 19, 20, 31 and an absent value. */
  lemma TabacExamples()
    ensures GetColor(Some(19.0), "tabac") == "#222"
    ensures GetColor(Some(20.0), "tabac") == "#3a1008"
    ensures GetColor(Some(31.0), "tabac") == "#c23824"
    ensures GetColor(None, "tabac") == "#444"
  {
    assert Palettes["tabac"] == TabacPalette;
    GetColorPicksGreatest("tabac", 19.0, 0);
    GetColorPicksGreatest("tabac", 20.0, 1);
    GetColorPicksGreatest("tabac", 31.0, 5);
  }
}
