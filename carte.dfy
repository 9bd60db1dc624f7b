/**
 * The per-map view state of carte.js (`mapStates`) and the recolouring of
 * a map's region shapes (`updateMapColors`, the Tabac/Vape toggle).
 */
module Carte {
  import opened Wrappers
  import opened Palette
  import opened Regions

  /** The year and mode one map widget shows. */
  datatype ViewState = ViewState(year: string, mode: string)

  /** The fill `updateMapColors` gives the shape with this id. */
  function RegionFill(data: Dataset, s: ViewState, code: string): (c: string)
    requires s.year in data
    requires Resolve(data, s.year, s.mode, code).None? || s.mode in Palettes
    ensures c == Unknown <==> Resolve(data, s.year, s.mode, code).None?
    ensures code !in RegionMap && UndefinedKey !in data[s.year] ==> c == Unknown
  {
    GetColor(Resolve(data, s.year, s.mode, code), s.mode)
  }

  /**
   * Colouring these shapes under this view state throws nowhere: the year
   * is loaded, and every region with a value has a palette for the mode.
   */
  predicate Colorable(data: Dataset, s: ViewState, codes: seq<string>)
  {
    forall k :: 0 <= k < |codes| ==>
      s.year in data && (Resolve(data, s.year, s.mode, codes[k]).None? || s.mode in Palettes)
  }

  /** The states `mapStates` starts from. */
  const InitialStates: map<string, ViewState> := map[
    "map2021" := ViewState("2021", "tabac"),
    "map2023" := ViewState("2023", "tabac")
  ]

  /**
   * The page: the loaded dataset, the region shape ids of each map's SVG
   * (in document order), each map's view state and each shape's fill.
   */
  class Page {
    const data: Dataset
    const shapes: map<string, seq<string>>
    var mapStates: map<string, ViewState>
    /** None until `updateMapColors` has set the shape's `style.fill`. */
    var fills: map<string, seq<Option<string>>>

    ghost predicate Valid()
      reads this
    {
      && fills.Keys == shapes.Keys
      && forall m :: m in shapes ==> |fills[m]| == |shapes[m]|
    }

    constructor (data: Dataset, shapes: map<string, seq<string>>)
      ensures Valid()
      ensures this.data == data && this.shapes == shapes
      ensures mapStates == InitialStates
      ensures forall m :: m in shapes ==> forall k :: 0 <= k < |shapes[m]| ==> fills[m][k] == None
    {
      this.data := data;
      this.shapes := shapes;
      mapStates := InitialStates;
      fills := map m | m in shapes :: seq(|shapes[m]|, _ => None);
    }

    /**
     * updateMapColors: every shape of map `mapId` is filled with the colour
     * of its own region under the map's year and mode; the view states and
     * every other map's fills stay as they were.
     */
    method UpdateMapColors(mapId: string)
      requires Valid()
      requires mapId in mapStates && mapId in shapes
      requires Colorable(data, mapStates[mapId], shapes[mapId])
      modifies this
      ensures Valid()
      ensures mapStates == old(mapStates)
      ensures forall k :: 0 <= k < |shapes[mapId]| ==>
        fills[mapId][k] == Some(RegionFill(data, mapStates[mapId], shapes[mapId][k]))
      ensures forall m :: m in shapes && m != mapId ==> fills[m] == old(fills[m])
    {
      var s := mapStates[mapId];
      var codes := shapes[mapId];
      var i := 0;
      while i < |codes|
        invariant 0 <= i <= |codes|
        invariant Valid()
        invariant mapStates == old(mapStates)
        invariant forall k :: 0 <= k < i ==> fills[mapId][k] == Some(RegionFill(data, s, codes[k]))
        invariant forall m :: m in shapes && m != mapId ==> fills[m] == old(fills[m])
      {
        var value := Resolve(data, s.year, s.mode, codes[i]);
        var color := GetColorScan(value, s.mode);
        fills := fills[mapId := fills[mapId][i := Some(color)]];
        i := i + 1;
      }
    }

    /**
     * The assignment `mapStates[mapId].mode = mode` of the toggle handler:
     * only that map's mode changes.
     */
    method SetMode(mapId: string, mode: string)
      requires mapId in mapStates
      modifies this`mapStates
      ensures mapStates.Keys == old(mapStates.Keys)
      ensures mapStates[mapId] == ViewState(old(mapStates[mapId].year), mode)
      ensures forall m :: m in old(mapStates) && m != mapId ==> mapStates[m] == old(mapStates[m])
    {
      mapStates := mapStates[mapId := mapStates[mapId].(mode := mode)];
    }

    /**
     * A click on a Tabac/Vape button of an already loaded map: set the
     * map's mode, then recolour that map.
     */
    method OnToggle(mapId: string, mode: string)
      requires Valid()
      requires mapId in mapStates && mapId in shapes
      requires Colorable(data, ViewState(mapStates[mapId].year, mode), shapes[mapId])
      modifies this
      ensures Valid()
      ensures mapStates.Keys == old(mapStates.Keys)
      ensures mapStates[mapId] == ViewState(old(mapStates[mapId].year), mode)
      ensures forall m :: m in old(mapStates) && m != mapId ==> mapStates[m] == old(mapStates[m])
      ensures forall k :: 0 <= k < |shapes[mapId]| ==>
        fills[mapId][k] == Some(RegionFill(data, mapStates[mapId], shapes[mapId][k]))
      ensures forall m :: m in shapes && m != mapId ==> fills[m] == old(fills[m])
    {
      SetMode(mapId, mode);
      UpdateMapColors(mapId);
    }

    /**
     * The first render of both maps once the dataset is loaded: each map
     * is coloured from its initial view state.
     */
    method InitMaps()
      requires Valid()
      requires mapStates == InitialStates
      requires "map2021" in shapes && "map2023" in shapes
      requires Colorable(data, InitialStates["map2021"], shapes["map2021"])
      requires Colorable(data, InitialStates["map2023"], shapes["map2023"])
      modifies this
      ensures Valid()
      ensures mapStates == InitialStates
      ensures forall m :: m in InitialStates ==> forall k :: 0 <= k < |shapes[m]| ==>
        fills[m][k] == Some(RegionFill(data, InitialStates[m], shapes[m][k]))
      ensures forall m :: m in shapes && m !in InitialStates ==> fills[m] == old(fills[m])
    {
      UpdateMapColors("map2021");
      UpdateMapColors("map2023");
    }
  }

  /**
   * With the year loaded, a shape whose id the region map lacks, whose
   * region the year lacks, or whose region lacks the mode is filled with
   * the unknown colour.
   */
  lemma MissingDataIsUnknown(data: Dataset, s: ViewState, code: string)
    requires s.year in data
    requires code !in RegionMap ==> UndefinedKey !in data[s.year]
    requires || code !in RegionMap
             || RegionMap[code] !in data[s.year]
             || s.mode !in data[s.year][RegionMap[code]]
    ensures RegionFill(data, s, code) == Unknown
  {
    if code in RegionMap && RegionMap[code] in data[s.year] {
      assert s.mode !in data[s.year][RegionMap[code]];
    }
  }
}
