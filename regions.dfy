/**
 * The region value resolver of carte.js: an SVG shape id is mapped to the
 * dataset's region name, and the region's percentage for a year and a mode
 * is read from the loaded dataset.
 */
module Regions {
  import opened Wrappers

  /**
   * The loaded JSON dataset: year -> region name -> mode -> percentage.
   * A key that is present with a JSON `null` value maps to None.
   */
  type Dataset = map<string, map<string, map<string, Option<real>>>>

  /** SVG shape id -> the region name the dataset uses. */
  const RegionMap: map<string, string> := map[
    "FR-IDF" := "Île-de-France",
    "FR-HDF" := "Hauts-de-France",
    "FR-NOR" := "Normandie",
    "FR-BRE" := "Bretagne",
    "FR-GES" := "Grand-Est",
    "FR-PDL" := "Pays-de-la-Loire",
    "FR-CVL" := "Centre-Val-de-Loire",
    "FR-BFC" := "Bourgogne-Franche-Comté",
    "FR-NAQ" := "Nouvelle-Aquitaine",
    "FR-ARA" := "Auvergne-Rhône-Alpes",
    "FR-OCC" := "Occitanie",
    "FR-PAC" := "Provence-Alpes-Côte d'Azur",
    "FR-COR" := "Corse"
  ]

  /**
   * The property key a JavaScript object lookup uses when the key is
   * `undefined`: an id the region map lacks reads this key of the year.
   */
  const UndefinedKey := "undefined"

  /** The key `yearData[regionMap[code]]` reads. */
  function RegionName(code: string): string
  {
    if code in RegionMap then RegionMap[code] else UndefinedKey
  }

  /**
   * `yearData[name]?.[mode]` with `yearData = mapData[year]`: the year
   * must be present (the source throws otherwise); an unmapped id, a
   * region the year lacks or a mode the region lacks is absent.
   */
  function Resolve(data: Dataset, year: string, mode: string, code: string): (r: Option<real>)
    requires year in data
    ensures code !in RegionMap && UndefinedKey !in data[year] ==> r == None
    ensures code in RegionMap && RegionMap[code] !in data[year] ==> r == None
    ensures code in RegionMap && RegionMap[code] in data[year] && mode !in data[year][RegionMap[code]] ==> r == None
    ensures code in RegionMap && r.Some? ==> r == data[year][RegionMap[code]][mode]
    ensures code !in RegionMap && UndefinedKey in data[year] && mode in data[year][UndefinedKey] ==>
      r == data[year][UndefinedKey][mode]
    ensures code !in RegionMap && UndefinedKey in data[year] && mode !in data[year][UndefinedKey] ==> r == None
  {
    var yearData := data[year];
    var name := RegionName(code);
    if name in yearData && mode in yearData[name] then yearData[name][mode] else None
  }

  /** Every shape id maps to a different region name. */
  lemma RegionMapInjective()
    ensures forall c1, c2 :: c1 in RegionMap && c2 in RegionMap && c1 != c2 ==> RegionMap[c1] != RegionMap[c2]
    ensures UndefinedKey !in RegionMap.Values
  {
  }

  /**
   * Reading a value that the dataset holds for a mapped region gives that
   * value back.
   */
  lemma ResolveFound(data: Dataset, year: string, mode: string, code: string)
    requires year in data
    requires code in RegionMap
    requires RegionMap[code] in data[year] && mode in data[year][RegionMap[code]]
    ensures Resolve(data, year, mode, code) == data[year][RegionMap[code]][mode]
  {
  }

  /** Example: a dataset holding only 2021 -> Bretagne -> tabac = 22.5. */
  lemma BretagneExample()
    ensures var data: Dataset := map["2021" := map["Bretagne" := map["tabac" := Some(22.5)]]];
      && Resolve(data, "2021", "tabac", "FR-BRE") == Some(22.5)
      && Resolve(data, "2021", "vape", "FR-BRE") == None
  {
    var data: Dataset := map["2021" := map["Bretagne" := map["tabac" := Some(22.5)]]];
    assert RegionMap["FR-BRE"] == "Bretagne";
    ResolveFound(data, "2021", "tabac", "FR-BRE");
  }
}
