# DataSmoke regional maps: palette classifier, region resolver and map view state

This project models the map-colouring path of `carte.js`, the script behind
the two choropleth maps of French smoking (`tabac`) and vaping (`vape`)
rates. Each map widget has a view state (a year and a mode). Recolouring a
map resolves every region shape's percentage from the loaded JSON dataset
and turns it into a fill colour through a threshold palette.

- `palette.dfy` (module `Palette`): the two six-step palettes, the unknown
  colour `#444`, the specification of `getColor` as functions (`ScanDown`,
  `Bucket`, `GetColor`), and the source's descending loop as the method
  `GetColorScan`, proved equal to `GetColor`. Lemmas cover well-formedness
  of the palettes, monotonicity, the greatest-threshold property, bucket
  boundaries, the fall-through for values below every threshold, and the
  tabac examples 19, 20, 31 and an absent value.
- `regions.dfy` (module `Regions`): the dataset type, the static region map
  and the resolver `yearData[regionMap[code]]?.[mode]`.
- `carte.dfy` (module `Carte`): the class `Page`, holding `mapStates`, the
  shape ids of each map and each shape's fill. Its methods are
  `updateMapColors`, the mode assignment of the toggle handler, the whole
  toggle click on a loaded map, and the first render of both maps.
- `wrappers.dfy` (module `Wrappers`): `Option`, where `None` stands for a
  JavaScript `null` or `undefined`.

Percentages are `real`: the code only compares them with thresholds, and
never computes with them. Modes are strings, as in the buttons'
`data-mode` attributes.

The model follows carte.js as written, including these behaviours:

- A year missing from the dataset makes the colouring throw: `mapData[year]`
  is `undefined` and `yearData[name]` fails. So every member that reads a
  year requires it to be loaded, region by region (`Colorable`): a map with
  no shapes never reads it.
- `getColor` checks only for `null` and `undefined`. A NaN would fail every
  `>=` and fall through to the first step's colour (carte.js:77). JSON
  cannot carry NaN, so values are `Option<real>` and NaN is not a case of
  the model. `GetColorBelowEveryThreshold` states the same fall-through for
  negative values.
- An id missing from the region map does not stop the lookup. `regionMap[code]`
  is `undefined`, and `yearData[undefined]` reads the property named
  `"undefined"`. `RegionName` returns that key, and `Resolve` states what it
  reads. The "missing id is unknown" properties therefore assume the year
  has no region called `"undefined"`.

## Model

| member | source | states |
|---|---|---|
| `Palette.PalettesWellFormed` | carte.js:28-45 | The palette table has exactly the modes `tabac` and `vape`. Each palette has six steps, starts at threshold 0, has strictly increasing thresholds, and never uses the unknown colour `#444`. |
| `Palette.ScanDown` | carte.js:74-76 | The downward scan over the first n steps stops at an index whose threshold the value reaches, and every step above that index has a threshold above the value. It returns None exactly when the value is below all n thresholds. |
| `Palette.Bucket` | carte.js:74-77 | The bucket of a present value is the highest step whose threshold the value reaches. Every later step's threshold is above the value. If the value is below the bucket's own threshold, it is below every threshold and the bucket is the first step. |
| `Palette.GetColor` | carte.js:71-78 | The result is `#444` exactly when the value is absent. A present value always gets one of the mode's palette colours. |
| `Palette.GetColorScan` | carte.js:71-78 | The descending loop with early return, and its fall-back to `palette[0].color`, returns exactly what `GetColor` specifies. |
| `Palette.BucketMonotone` | carte.js:74-76 | For v1 <= v2, the bucket of v1 is no higher than the bucket of v2, on any non-empty palette. |
| `Palette.BucketIsGreatestThreshold` | carte.js:74-76 | On a well-formed palette, a value v >= 0 gets the step whose threshold is the greatest threshold <= v. |
| `Palette.BucketInterval` | carte.js:74-76 | On a well-formed palette, step i gets exactly the values from its threshold up to, but not including, the next threshold. The first step also gets every value below its threshold. Both directions are stated. |
| `Palette.GetColorAtThreshold` | carte.js:74-75 | A value exactly at a threshold gets that step's colour (boundary correctness). |
| `Palette.GetColorPicksGreatest` | carte.js:74-76 | A present value between the i-th threshold and the next one gets the i-th colour. |
| `Palette.GetColorBelowEveryThreshold` | carte.js:77 | A value below every threshold (any negative value) falls through to the first step's colour, `#222`, not to `#444`. |
| `Palette.TabacExamples` | carte.js:29-36 | In tabac mode: 19 gives `#222`, 20 gives `#3a1008`, 31 gives `#c23824`, and an absent value gives `#444`. |
| `Regions.Resolve` | carte.js:99-105 | With the year loaded, the value is absent in three cases: an unmapped shape id (when the year has no `"undefined"` region), a region missing from the year, or a mode missing for the region. Any present value is the dataset's value for the mapped region and mode. An unmapped id reads the year's `"undefined"` entry for the mode, as `yearData[undefined]` does, and is absent when that entry lacks the mode. |
| `Regions.RegionMapInjective` | carte.js:51-65 | No two shape ids map to the same region name, and no region is named `"undefined"`. |
| `Regions.ResolveFound` | carte.js:104-105 | When the year, the mapped region and the mode are all present, the resolver returns the dataset's entry, whether it is a number or `null`. |
| `Regions.BretagneExample` | carte.js:55 | For the dataset with only `2021 -> Bretagne -> tabac = 22.5`, `FR-BRE` resolves to 22.5 in tabac mode and to absent in vape mode. |
| `Carte.RegionFill` | carte.js:103-106 | A shape is filled `#444` exactly when its resolved value is absent. An unmapped shape id is filled `#444` when the year has no `"undefined"` region. |
| `Carte.MissingDataIsUnknown` | carte.js:103-106 | With the year loaded, a shape is filled `#444` when its region is missing from the year or lacks the mode, and when its id is unmapped provided the year has no `"undefined"` region. |
| `Carte.Page.constructor` | carte.js:16-19 | The page starts with `map2021` showing 2021/tabac, `map2023` showing 2023/tabac, and no shape filled yet. |
| `Carte.Page.UpdateMapColors` | carte.js:97-108 | Every shape of the map gets its own region's fill, `GetColor(Resolve(id))`, under the map's current year and mode. View states and every other map's fills are unchanged. |
| `Carte.Page.SetMode` | carte.js:174 | Only `mapStates[mapId].mode` changes. That map's year and every other map's state are kept. |
| `Carte.Page.OnToggle` | carte.js:170-181 | A toggle click on a loaded map sets only that map's mode, then recolours that map and no other. |
| `Carte.Page.InitMaps` | carte.js:212-220 | After the first render, both maps are coloured from their initial view states, and the view states are unchanged. |

## Left out

- Fetching the SVG and the JSON, `innerHTML` injection and the `dataset.loaded` flag (carte.js:113-124, 212-213) are asynchronous I/O. The dataset and each map's shape ids are parameters of `Page`. `OnToggle` and `InitMaps` model `renderMap` on a map whose SVG is already loaded.
- Tooltips, hover opacity and event wiring (carte.js:83-92, 133-155), and the active-button class toggle (carte.js:176-178), are DOM presentation.
- Legend markup (carte.js:188-207) is a static HTML string.
- script.js is not part of this model. It holds constant chart data passed to an external charting library, plus a DOM toggle.
- IEEE doubles and NaN are not modelled. Values are `real` or absent (see above).
- Exceptions are not modelled as results. Where the source throws (a missing year, a palette looked up for an unknown mode with a present value, an unknown map id), the model turns the condition into a precondition. The partial colouring that happens before a throw inside `forEach` is not captured.
- Inherited JavaScript object properties used as keys (`constructor`, `__proto__`, ...) are not modelled. A shape without an `id` attribute is looked up as `"null"`, which is just another id missing from the region map.
