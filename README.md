# celltowermap core in Dafny

This project models the logic inside the two scripts of the Swiss cell-tower map:

- **celldataconvert.py** reprojects every antenna site of the federal dataset
  from LV95 (CH1903+) to WGS84. It uses swisstopo's approximate polynomial.
  It reduces each feature to a record holding `coordinates` as `[lat, lon]`,
  the operator (the station name's first space-delimited token), the
  technology, and a power class. The power class comes from an
  `if/elif` chain over the lowercased power text.
- **main.py** walks those records in file order and declutters the markers.
  It keeps an insertion-ordered table `points_tracker` that maps an anchor
  position to `(count, last_direction)`. A record lying strictly within
  `tolerance` (0.001) of an anchor is nudged. The first such anchor, in
  insertion order, decides the nudge: down by 0.0002 or right by 0.0002,
  alternating. Any other record becomes a new anchor at its unshifted
  position. Each marker also gets a colour from the first token of the
  operator name, an icon digit from the newest generation named in the
  technology text, and an operator layer chosen by substring.

Modules:

- `Options` holds `Option`.
- `Text` holds the string operations both scripts use: Python's `in`,
  `split(' ')[0]`, `lower()`, and the "first keyword that occurs wins" rule.
- `CellDataConvert` models celldataconvert.py.
- `CellTowerMap` models main.py.

The declutter table is a `seq<Entry>`, because a Dafny `map` has no
insertion order. Each `Entry` holds an anchor, a count and a `Direction`
(`None | Down | Right`, for `''`, `'down'` and `'right'`).

The specification functions `FirstNear`, `Nudge`, `Place` and `Declutter` give the
meaning of the pass. The methods `PlaceCell` and `PlaceMarkers` are the
imperative loops: the scan with `break`, and the cell loop. Both are proved
equal to those functions. The lemmas then prove the pass's invariants on the
functions. Coordinates are `real`.

At the LV95 origin (easting 2600000, northing 1200000) the formula gives
lat = 16.9023892 · 100/36 = 46.95108… and lon = 2.6779094 · 100/36 =
7.43864…. `LV95Origin` proves these exact values and the bounds
46.9510 < lat < 46.9512 and 7.4386 < lon < 7.4387.

## Model

| member | source | states |
|---|---|---|
| `Text.Contains` | celldataconvert.py:36-43 | Python's `pat in s`: a pattern that is a prefix of the text occurs in it, and an occurring pattern is no longer than the text. `ContainsIffOccurs` proves it is exactly "some slice of `s` equals `pat`" |
| `Text.ContainsIffOccurs` | celldataconvert.py:36 | `Contains(s, pat)` holds exactly when `pat` is one of the slices of `s`, which is what Python's `pat in s` means |
| `Text.FirstToken` | celldataconvert.py:32 | `split(' ')[0]` is a prefix of the name with no space in it, and the name continues with a space right after it when it is shorter than the name |
| `Text.FirstTokenOfToken` | main.py:34 | a text without a space is its own first token, so splitting it again changes nothing |
| `Text.FirstContained` | celldataconvert.py:36-43 | the reference for a priority chain: the index of the first keyword that occurs, no earlier keyword occurs, and `|keys|` when none does |
| `Text.LowerChar` | celldataconvert.py:34 | lowering never leaves an ASCII capital, turns `A`-`Z` into `a`-`z`, and moves a character by 32 code points or not at all. A character changes exactly when it is an ASCII capital or a Latin-1 capital U+00C0-U+00DE other than U+00D7; every other character, the space included, is kept |
| `Text.Lower` | celldataconvert.py:34 | `lower()` keeps the length and lowers every character on its own |
| `Text.LowerIdempotent` | celldataconvert.py:34 | lowering a lowered text changes nothing |
| `CellDataConvert.LV95ToWGS` | celldataconvert.py:4-18 | `LV95toWGS` returns latitude first, and at the origin it gives the two constant terms times 100/36. `LV95Origin`, `LatitudeEvenInEasting` and `LongitudeOddInEasting` state its other properties |
| `CellDataConvert.LV95Origin` | celldataconvert.py:9-18 | easting 2600000 and northing 1200000 map exactly to (16.9023892·100/36, 2.6779094·100/36), latitude first, that is about (46.9511, 7.4386) |
| `CellDataConvert.LatitudeEvenInEasting` | celldataconvert.py:15-16 | latitude is unchanged when the easting is reflected about 2600000 |
| `CellDataConvert.LongitudeOddInEasting` | celldataconvert.py:12-13 | longitude minus 2.6779094·100/36 changes sign when the easting is reflected about 2600000 |
| `CellDataConvert.ClassifyPower` | celldataconvert.py:36-43 | a class is returned only when it occurs in the text. Any other result is the text itself, and so is the result when no class occurs. `ClassifyPowerPriority` and `ClassifyPowerIdempotent` state the first-match rule and idempotence |
| `CellDataConvert.ClassifyPowerPriority` | celldataconvert.py:36-43 | the power class is the first of 'très faible', 'faible', 'moyenne', 'forte' that occurs in the lowercased text (`FirstMatchOrSelf` over `FirstContained`), and the text itself when none occurs |
| `CellDataConvert.ClassifyPowerIdempotent` | celldataconvert.py:36-43 | classifying an already classified text gives the same text |
| `CellDataConvert.ToCellTower` | celldataconvert.py:31-50 | a record stores `[lat, lon]` from the projection in that order. Its operator is a prefix of the station name with no space that ends at the first space. The technology is copied. The power is the first power class, in chain order, that occurs in the lowercased power text, or that text itself when none occurs |
| `CellDataConvert.ConvertFeatures` | celldataconvert.py:25-52 | the dataset is named `celltowerdataset` and has exactly one record per feature, in feature order |
| `CellTowerMap.SquaredDistance` | main.py:55-57 | the squared Euclidean distance is never negative |
| `CellTowerMap.DistanceSymmetric` | main.py:55-57 | the distance is symmetric in its two points |
| `CellTowerMap.DistanceToItself` | main.py:55-57 | the distance of a point to itself is zero |
| `CellTowerMap.SquareRootComparison` | main.py:57-60 | for the non-negative root of a square, `root >= tolerance` iff `square >= tolerance²`, so comparing squares is the source's `sqrt(...) < tolerance` test |
| `CellTowerMap.Near` | main.py:88 | `calculate_distance(...) < tolerance` on squares: a point is near itself, and a near point differs in latitude by less than the tolerance. `NearIsRootTest`, `SquareRootComparison`, `NearSymmetric` and `NearItself` state the rest |
| `CellTowerMap.NearIsRootTest` | main.py:57-88 | for the exact square root of the squared distance, `Near` holds iff that root is below the tolerance, which is the source's test |
| `CellTowerMap.NearSymmetric` | main.py:88 | the proximity test does not depend on argument order |
| `CellTowerMap.NearItself` | main.py:88 | every point is within tolerance of itself |
| `CellTowerMap.WeightAtLeastLength` | main.py:87-101 | the sum of `1 + count` over the table is at least its number of entries |
| `CellTowerMap.WeightBump` | main.py:97 | raising one entry's count by one raises the sum of `1 + count` by exactly one |
| `CellTowerMap.FirstNear` | main.py:87-98 | the scan returns the first entry, in insertion order, whose anchor is strictly within tolerance. No earlier anchor is. It returns the table size when none is |
| `CellTowerMap.Nudge` | main.py:90-95 | the recorded direction is the move made: `Down` goes one step down, `Right` one step right, and `None` leaves the cell in place. `NudgeMoves` states the alternation |
| `CellTowerMap.NudgeMoves` | main.py:90-95 | from any of the three valid entry states the cell moves one step down or one step right, and the bumped entry is again valid, so the fall-through branch never runs. The move is down, and the new direction `Down`, exactly when the entry's count is even, so the moves alternate |
| `CellTowerMap.Place` | main.py:87-101 | one cell adds at most one entry and never moves an existing anchor. `PlaceEffect`, `PlaceDisplacement` and `PlacePreservesTrackerOk` state the rest |
| `CellTowerMap.PlaceEffect` | main.py:87-101 | one cell never moves an anchor and never reorders entries. When no anchor is near, the table becomes the old table followed by `(p, 0, None)`, and `p` is not an existing key. Otherwise it changes only the first near entry, whose count goes up by one. The weight grows by one |
| `CellTowerMap.PlaceDisplacement` | main.py:84-101 | on a valid table a cell keeps its position exactly when no anchor is near. Otherwise it moves by exactly one of (−0.0002, 0) and (0, +0.0002), and it moves down exactly when the first near entry's count before the step is even |
| `CellTowerMap.PlacePreservesTrackerOk` | main.py:87-101 | each cell keeps the table valid: every entry is `(0, None)`, odd with `Down`, or even ≥ 2 with `Right`, and anchors are pairwise not within tolerance |
| `CellTowerMap.Declutter` | main.py:80-101 | the pass yields one position per cell and at most one table entry per cell |
| `CellTowerMap.DeclutterStep` | main.py:81-101 | the pass over the first `i + 1` cells is the pass over the first `i` followed by one `Place` |
| `CellTowerMap.DeclutterPrefix` | main.py:81-101 | the pass is a left-to-right scan: the first `k` positions do not depend on later cells |
| `CellTowerMap.DeclutterTracker` | main.py:76-101 | after `n` cells the table is valid, the sum of `1 + count` over it is `n`, and it has at most `n` entries |
| `CellTowerMap.DeclutterDisplacement` | main.py:77-101 | every cell ends at its own position, one step down or one step right. It stays put exactly when no earlier anchor is near it. When one is, it moves down exactly when that anchor's count before it is even |
| `CellTowerMap.CopiesAlternate` | main.py:87-101 | four copies of a point end unchanged, down, right, down. All four are counted on the first copy's entry `(3, Down)` |
| `CellTowerMap.FarPointsStay` | main.py:87-101 | two points a degree of latitude apart are both left unchanged |
| `CellTowerMap.Colour` | main.py:34 | the colour is one of the table's colours or `black`. `ColourDefault`, `ColourAgreesWithLayer` and `ColourOfConvertedRecord` state which one |
| `CellTowerMap.ColourDefault` | main.py:34 | a station whose first token is not Swisscom, Sunrise or Salt gets `black` |
| `CellTowerMap.IconPrefix` | main.py:35-41 | the icon is one of the digits 5, 4, 3, 2, and there is no icon exactly when none of 5G, 4G, 3G, 2G occurs. `IconPrefixPriority` states the priority |
| `CellTowerMap.IconPrefixPriority` | main.py:35-41 | the icon is the digit of the first of 5G, 4G, 3G, 2G that occurs in the technology text, and no icon when none occurs |
| `CellTowerMap.LayerOf` | main.py:112-117 | a layer is chosen only when its operator name occurs in the station name, and there is no layer exactly when none of the three occurs. `LayerPriority` states the priority |
| `CellTowerMap.LayerPriority` | main.py:112-117 | the layer is the first of Swisscom, Sunrise, Salt that occurs anywhere in the station name, and no layer when none occurs |
| `CellTowerMap.ColourAgreesWithLayer` | main.py:29-34 | a station named exactly Swisscom, Sunrise or Salt gets that operator's colour from the table and joins that operator's layer |
| `CellTowerMap.ColourOfConvertedRecord` | main.py:34 | the colour looked up from a converted record's operator is the colour of the original station name, because re-splitting the first token is a no-op |
| `CellTowerMap.Positions` | main.py:82 | one position per record, in record order, each the record's `coordinates` read as `(lat, lon)` |
| `CellTowerMap.MarkerFor` | main.py:103-109 | the marker sits at the settled location, its icon is one of the generation digits, and it has no layer exactly when no operator name occurs in its station |
| `CellTowerMap.MarkersForAt` | main.py:103-109 | the i-th marker is built from the i-th record and the i-th final position |
| `CellTowerMap.PlaceCell` | main.py:82-101 | the scan with `break`, followed by the nudge or the registration, gives exactly the position and table of `Place` |
| `CellTowerMap.PlaceMarkers` | main.py:81-117 | the cell loop returns the table of `Declutter` and one marker per record, in order. Each marker has the record's final position, its text fields, its colour, its icon and its layer |

## Left out

- Map rendering with folium is not modelled: the map, the `folium.Icon`
  object, popups and their HTML, the `MarkerCluster` objects, `LayerControl`
  and the footer script (main.py:42-53, main.py:63-69, main.py:119-148).
  A marker is a value that records its layer. Adding it to a cluster is not
  modelled.
- Reading and writing the JSON files is not modelled (main.py:72-73,
  celldataconvert.py:22-23, celldataconvert.py:55-56). The converter takes
  the features as a sequence and returns the dataset value.
- IEEE-754 doubles and `math.sqrt` are not modelled. Arithmetic is exact
  over `real`. The proximity test compares squared distance with
  `tolerance * tolerance`, and `SquareRootComparison` shows this is the same
  test. Bit-exact results are out of scope.
- The `isinstance` check that raises `ValueError` (celldataconvert.py:6-7)
  is not modelled. The arguments are typed `real`, so that error cannot
  arise.
- Lower: models `str.lower()` only for ASCII `A`-`Z` and for the Latin-1
  capitals U+00C0-U+00DE other than U+00D7. Other characters are kept as
  they are. Python's full Unicode case mapping is not modelled.
- A feature's geometry is exactly an easting and a northing, and a record's
  `coordinates` is a two-element sequence. The Python unpacking fails on any
  other length, and that failure is not modelled.
- `CellTowerMap.PlaceCell` is the loop body of main.py:84-101 written as a
  method of its own. Python updates `lat_WGS`, `lon_WGS` and the
  dictionary in place. The model returns the new values instead.
