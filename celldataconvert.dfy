/**
 * The conversion script: reproject each antenna site of the federal
 * dataset from Swiss LV95 (CH1903+) coordinates to WGS84, and reduce each
 * feature to a cell-tower record of coordinates, operator, technology and
 * power class.
 */
module CellDataConvert {
  import opened Text

  // ---------------------------------------------------------------------
  // LV95 -> WGS84 (the approximate formulas published by swisstopo)
  // ---------------------------------------------------------------------

  /** LV95 coordinates of the projection origin (the old observatory of Bern). */
  const OriginEasting: real := 2600000.0
  const OriginNorthing: real := 1200000.0

  /** Factor taking the formulas' unit of 10000 arc-seconds to degrees. */
  const ToDegrees: real := 100.0 / 36.0

  /**
   * `LV95toWGS(easting, northing)`: latitude and longitude, in degrees and
   * in that order, of an LV95 point.
   */
  function LV95ToWGS(easting: real, northing: real): (r: (real, real))
    ensures easting == OriginEasting && northing == OriginNorthing ==>
      r == (16.9023892 * ToDegrees, 2.6779094 * ToDegrees)
  {
    var east := (easting - OriginEasting) / 1000000.0;
    var north := (northing - OriginNorthing) / 1000000.0;
    var lon := 2.6779094 + 4.728982 * east + 0.791484 * east * north
               + 0.1306 * east * north * north - 0.0436 * east * east * east;
    var lat := 16.9023892 + 3.238272 * north - 0.270978 * east * east
               - 0.002528 * north * north - 0.0447 * east * east * north
               - 0.0140 * north * north * north;
    (lat * ToDegrees, lon * ToDegrees)
  }

  /** The origin maps to the two constant terms of the formulas, latitude first. */
  lemma LV95Origin()
    ensures LV95ToWGS(OriginEasting, OriginNorthing) == (16.9023892 * ToDegrees, 2.6779094 * ToDegrees)
    ensures var (lat, lon) := LV95ToWGS(OriginEasting, OriginNorthing);
      46.9510 < lat < 46.9512 && 7.4386 < lon < 7.4387
  {
  }

  /** Latitude is even in the easting offset: `east` occurs only squared. */
  lemma {:induction false} LatitudeEvenInEasting(offset: real, northing: real)
    ensures LV95ToWGS(OriginEasting + offset, northing).0 == LV95ToWGS(OriginEasting - offset, northing).0
  {
    var e := offset / 1000000.0;
    assert (OriginEasting + offset - OriginEasting) / 1000000.0 == e;
    assert (OriginEasting - offset - OriginEasting) / 1000000.0 == -e;
    assert (-e) * (-e) == e * e;
  }

  /** Longitude minus its constant term is odd in the easting offset: every `east` term has odd degree. */
  lemma {:induction false} LongitudeOddInEasting(offset: real, northing: real)
    ensures LV95ToWGS(OriginEasting + offset, northing).1 - 2.6779094 * ToDegrees
         == -(LV95ToWGS(OriginEasting - offset, northing).1 - 2.6779094 * ToDegrees)
  {
    var e := offset / 1000000.0;
    assert (OriginEasting + offset - OriginEasting) / 1000000.0 == e;
    assert (OriginEasting - offset - OriginEasting) / 1000000.0 == -e;
    assert (-e) * (-e) * (-e) == -(e * e * e);
  }

  // ---------------------------------------------------------------------
  // Categorisation of a feature's text fields
  // ---------------------------------------------------------------------

  /** The power classes, in the order the chain tests them. */
  const PowerClasses: seq<string> := ["très faible", "faible", "moyenne", "forte"]

  /**
   * The `if/elif` chain over the lowercased power descriptor: a class that
   * occurs in the text replaces it; a text with none is kept unchanged.
   */
  function ClassifyPower(lowered: string): (r: string)
    ensures r in PowerClasses ==> Contains(lowered, r)
    ensures r !in PowerClasses ==> r == lowered
    ensures (forall k :: 0 <= k < |PowerClasses| ==> !Contains(lowered, PowerClasses[k])) ==> r == lowered
  {
    if Contains(lowered, "très faible") then "très faible"
    else if Contains(lowered, "faible") then "faible"
    else if Contains(lowered, "moyenne") then "moyenne"
    else if Contains(lowered, "forte") then "forte"
    else lowered
  }

  /**
   * First match wins: the result is the first class of `PowerClasses` that
   * occurs in the text, or the text itself when none does.
   */
  lemma ClassifyPowerPriority(lowered: string)
    ensures FirstMatchOrSelf(lowered, PowerClasses, ClassifyPower(lowered))
  {
    assert PowerClasses[1..][1..][1..] == ["forte"];
    if !Contains(lowered, "très faible") && !Contains(lowered, "faible") {
      assert FirstContained(lowered, PowerClasses) == 2 + FirstContained(lowered, PowerClasses[1..][1..]);
    }
  }

  /** Classifying an already classified descriptor changes nothing. */
  lemma ClassifyPowerIdempotent(lowered: string)
    ensures ClassifyPower(ClassifyPower(lowered)) == ClassifyPower(lowered)
  {
    var r := ClassifyPower(lowered);
    ContainsItself(r);
    if r == "faible" || r == "moyenne" || r == "forte" {
      ContainsShorter(r, "très faible");
    }
    if r == "moyenne" {
      assert r[0] != 'f' && r[1] != 'f';
      ContainsShorter(r[1..][1..], "faible");
      assert !Contains(r, "faible");
    }
    if r == "forte" {
      ContainsShorter(r, "faible");
      ContainsShorter(r, "moyenne");
    }
  }

  // ---------------------------------------------------------------------
  // Features and cell-tower records
  // ---------------------------------------------------------------------

  /** The fields of one dataset feature the script reads. */
  datatype Feature = Feature(easting: real, northing: real, station: string, technoFr: string, powerFr: string)

  /** A JSON `[lat, lon]` pair. */
  type Coordinates = c: seq<real> | |c| == 2 witness [0.0, 0.0]

  /** One entry of the `celltowers` list. */
  datatype CellTower = CellTower(coordinates: Coordinates, operator: string, technology: string, power: string)

  /** The dataset written out: its fixed name and the records in feature order. */
  datatype Dataset = Dataset(name: string, celltowers: seq<CellTower>)

  const DatasetName: string := "celltowerdataset"

  /** The record the loop body builds for one feature. */
  function ToCellTower(f: Feature): (t: CellTower)
    ensures (t.coordinates[0], t.coordinates[1]) == LV95ToWGS(f.easting, f.northing)
    ensures t.operator <= f.station && ' ' !in t.operator
    ensures |t.operator| < |f.station| ==> f.station[|t.operator|] == ' '
    ensures t.technology == f.technoFr
    ensures FirstMatchOrSelf(Lower(f.powerFr), PowerClasses, t.power)
  {
    ClassifyPowerPriority(Lower(f.powerFr));
    var (lat, lon) := LV95ToWGS(f.easting, f.northing);
    CellTower([lat, lon], FirstToken(f.station), f.technoFr, ClassifyPower(Lower(f.powerFr)))
  }

  /** The feature loop: one record per feature, appended in feature order. */
  method ConvertFeatures(features: seq<Feature>) returns (d: Dataset)
    ensures d.name == DatasetName
    ensures |d.celltowers| == |features|
    ensures forall i :: 0 <= i < |features| ==> d.celltowers[i] == ToCellTower(features[i])
  {
    var celltowers: seq<CellTower> := [];
    for i := 0 to |features|
      invariant |celltowers| == i
      invariant forall k :: 0 <= k < i ==> celltowers[k] == ToCellTower(features[k])
    {
      var tower := ToCellTower(features[i]);
      celltowers := celltowers + [tower];
    }
    d := Dataset(DatasetName, celltowers);
  }
}
