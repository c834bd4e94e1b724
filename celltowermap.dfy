/**
 * The map script: walk the cell-tower records in file order, nudge every
 * tower that lies within `Tolerance` of an earlier anchor so that markers do
 * not overlap, and choose each marker's colour, technology icon and
 * operator layer.
 */
module CellTowerMap {
  import opened Text
  import opened CellDataConvert
  import Options

  // ---------------------------------------------------------------------
  // Distance
  // ---------------------------------------------------------------------

  /** A geographic position, latitude first. */
  datatype LatLon = LatLon(lat: real, lon: real)

  /**
   * `calculate_distance` squared: the plain Euclidean distance between two
   * points in degree units, before the square root is taken.
   */
  function SquaredDistance(lat1: real, lon1: real, lat2: real, lon2: real): (d: real)
    ensures d >= 0.0
  {
    (lat2 - lat1) * (lat2 - lat1) + (lon2 - lon1) * (lon2 - lon1)
  }

  lemma DistanceSymmetric(lat1: real, lon1: real, lat2: real, lon2: real)
    ensures SquaredDistance(lat1, lon1, lat2, lon2) == SquaredDistance(lat2, lon2, lat1, lon1)
  {
  }

  lemma DistanceToItself(lat: real, lon: real)
    ensures SquaredDistance(lat, lon, lat, lon) == 0.0
  {
  }

  /** Proximity tolerance between two antennas, in degrees. */
  const Tolerance: real := 0.001

  /**
   * `calculate_distance(p, anchor) < tolerance`. The comparison is made on
   * squares, which `SquareRootComparison` shows is the same test.
   */
  predicate Near(p: LatLon, anchor: LatLon): (r: bool)
    ensures p == anchor ==> r
    ensures r ==> (p.lat - anchor.lat) * (p.lat - anchor.lat) < Tolerance * Tolerance
  {
    assert (p.lon - anchor.lon) * (p.lon - anchor.lon) >= 0.0;
    SquaredDistance(p.lat, p.lon, anchor.lat, anchor.lon) < Tolerance * Tolerance
  }

  /**
   * For the non-negative square root `root` of `square`: `root >= Tolerance`
   * iff `square >= Tolerance * Tolerance`, so `root < Tolerance` iff
   * `square < Tolerance * Tolerance`.
   */
  lemma {:induction false} SquareRootComparison(root: real, square: real)
    requires root >= 0.0 && root * root == square
    ensures root >= Tolerance <==> square >= Tolerance * Tolerance
  {
    if root < Tolerance {
      var gap := Tolerance - root;
      assert square == Tolerance * Tolerance - gap * (Tolerance + root);
      assert gap * (Tolerance + root) > 0.0;
    } else {
      assert root * root >= Tolerance * root;
      assert Tolerance * root >= Tolerance * Tolerance;
    }
  }

  /** `Near` is the source's test `calculate_distance(p, anchor) < tolerance`, for the exact square root. */
  lemma NearIsRootTest(p: LatLon, anchor: LatLon, root: real)
    requires root >= 0.0 && root * root == SquaredDistance(p.lat, p.lon, anchor.lat, anchor.lon)
    ensures Near(p, anchor) <==> root < Tolerance
  {
    SquareRootComparison(root, SquaredDistance(p.lat, p.lon, anchor.lat, anchor.lon));
  }

  lemma NearSymmetric(p: LatLon, q: LatLon)
    ensures Near(p, q) <==> Near(q, p)
  {
    DistanceSymmetric(p.lat, p.lon, q.lat, q.lon);
  }

  /** Every point is near itself, so no point can be registered twice. */
  lemma NearItself(p: LatLon)
    ensures Near(p, p)
  {
    DistanceToItself(p.lat, p.lon);
  }

  // ---------------------------------------------------------------------
  // The tracker: an insertion-ordered table anchor -> (count, direction)
  // ---------------------------------------------------------------------

  /** `last_direction`: `''`, `'down'` or `'right'`. */
  datatype Direction = None | Down | Right

  /** One `points_tracker` item: the anchor key and its `(count, last_direction)` value. */
  datatype Entry = Entry(anchor: LatLon, count: nat, dir: Direction)

  /** `decalage_droite` and `decalage_bas`. */
  const ShiftRight: real := 0.0002
  const ShiftDown: real := -0.0002

  /** The three states an entry can reach: fresh, odd count after a move down, even count after a move right. */
  predicate EntryOk(e: Entry) {
    || (e.count == 0 && e.dir == None)
    || (e.count % 2 == 1 && e.dir == Down)
    || (e.count % 2 == 0 && e.count >= 2 && e.dir == Right)
  }

  function Anchors(tracker: seq<Entry>): (r: seq<LatLon>)
    ensures |r| == |tracker|
    ensures forall i :: 0 <= i < |tracker| ==> r[i] == tracker[i].anchor
  {
    seq(|tracker|, i requires 0 <= i < |tracker| => tracker[i].anchor)
  }

  /**
   * The table invariant: every entry is in one of its three states, and no
   * two anchors are within tolerance of each other (in particular no anchor
   * occurs twice, as befits dictionary keys).
   */
  predicate TrackerOk(tracker: seq<Entry>) {
    && (forall i :: 0 <= i < |tracker| ==> EntryOk(tracker[i]))
    && (forall i, j :: 0 <= i < |tracker| && 0 <= j < |tracker| && i != j ==>
          !Near(tracker[i].anchor, tracker[j].anchor))
  }

  /** `1 + count` summed over the entries: the number of cells an entry has absorbed. */
  function Weight(tracker: seq<Entry>): nat {
    if tracker == [] then 0 else Weight(tracker[..|tracker| - 1]) + 1 + tracker[|tracker| - 1].count
  }

  lemma {:induction false} WeightAtLeastLength(tracker: seq<Entry>)
    ensures Weight(tracker) >= |tracker|
  {
    if tracker != [] {
      WeightAtLeastLength(tracker[..|tracker| - 1]);
    }
  }

  /** Raising one entry's count by one raises the weight by one. */
  lemma {:induction false} WeightBump(tracker: seq<Entry>, j: nat, e: Entry)
    requires j < |tracker| && e.count == tracker[j].count + 1
    ensures Weight(tracker[j := e]) == Weight(tracker) + 1
  {
    var n := |tracker|;
    var t' := tracker[j := e];
    if j < n - 1 {
      assert t'[..n - 1] == tracker[..n - 1][j := e];
      WeightBump(tracker[..n - 1], j, e);
    } else {
      assert t'[..n - 1] == tracker[..n - 1];
    }
  }

  // ---------------------------------------------------------------------
  // One cell
  // ---------------------------------------------------------------------

  /**
   * The scan `for ... in points_tracker.items()` from index `from` on: the
   * index of the first entry whose anchor is near `p`, or `|tracker|`.
   */
  function FirstNear(tracker: seq<Entry>, p: LatLon, from: nat): (j: nat)
    requires from <= |tracker|
    ensures from <= j <= |tracker|
    ensures j < |tracker| ==> Near(p, tracker[j].anchor)
    ensures forall k :: from <= k < j ==> !Near(p, tracker[k].anchor)
    decreases |tracker| - from
  {
    if from == |tracker| then from
    else if Near(p, tracker[from].anchor) then from
    else FirstNear(tracker, p, from + 1)
  }

  /**
   * The move made for a cell near entry `e`, and the entry's new direction.
   * The last case, a direction of `None` with a non-zero count, leaves the
   * cell where it is; `NudgeMoves` shows it never arises.
   */
  function Nudge(e: Entry, p: LatLon): (r: (LatLon, Direction))
    ensures r.1 == Down ==> r.0 == LatLon(p.lat + ShiftDown, p.lon)
    ensures r.1 == Right ==> r.0 == LatLon(p.lat, p.lon + ShiftRight)
    ensures r.1 == None ==> r.0 == p
  {
    if e.dir == Right || e.count == 0 then (LatLon(p.lat + ShiftDown, p.lon), Down)
    else if e.dir == Down then (LatLon(p.lat, p.lon + ShiftRight), Right)
    else (p, e.dir)
  }

  /**
   * From a valid entry, the cell always moves, by one step down or right, and
   * the entry stays valid. The moves alternate: down when the entry has
   * absorbed an even number of nudges so far, right when odd.
   */
  lemma NudgeMoves(e: Entry, p: LatLon)
    requires EntryOk(e)
    ensures var (q, d) := Nudge(e, p);
      && EntryOk(Entry(e.anchor, e.count + 1, d))
      && (q == LatLon(p.lat + ShiftDown, p.lon) || q == LatLon(p.lat, p.lon + ShiftRight))
      && (q == LatLon(p.lat + ShiftDown, p.lon) <==> e.count % 2 == 0)
      && (d == Down <==> e.count % 2 == 0)
  {
  }

  /**
   * One iteration of the cell loop: the cell's final position and the new
   * table. A cell near an anchor is nudged and that entry's count bumped; any
   * other cell stays put and its position is appended as a fresh anchor.
   */
  function Place(tracker: seq<Entry>, p: LatLon): (r: (LatLon, seq<Entry>))
    ensures |tracker| <= |r.1| <= |tracker| + 1
    ensures forall k :: 0 <= k < |tracker| ==> r.1[k].anchor == tracker[k].anchor
  {
    var j := FirstNear(tracker, p, 0);
    if j < |tracker| then
      var (q, d) := Nudge(tracker[j], p);
      (q, tracker[j := Entry(tracker[j].anchor, tracker[j].count + 1, d)])
    else
      (p, tracker + [Entry(p, 0, None)])
  }

  /**
   * What one cell does to the table: no anchor ever moves, one new anchor
   * (the cell's own unshifted position, never an existing key) is added
   * exactly when no anchor is near, only the first near entry changes and
   * only by one more count, and the table's weight grows by one.
   */
  lemma PlaceEffect(tracker: seq<Entry>, p: LatLon)
    ensures var (q, t') := Place(tracker, p);
      var j := FirstNear(tracker, p, 0);
      && Weight(t') == Weight(tracker) + 1
      && (j == |tracker| <==> Anchors(t') == Anchors(tracker) + [p])
      && (j == |tracker| ==> p !in Anchors(tracker))
      && (j == |tracker| ==> t' == tracker + [Entry(p, 0, None)])
      && (j < |tracker| <==> Anchors(t') == Anchors(tracker))
      && (j < |tracker| ==>
            && t'[j].count == tracker[j].count + 1
            && forall k :: 0 <= k < |tracker| && k != j ==> t'[k] == tracker[k])
  {
    var (q, t') := Place(tracker, p);
    var j := FirstNear(tracker, p, 0);
    if j < |tracker| {
      WeightBump(tracker, j, t'[j]);
      assert |Anchors(t')| != |Anchors(tracker) + [p]|;
    } else {
      assert (tracker + [Entry(p, 0, None)])[..|tracker|] == tracker;
      assert |Anchors(t')| != |Anchors(tracker)|;
      NearItself(p);
    }
  }

  /**
   * A cell keeps its position exactly when no anchor is near it; otherwise,
   * on a valid table, it moves by exactly one step down or one step right.
   */
  lemma PlaceDisplacement(tracker: seq<Entry>, p: LatLon)
    requires TrackerOk(tracker)
    ensures var q := Place(tracker, p).0;
      && (q == p <==> FirstNear(tracker, p, 0) == |tracker|)
      && (q == p || q == LatLon(p.lat + ShiftDown, p.lon) || q == LatLon(p.lat, p.lon + ShiftRight))
      && (FirstNear(tracker, p, 0) < |tracker| ==>
            (q == LatLon(p.lat + ShiftDown, p.lon) <==> tracker[FirstNear(tracker, p, 0)].count % 2 == 0))
  {
    var j := FirstNear(tracker, p, 0);
    if j < |tracker| {
      NudgeMoves(tracker[j], p);
    }
  }

  /** Each cell keeps the table valid. */
  lemma PlacePreservesTrackerOk(tracker: seq<Entry>, p: LatLon)
    requires TrackerOk(tracker)
    ensures TrackerOk(Place(tracker, p).1)
  {
    var j := FirstNear(tracker, p, 0);
    var t' := Place(tracker, p).1;
    if j < |tracker| {
      NudgeMoves(tracker[j], p);
      assert forall k :: 0 <= k < |t'| ==> t'[k].anchor == tracker[k].anchor;
    } else {
      forall k | 0 <= k < |tracker|
        ensures !Near(t'[k].anchor, p) && !Near(p, t'[k].anchor)
      {
        NearSymmetric(p, tracker[k].anchor);
      }
    }
  }

  // ---------------------------------------------------------------------
  // The whole pass
  // ---------------------------------------------------------------------

  /** The cell loop over positions in file order: final positions and final table. */
  function Declutter(ps: seq<LatLon>): (r: (seq<LatLon>, seq<Entry>))
    ensures |r.0| == |ps|
    ensures |r.1| <= |ps|
  {
    if ps == [] then ([], [])
    else
      var (outs, tracker) := Declutter(ps[..|ps| - 1]);
      var (q, t') := Place(tracker, ps[|ps| - 1]);
      (outs + [q], t')
  }

  /** Unfolding the pass at cell `i`: the first `i + 1` cells are the first `i` followed by one `Place`. */
  lemma DeclutterStep(ps: seq<LatLon>, i: nat)
    requires i < |ps|
    ensures var (outs, t) := Declutter(ps[..i]);
      && Declutter(ps[..i + 1]).0 == outs + [Place(t, ps[i]).0]
      && Declutter(ps[..i + 1]).1 == Place(t, ps[i]).1
  {
    assert ps[..i + 1][..i] == ps[..i];
  }

  /** The pass is a left-to-right scan: the positions of the first `k` cells do not depend on the later ones. */
  lemma {:induction false} DeclutterPrefix(ps: seq<LatLon>, k: nat)
    requires k <= |ps|
    ensures Declutter(ps[..k]).0 == Declutter(ps).0[..k]
    decreases |ps|
  {
    if k < |ps| {
      var init := ps[..|ps| - 1];
      assert init[..k] == ps[..k];
      DeclutterPrefix(init, k);
    } else {
      assert ps[..k] == ps;
    }
  }

  /**
   * After `n` cells the table is valid, its weights add up to `n`, and so it
   * has at most `n` entries.
   */
  lemma {:induction false} DeclutterTracker(ps: seq<LatLon>)
    ensures var t := Declutter(ps).1;
      TrackerOk(t) && Weight(t) == |ps| && |t| <= |ps|
    decreases |ps|
  {
    if ps != [] {
      var init := ps[..|ps| - 1];
      DeclutterTracker(init);
      var t := Declutter(init).1;
      PlacePreservesTrackerOk(t, ps[|ps| - 1]);
      PlaceEffect(t, ps[|ps| - 1]);
    }
    WeightAtLeastLength(Declutter(ps).1);
  }

  /**
   * Every cell ends at its own position, one step down or one step right;
   * it stays put exactly when no anchor registered before it is near it.
   */
  lemma DeclutterDisplacement(ps: seq<LatLon>, i: nat)
    requires i < |ps|
    ensures var q := Declutter(ps).0[i];
      var before := Declutter(ps[..i]).1;
      && (q == ps[i] <==> FirstNear(before, ps[i], 0) == |before|)
      && (q == ps[i] || q == LatLon(ps[i].lat + ShiftDown, ps[i].lon) || q == LatLon(ps[i].lat, ps[i].lon + ShiftRight))
      && (FirstNear(before, ps[i], 0) < |before| ==>
            (q == LatLon(ps[i].lat + ShiftDown, ps[i].lon) <==> before[FirstNear(before, ps[i], 0)].count % 2 == 0))
  {
    var before := Declutter(ps[..i]).1;
    DeclutterStep(ps, i);
    DeclutterPrefix(ps, i + 1);
    assert Declutter(ps).0[i] == Declutter(ps[..i + 1]).0[i] == Place(before, ps[i]).0;
    DeclutterTracker(ps[..i]);
    PlaceDisplacement(before, ps[i]);
  }

  /**
   * Copies of one point: the first stays, the second moves down, the third
   * right, the fourth down again; all are counted on the first point's entry.
   */
  lemma CopiesAlternate(p: LatLon)
    ensures var down, right := LatLon(p.lat + ShiftDown, p.lon), LatLon(p.lat, p.lon + ShiftRight);
      Declutter([p, p, p, p]) == ([p, down, right, down], [Entry(p, 3, Down)])
  {
    var down, right := LatLon(p.lat + ShiftDown, p.lon), LatLon(p.lat, p.lon + ShiftRight);
    NearItself(p);
    var t0: seq<Entry> := [];
    var t1, t2, t3 := [Entry(p, 0, None)], [Entry(p, 1, Down)], [Entry(p, 2, Right)];
    assert Place(t0, p).0 == p && Place(t0, p).1 == t1;
    assert Place(t1, p).0 == down && Place(t1, p).1 == t2;
    assert Place(t2, p).0 == right && Place(t2, p).1 == t3;
    assert Place(t3, p).0 == down && Place(t3, p).1 == [Entry(p, 3, Down)];
    assert [p, p, p, p][..3] == [p, p, p];
    assert [p, p, p][..2] == [p, p];
    assert [p, p][..1] == [p];
    assert [p][..0] == [];
    assert Declutter([p]).0 == [p] && Declutter([p]).1 == t1;
    assert Declutter([p, p]).0 == [p, down] && Declutter([p, p]).1 == t2;
    assert Declutter([p, p, p]).0 == [p, down, right] && Declutter([p, p, p]).1 == t3;
    assert Declutter([p, p, p, p]).0 == [p, down, right, down];
    assert Declutter([p, p, p, p]).1 == [Entry(p, 3, Down)];
  }

  /** Two points a whole degree of latitude apart are both left where they are. */
  lemma FarPointsStay(p: LatLon)
    ensures var q := LatLon(p.lat + 1.0, p.lon);
      Declutter([p, q]).0 == [p, q]
  {
    var q := LatLon(p.lat + 1.0, p.lon);
    assert [p, q][..1] == [p];
    assert !Near(q, p);
  }

  // ---------------------------------------------------------------------
  // Marker styling and layers
  // ---------------------------------------------------------------------

  /** The `colors` table of `choose_icon`. */
  const Colors: map<string, string> := map["Swisscom" := "darkblue", "Sunrise" := "red", "Salt" := "green"]

  /** Marker colour: looked up by the station name's first token, `"black"` when it is not an operator. */
  function Colour(station: string): (r: string)
    ensures r == "black" || r in Colors.Values
  {
    var token := FirstToken(station);
    if token in Colors then Colors[token] else "black"
  }

  /** A station whose first token is not an operator gets the default colour. */
  lemma ColourDefault(station: string)
    requires FirstToken(station) !in Colors
    ensures Colour(station) == "black"
  {
  }

  /** Technology tags in the order `choose_icon` tests them, and the icon each one selects. */
  const Generations: seq<string> := ["5G", "4G", "3G", "2G"]
  const GenerationIcons: seq<string> := ["5", "4", "3", "2"]

  /** Icon prefix: the digit of the newest generation named in the technology text, if any. */
  function IconPrefix(techno: string): (r: Options.Option<string>)
    ensures r.Some? ==> r.value in GenerationIcons
    ensures r.None? <==> forall k :: 0 <= k < |Generations| ==> !Contains(techno, Generations[k])
  {
    assert Generations[0] == "5G" && Generations[1] == "4G" && Generations[2] == "3G" && Generations[3] == "2G";
    if Contains(techno, "5G") then Options.Some("5")
    else if Contains(techno, "4G") then Options.Some("4")
    else if Contains(techno, "3G") then Options.Some("3")
    else if Contains(techno, "2G") then Options.Some("2")
    else Options.None
  }

  /**
   * The icon is chosen by generation priority 5G > 4G > 3G > 2G: it is the
   * digit of the first tag in `Generations` that occurs in the text, and no
   * icon when none occurs.
   */
  lemma IconPrefixPriority(techno: string)
    ensures var i := FirstContained(techno, Generations);
      IconPrefix(techno) == if i < |Generations| then Options.Some(GenerationIcons[i]) else Options.None
  {
    assert Generations[1..][1..][1..] == ["2G"];
    if !Contains(techno, "5G") && !Contains(techno, "4G") {
      assert FirstContained(techno, Generations) == 2 + FirstContained(techno, Generations[1..][1..]);
    }
  }

  /** The three operator layers. */
  datatype Layer = Swisscom | Sunrise | Salt

  const LayerNames: seq<string> := ["Swisscom", "Sunrise", "Salt"]
  const Layers: seq<Layer> := [Swisscom, Sunrise, Salt]

  /** The layer a marker joins: tested by substring, Swisscom first, then Sunrise, then Salt. */
  function LayerOf(station: string): (r: Options.Option<Layer>)
    ensures forall k :: 0 <= k < |Layers| && r == Options.Some(Layers[k]) ==> Contains(station, LayerNames[k])
    ensures r.None? <==> forall k :: 0 <= k < |LayerNames| ==> !Contains(station, LayerNames[k])
  {
    assert LayerNames[0] == "Swisscom" && LayerNames[1] == "Sunrise" && LayerNames[2] == "Salt";
    if Contains(station, "Swisscom") then Options.Some(Swisscom)
    else if Contains(station, "Sunrise") then Options.Some(Sunrise)
    else if Contains(station, "Salt") then Options.Some(Salt)
    else Options.None
  }

  /**
   * The layer is the first operator name, in the order of `LayerNames`,
   * that occurs anywhere in the station name; with none the marker joins no
   * layer.
   */
  lemma LayerPriority(station: string)
    ensures var i := FirstContained(station, LayerNames);
      LayerOf(station) == if i < |LayerNames| then Options.Some(Layers[i]) else Options.None
  {
    assert LayerNames[1..][1..] == ["Salt"];
    if !Contains(station, "Swisscom") && !Contains(station, "Sunrise") {
      assert FirstContained(station, LayerNames) == 2 + FirstContained(station, LayerNames[1..][1..]);
    }
  }

  /**
   * For the operator names the two rules agree: a Swisscom, Sunrise or Salt
   * record gets its operator's colour and joins its operator's layer.
   */
  lemma ColourAgreesWithLayer(operator: string, i: nat)
    requires i < |LayerNames| && operator == LayerNames[i]
    ensures Colour(operator) == Colors[operator]
    ensures LayerOf(operator) == Options.Some(Layers[i])
  {
    FirstTokenOfToken(operator);
    ContainsItself(operator);
    if i == 1 {
      ContainsShorter(operator, "Swisscom");
    } else if i == 2 {
      ContainsShorter(operator, "Swisscom");
      ContainsShorter(operator, "Sunrise");
    }
  }

  /**
   * The map script splits the record's `operator` again before the colour
   * lookup; as that field is already the station's first token, the colour
   * is the one the original station name selects.
   */
  lemma ColourOfConvertedRecord(f: Feature)
    ensures Colour(ToCellTower(f).operator) == Colour(f.station)
  {
    FirstTokenOfToken(FirstToken(f.station));
  }

  // ---------------------------------------------------------------------
  // The cell loop
  // ---------------------------------------------------------------------

  /** A placed marker: location, popup text, icon and the layer it is added to (none: not shown). */
  datatype Marker = Marker(
    location: LatLon, station: string, techno: string, power: string,
    color: string, icon: Options.Option<string>, layer: Options.Option<Layer>)

  function Position(cell: CellTower): LatLon {
    LatLon(cell.coordinates[0], cell.coordinates[1])
  }

  function Positions(cells: seq<CellTower>): (r: seq<LatLon>)
    ensures |r| == |cells|
    ensures forall i :: 0 <= i < |cells| ==> r[i] == Position(cells[i])
  {
    seq(|cells|, i requires 0 <= i < |cells| => Position(cells[i]))
  }

  /** The marker built for `cell` once its position is settled. */
  function MarkerFor(cell: CellTower, location: LatLon): (m: Marker)
    ensures m.location == location
    ensures m.icon.Some? ==> m.icon.value in GenerationIcons
    ensures m.layer.None? <==> forall k :: 0 <= k < |LayerNames| ==> !Contains(cell.operator, LayerNames[k])
  {
    Marker(location, cell.operator, cell.technology, cell.power,
           Colour(cell.operator), IconPrefix(cell.technology), LayerOf(cell.operator))
  }

  /** One marker per cell, each at the matching final position. */
  function MarkersFor(cells: seq<CellTower>, outs: seq<LatLon>): (ms: seq<Marker>)
    requires |outs| == |cells|
    ensures |ms| == |cells|
  {
    if cells == [] then []
    else MarkersFor(cells[..|cells| - 1], outs[..|cells| - 1]) + [MarkerFor(cells[|cells| - 1], outs[|cells| - 1])]
  }

  lemma {:induction false} MarkersForAt(cells: seq<CellTower>, outs: seq<LatLon>, k: nat)
    requires |outs| == |cells| && k < |cells|
    ensures MarkersFor(cells, outs)[k] == MarkerFor(cells[k], outs[k])
  {
    var n := |cells| - 1;
    if k < n {
      MarkersForAt(cells[..n], outs[..n], k);
    }
  }

  /**
   * The body of the cell loop for the tracker part: scan the table in order
   * for the first anchor near `(lat, lon)`, stopping there; nudge the cell and
   * bump that entry, or register the cell as a new anchor.
   */
  method PlaceCell(pointsTracker: seq<Entry>, lat: real, lon: real)
    returns (newLat: real, newLon: real, newTracker: seq<Entry>)
    ensures (LatLon(newLat, newLon), newTracker) == Place(pointsTracker, LatLon(lat, lon))
  {
    var p := LatLon(lat, lon);
    newLat, newLon, newTracker := lat, lon, pointsTracker;
    var modified := false;
    var j := 0;
    while j < |pointsTracker|
      invariant j <= |pointsTracker|
      invariant forall k :: 0 <= k < j ==> !Near(p, pointsTracker[k].anchor)
    {
      var e := pointsTracker[j];
      if SquaredDistance(lat, lon, e.anchor.lat, e.anchor.lon) < Tolerance * Tolerance {
        modified := true;
        var dir := e.dir;
        if dir == Right || e.count == 0 {
          newLat := lat + ShiftDown;
          dir := Down;
        } else if dir == Down {
          newLon := lon + ShiftRight;
          dir := Right;
        }
        newTracker := pointsTracker[j := Entry(e.anchor, e.count + 1, dir)];
        assert j == FirstNear(pointsTracker, p, 0);
        break;
      }
      j := j + 1;
    }
    if !modified {
      newTracker := pointsTracker + [Entry(p, 0, None)];
    }
  }

  /**
   * The script's cell loop: for each record in order, settle its position
   * against the table, then build its marker. Returns one marker per record
   * and the final table.
   */
  method PlaceMarkers(cells: seq<CellTower>) returns (markers: seq<Marker>, pointsTracker: seq<Entry>)
    ensures var (outs, t) := Declutter(Positions(cells));
      && pointsTracker == t
      && |markers| == |cells|
      && forall i :: 0 <= i < |cells| ==> markers[i] == MarkerFor(cells[i], outs[i])
  {
    markers, pointsTracker := [], [];
    ghost var outs: seq<LatLon> := [];
    var ps := Positions(cells);
    for i := 0 to |cells|
      invariant outs == Declutter(ps[..i]).0 && pointsTracker == Declutter(ps[..i]).1
      invariant |outs| == i
      invariant markers == MarkersFor(cells[..i], outs)
    {
      var cell := cells[i];
      var lat, lon := cell.coordinates[0], cell.coordinates[1];
      DeclutterStep(ps, i);
      lat, lon, pointsTracker := PlaceCell(pointsTracker, lat, lon);
      var marker := MarkerFor(cell, LatLon(lat, lon));
      assert cells[..i + 1][..i] == cells[..i] && (outs + [LatLon(lat, lon)])[..i] == outs;
      outs := outs + [LatLon(lat, lon)];
      markers := markers + [marker];
    }
    assert ps[..|cells|] == ps && cells[..|cells|] == cells;
    forall k | 0 <= k < |cells|
      ensures markers[k] == MarkerFor(cells[k], outs[k])
    {
      MarkersForAt(cells, outs, k);
    }
  }
}
