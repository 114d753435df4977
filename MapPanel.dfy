/** The map panel's bookkeeping: per drone, the latest telemetry and a capped
    trail of past positions; per drone, the last GOTO target seen on the
    command topic; and the views the map draws from them (sorted ids, colour
    per id, ids shown under the current filter, map centre). */
module MapPanel {
  import opened JsValues
  import opened Messages
  import opened Text
  import opened Sorting

  /** Longest trail kept per drone. */
  const HistoryCap: nat := 200
  /** Key used when a message names no drone. */
  const UnknownId := "unknown"
  /** The filter value meaning "every drone". */
  const AllIds := "__all__"
  /** Colours handed out by position in the sorted id list. */
  const Palette: seq<string> := ["#22d3ee", "#22c55e", "#f97316", "#eab308", "#a855f7", "#f97373"]
  /** Map centre when no drone is shown (Montpellier). */
  const FallbackCenter := Point(43.611, 3.877)

  datatype Point = Point(lat: real, lon: real)

  /** What the panel keeps per drone: the latest telemetry, copied from the
      message as it came, and the trail. */
  datatype Entry = Entry(lat: real, lon: real, alt: Value, status: Value, ts: Value, history: seq<Point>)

  /** The last GOTO destination seen for a drone. */
  datatype Target = Target(lat: real, lon: real, alt: Value)

  // ---------------------------------------------------------------------
  // Telemetry
  // ---------------------------------------------------------------------

  /** The key a telemetry message is filed under: `drone_id`, or "unknown". */
  function TelemetryKey(msg: TelemetryMsg): (id: string)
    ensures id != ""
    ensures msg.Telemetry? && msg.droneId != "" ==> id == msg.droneId
    ensures !msg.Telemetry? || msg.droneId == "" ==> id == UnknownId
  {
    if msg.Telemetry? && msg.droneId != "" then msg.droneId else UnknownId
  }

  function PositionOf(msg: TelemetryMsg): Point
    requires HasNumericPosition(msg)
  {
    Point(msg.position.value.lat.x, msg.position.value.lon.x)
  }

  /** The trail after one more point: `p` is always last, nothing is lost
      below the cap, and at or above the cap exactly the oldest point goes. */
  function NextHistory(prev: seq<Point>, p: Point): (h: seq<Point>)
    ensures h != [] && h[|h| - 1] == p
    ensures |prev| < HistoryCap ==> h == prev + [p]
    ensures |prev| >= HistoryCap ==> |h| == |prev| && h[..|h| - 1] == prev[1..]
    ensures |prev| <= HistoryCap ==> |h| <= HistoryCap
  {
    var grown := prev + [p];
    if |grown| > HistoryCap then
      assert grown[1..][..|grown| - 2] == prev[1..];
      grown[1..]
    else grown
  }

  /** The entry's fields are exactly the message's. */
  predicate Reflects(e: Entry, msg: TelemetryMsg)
    requires HasNumericPosition(msg)
  {
    && Point(e.lat, e.lon) == PositionOf(msg)
    && e.alt == msg.position.value.alt
    && e.status == msg.status
    && e.ts == msg.ts
  }

  /** The positions after one telemetry message (the state update of the
      telemetry handler). */
  function WithTelemetry(pos: map<string, Entry>, msg: TelemetryMsg): map<string, Entry>
  {
    if !HasNumericPosition(msg) then pos
    else
      var id := TelemetryKey(msg);
      var p := PositionOf(msg);
      var prev := if id in pos then pos[id].history else [];
      var c := msg.position.value;
      pos[id := Entry(p.lat, p.lon, c.alt, msg.status, msg.ts, NextHistory(prev, p))]
  }

  /** A message without numeric coordinates changes nothing; otherwise the
      drone's entry (added if new) takes the message's fields and its trail
      grows by the new point, and every other entry stays as it was. */
  lemma TelemetryEffect(pos: map<string, Entry>, msg: TelemetryMsg)
    ensures var r := WithTelemetry(pos, msg);
            && (!HasNumericPosition(msg) ==> r == pos)
            && (HasNumericPosition(msg) ==>
                  && r.Keys == pos.Keys + {TelemetryKey(msg)}
                  && Reflects(r[TelemetryKey(msg)], msg)
                  && r[TelemetryKey(msg)].history ==
                       NextHistory(if TelemetryKey(msg) in pos then pos[TelemetryKey(msg)].history else [],
                                   PositionOf(msg)))
            && (forall id :: id in pos && id != TelemetryKey(msg) ==> id in r && r[id] == pos[id])
  {
  }

  /** The ids in first-seen order after one telemetry message: a new id
      joins at the end. (This is `Object.keys(pos)` order for ids that are not
      array indices such as "7", which JavaScript lists first.) */
  function KeysAfter(keys: seq<string>, msg: TelemetryMsg): seq<string>
  {
    if HasNumericPosition(msg) && TelemetryKey(msg) !in keys then keys + [TelemetryKey(msg)] else keys
  }

  /** Every trail holds 1 to 200 points and ends at the drone's current position. */
  ghost predicate HistoriesValid(pos: map<string, Entry>)
  {
    forall id :: id in pos ==>
      && 1 <= |pos[id].history| <= HistoryCap
      && pos[id].history[|pos[id].history| - 1] == Point(pos[id].lat, pos[id].lon)
  }

  /** Applying telemetry keeps every trail within the cap and ending at the
      current position. */
  lemma TelemetryKeepsHistoriesValid(pos: map<string, Entry>, msg: TelemetryMsg)
    requires HistoriesValid(pos)
    ensures HistoriesValid(WithTelemetry(pos, msg))
  {
  }

  /** `keys` lists each drone with a position exactly once, and every trail
      is valid. */
  ghost predicate Consistent(pos: map<string, Entry>, keys: seq<string>)
  {
    && NoDuplicates(keys)
    && (forall id :: id in keys <==> id in pos)
    && HistoriesValid(pos)
  }

  /** Telemetry keeps the id order in step with the positions: a new drone
      is appended once, a known one is not listed again. */
  lemma TelemetryKeepsConsistent(pos: map<string, Entry>, keys: seq<string>, msg: TelemetryMsg)
    requires Consistent(pos, keys)
    ensures Consistent(WithTelemetry(pos, msg), KeysAfter(keys, msg))
  {
    TelemetryKeepsHistoriesValid(pos, msg);
  }

  /** Applies a stream of telemetry messages in arrival order. */
  function ApplyAll(pos: map<string, Entry>, msgs: seq<TelemetryMsg>): map<string, Entry>
  {
    if msgs == [] then pos
    else WithTelemetry(ApplyAll(pos, msgs[..|msgs| - 1]), msgs[|msgs| - 1])
  }

  /** The positions, in arrival order, of the accepted messages filed under `id`. */
  function Track(msgs: seq<TelemetryMsg>, id: string): seq<Point>
  {
    if msgs == [] then []
    else
      var m := msgs[|msgs| - 1];
      Track(msgs[..|msgs| - 1], id) + (if HasNumericPosition(m) && TelemetryKey(m) == id then [PositionOf(m)] else [])
  }

  /** The last `HistoryCap` points of `s`. */
  function Window(s: seq<Point>): seq<Point>
  {
    if |s| <= HistoryCap then s else s[|s| - HistoryCap..]
  }

  lemma WindowStep(s: seq<Point>, p: Point)
    ensures NextHistory(Window(s), p) == Window(s + [p])
  {
    if |s| > HistoryCap {
      assert Window(s) + [p] == (s + [p])[|s| - HistoryCap..];
      assert (Window(s) + [p])[1..] == (s + [p])[|s| + 1 - HistoryCap..];
    }
  }

  /** Whatever the stream, a drone's trail is the last 200 positions it
      reported (after the trail it already had), oldest first: older points
      are evicted first and the newest is always kept. Messages for other
      drones and rejected messages do not touch it. */
  lemma {:induction false} HistoryIsWindow(pos: map<string, Entry>, msgs: seq<TelemetryMsg>, id: string)
    requires id in pos ==> |pos[id].history| <= HistoryCap
    ensures var after := ApplyAll(pos, msgs);
            var before := if id in pos then pos[id].history else [];
            && (id in after <==> id in pos || Track(msgs, id) != [])
            && (id in after ==> after[id].history == Window(before + Track(msgs, id)))
  {
    var before := if id in pos then pos[id].history else [];
    if msgs == [] {
      assert before + [] == before;
    } else {
      var init := msgs[..|msgs| - 1];
      var m := msgs[|msgs| - 1];
      HistoryIsWindow(pos, init, id);
      TrailStep(ApplyAll(pos, init), m, id, id in pos, before, Track(init, id));
    }
  }

  /** One message moves a trail that is the window of `before + tr` to the
      window of `before + tr` extended by the message's position when the
      message is for `id`. */
  lemma TrailStep(mid: map<string, Entry>, m: TelemetryMsg, id: string, known: bool, before: seq<Point>, tr: seq<Point>)
    requires !known ==> before == []
    requires id in mid <==> known || tr != []
    requires id in mid ==> mid[id].history == Window(before + tr)
    ensures var after := WithTelemetry(mid, m);
            var tr' := tr + (if HasNumericPosition(m) && TelemetryKey(m) == id then [PositionOf(m)] else []);
            && (id in after <==> known || tr' != [])
            && (id in after ==> after[id].history == Window(before + tr'))
  {
    if HasNumericPosition(m) && TelemetryKey(m) == id {
      WindowStep(before + tr, PositionOf(m));
      assert before + tr + [PositionOf(m)] == before + (tr + [PositionOf(m)]);
    } else {
      assert tr + [] == tr;
    }
  }

  /** After 201 positions for a drone not seen before, the first one has
      been evicted and the trail is the other 200. */
  lemma OldestEvicted(msgs: seq<TelemetryMsg>, id: string)
    requires |Track(msgs, id)| == HistoryCap + 1
    ensures id in ApplyAll(map[], msgs)
    ensures ApplyAll(map[], msgs)[id].history == Track(msgs, id)[1..]
  {
    HistoryIsWindow(map[], msgs, id);
    assert [] + Track(msgs, id) == Track(msgs, id);
  }

  // ---------------------------------------------------------------------
  // GOTO commands
  // ---------------------------------------------------------------------

  /** The third `/`-separated segment of the topic, or "unknown" when it is
      missing or empty. */
  function TargetKey(topic: string): (id: string)
    ensures id != "" && '/' !in id
  {
    var parts := Split(topic, '/');
    if |parts| > 2 && parts[2] != "" then parts[2] else UnknownId
  }

  /** On a topic `prefix/drone/{id}/commands` the target key is the id. */
  lemma TargetKeyOfCommandTopic(prefix: string, id: string)
    requires '/' !in prefix && '/' !in id && id != ""
    ensures TargetKey(prefix + "/drone/" + id + "/commands") == id
  {
    var parts := [prefix, "drone", id, "commands"];
    assert Join(parts, '/') == prefix + "/drone/" + id + "/commands" by {
      assert Join(parts[3..], '/') == "commands";
      assert Join(parts[2..], '/') == id + "/" + "commands";
      assert Join(parts[1..], '/') == "drone" + "/" + (id + "/" + "commands");
    }
    SplitJoin(parts, '/');
  }

  /** A command counts as a target only when it is a GOTO whose `args` has
      numeric `lat` and `lon`. */
  predicate IsGoto(msg: CommandMsg)
  {
    && msg.payload.Some?
    && msg.payload.value.cmd == Str("goto")
    && msg.payload.value.args.Some?
    && IsNumber(msg.payload.value.args.value.lat)
    && IsNumber(msg.payload.value.args.value.lon)
  }

  /** The targets after one command message: a GOTO replaces the target of
      its topic's drone and no other; anything else changes nothing. */
  function WithCommand(targets: map<string, Target>, topic: string, msg: CommandMsg): (r: map<string, Target>)
    ensures !IsGoto(msg) ==> r == targets
    ensures IsGoto(msg) ==>
      var a := msg.payload.value.args.value;
      && r.Keys == targets.Keys + {TargetKey(topic)}
      && r[TargetKey(topic)] == Target(a.lat.x, a.lon.x, a.alt)
    ensures forall id :: id in targets && id != TargetKey(topic) ==> id in r && r[id] == targets[id]
  {
    if !IsGoto(msg) then targets
    else
      var a := msg.payload.value.args.value;
      targets[TargetKey(topic) := Target(a.lat.x, a.lon.x, a.alt)]
  }

  // ---------------------------------------------------------------------
  // The store
  // ---------------------------------------------------------------------

  /** The panel's state: `pos` and `targets`, plus `keys`, the ids in
      first-seen order (`Object.keys(pos)` order for ids that are not array
      indices). */
  class MapStore {
    var pos: map<string, Entry>
    var targets: map<string, Target>
    var keys: seq<string>

    ghost predicate Valid()
      reads this
    {
      Consistent(pos, keys)
    }

    constructor()
      ensures Valid()
      ensures pos == map[] && targets == map[] && keys == []
    {
      pos, targets, keys := map[], map[], [];
    }

    /** The "Rafraîchir" button: forget every drone and every target. */
    method Refresh()
      requires Valid()
      modifies this
      ensures Valid()
      ensures pos == map[] && targets == map[] && keys == []
    {
      pos := map[];
      targets := map[];
      keys := [];
    }

    /** The telemetry handler. A message without numeric lat and lon is
        dropped; otherwise the drone's entry is replaced by the message's
        values and its trail grows by one point, losing its oldest point past
        200. */
    method ApplyTelemetry(msg: TelemetryMsg)
      requires Valid()
      modifies this
      ensures Valid()
      ensures pos == WithTelemetry(old(pos), msg)
      ensures keys == KeysAfter(old(keys), msg)
      ensures targets == old(targets)
    {
      TelemetryKeepsConsistent(pos, keys, msg);
      if !msg.Telemetry? || msg.position.None? {
        return;
      }
      var c := msg.position.value;
      if !c.lat.Num? || !c.lon.Num? {
        return;
      }
      var id := if msg.droneId != "" then msg.droneId else UnknownId;
      var p := Point(c.lat.x, c.lon.x);
      var prev := if id in pos then pos[id].history else [];
      var history := prev + [p];
      if |history| > HistoryCap {
        history := history[1..];
      }
      var e := Entry(c.lat.x, c.lon.x, c.alt, msg.status, msg.ts, history);
      assert pos[id := e] == WithTelemetry(pos, msg) by {
        assert HasNumericPosition(msg) && TelemetryKey(msg) == id && PositionOf(msg) == p;
        assert history == NextHistory(prev, p);
      }
      if id !in pos {
        keys := keys + [id];
      }
      pos := pos[id := e];
    }

    /** The command handler: records GOTO targets, keyed by the topic. */
    method ApplyCommand(topic: string, msg: CommandMsg)
      requires Valid()
      modifies this
      ensures Valid()
      ensures targets == WithCommand(old(targets), topic, msg)
      ensures pos == old(pos) && keys == old(keys)
    {
      if msg.payload.None? || msg.payload.value.cmd != Str("goto") || msg.payload.value.args.None? {
        return;
      }
      var parts := Split(topic, '/');
      var id := if |parts| > 2 && parts[2] != "" then parts[2] else UnknownId;
      var a := msg.payload.value.args.value;
      if !a.lat.Num? || !a.lon.Num? {
        return;
      }
      targets := targets[id := Target(a.lat.x, a.lon.x, a.alt)];
    }
  }

  // ---------------------------------------------------------------------
  // Views
  // ---------------------------------------------------------------------

  /** `Object.keys(pos).sort()`: each known id once, in ascending order;
      the order of `keys` does not matter here. */
  function DroneIds(keys: seq<string>): (ids: seq<string>)
    requires NoDuplicates(keys)
    ensures StrictlySorted(ids)
    ensures forall id :: id in ids <==> id in keys
  {
    SortDistinct(keys);
    SortStrings(keys)
  }

  /** The ids drawn under a filter: all of them, or only the chosen one if
      it is known. */
  function VisibleIds(ids: seq<string>, filterId: string): (r: seq<string>)
    ensures filterId == AllIds ==> r == ids
    ensures filterId != AllIds ==> (r == [filterId] <==> filterId in ids) && (r == [] <==> filterId !in ids)
  {
    if filterId == AllIds then ids
    else if filterId in ids then [filterId] else []
  }

  /** `ids.map(id => pos[id]).filter(Boolean).map(p => [p.lat, p.lon])`:
      the positions of the ids that have one, in the order of `ids`. */
  function VisiblePoints(pos: map<string, Entry>, ids: seq<string>): (pts: seq<Point>)
    ensures |pts| <= |ids|
    ensures (forall i :: 0 <= i < |ids| ==> ids[i] in pos) ==>
      |pts| == |ids| && forall i :: 0 <= i < |ids| ==> pts[i] == Point(pos[ids[i]].lat, pos[ids[i]].lon)
  {
    if ids == [] then []
    else
      var head := if ids[0] in pos then [Point(pos[ids[0]].lat, pos[ids[0]].lon)] else [];
      var pts := head + VisiblePoints(pos, ids[1..]);
      assert (forall i :: 0 <= i < |ids| ==> ids[i] in pos) ==> forall i :: 0 <= i < |ids[1..]| ==> ids[1..][i] in pos;
      pts
  }

  /** Running sums, folded from the left as `reduce` does. */
  function SumLat(pts: seq<Point>): real
  {
    if pts == [] then 0.0 else SumLat(pts[..|pts| - 1]) + pts[|pts| - 1].lat
  }

  function SumLon(pts: seq<Point>): real
  {
    if pts == [] then 0.0 else SumLon(pts[..|pts| - 1]) + pts[|pts| - 1].lon
  }

  /** The map centre: the mean latitude and mean longitude of the visible
      positions, or the fallback when there are none. */
  function Center(pos: map<string, Entry>, ids: seq<string>): (c: Point)
    ensures VisiblePoints(pos, ids) == [] ==> c == FallbackCenter
  {
    var pts := VisiblePoints(pos, ids);
    if |pts| == 0 then FallbackCenter
    else Point(SumLat(pts) / |pts| as real, SumLon(pts) / |pts| as real)
  }

  lemma {:induction false} SumLatBounds(pts: seq<Point>, lo: real, hi: real)
    requires forall i :: 0 <= i < |pts| ==> lo <= pts[i].lat <= hi
    ensures |pts| as real * lo <= SumLat(pts) <= |pts| as real * hi
  {
    if pts != [] {
      SumLatBounds(pts[..|pts| - 1], lo, hi);
    }
  }

  lemma {:induction false} SumLonBounds(pts: seq<Point>, lo: real, hi: real)
    requires forall i :: 0 <= i < |pts| ==> lo <= pts[i].lon <= hi
    ensures |pts| as real * lo <= SumLon(pts) <= |pts| as real * hi
  {
    if pts != [] {
      SumLonBounds(pts[..|pts| - 1], lo, hi);
    }
  }

  /** A box holding every id's position holds every visible point. */
  ghost predicate InBox(p: Point, south: real, north: real, west: real, east: real)
  {
    south <= p.lat <= north && west <= p.lon <= east
  }

  /** Every visible point is the position of one of the ids, so a box that
      holds the ids' positions holds the points. */
  lemma {:induction false} VisiblePointsInBox(pos: map<string, Entry>, ids: seq<string>, south: real, north: real, west: real, east: real)
    requires forall id :: id in ids && id in pos ==> InBox(Point(pos[id].lat, pos[id].lon), south, north, west, east)
    ensures forall i :: 0 <= i < |VisiblePoints(pos, ids)| ==> InBox(VisiblePoints(pos, ids)[i], south, north, west, east)
  {
    if ids != [] {
      VisiblePointsInBox(pos, ids[1..], south, north, west, east);
      var head := if ids[0] in pos then [Point(pos[ids[0]].lat, pos[ids[0]].lon)] else [];
      assert VisiblePoints(pos, ids) == head + VisiblePoints(pos, ids[1..]);
      assert ids[0] in ids;
    }
  }

  /** The centre lies in every latitude/longitude box that holds all the
      visible drones: in particular between the southern- and northernmost
      and between the western- and easternmost of them. */
  lemma CenterWithinBox(pos: map<string, Entry>, ids: seq<string>, south: real, north: real, west: real, east: real)
    requires VisiblePoints(pos, ids) != []
    requires forall id :: id in ids && id in pos ==> InBox(Point(pos[id].lat, pos[id].lon), south, north, west, east)
    ensures InBox(Center(pos, ids), south, north, west, east)
  {
    var pts := VisiblePoints(pos, ids);
    VisiblePointsInBox(pos, ids, south, north, west, east);
    MeanLatWithin(pts, south, north);
    MeanLonWithin(pts, west, east);
  }

  lemma MeanLatWithin(pts: seq<Point>, lo: real, hi: real)
    requires pts != []
    requires forall i :: 0 <= i < |pts| ==> lo <= pts[i].lat <= hi
    ensures lo <= SumLat(pts) / |pts| as real <= hi
  {
    SumLatBounds(pts, lo, hi);
    MeanBetween(SumLat(pts), |pts| as real, lo, hi);
  }

  lemma MeanLonWithin(pts: seq<Point>, lo: real, hi: real)
    requires pts != []
    requires forall i :: 0 <= i < |pts| ==> lo <= pts[i].lon <= hi
    ensures lo <= SumLon(pts) / |pts| as real <= hi
  {
    SumLonBounds(pts, lo, hi);
    MeanBetween(SumLon(pts), |pts| as real, lo, hi);
  }

  lemma MeanBetween(sum: real, n: real, lo: real, hi: real)
    requires n > 0.0 && n * lo <= sum <= n * hi
    ensures lo <= sum / n <= hi
  {
    assert sum / n * n == sum;
  }

  /** With a single drone in view the centre is that drone's position. */
  lemma CenterOfOne(pos: map<string, Entry>, id: string)
    requires id in pos
    ensures Center(pos, [id]) == Point(pos[id].lat, pos[id].lon)
  {
    var p := Point(pos[id].lat, pos[id].lon);
    assert [id][1..] == [];
    assert VisiblePoints(pos, [id]) == [p] + [];
    assert [p][..0] == [];
    assert SumLat([p]) == p.lat && SumLon([p]) == p.lon;
  }

  /** In a valid store every id the filter lets through has a position, so
      the centre averages exactly the drones on screen. */
  lemma VisibleIdsHavePositions(store: MapStore, filterId: string)
    requires store.Valid()
    ensures var vis := VisibleIds(DroneIds(store.keys), filterId);
            |VisiblePoints(store.pos, vis)| == |vis|
            && forall id :: id in vis ==> id in store.pos
  {
  }

  // ---------------------------------------------------------------------
  // Colours
  // ---------------------------------------------------------------------

  /** `droneIds.forEach((id, idx) => map[id] = PALETTE[idx % PALETTE.length])`:
      every listed id gets a palette colour, and when no id is listed twice
      (as in a sorted id list) each gets the colour of its position. */
  method ColorById(ids: seq<string>) returns (colors: map<string, string>)
    ensures forall id :: id in colors <==> id in ids
    ensures forall id :: id in colors ==> colors[id] in Palette
    ensures NoDuplicates(ids) ==> forall i :: 0 <= i < |ids| ==> colors[ids[i]] == Palette[i % 6]
  {
    colors := map[];
    for i := 0 to |ids|
      invariant forall id :: id in colors <==> id in ids[..i]
      invariant forall id :: id in colors ==> colors[id] in Palette
      invariant NoDuplicates(ids) ==> forall k :: 0 <= k < i ==> colors[ids[k]] == Palette[k % 6]
    {
      assert ids[..i + 1] == ids[..i] + [ids[i]];
      colors := colors[ids[i] := Palette[i % 6]];
    }
    assert ids[..|ids|] == ids;
  }

  /** As written, colours follow the position in the sorted list, so a drone
      keeps its colour only until a drone that sorts before it appears:
      with drone "b" alone, "b" is first (colour 0); once "a" reports, "b" is
      second (colour 1), though the two colours differ. */
  lemma SortedColorShifts()
    ensures DroneIds(["b"]) == ["b"]
    ensures DroneIds(["b", "a"]) == ["a", "b"]
    ensures Palette[0 % |Palette|] != Palette[1 % |Palette|]
  {
    var ids := DroneIds(["b", "a"]);
    assert "a" in ids && "b" in ids;
    assert |ids| == 2 by {
      assert |multiset(ids)| == |multiset(["b", "a"])|;
    }
    assert Below(ids[0], ids[1]);
  }

  /** The colour of an id by its first-seen position (its place in `keys`),
      which never changes once the id is known. */
  function StableColor(keys: seq<string>, id: string): (color: string)
    requires id in keys
    ensures color in Palette
  {
    Palette[IndexOf(keys, id) % |Palette|]
  }

  function IndexOf(s: seq<string>, x: string): (i: nat)
    requires x in s
    ensures i < |s| && s[i] == x && x !in s[..i]
  {
    if s[0] == x then 0 else 1 + IndexOf(s[1..], x)
  }

  /** With first-seen colours, telemetry never recolours a drone already on
      the map, whatever id the new message carries. */
  lemma StableColorKept(keys: seq<string>, msg: TelemetryMsg, id: string)
    requires id in keys
    ensures id in KeysAfter(keys, msg)
    ensures StableColor(KeysAfter(keys, msg), id) == StableColor(keys, id)
  {
    var after := KeysAfter(keys, msg);
    if after != keys {
      IndexOfExtend(keys, TelemetryKey(msg), id);
    }
  }

  lemma IndexOfExtend(s: seq<string>, y: string, x: string)
    requires x in s
    ensures x in s + [y] && IndexOf(s + [y], x) == IndexOf(s, x)
  {
    var i := IndexOf(s, x);
    var j := IndexOf(s + [y], x);
    assert (s + [y])[i] == x;
  }
}
