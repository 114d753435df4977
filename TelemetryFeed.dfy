/** The telemetry feed: every telemetry message that looks like telemetry
    becomes a line at the top of a list of at most 150 lines; tabs show all
    lines or the lines of one drone. */
module TelemetryFeed {
  import opened JsValues
  import opened Messages
  import opened Text
  import opened Seqs

  /** Most lines kept. */
  const FeedCap: nat := 150
  /** The tab value meaning "every drone". */
  const AllTab := "__all__"

  /** One feed line, copied from a telemetry message. */
  datatype Line = Line(ts: Value, id: string, status: Value, lat: real, lon: real,
                       alt: Value, speed: Value, batt: Value)

  /** The handler's shape test: an object with a non-empty `drone_id`, a
      `position`, and numeric `position.lat` and `position.lon`. */
  predicate Accepts(msg: TelemetryMsg)
  {
    msg.Telemetry? && msg.droneId != "" && HasNumericPosition(msg)
  }

  /** The line made from an accepted message; `now` is `Date.now() / 1000`,
      used when the message's `ts` is falsy. */
  function EntryOf(msg: TelemetryMsg, now: real): (l: Line)
    requires Accepts(msg)
    ensures l.id == msg.droneId && l.status == msg.status
    ensures l.lat == msg.position.value.lat.x && l.lon == msg.position.value.lon.x
    ensures l.alt == msg.position.value.alt && l.speed == msg.speed && l.batt == msg.battery
    ensures Truthy(msg.ts) ==> l.ts == msg.ts
    ensures !Truthy(msg.ts) ==> l.ts == Num(now)
  {
    var c := msg.position.value;
    Line(if Truthy(msg.ts) then msg.ts else Num(now), msg.droneId, msg.status,
         c.lat.x, c.lon.x, c.alt, msg.speed, msg.battery)
  }

  /** The first `n` elements of `s`, or all of them when there are fewer
      (`s.slice(0, n)`). */
  function Take<T>(s: seq<T>, n: nat): (r: seq<T>)
    ensures |r| <= n && |r| <= |s|
    ensures |s| <= n ==> r == s
    ensures |s| > n ==> |r| == n
    ensures forall i :: 0 <= i < |r| ==> r[i] == s[i]
  {
    if |s| <= n then s else s[..n]
  }

  /** The lines after one message: a rejected message changes nothing; an
      accepted one puts its line first, keeps the older lines after it in
      their order, and drops whatever falls past the cap. */
  function FeedAfter(lines: seq<Line>, msg: TelemetryMsg, now: real): (r: seq<Line>)
    ensures !Accepts(msg) ==> r == lines
    ensures Accepts(msg) ==>
      && r != [] && r[0] == EntryOf(msg, now)
      && |r| == (if |lines| < FeedCap then |lines| + 1 else FeedCap)
      && forall i :: 1 <= i < |r| ==> r[i] == lines[i - 1]
  {
    if !Accepts(msg) then lines else Take([EntryOf(msg, now)] + lines, FeedCap)
  }

  /** A message together with the clock reading when it arrived. */
  datatype Arrival = Arrival(msg: TelemetryMsg, now: real)

  /** The lines after a stream of arrivals, oldest first. */
  function FeedAll(lines: seq<Line>, arrivals: seq<Arrival>): seq<Line>
  {
    if arrivals == [] then lines
    else
      var a := arrivals[|arrivals| - 1];
      FeedAfter(FeedAll(lines, arrivals[..|arrivals| - 1]), a.msg, a.now)
  }

  /** The lines made from the accepted arrivals, newest first. */
  function NewestFirst(arrivals: seq<Arrival>): seq<Line>
  {
    if arrivals == [] then []
    else
      var a := arrivals[|arrivals| - 1];
      (if Accepts(a.msg) then [EntryOf(a.msg, a.now)] else []) + NewestFirst(arrivals[..|arrivals| - 1])
  }

  lemma TakeTake<T>(e: seq<T>, s: seq<T>, n: nat)
    ensures Take(e + Take(s, n), n) == Take(e + s, n)
  {
    if |s| > n {
      assert (e + s)[..n] == (e + s[..n])[..n];
    }
  }

  /** Whatever the stream, the feed shows the newest accepted lines first,
      then the lines it had before, and never more than 150 of them. */
  lemma {:induction false} FeedIsNewestWindow(lines: seq<Line>, arrivals: seq<Arrival>)
    ensures FeedAll(Take(lines, FeedCap), arrivals) == Take(NewestFirst(arrivals) + lines, FeedCap)
  {
    if arrivals == [] {
      assert [] + lines == lines;
    } else {
      var init := arrivals[..|arrivals| - 1];
      var a := arrivals[|arrivals| - 1];
      FeedIsNewestWindow(lines, init);
      var e := if Accepts(a.msg) then [EntryOf(a.msg, a.now)] else [];
      assert NewestFirst(arrivals) + lines == e + (NewestFirst(init) + lines);
      if Accepts(a.msg) {
        TakeTake(e, NewestFirst(init) + lines, FeedCap);
      } else {
        assert e + (NewestFirst(init) + lines) == NewestFirst(init) + lines;
      }
    }
  }

  /** Starting from an empty feed, the feed is the newest 150 accepted lines. */
  lemma FeedFromEmpty(arrivals: seq<Arrival>)
    ensures FeedAll([], arrivals) == Take(NewestFirst(arrivals), FeedCap)
  {
    FeedIsNewestWindow([], arrivals);
    assert NewestFirst(arrivals) + [] == NewestFirst(arrivals);
  }

  // ---------------------------------------------------------------------
  // Views
  // ---------------------------------------------------------------------

  /** Some line is from drone `id`. */
  predicate HasLine(lines: seq<Line>, id: string)
  {
    exists i :: 0 <= i < |lines| && lines[i].id == id
  }

  /** `lines.map(l => l.id).filter(Boolean)`. */
  function PresentIds(lines: seq<Line>): (ids: seq<string>)
    ensures forall id :: id in ids <==> id != "" && HasLine(lines, id)
  {
    if lines == [] then []
    else
      var rest := PresentIds(lines[1..]);
      assert forall id :: HasLine(lines, id) <==> lines[0].id == id || HasLine(lines[1..], id) by {
        forall id ensures HasLine(lines, id) <==> lines[0].id == id || HasLine(lines[1..], id) {
          if HasLine(lines, id) && lines[0].id != id {
            var i :| 0 <= i < |lines| && lines[i].id == id;
            assert lines[1..][i - 1].id == id;
          }
          if HasLine(lines[1..], id) {
            var i :| 0 <= i < |lines[1..]| && lines[1..][i].id == id;
            assert lines[i + 1].id == id;
          }
        }
      }
      (if lines[0].id != "" then [lines[0].id] else []) + rest
  }

  /** `Array.from(new Set(ids)).sort()`: the drones present in the feed,
      each once, in ascending order. */
  function DroneIds(lines: seq<Line>): (ids: seq<string>)
    ensures StrictlySorted(ids)
    ensures forall id :: id in ids <==> id != "" && HasLine(lines, id)
  {
    var present := Distinct(PresentIds(lines));
    SortDistinct(present);
    SortStrings(present)
  }

  /** A drone whose message was just accepted has a tab. */
  lemma SenderHasTab(lines: seq<Line>, msg: TelemetryMsg, now: real)
    requires Accepts(msg)
    ensures msg.droneId in DroneIds(FeedAfter(lines, msg, now))
  {
    assert FeedAfter(lines, msg, now)[0].id == msg.droneId;
  }

  /** The tab test `l => l.id === tab`. */
  function OfDrone(tab: string): Line -> bool
  {
    (l: Line) => l.id == tab
  }

  /** The lines the active tab shows: every line on the "all" tab;
      otherwise `lines.filter(l => l.id === tab)`, which keeps each line of
      that drone as often as it occurs and no other line (and, by
      `FilteredLinesAppend`, keeps their order). */
  function FilteredLines(lines: seq<Line>, tab: string): (r: seq<Line>)
    ensures tab == AllTab ==> r == lines
    ensures tab != AllTab ==>
      forall l :: multiset(r)[l] == if l.id == tab then multiset(lines)[l] else 0
  {
    if tab == AllTab then lines
    else
      FilterCountsAll(lines, OfDrone(tab));
      Filter(lines, OfDrone(tab))
  }

  /** The tab's lines of two stretches of the feed are the lines of the
      first stretch followed by those of the second: the filter keeps the
      feed's order. */
  lemma FilteredLinesAppend(a: seq<Line>, b: seq<Line>, tab: string)
    ensures FilteredLines(a + b, tab) == FilteredLines(a, tab) + FilteredLines(b, tab)
  {
    if tab != AllTab {
      FilterAppend(a, b, OfDrone(tab));
    }
  }

  /** Filtering twice by the same tab is filtering once. */
  lemma FilteredLinesIdempotent(lines: seq<Line>, tab: string)
    ensures FilteredLines(FilteredLines(lines, tab), tab) == FilteredLines(lines, tab)
  {
    if tab != AllTab {
      FilterTwice(lines, OfDrone(tab));
    }
  }

  /** A new line from the drone whose tab is open shows at the top of the tab. */
  lemma NewLineTopsItsTab(lines: seq<Line>, msg: TelemetryMsg, now: real)
    requires Accepts(msg)
    ensures var shown := FilteredLines(FeedAfter(lines, msg, now), msg.droneId);
            shown != [] && shown[0] == EntryOf(msg, now)
  {
    var r := FeedAfter(lines, msg, now);
    assert r == [r[0]] + r[1..];
    FilteredLinesAppend([r[0]], r[1..], msg.droneId);
    if msg.droneId != AllTab {
      assert FilteredLines([r[0]], msg.droneId) == [r[0]] + Filter([], OfDrone(msg.droneId));
    }
  }

  // ---------------------------------------------------------------------
  // The component's state
  // ---------------------------------------------------------------------

  /** The feed's state: the lines, newest first, and the open tab. */
  class Feed {
    var lines: seq<Line>
    var activeTab: string

    /** At most 150 lines, each from a named drone. */
    ghost predicate Valid()
      reads this
    {
      && |lines| <= FeedCap
      && forall i :: 0 <= i < |lines| ==> lines[i].id != ""
    }

    constructor()
      ensures Valid()
      ensures lines == [] && activeTab == AllTab
    {
      lines := [];
      activeTab := AllTab;
    }

    /** The message handler: checks the shape, then prepends the line and
        keeps the first 150. */
    method Handle(msg: TelemetryMsg, now: real)
      requires Valid()
      modifies this
      ensures Valid()
      ensures lines == FeedAfter(old(lines), msg, now)
      ensures activeTab == old(activeTab)
    {
      if !msg.Telemetry? {
        return;
      }
      if msg.droneId == "" || msg.position.None? {
        return;
      }
      var c := msg.position.value;
      if !c.lat.Num? || !c.lon.Num? {
        return;
      }
      var entry := Line(if Truthy(msg.ts) then msg.ts else Num(now), msg.droneId, msg.status,
                        c.lat.x, c.lon.x, c.alt, msg.speed, msg.battery);
      var next := [entry] + lines;
      if |next| > FeedCap {
        next := next[..FeedCap];
      }
      lines := next;
    }

    /** A non-empty `selected` prop becomes the active tab; an empty one
        changes nothing. */
    method Select(selected: string)
      requires Valid()
      modifies this
      ensures Valid()
      ensures activeTab == (if selected != "" then selected else old(activeTab))
      ensures lines == old(lines)
    {
      if selected == "" {
        return;
      }
      activeTab := selected;
    }

    /** The "Vider" button: the feed becomes empty. */
    method Clear()
      requires Valid()
      modifies this
      ensures Valid()
      ensures lines == [] && activeTab == old(activeTab)
    {
      lines := [];
    }
  }
}
