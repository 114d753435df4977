/** The fleet table's logic: the short action log, the GOTO form's checks,
    the search and ordering of the rows, and the paging of the result. */
module DroneTable {
  import opened JsValues
  import opened Text
  import opened Sorting
  import opened Seqs

  /** Lines kept from the old log when a line is added (`slice(-50)`). */
  const LogKeep: nat := 50
  /** Longest log there can be. */
  const LogCap: nat := LogKeep + 1
  /** The status of a drone whose simulation runs. */
  const Running := "running"

  /** A row of the fleet list as the API returns it; only the fields the
      logic reads are kept. */
  datatype Row = Row(id: string, status: string)

  /** `type.toUpperCase()` of a log line: "OK" or "ERROR". */
  datatype Level = Ok | Error

  /** What a log line reports; the French wording is left out. */
  datatype Event =
    | LoadFailed
    | CmdSent(cmd: string, id: string, args: Option<GotoArgs>)
    | CmdFailed(cmd: string, id: string)
    | GotoInvalid
    | Deleted(id: string)
    | DeleteFailed(id: string)

  /** A log line: the time stamp text, the level and the event. */
  datatype LogLine = LogLine(time: string, level: Level, event: Event)

  /** The coordinates a GOTO sends: a finite latitude and longitude, and an
      altitude that is finite or absent. */
  datatype GotoArgs = GotoArgs(lat: real, lon: real, alt: Numeric)

  /** A command handed to the API (`sendCmd(id, cmd, args)`). */
  datatype Request = Request(id: string, cmd: string, args: Option<GotoArgs>)

  // ---------------------------------------------------------------------
  // The action log
  // ---------------------------------------------------------------------

  /** The last `n` elements of `s`, or all of it when it is shorter. */
  function Last<T>(s: seq<T>, n: nat): (r: seq<T>)
    ensures |r| == if |s| <= n then |s| else n
    ensures r == s[|s| - |r|..]
  {
    if |s| <= n then s else s[|s| - n..]
  }

  /** `[...prev.slice(-50), line]`: the line goes last, after at most the 50
      newest old lines, in their order. */
  function LogAfter(log: seq<LogLine>, line: LogLine): (r: seq<LogLine>)
    ensures |r| == (if |log| < LogKeep then |log| else LogKeep) + 1
    ensures r[|r| - 1] == line
    ensures r[..|r| - 1] == log[|log| - (|r| - 1)..]
  {
    var r := Last(log, LogKeep) + [line];
    assert r[..|r| - 1] == Last(log, LogKeep);
    r
  }

  /** The log after several lines, added in order. */
  function LogAll(log: seq<LogLine>, lines: seq<LogLine>): seq<LogLine>
  {
    if lines == [] then log
    else LogAfter(LogAll(log, lines[..|lines| - 1]), lines[|lines| - 1])
  }

  lemma LogStep(s: seq<LogLine>, line: LogLine)
    ensures LogAfter(Last(s, LogCap), line) == Last(s + [line], LogCap)
  {
    var t := s + [line];
    if |s| > LogKeep {
      assert Last(Last(s, LogCap), LogKeep) == s[|s| - LogKeep..];
      assert s[|s| - LogKeep..] + [line] == t[|t| - LogCap..];
    }
  }

  /** However many lines are added, the log holds the 51 newest, oldest
      first: older lines leave first and the newest is always kept. */
  lemma {:induction false} LogIsWindow(log: seq<LogLine>, lines: seq<LogLine>)
    requires |log| <= LogCap
    ensures LogAll(log, lines) == Last(log + lines, LogCap)
  {
    if lines == [] {
      assert log + lines == log;
    } else {
      var init := lines[..|lines| - 1];
      var line := lines[|lines| - 1];
      calc {
        LogAll(log, lines);
        LogAfter(LogAll(log, init), line);
        { LogIsWindow(log, init); }
        LogAfter(Last(log + init, LogCap), line);
        { LogStep(log + init, line); }
        Last(log + init + [line], LogCap);
        { assert log + init + [line] == log + lines; }
        Last(log + lines, LogCap);
      }
    }
  }

  // ---------------------------------------------------------------------
  // The GOTO form
  // ---------------------------------------------------------------------

  /** The text handed to `Number(...)`: trimmed, first comma turned into a
      decimal point. */
  function Normalized(v: string): (s: string)
    ensures |s| == |Trim(v)|
    ensures forall k :: 0 <= k < |s| ==>
      s[k] == if Trim(v)[k] == ',' && ',' !in Trim(v)[..k] then '.' else Trim(v)[k]
    ensures forall k :: 0 <= k < |s| ==> s[k] != ',' || ',' in Trim(v)[..k]
  {
    var t := Trim(v);
    ReplaceFirstKeepsLater(t, ',', '.');
    ReplaceFirst(t, ',', '.')
  }

  /** `parseDec`: a finite number, or absent when `Number(...)` of the
      normalised text is NaN or infinite. `toNumber` stands for JavaScript's
      `Number` conversion of a string. */
  function ParseDec(v: string, toNumber: string -> Numeric): (n: Numeric)
    ensures n.Finite? || n.Missing?
    ensures n.Finite? <==> toNumber(Normalized(v)).Finite?
    ensures n.Finite? ==> n == toNumber(Normalized(v))
  {
    var m := toNumber(Normalized(v));
    if IsFinite(m) then m else Missing
  }

  predicate IsValidLat(v: Numeric)
  {
    IsFinite(v) && -90.0 <= v.x <= 90.0
  }

  predicate IsValidLon(v: Numeric)
  {
    IsFinite(v) && -180.0 <= v.x <= 180.0
  }

  /** The GOTO gate: a drone is chosen and both coordinates are valid. */
  predicate GotoAllowed(gotoId: string, lat: Numeric, lon: Numeric)
  {
    gotoId != "" && IsValidLat(lat) && IsValidLon(lon)
  }

  /** A field left blank parses to whatever `Number("")` is; ECMAScript
      gives 0 (StringToNumber, section 7.1.4.1.1 of ECMA-262), so a GOTO
      with both coordinate fields blank passes the gate and targets 0, 0. */
  lemma BlankFieldsPassGate(gotoId: string, toNumber: string -> Numeric)
    requires gotoId != ""
    requires toNumber("") == Finite(0.0)
    ensures ParseDec("", toNumber) == Finite(0.0)
    ensures GotoAllowed(gotoId, ParseDec("", toNumber), ParseDec("", toNumber))
  {
    assert Trim("") == "" by {
      var i :| OccursAt("", Trim(""), i);
    }
    assert Normalized("") == "";
  }

  /** The gate in terms of the text typed: a GOTO goes out exactly when a
      drone is chosen and `Number` of each normalised coordinate is finite and
      in range; NaN and the infinities are refused like out-of-range values. */
  lemma GotoGate(gotoId: string, latText: string, lonText: string, toNumber: string -> Numeric)
    ensures GotoAllowed(gotoId, ParseDec(latText, toNumber), ParseDec(lonText, toNumber)) <==>
      var lat, lon := toNumber(Normalized(latText)), toNumber(Normalized(lonText));
      && gotoId != ""
      && lat.Finite? && -90.0 <= lat.x <= 90.0
      && lon.Finite? && -180.0 <= lon.x <= 180.0
  {
  }

  // ---------------------------------------------------------------------
  // Search and order
  // ---------------------------------------------------------------------

  predicate IsRunning(r: Row)
  {
    r.status == Running
  }

  /** The search test: a blank search keeps every row; otherwise the
      lower-cased id must contain the trimmed, lower-cased search text. */
  predicate Matches(r: Row, search: string)
  {
    Trim(search) == "" || Contains(Lower(r.id), Lower(Trim(search)))
  }

  /** The rows the search keeps, in their order. */
  function Matching(rows: seq<Row>, search: string): (r: seq<Row>)
    ensures |r| <= |rows|
  {
    Filter(rows, r => Matches(r, search))
  }

  /** The running-first comparator: running rows (rank 0) before the
      others (rank 1), then by id. */
  function Rank(r: Row): int
  {
    if IsRunning(r) then 0 else 1
  }

  predicate RunningFirst(a: Row, b: Row)
  {
    Rank(a) < Rank(b) || (Rank(a) == Rank(b) && Below(a.id, b.id))
  }

  predicate ById(a: Row, b: Row)
  {
    Below(a.id, b.id)
  }

  lemma RunningFirstIsTotalPreorder()
    ensures TotalPreorder(RunningFirst)
  {
    forall a, b ensures RunningFirst(a, b) || RunningFirst(b, a) { BelowTotal(a.id, b.id); }
    forall a, b, c | RunningFirst(a, b) && RunningFirst(b, c) ensures RunningFirst(a, c) {
      if Rank(a) == Rank(b) == Rank(c) { BelowTransitive(a.id, b.id, c.id); }
    }
  }

  lemma ByIdIsTotalPreorder()
    ensures TotalPreorder(ById)
  {
    forall a, b ensures ById(a, b) || ById(b, a) { BelowTotal(a.id, b.id); }
    forall a, b, c | ById(a, b) && ById(b, c) ensures ById(a, c) { BelowTransitive(a.id, b.id, c.id); }
  }

  /** The rows as the table lists them: the rows the search keeps, sorted
      running first when `activeFirst` is on and by id otherwise. */
  function Processed(rows: seq<Row>, search: string, activeFirst: bool): (r: seq<Row>)
    ensures multiset(r) == multiset(Matching(rows, search))
  {
    var arr := Matching(rows, search);
    if activeFirst then SortBy(arr, RunningFirst) else SortBy(arr, ById)
  }

  /** The listed rows are exactly the rows the search keeps, each as often
      as it occurs: nothing is lost, added or repeated. */
  lemma ProcessedIsMatching(rows: seq<Row>, search: string, activeFirst: bool, x: Row)
    ensures multiset(Processed(rows, search, activeFirst))[x] ==
            if Matches(x, search) then multiset(rows)[x] else 0
    ensures |Processed(rows, search, activeFirst)| == |Matching(rows, search)|
  {
    var r := Processed(rows, search, activeFirst);
    FilterCounts(rows, r => Matches(r, search), x);
    assert |r| == |multiset(r)|;
    assert |Matching(rows, search)| == |multiset(Matching(rows, search))|;
  }

  /** With `activeFirst` on, every running row comes before every other
      row, and rows of the same group are in id order. */
  lemma RunningRowsFirst(rows: seq<Row>, search: string)
    ensures var r := Processed(rows, search, true);
            forall i, j :: 0 <= i < j < |r| ==>
              && (IsRunning(r[j]) ==> IsRunning(r[i]))
              && (IsRunning(r[i]) == IsRunning(r[j]) ==> Below(r[i].id, r[j].id))
  {
    var r := Processed(rows, search, true);
    RunningFirstIsTotalPreorder();
    SortBySorted(Matching(rows, search), RunningFirst);
    forall i, j | 0 <= i < j < |r|
      ensures IsRunning(r[j]) ==> IsRunning(r[i])
      ensures IsRunning(r[i]) == IsRunning(r[j]) ==> Below(r[i].id, r[j].id)
    {
      assert RunningFirst(r[i], r[j]);
    }
  }

  /** With `activeFirst` off, the rows are in id order. */
  lemma RowsById(rows: seq<Row>, search: string)
    ensures var r := Processed(rows, search, false);
            forall i, j :: 0 <= i < j < |r| ==> Below(r[i].id, r[j].id)
  {
    var r := Processed(rows, search, false);
    ByIdIsTotalPreorder();
    SortBySorted(Matching(rows, search), ById);
    forall i, j | 0 <= i < j < |r| ensures Below(r[i].id, r[j].id) {
      assert ById(r[i], r[j]);
    }
  }

  // ---------------------------------------------------------------------
  // Paging
  // ---------------------------------------------------------------------

  /** `Math.ceil(n / k)` for a positive `k`, negative `n` included. */
  function CeilDiv(n: int, k: int): int
    requires k >= 1
  {
    -((-n) / k)
  }

  /** `Math.max(1, Math.ceil(n / k))`: the number of pages, never below one. */
  function TotalPages(n: int, k: int): (r: int)
    requires k >= 1
    ensures r >= 1
  {
    var c := CeilDiv(n, k);
    if c > 1 then c else 1
  }

  /** The page count is the fewest pages, and at least one, that hold `n`
      rows at `k` rows a page. */
  lemma TotalPagesBounds(n: int, k: int)
    requires k >= 1
    ensures n <= TotalPages(n, k) * k
    ensures TotalPages(n, k) == 1 || (TotalPages(n, k) - 1) * k < n
  {
    var q := (-n) / k;
    assert -n == q * k + (-n) % k;
    var c := CeilDiv(n, k);
    assert c * k == -(q * k);
    assert (c - 1) * k == c * k - k;
  }

  /** `(page - 1) * k`: where page `page` starts. */
  function PageStart(page: int, k: int): nat
    requires page >= 1 && k >= 1
  {
    MulMono(0, page - 1, k);
    (page - 1) * k
  }

  /** `processed.slice(start, start + k)`: the rows of page `page`, in
      order, at most `k` of them and within the list; the page is empty
      exactly when it starts past the end of the list. */
  function PageRows(p: seq<Row>, page: int, k: int): (r: seq<Row>)
    requires page >= 1 && k >= 1
    ensures |r| <= k
    ensures r != [] ==> PageStart(page, k) + |r| <= |p|
    ensures r == [] <==> PageStart(page, k) >= |p|
    ensures forall i :: 0 <= i < |r| ==> r[i] == p[PageStart(page, k) + i]
  {
    var start := PageStart(page, k);
    Slice(p, start, start + k)
  }

  /** Pages 1 to `n`, one after the other. */
  function PagesUpTo(p: seq<Row>, n: nat, k: int): seq<Row>
    requires k >= 1
  {
    if n == 0 then [] else PagesUpTo(p, n - 1, k) + PageRows(p, n, k)
  }

  lemma MulMono(a: int, b: int, k: int)
    requires a <= b && k >= 0
    ensures a * k <= b * k
  {
  }

  /** The smaller of `a` and `b`. */
  function Min(a: int, b: int): int
  {
    if a <= b then a else b
  }

  lemma MulStep(n: int, k: int)
    ensures (n - 1) * k + k == n * k
  {
  }

  /** Page `page` is the slice of the list from `lo` to `lo + k`, cut at its end. */
  lemma PageRowsIsSlice(p: seq<Row>, page: int, k: int)
    requires page >= 1 && k >= 1
    ensures var lo := PageStart(page, k);
            PageRows(p, page, k) == p[Min(lo, |p|)..Min(lo + k, |p|)]
  {
    var lo := PageStart(page, k);
    assert PageRows(p, page, k) == Slice(p, lo, lo + k);
  }

  lemma {:induction false} PagesUpToPrefix(p: seq<Row>, n: nat, k: int)
    requires k >= 1
    ensures PagesUpTo(p, n, k) == p[..Min(n * k, |p|)]
  {
    if n > 0 {
      var lo := PageStart(n, k);
      MulStep(n, k);
      PagesUpToPrefix(p, n - 1, k);
      PageRowsIsSlice(p, n, k);
      var a, b := Min(lo, |p|), Min(lo + k, |p|);
      SliceJoin(p, a, b);
    }
  }

  /** Paging loses and repeats nothing: the pages 1 to `totalPages`, one
      after the other, are the whole list. */
  lemma PagesCoverAll(p: seq<Row>, k: int)
    requires k >= 1
    ensures PagesUpTo(p, TotalPages(|p|, k), k) == p
  {
    TotalPagesBounds(|p|, k);
    PagesUpToPrefix(p, TotalPages(|p|, k), k);
  }

  /** `if (page > totalPages) setPage(totalPages)`. */
  function ClampedPage(page: int, total: int): (r: int)
    ensures r <= total
    ensures page <= total ==> r == page
    ensures page > total ==> r == total
    ensures page >= 1 && total >= 1 ==> r >= 1
  {
    if page > total then total else page
  }

  /** A page within range of a non-empty list always shows rows; so after
      the clamp the table is never blank while there are rows to show. */
  lemma PageInRangeNotEmpty(p: seq<Row>, page: int, k: int)
    requires k >= 1 && p != []
    requires 1 <= page <= TotalPages(|p|, k)
    ensures PageRows(p, page, k) != []
  {
    var t := TotalPages(|p|, k);
    TotalPagesBounds(|p|, k);
    if t > 1 {
      MulMono(page - 1, t - 1, k);
    } else {
      assert page == 1;
    }
  }

  /** The page after a delete: `after` is the length of the list as shown
      before the delete, less one, and the page is lowered into range. */
  function PageAfterDelete(page: int, shown: int, k: int): (r: int)
    requires k >= 1
    ensures r <= page
    ensures r <= TotalPages(shown - 1, k)
    ensures page >= 1 ==> r >= 1
    ensures var t := TotalPages(shown - 1, k); (page <= t ==> r == page) && (page > t ==> r == t)
  {
    ClampedPage(page, TotalPages(shown - 1, k))
  }

  /** The test `r => r.id !== id`. */
  function OtherThan(id: string): Row -> bool
  {
    (r: Row) => r.id != id
  }

  /** The rows without those of drone `id` (`prev.filter(r => r.id !== id)`):
      each row of another drone as often as it occurs, and no row of `id`. */
  function RemoveId(rows: seq<Row>, id: string): (r: seq<Row>)
    ensures |r| <= |rows|
    ensures forall x :: multiset(r)[x] == if x.id != id then multiset(rows)[x] else 0
  {
    FilterCountsAll(rows, OtherThan(id));
    Filter(rows, OtherThan(id))
  }

  /** The rows kept stay in their order: removing from two stretches of the
      list is removing from each in turn. */
  lemma RemoveIdAppend(a: seq<Row>, b: seq<Row>, id: string)
    ensures RemoveId(a + b, id) == RemoveId(a, id) + RemoveId(b, id)
  {
    FilterAppend(a, b, OtherThan(id));
  }

  /** How many rows belong to drone `id`. */
  function CountId(rows: seq<Row>, id: string): nat
  {
    if rows == [] then 0
    else (if rows[0].id == id then 1 else 0) + CountId(rows[1..], id)
  }

  lemma {:induction false} RemoveAbsent(rows: seq<Row>, id: string)
    requires CountId(rows, id) == 0
    ensures RemoveId(rows, id) == rows
  {
    if rows != [] {
      RemoveAbsent(rows[1..], id);
      assert rows == [rows[0]] + rows[1..];
    }
  }

  /** Removing the one row of a drone the search keeps shortens the
      matching rows by exactly one. */
  lemma {:induction false} RemoveOneMatching(rows: seq<Row>, search: string, id: string)
    requires CountId(rows, id) == 1
    requires Matches(Row(id, ""), search)
    ensures |Matching(RemoveId(rows, id), search)| + 1 == |Matching(rows, search)|
  {
    var head, tail := rows[0], rows[1..];
    var kept := if Matches(head, search) then [head] else [];
    assert Matching(rows, search) == kept + Matching(tail, search);
    if head.id == id {
      assert Matches(head, search);
      RemoveAbsent(tail, id);
      assert RemoveId(rows, id) == tail;
    } else {
      RemoveOneMatching(tail, search, id);
      var rest := RemoveId(tail, id);
      assert RemoveId(rows, id) == [head] + rest;
      assert ([head] + rest)[1..] == rest;
      assert Matching([head] + rest, search) == kept + Matching(rest, search);
    }
  }

  /** When the deleted drone had exactly one row and that row was listed,
      the page chosen after the delete is the page the clamp would choose
      for the new list: the table does not land past its last page. */
  lemma DeletePageMatchesClamp(rows: seq<Row>, search: string, activeFirst: bool,
                               page: int, k: int, id: string)
    requires k >= 1
    requires CountId(rows, id) == 1
    requires Matches(Row(id, ""), search)
    ensures var shown := |Processed(rows, search, activeFirst)|;
            var now := |Processed(RemoveId(rows, id), search, activeFirst)|;
            PageAfterDelete(page, shown, k) == ClampedPage(page, TotalPages(now, k))
  {
    ProcessedIsMatching(rows, search, activeFirst, Row(id, ""));
    ProcessedIsMatching(RemoveId(rows, id), search, activeFirst, Row(id, ""));
    RemoveOneMatching(rows, search, id);
  }

  /** Marking a drone busy and then clearing the mark leaves it cleared. */
  lemma BusyCleared(busy: map<string, bool>, id: string)
    ensures busy[id := true][id := false] == busy[id := false]
  {
  }

  // ---------------------------------------------------------------------
  // The component's state
  // ---------------------------------------------------------------------

  /** The table's state. `sent` records the commands handed to the API, in
      order; whether the API answered is an input of each operation. */
  class FleetTable {
    var rows: seq<Row>
    var busy: map<string, bool>
    var log: seq<LogLine>
    var page: int
    var pageSize: int
    var search: string
    var activeFirst: bool
    var gotoId: string
    var sent: seq<Request>

    ghost predicate Valid()
      reads this
    {
      |log| <= LogCap && page >= 1 && pageSize >= 1
    }

    constructor()
      ensures Valid()
      ensures rows == [] && busy == map[] && log == [] && sent == []
      ensures page == 1 && pageSize == 5 && search == "" && activeFirst && gotoId == ""
    {
      rows, busy, log, sent := [], map[], [], [];
      page, pageSize, search, activeFirst, gotoId := 1, 5, "", true, "";
    }

    /** `addLog`: appends a line, keeping the 50 newest old lines. */
    method AddLog(level: Level, event: Event, time: string)
      requires Valid()
      modifies this
      ensures Valid()
      ensures log == LogAfter(old(log), LogLine(time, level, event))
      ensures rows == old(rows) && busy == old(busy) && sent == old(sent)
      ensures page == old(page) && pageSize == old(pageSize) && gotoId == old(gotoId)
      ensures search == old(search) && activeFirst == old(activeFirst)
    {
      var kept := if |log| <= LogKeep then log else log[|log| - LogKeep..];
      log := kept + [LogLine(time, level, event)];
    }

    /** `fetchDrones`: on success the rows are replaced and, if no drone is
        chosen for GOTO yet, the first one is; on failure an error is logged. */
    method Load(data: Option<seq<Row>>, time: string)
      requires Valid()
      modifies this
      ensures Valid()
      ensures data.None? ==> rows == old(rows) && gotoId == old(gotoId)
                             && log == LogAfter(old(log), LogLine(time, Error, LoadFailed))
      ensures data.Some? ==> rows == data.value && log == old(log)
      ensures data.Some? ==> gotoId == if old(gotoId) == "" && data.value != [] then data.value[0].id else old(gotoId)
      ensures busy == old(busy) && sent == old(sent) && page == old(page) && pageSize == old(pageSize)
      ensures search == old(search) && activeFirst == old(activeFirst)
    {
      if data.None? {
        AddLog(Error, LoadFailed, time);
        return;
      }
      rows := data.value;
      if gotoId == "" && |data.value| > 0 {
        gotoId := data.value[0].id;
      }
    }

    /** `cmd`: marks the drone busy, hands the command to the API, logs the
        outcome and clears the busy mark. */
    method SendCommand(id: string, c: string, args: Option<GotoArgs>, time: string, delivered: bool)
      requires Valid()
      modifies this
      ensures Valid()
      ensures sent == old(sent) + [Request(id, c, args)]
      ensures busy == old(busy)[id := false]
      ensures log == LogAfter(old(log), LogLine(time, if delivered then Ok else Error,
                                                 if delivered then CmdSent(c, id, args) else CmdFailed(c, id)))
      ensures rows == old(rows) && page == old(page) && pageSize == old(pageSize) && gotoId == old(gotoId)
      ensures search == old(search) && activeFirst == old(activeFirst)
    {
      BusyCleared(busy, id);
      busy := busy[id := true];
      sent := sent + [Request(id, c, args)];
      if delivered {
        AddLog(Ok, CmdSent(c, id, args), time);
      } else {
        AddLog(Error, CmdFailed(c, id), time);
      }
      busy := busy[id := false];
    }

    /** `onGoto`: parses the three fields and sends a GOTO to the chosen
        drone only when the gate lets it through; otherwise it only logs
        an error. */
    method OnGoto(latText: string, lonText: string, altText: string, toNumber: string -> Numeric,
                  time: string, delivered: bool)
      requires Valid()
      modifies this
      ensures Valid()
      ensures var lat, lon := ParseDec(latText, toNumber), ParseDec(lonText, toNumber);
              if GotoAllowed(old(gotoId), lat, lon) then
                var args := Some(GotoArgs(lat.x, lon.x, ParseDec(altText, toNumber)));
                && sent == old(sent) + [Request(old(gotoId), "goto", args)]
                && busy == old(busy)[old(gotoId) := false]
                && log == LogAfter(old(log), LogLine(time, if delivered then Ok else Error,
                                                     if delivered then CmdSent("goto", old(gotoId), args)
                                                     else CmdFailed("goto", old(gotoId))))
              else
                sent == old(sent) && busy == old(busy)
                && log == LogAfter(old(log), LogLine(time, Error, GotoInvalid))
      ensures rows == old(rows) && page == old(page) && gotoId == old(gotoId)
      ensures pageSize == old(pageSize) && search == old(search) && activeFirst == old(activeFirst)
    {
      var lat := ParseDec(latText, toNumber);
      var lon := ParseDec(lonText, toNumber);
      var alt := ParseDec(altText, toNumber);
      if gotoId == "" || !IsValidLat(lat) || !IsValidLon(lon) {
        AddLog(Error, GotoInvalid, time);
        return;
      }
      SendCommand(gotoId, "goto", Some(GotoArgs(lat.x, lon.x, alt)), time, delivered);
    }

    /** The effect that pulls the page back to the last page. */
    method ClampPage()
      requires Valid()
      modifies this
      ensures Valid()
      ensures page == ClampedPage(old(page), TotalPages(|Processed(rows, search, activeFirst)|, pageSize))
      ensures rows == old(rows) && log == old(log) && sent == old(sent) && busy == old(busy)
      ensures search == old(search) && activeFirst == old(activeFirst) && pageSize == old(pageSize)
      ensures gotoId == old(gotoId)
    {
      var totalPages := TotalPages(|Processed(rows, search, activeFirst)|, pageSize);
      if page > totalPages {
        page := totalPages;
      }
    }

    /** Typing in the search box: the search changes and the table goes
        back to page 1. */
    method SetSearch(text: string)
      requires Valid()
      modifies this
      ensures Valid()
      ensures search == text && page == 1
      ensures rows == old(rows) && log == old(log) && pageSize == old(pageSize)
      ensures busy == old(busy) && sent == old(sent) && activeFirst == old(activeFirst) && gotoId == old(gotoId)
    {
      search := text;
      page := 1;
    }

    /** Choosing a page size: back to page 1. */
    method SetPageSize(k: int)
      requires Valid()
      requires k >= 1
      modifies this
      ensures Valid()
      ensures pageSize == k && page == 1
      ensures rows == old(rows) && log == old(log) && search == old(search)
      ensures busy == old(busy) && sent == old(sent) && activeFirst == old(activeFirst) && gotoId == old(gotoId)
    {
      pageSize := k;
      page := 1;
    }

    /** "Oui, supprimer": marks the drone busy; when the API deleted it,
        drops its rows, logs it and lowers the page using the length of the
        list as it was shown before the delete; otherwise logs the failure.
        The busy mark is cleared either way. An empty choice does nothing. */
    method ConfirmDelete(toDelete: string, deleted: bool, time: string)
      requires Valid()
      modifies this
      ensures Valid()
      ensures rows == if toDelete != "" && deleted then RemoveId(old(rows), toDelete) else old(rows)
      ensures log == if toDelete == "" then old(log)
                     else if deleted then LogAfter(old(log), LogLine(time, Ok, Deleted(toDelete)))
                     else LogAfter(old(log), LogLine(time, Error, DeleteFailed(toDelete)))
      ensures page == if toDelete != "" && deleted
                      then PageAfterDelete(old(page), |Processed(old(rows), search, activeFirst)|, pageSize)
                      else old(page)
      ensures busy == if toDelete == "" then old(busy) else old(busy)[toDelete := false]
      ensures sent == old(sent) && search == old(search) && activeFirst == old(activeFirst)
      ensures pageSize == old(pageSize) && gotoId == old(gotoId)
    {
      if toDelete != "" {
        var shown := |Processed(rows, search, activeFirst)|;
        BusyCleared(busy, toDelete);
        busy := busy[toDelete := true];
        if deleted {
          DropDeleted(toDelete, shown, time);
        } else {
          AddLog(Error, DeleteFailed(toDelete), time);
        }
        busy := busy[toDelete := false];
      }
    }

    /** The success branch of the delete: the drone's rows go, the delete is
        logged, and the page is lowered into the range of a list one row
        shorter than the `shown` rows listed before. */
    method DropDeleted(toDelete: string, shown: int, time: string)
      requires Valid()
      modifies this
      ensures Valid()
      ensures rows == RemoveId(old(rows), toDelete)
      ensures page == PageAfterDelete(old(page), shown, pageSize)
      ensures log == LogAfter(old(log), LogLine(time, Ok, Deleted(toDelete)))
      ensures busy == old(busy) && sent == old(sent) && search == old(search)
      ensures activeFirst == old(activeFirst) && pageSize == old(pageSize) && gotoId == old(gotoId)
    {
      rows := RemoveId(rows, toDelete);
      AddLog(Ok, Deleted(toDelete), time);
      var newTotalPages := TotalPages(shown - 1, pageSize);
      if page > newTotalPages {
        page := newTotalPages;
      }
    }
  }
}
