/**
 The ground truth of the restart check: rounds of rows are written into a closed time
 window, and what a reader must find afterwards is computed in bulk after each round.

 A round whose process dies after writing and before saving is written again from the
 saved state.
 */
module Churn {
  import opened Basics

  const MINUTE := 60 * 1_000_000_000
  const HOUR := 60 * MINUTE

  datatype Row = Row(table: nat, host: nat, v: nat, ts: int)

  datatype Stats = Stats(count: nat, sumV: int, minTs: Option<int>, maxTs: Option<int>, hours: map<int, nat>)

  const NOTHING := Stats(0, 0, None, None, map[])

  /** What a run is given: the start of the window, the number of tables and of hours. */
  datatype Window = Window(start: int, tables: nat, hours: nat)

  /** The state that is saved after every round. */
  datatype Expected = Expected(nextRound: nat, nextG: nat, perTable: map<nat, Stats>)

  datatype Attempt = Attempt(rows: nat, hosts: nat, saved: bool)

  ghost predicate Sensible(w: Window) {
    w.tables > 0 && w.hours > 0
  }

  function HourOf(w: Window, r: nat): nat
    requires Sensible(w)
  {
    (r / w.tables) % w.hours
  }

  function Base(w: Window, r: nat): int
    requires Sensible(w)
  {
    w.start + HourOf(w, r) * HOUR + (r / w.tables / w.hours) % 60 * MINUTE
  }

  function RowOf(w: Window, r: nat, g: nat, hosts: nat): Row
    requires Sensible(w) && hosts > 0
  {
    Row(r % w.tables, g % hosts, g, Base(w, r) + g)
  }

  /** The rows of a round, by their row ids. */
  function RoundRows(w: Window, r: nat, g: nat, n: nat, hosts: nat): seq<Row>
    requires Sensible(w) && hosts > 0
  {
    seq(n, i requires 0 <= i < n => RowOf(w, r, g + i, hosts))
  }

  lemma RoundRowsGrow(w: Window, r: nat, g: nat, n: nat, hosts: nat)
    requires Sensible(w) && hosts > 0
    ensures RoundRows(w, r, g, n + 1, hosts) == RoundRows(w, r, g, n, hosts) + [RowOf(w, r, g + n, hosts)]
  {}

  lemma QuotientOf(k: nat, d: nat, t: nat)
    requires t < d
    ensures (k * d + t) / d == k && (k * d + t) % d == t
  {
    var r := k * d + t;
    assert r == r / d * d + r % d;
    if r / d < k {
      LessByOne(r / d, k, d);
    } else if r / d > k {
      LessByOne(k, r / d, d);
    }
  }

  lemma LessByOne(a: nat, b: nat, d: nat)
    requires a < b
    ensures a * d + d <= b * d
  {
    assert b * d - (a + 1) * d == (b - a - 1) * d >= 0;
  }

  /** The k-th visit of each table, counted from zero, is in hour `k` modulo the number of
      hours: it goes through the hours in turn and on to the next minute when it has been in
      all of them. */
  lemma HoursInTurn(w: Window, t: nat, k: nat, g: nat, hosts: nat)
    requires Sensible(w) && t < w.tables && hosts > 0
    ensures var row := RowOf(w, k * w.tables + t, g, hosts);
            && row.table == t && row.v == g && row.host == g % hosts
            && row.ts == w.start + k % w.hours * HOUR + k / w.hours % 60 * MINUTE + g
  {
    QuotientOf(k, w.tables, t);
  }

  function Lowest(a: Option<int>, x: int): int {
    if a.None? then x else Min(a.value, x)
  }

  function Highest(a: Option<int>, x: int): int {
    if a.None? then x else Max(a.value, x)
  }

  function CountAt(hours: map<int, nat>, h: int): nat {
    if h in hours then hours[h] else 0
  }

  /** What a reader finds: one table's rows added up one by one, each counted in the hour
      its own time falls into. */
  function Observed(start: int, rows: seq<Row>, t: nat): Stats {
    if rows == [] then NOTHING
    else
      var row := rows[|rows| - 1];
      var s := Observed(start, rows[..|rows| - 1], t);
      if row.table != t then s
      else
        var h := (row.ts - start) / HOUR;
        Stats(s.count + 1, s.sumV + row.v, Some(Lowest(s.minTs, row.ts)), Some(Highest(s.maxTs, row.ts)),
              s.hours[h := CountAt(s.hours, h) + 1])
  }

  /** The bulk update of one table after a round of `n` rows. */
  function Recorded(s: Stats, base: int, hour: int, g: nat, n: nat): Stats {
    Stats(s.count + n, s.sumV + n * g + n * (n - 1) / 2,
          Some(Lowest(s.minTs, base + g)), Some(Highest(s.maxTs, base + g + n - 1)),
          s.hours[hour := CountAt(s.hours, hour) + n])
  }

  function StatsOf(e: Expected, t: nat): Stats {
    if t in e.perTable then e.perTable[t] else NOTHING
  }

  /** A row falls into the hour it is meant for exactly while its minute and its id stay
      below the hour. */
  lemma InItsHour(w: Window, r: nat, g: nat)
    requires Sensible(w)
    ensures (Base(w, r) + g - w.start) / HOUR == HourOf(w, r) <==> (r / w.tables / w.hours) % 60 * MINUTE + g < HOUR
    ensures g < MINUTE ==> (Base(w, r) + g - w.start) / HOUR == HourOf(w, r)
  {
    var rest := (r / w.tables / w.hours) % 60 * MINUTE + g;
    assert Base(w, r) + g - w.start == HourOf(w, r) * HOUR + rest;
  }

  lemma SumOfMore(n: nat, g: nat)
    ensures (n + 1) * g + (n + 1) * n / 2 == n * g + n * (n - 1) / 2 + (g + n)
  {
    assert (n + 1) * n == n * (n - 1) + 2 * n;
    assert (n + 1) * g == n * g + g;
  }

  /** One row more than in the bulk update is the bulk update of one row more. */
  lemma RecordedMore(s: Stats, base: int, hour: int, g: nat, n: nat)
    ensures var ts := base + g + n;
            var r := if n == 0 then s else Recorded(s, base, hour, g, n);
            Recorded(s, base, hour, g, n + 1) ==
            Stats(r.count + 1, r.sumV + (g + n), Some(Lowest(r.minTs, ts)), Some(Highest(r.maxTs, ts)),
                  r.hours[hour := CountAt(r.hours, hour) + 1])
  {
    SumOfMore(n, g);
    var r := if n == 0 then s else Recorded(s, base, hour, g, n);
    assert Recorded(s, base, hour, g, n + 1).hours == r.hours[hour := CountAt(r.hours, hour) + 1];
  }

  /** A row added to those observed. */
  lemma ObservedMore(start: int, rows: seq<Row>, row: Row, t: nat)
    ensures var s, h := Observed(start, rows, t), (row.ts - start) / HOUR;
            Observed(start, rows + [row], t) ==
            if row.table != t then s
            else Stats(s.count + 1, s.sumV + row.v, Some(Lowest(s.minTs, row.ts)), Some(Highest(s.maxTs, row.ts)),
                       s.hours[h := CountAt(s.hours, h) + 1])
  {
    assert (rows + [row])[..|rows|] == rows;
  }

  /** Adding the rows of a round one by one is the bulk update. */
  lemma {:induction false} ObservedRound(w: Window, rows: seq<Row>, r: nat, g: nat, n: nat, hosts: nat, t: nat)
    requires Sensible(w) && hosts > 0 && g + n <= MINUTE
    ensures t != r % w.tables || n == 0 ==> Observed(w.start, rows + RoundRows(w, r, g, n, hosts), t) == Observed(w.start, rows, t)
    ensures t == r % w.tables && n > 0 ==>
              Observed(w.start, rows + RoundRows(w, r, g, n, hosts), t) ==
              Recorded(Observed(w.start, rows, t), Base(w, r), HourOf(w, r), g, n)
  {
    if n == 0 {
      assert rows + RoundRows(w, r, g, n, hosts) == rows;
    } else {
      var m := n - 1;
      var before, row := rows + RoundRows(w, r, g, m, hosts), RowOf(w, r, g + m, hosts);
      ObservedRound(w, rows, r, g, m, hosts, t);
      RoundRowsGrow(w, r, g, m, hosts);
      assert rows + RoundRows(w, r, g, n, hosts) == before + [row];
      ObservedMore(w.start, before, row, t);
      InItsHour(w, r, g + m);
      RecordedMore(Observed(w.start, rows, t), Base(w, r), HourOf(w, r), g, m);
    }
  }

  /** Row ids count up from zero, and every time is a minute of the window plus the id. */
  ghost predicate Numbered(w: Window, rows: seq<Row>) {
    forall k :: 0 <= k < |rows| ==> rows[k].v == k && OnMinute(w, rows[k])
  }

  ghost predicate OnMinute(w: Window, row: Row) {
    (row.ts - row.v - w.start) % MINUTE == 0
  }

  ghost predicate DistinctTimes(rows: seq<Row>) {
    forall i, j :: 0 <= i < j < |rows| ==> rows[i].ts != rows[j].ts
  }

  /** No two rows are of the same series and time, so that none overwrites another. */
  ghost predicate DistinctPoints(rows: seq<Row>) {
    forall i, j :: 0 <= i < j < |rows| ==>
      (rows[i].table, rows[i].host, rows[i].ts) != (rows[j].table, rows[j].host, rows[j].ts)
  }

  lemma BaseIsOnMinute(w: Window, r: nat, g: nat, hosts: nat)
    requires Sensible(w) && hosts > 0
    ensures OnMinute(w, RowOf(w, r, g, hosts))
  {
    var slot := HourOf(w, r) * 60 + (r / w.tables / w.hours) % 60;
    assert Base(w, r) - w.start == slot * MINUTE;
  }

  lemma NumberedTimesDiffer(w: Window, rows: seq<Row>)
    requires Numbered(w, rows) && |rows| <= MINUTE
    ensures DistinctTimes(rows)
  {
    forall i, j | 0 <= i < j < |rows| ensures rows[i].ts != rows[j].ts {
      assert OnMinute(w, rows[i]) && OnMinute(w, rows[j]);
      assert 0 < rows[j].v - rows[i].v < MINUTE;
    }
  }

  /** The saved state says exactly what a reader finds. */
  ghost predicate Exact(w: Window, e: Expected, rows: seq<Row>) {
    forall t: nat :: StatsOf(e, t) == Observed(w.start, rows, t)
  }

  /** After a round the saved state is exact exactly when the round had rows, or its table
      already covers the hour and the time it names without any. */
  lemma RecordIsExact(w: Window, e: Expected, after: Expected, rows: seq<Row>, n: nat, hosts: nat)
    requires Sensible(w) && hosts > 0 && Exact(w, e, rows) && e.nextG + n <= MINUTE
    requires var t := e.nextRound % w.tables;
             after.perTable == e.perTable[t := Recorded(StatsOf(e, t), Base(w, e.nextRound), HourOf(w, e.nextRound), e.nextG, n)]
    ensures Exact(w, after, rows + RoundRows(w, e.nextRound, e.nextG, n, hosts)) <==>
            n > 0 || CoversNothing(StatsOf(e, e.nextRound % w.tables), Base(w, e.nextRound) + e.nextG, HourOf(w, e.nextRound))
  {
    var t := e.nextRound % w.tables;
    var all := rows + RoundRows(w, e.nextRound, e.nextG, n, hosts);
    forall u: nat ensures u != t ==> StatsOf(after, u) == Observed(w.start, all, u) {
      ObservedRound(w, rows, e.nextRound, e.nextG, n, hosts, u);
    }
    ObservedRound(w, rows, e.nextRound, e.nextG, n, hosts, t);
    if n == 0 {
      EmptyRecord(StatsOf(e, t), Base(w, e.nextRound), HourOf(w, e.nextRound), e.nextG);
      assert StatsOf(after, t) == Observed(w.start, all, t) <==> Exact(w, after, all);
    }
  }

  ghost predicate CoversNothing(s: Stats, time: int, hour: int) {
    s.minTs.Some? && s.minTs.value <= time && s.maxTs.Some? && s.maxTs.value >= time - 1 && hour in s.hours
  }

  lemma EmptyRecord(s: Stats, base: int, hour: int, g: nat)
    ensures Recorded(s, base, hour, g, 0) == s <==> CoversNothing(s, base + g, hour)
  {
    if hour in s.hours {
      assert s.hours[hour := CountAt(s.hours, hour) + 0] == s.hours;
    }
  }

  lemma InRound(w: Window, r: nat, g: nat, n: nat, hosts: nat, row: Row)
    requires Sensible(w) && hosts > 0
    ensures row in RoundRows(w, r, g, n, hosts) <==> g <= row.v < g + n && row == RowOf(w, r, row.v, hosts)
  {
    var rows := RoundRows(w, r, g, n, hosts);
    if g <= row.v < g + n {
      assert rows[row.v - g] == RowOf(w, r, row.v, hosts);
    }
    if row in rows {
      var i :| 0 <= i < n && rows[i] == row;
      assert row == RowOf(w, r, g + i, hosts);
    }
  }

  ghost predicate SameHost(v: nat, hosts: nat, others: nat)
    requires hosts > 0 && others > 0
  {
    v % hosts == v % others
  }

  /** A round that is written again writes over all its rows exactly when it has no fewer
      of them and spreads them over the same hosts. */
  lemma RewritesAll(w: Window, r: nat, g: nat, n: nat, hosts: nat, m: nat, others: nat)
    requires Sensible(w) && hosts > 0 && others > 0
    ensures (forall row :: row in RoundRows(w, r, g, n, hosts) ==> row in RoundRows(w, r, g, m, others)) <==>
            n <= m && forall v :: g <= v < g + n ==> SameHost(v, hosts, others)
  {
    var first, again := RoundRows(w, r, g, n, hosts), RoundRows(w, r, g, m, others);
    forall row: Row ensures row in first <==> g <= row.v < g + n && row == RowOf(w, r, row.v, hosts) {
      InRound(w, r, g, n, hosts, row);
    }
    forall row: Row ensures row in again <==> g <= row.v < g + m && row == RowOf(w, r, row.v, others) {
      InRound(w, r, g, m, others, row);
    }
    if forall row :: row in first ==> row in again {
      forall v | g <= v < g + n ensures v < g + m && SameHost(v, hosts, others) {
        assert RowOf(w, r, v, hosts) in first;
      }
      if n > 0 {
        assert SameHost(g + n - 1, hosts, others);
      }
    }
    if n <= m && forall v :: g <= v < g + n ==> SameHost(v, hosts, others) {
      forall row | row in first ensures row in again {
        assert SameHost(row.v, hosts, others);
      }
    }
  }

  /** The round is recorded: it was accepted, and saved. */
  predicate IsKept(a: Attempt) {
    a.saved && a.rows > 0
  }

  class Churner {
    const w: Window
    var nextRound: nat
    var nextG: nat
    var perTable: map<nat, Stats>
    var saved: Expected
    var written: seq<Row>

    constructor (window: Window)
      ensures w == window && saved == Expected(0, 0, map[]) && written == []
    {
      w, nextRound, nextG, perTable := window, 0, 0, map[];
      saved, written := Expected(0, 0, map[]), [];
    }

    method Load()
      modifies this`nextRound, this`nextG, this`perTable
      ensures Expected(nextRound, nextG, perTable) == saved
    {
      nextRound, nextG, perTable := saved.nextRound, saved.nextG, saved.perTable;
    }

    /** The server refuses a write without lines, and the run ends there. */
    method WriteRound(n: nat, hosts: nat) returns (accepted: bool)
      requires Sensible(w) && hosts > 0
      modifies this`written
      ensures accepted <==> n > 0
      ensures written == old(written) + RoundRows(w, nextRound, nextG, n, hosts)
    {
      var hour := (nextRound / w.tables) % w.hours;
      var minute := (nextRound / w.tables / w.hours) % 60;
      var base := w.start + hour * HOUR + minute * MINUTE;
      var lines: seq<Row> := [];
      for i := 0 to n
        invariant lines == RoundRows(w, nextRound, nextG, i, hosts) && written == old(written)
      {
        var g := nextG + i;
        RoundRowsGrow(w, nextRound, nextG, i, hosts);
        lines := lines + [Row(nextRound % w.tables, g % hosts, g, base + g)];
      }
      accepted := lines != [];
      written := written + lines;
    }

    method Record(n: nat)
      requires Sensible(w)
      modifies this`nextRound, this`nextG, this`perTable
      ensures nextRound == old(nextRound) + 1 && nextG == old(nextG) + n
      ensures var e := old(Expected(nextRound, nextG, perTable));
              var t := e.nextRound % w.tables;
              perTable == e.perTable[t := Recorded(StatsOf(e, t), Base(w, e.nextRound), HourOf(w, e.nextRound), e.nextG, n)]
    {
      var table := nextRound % w.tables;
      var hour := (nextRound / w.tables) % w.hours;
      var minute := (nextRound / w.tables / w.hours) % 60;
      var base := w.start + hour * HOUR + minute * MINUTE;
      var t := if table in perTable then perTable[table] else NOTHING;
      t := t.(count := t.count + n, sumV := t.sumV + n * nextG + n * (n - 1) / 2);
      var lo, hi := base + nextG, base + nextG + n - 1;
      t := t.(minTs := Some(if t.minTs.None? then lo else Min(t.minTs.value, lo)));
      t := t.(maxTs := Some(if t.maxTs.None? then hi else Max(t.maxTs.value, hi)));
      t := t.(hours := t.hours[hour := (if hour in t.hours then t.hours[hour] else 0) + n]);
      perTable := perTable[table := t];
      nextRound, nextG := nextRound + 1, nextG + n;
    }

    /** One round from the saved state on; without the save, only the rows remain of it,
        and an empty round is not recorded. */
    method Try(a: Attempt)
      requires Sensible(w) && a.hosts > 0
      modifies this
      ensures written == old(written) + RoundRows(w, old(saved).nextRound, old(saved).nextG, a.rows, a.hosts)
      ensures !IsKept(a) ==> saved == old(saved)
      ensures IsKept(a) ==> saved == ExpectedStep(w, old(saved), a.rows)
    {
      Load();
      var accepted := WriteRound(a.rows, a.hosts);
      if !accepted { return; }
      Record(a.rows);
      if a.saved {
        saved := Expected(nextRound, nextG, perTable);
      }
    }
  }

  function SavedRounds(attempts: seq<Attempt>): nat {
    if attempts == [] then 0
    else SavedRounds(attempts[..|attempts| - 1]) + (if IsKept(attempts[|attempts| - 1]) then 1 else 0)
  }

  /** The rows of the saved rounds. */
  function SavedRows(w: Window, attempts: seq<Attempt>): seq<Row>
    requires Sensible(w)
    requires forall i :: 0 <= i < |attempts| ==> attempts[i].hosts > 0
  {
    if attempts == [] then []
    else
      var before, a := attempts[..|attempts| - 1], attempts[|attempts| - 1];
      var rows := SavedRows(w, before);
      if IsKept(a) then rows + RoundRows(w, SavedRounds(before), |rows|, a.rows, a.hosts) else rows
  }

  ghost predicate Sound(w: Window, attempts: seq<Attempt>) {
    Sensible(w) && forall i :: 0 <= i < |attempts| ==> attempts[i].hosts > 0
  }

  lemma {:induction false} SavedRowsNumbered(w: Window, attempts: seq<Attempt>)
    requires Sound(w, attempts)
    ensures Numbered(w, SavedRows(w, attempts))
  {
    if attempts != [] {
      var before, a := attempts[..|attempts| - 1], attempts[|attempts| - 1];
      SavedRowsNumbered(w, before);
      NumberedMore(w, SavedRows(w, before), SavedRounds(before), a.rows, a.hosts);
    }
  }

  lemma SavedMore(w: Window, attempts: seq<Attempt>, n: nat)
    requires Sound(w, attempts) && n > 0
    ensures Sound(w, attempts + [Attempt(n, 1, true)])
    ensures SavedRounds(attempts + [Attempt(n, 1, true)]) == SavedRounds(attempts) + 1
    ensures SavedRows(w, attempts + [Attempt(n, 1, true)]) ==
            SavedRows(w, attempts) + RoundRows(w, SavedRounds(attempts), |SavedRows(w, attempts)|, n, 1)
  {
    assert (attempts + [Attempt(n, 1, true)])[..|attempts|] == attempts;
  }

  /** The first row is in round 0, at the start of the window, and none is earlier than its
      id after it. */
  lemma {:induction false} RowsFollowTheStart(w: Window, attempts: seq<Attempt>)
    requires Sound(w, attempts)
    ensures var rows := SavedRows(w, attempts);
            && (rows == [] <==> SavedRounds(attempts) == 0)
            && (rows != [] ==> rows[0].ts == w.start)
            && forall k :: 0 <= k < |rows| ==> rows[k].ts >= w.start + k
  {
    if attempts != [] {
      var before, a := attempts[..|attempts| - 1], attempts[|attempts| - 1];
      RowsFollowTheStart(w, before);
      if IsKept(a) {
        RoundFollowsTheStart(w, SavedRows(w, before), SavedRounds(before), a.rows, a.hosts);
      }
    }
  }

  lemma RoundFollowsTheStart(w: Window, rows: seq<Row>, r: nat, n: nat, hosts: nat)
    requires Sensible(w) && hosts > 0 && n > 0 && (rows == [] ==> r == 0)
    requires rows != [] ==> rows[0].ts == w.start
    requires forall k :: 0 <= k < |rows| ==> rows[k].ts >= w.start + k
    ensures var all := rows + RoundRows(w, r, |rows|, n, hosts);
            all[0].ts == w.start && forall k :: 0 <= k < |all| ==> all[k].ts >= w.start + k
  {
    var all := rows + RoundRows(w, r, |rows|, n, hosts);
    NotBeforeTheStart(w, r);
    forall k | 0 <= k < |all| ensures all[k].ts >= w.start + k {
      if k >= |rows| {
        assert all[k] == RowOf(w, r, |rows| + (k - |rows|), hosts);
      }
    }
    if rows == [] {
      assert all[0] == RowOf(w, r, 0 + 0, hosts);
    }
  }

  lemma NotBeforeTheStart(w: Window, r: nat)
    requires Sensible(w)
    ensures Base(w, r) >= w.start && (r == 0 ==> Base(w, r) == w.start)
  {
    if r == 0 {
      assert HourOf(w, r) == 0;
    }
  }

  /** Times a minute's worth of ids apart differ as well if the first one is the start. */
  lemma OneMoreTimeDiffers(w: Window, rows: seq<Row>)
    requires Numbered(w, rows) && |rows| <= MINUTE + 1
    requires rows != [] ==> rows[0].ts == w.start
    requires forall k :: 0 <= k < |rows| ==> rows[k].ts >= w.start + k
    ensures DistinctTimes(rows)
  {
    forall i, j | 0 <= i < j < |rows| ensures rows[i].ts != rows[j].ts {
      assert OnMinute(w, rows[i]) && OnMinute(w, rows[j]);
      assert 0 < rows[j].v - rows[i].v <= MINUTE;
    }
  }

  lemma SavedTimesDiffer(w: Window, attempts: seq<Attempt>)
    requires Sound(w, attempts) && |SavedRows(w, attempts)| <= MINUTE + 1
    ensures DistinctTimes(SavedRows(w, attempts))
  {
    SavedRowsNumbered(w, attempts);
    RowsFollowTheStart(w, attempts);
    OneMoreTimeDiffers(w, SavedRows(w, attempts));
  }

  lemma RoundOfOne(w: Window, r: nat, g: nat)
    requires Sensible(w)
    ensures RoundRows(w, r, g, 1, 1) == [RowOf(w, r, g, 1)]
  {
    RoundRowsGrow(w, r, g, 0, 1);
    assert RoundRows(w, r, g, 0, 1) == [];
  }

  /** One row in each of the first `k` rounds. */
  function OneEach(k: nat): seq<Attempt> {
    if k == 0 then [] else OneEach(k - 1) + [Attempt(1, 1, true)]
  }

  /** Row `i` is the only one of round `i`. */
  ghost predicate RowARound(w: Window, rows: seq<Row>)
    requires Sensible(w)
  {
    forall i :: 0 <= i < |rows| ==> rows[i] == RowOf(w, i, i, 1)
  }

  /** Rounds of one row each, one more of them. */
  lemma OneMoreRound(w: Window, attempts: seq<Attempt>)
    requires Sound(w, attempts) && RowARound(w, SavedRows(w, attempts))
    requires SavedRounds(attempts) == |SavedRows(w, attempts)|
    ensures var more := attempts + [Attempt(1, 1, true)];
            && Sound(w, more) && RowARound(w, SavedRows(w, more))
            && SavedRounds(more) == |SavedRows(w, more)| == |SavedRows(w, attempts)| + 1
  {
    var n := |SavedRows(w, attempts)|;
    SavedMore(w, attempts, 1);
    RoundOfOne(w, n, n);
  }

  lemma {:induction false} OneEachIsSaved(w: Window, k: nat)
    requires Sensible(w)
    ensures Sound(w, OneEach(k)) && SavedRounds(OneEach(k)) == |SavedRows(w, OneEach(k))| == k
    ensures RowARound(w, SavedRows(w, OneEach(k)))
  {
    if k > 0 {
      OneEachIsSaved(w, k - 1);
      OneMoreRound(w, OneEach(k - 1));
    }
  }

  /** One row in each of the first `k` rounds and all others in the next one. */
  function LongRun(k: nat, n: nat): seq<Attempt> {
    OneEach(k) + [Attempt(n, 1, true)]
  }

  lemma LongRunIsSaved(w: Window, k: nat, n: nat)
    requires Sensible(w) && n > 0
    ensures Sound(w, LongRun(k, n))
    ensures var rows := SavedRows(w, LongRun(k, n));
            && |rows| == k + n
            && (forall i :: 0 <= i < k ==> rows[i] == RowOf(w, i, i, 1))
            && (forall i :: k <= i < k + n ==> rows[i] == RowOf(w, k, i, 1))
  {
    OneEachIsSaved(w, k);
    SavedMore(w, OneEach(k), n);
    var rows := SavedRows(w, LongRun(k, n));
    forall i | k <= i < k + n ensures rows[i] == RowOf(w, k, i, 1) {
      assert rows[i] == RowOf(w, k, k + (i - k), 1);
    }
  }

  /** With one table and one hour, round 60 has come back to the minute of round 0. */
  lemma SamePoint(w: Window)
    requires w.tables == 1 && w.hours == 1
    ensures RowOf(w, 60, MINUTE + 1, 1) == RowOf(w, 1, 1, 1).(v := MINUTE + 1)
  {
    assert HourOf(w, 1) == 0 && HourOf(w, 60) == 0;
    assert Base(w, 1) == w.start + MINUTE && Base(w, 60) == w.start;
  }

  /** With one table, one hour and one host, the second row and the one a minute's worth of
      ids later are the same series at the same time. */
  lemma TimesCollideInALongRun(w: Window, k: nat, n: nat)
    requires w.tables == 1 && w.hours == 1 && k == 60 && k + n >= MINUTE + 2
    ensures Sound(w, LongRun(k, n))
    ensures |SavedRows(w, LongRun(k, n))| == k + n
    ensures !DistinctTimes(SavedRows(w, LongRun(k, n))) && !DistinctPoints(SavedRows(w, LongRun(k, n)))
  {
    LongRunIsSaved(w, k, n);
    SamePoint(w);
    var rows := SavedRows(w, LongRun(k, n));
    assert rows[1] == RowOf(w, 1, 1, 1);
    assert rows[MINUTE + 1] == RowOf(w, k, MINUTE + 1, 1);
  }

  ghost predicate KeepsApart(n: nat) {
    forall w, attempts :: Sound(w, attempts) && |SavedRows(w, attempts)| == n ==> DistinctPoints(SavedRows(w, attempts))
  }

  /** How many rows the row id keeps apart, whatever the window and the rounds: exactly a
      minute's worth and one. */
  lemma KeepsApartExactly(n: nat)
    ensures KeepsApart(n) <==> n <= MINUTE + 1
  {
    if n <= MINUTE + 1 {
      forall w, attempts | Sound(w, attempts) && |SavedRows(w, attempts)| == n ensures DistinctPoints(SavedRows(w, attempts)) {
        SavedTimesDiffer(w, attempts);
      }
    } else {
      var w, k := Window(0, 1, 1), 60;
      TimesCollideInALongRun(w, k, n - k);
    }
  }

  // ----- the expected state ---------------------------------------------------------------

  function ExpectedStep(w: Window, e: Expected, n: nat): Expected
    requires Sensible(w)
  {
    var t := e.nextRound % w.tables;
    Expected(e.nextRound + 1, e.nextG + n,
             e.perTable[t := Recorded(StatsOf(e, t), Base(w, e.nextRound), HourOf(w, e.nextRound), e.nextG, n)])
  }

  /** The state that the rounds leave. */
  function ExpectedOf(w: Window, attempts: seq<Attempt>): Expected
    requires Sensible(w)
  {
    if attempts == [] then Expected(0, 0, map[])
    else
      var before, a := ExpectedOf(w, attempts[..|attempts| - 1]), attempts[|attempts| - 1];
      if IsKept(a) then ExpectedStep(w, before, a.rows) else before
  }

  lemma {:induction false} ExpectedCounts(w: Window, attempts: seq<Attempt>)
    requires Sound(w, attempts)
    ensures ExpectedOf(w, attempts).nextRound == SavedRounds(attempts)
    ensures ExpectedOf(w, attempts).nextG == |SavedRows(w, attempts)|
  {
    if attempts != [] {
      ExpectedCounts(w, attempts[..|attempts| - 1]);
    }
  }

  lemma {:induction false} ExpectedIsExact(w: Window, attempts: seq<Attempt>)
    requires Sound(w, attempts) && |SavedRows(w, attempts)| <= MINUTE
    ensures Exact(w, ExpectedOf(w, attempts), SavedRows(w, attempts))
  {
    if attempts != [] {
      var before, a := attempts[..|attempts| - 1], attempts[|attempts| - 1];
      ExpectedIsExact(w, before);
      ExpectedCounts(w, before);
      if IsKept(a) {
        RecordIsExact(w, ExpectedOf(w, before), ExpectedOf(w, attempts), SavedRows(w, before), a.rows, a.hosts);
      }
    }
  }

  lemma {:induction false} ObservedHour(start: int, rows: seq<Row>, t: nat, k: nat)
    requires k < |rows| && rows[k].table == t
    ensures (rows[k].ts - start) / HOUR in Observed(start, rows, t).hours
  {
    if k < |rows| - 1 {
      ObservedHour(start, rows[..|rows| - 1], t, k);
    }
  }

  /** With one hour, only that one is ever recorded. */
  lemma {:induction false} OnlyOneHour(w: Window, attempts: seq<Attempt>, t: nat)
    requires Sensible(w) && w.hours == 1
    ensures forall h :: h in StatsOf(ExpectedOf(w, attempts), t).hours ==> h == 0
  {
    if attempts != [] {
      var before := attempts[..|attempts| - 1];
      OnlyOneHour(w, before, t);
      assert HourOf(w, ExpectedOf(w, before).nextRound) == 0;
    }
  }

  lemma LastMinuteSpills(w: Window)
    requires w.tables == 1 && w.hours == 1
    ensures var row := RowOf(w, 59, MINUTE, 1); row.table == 0 && (row.ts - w.start) / HOUR == 1
  {
    assert HourOf(w, 59) == 0;
    assert Base(w, 59) == w.start + 59 * MINUTE;
  }

  lemma OtherHourIsNotRecorded(w: Window, attempts: seq<Attempt>, i: nat)
    requires Sound(w, attempts) && w.hours == 1 && i < |SavedRows(w, attempts)|
    requires (SavedRows(w, attempts)[i].ts - w.start) / HOUR != 0
    ensures !Exact(w, ExpectedOf(w, attempts), SavedRows(w, attempts))
  {
    var rows := SavedRows(w, attempts);
    var t := rows[i].table;
    ObservedHour(w.start, rows, t, i);
    OnlyOneHour(w, attempts, t);
    assert StatsOf(ExpectedOf(w, attempts), t) != Observed(w.start, rows, t);
  }

  /** A row of the last minute with an id of a minute or more falls into the next hour. */
  lemma SpillsOver(w: Window, k: nat, n: nat)
    requires w.tables == 1 && w.hours == 1 && k == 59 && k + n > MINUTE
    ensures Sound(w, LongRun(k, n)) && |SavedRows(w, LongRun(k, n))| == k + n
    ensures !Exact(w, ExpectedOf(w, LongRun(k, n)), SavedRows(w, LongRun(k, n)))
  {
    LongRunIsSaved(w, k, n);
    assert SavedRows(w, LongRun(k, n))[MINUTE] == RowOf(w, k, MINUTE, 1);
    LastMinuteSpills(w);
    OtherHourIsNotRecorded(w, LongRun(k, n), MINUTE);
  }

  ghost predicate RecordsExactly(n: nat) {
    forall w, attempts :: Sound(w, attempts) && |SavedRows(w, attempts)| == n ==>
      Exact(w, ExpectedOf(w, attempts), SavedRows(w, attempts))
  }

  /** For how many rows the expected state is what a reader finds, whatever the window and
      the rounds: exactly a minute's worth. */
  lemma ExactExactly(n: nat)
    ensures RecordsExactly(n) <==> n <= MINUTE
  {
    if n <= MINUTE {
      forall w, attempts | Sound(w, attempts) && |SavedRows(w, attempts)| == n
        ensures Exact(w, ExpectedOf(w, attempts), SavedRows(w, attempts))
      {
        ExpectedIsExact(w, attempts);
      }
    } else {
      var w, k := Window(0, 1, 1), 59;
      SpillsOver(w, k, n - k);
    }
  }

  ghost predicate AllAlike(attempts: seq<Attempt>, n: nat, hosts: nat) {
    forall i :: 0 <= i < |attempts| ==> attempts[i].rows == n && attempts[i].hosts == hosts
  }

  /** No row was written that is not in a saved round or in the round to be tried next. */
  ghost predicate NothingStray(w: Window, e: Expected, written: seq<Row>, kept: seq<Row>, n: nat, hosts: nat)
    requires Sensible(w) && hosts > 0
  {
    forall row :: row in written ==> row in kept || row in RoundRows(w, e.nextRound, e.nextG, n, hosts)
  }

  lemma NumberedMore(w: Window, rows: seq<Row>, r: nat, n: nat, hosts: nat)
    requires Sensible(w) && hosts > 0 && Numbered(w, rows)
    ensures Numbered(w, rows + RoundRows(w, r, |rows|, n, hosts))
  {
    var all := rows + RoundRows(w, r, |rows|, n, hosts);
    forall k | 0 <= k < |all| ensures all[k].v == k && OnMinute(w, all[k]) {
      if k >= |rows| {
        BaseIsOnMinute(w, r, k, hosts);
        assert all[k] == RowOf(w, r, |rows| + (k - |rows|), hosts);
      }
    }
  }

  /** Every run, with any number of rounds lost before their save and empty ones refused: as
      long as the ids stay within a minute, the saved state says exactly what a reader finds
      in the saved rounds, no two rows share a time, and rounds tried again alike leave no
      other row behind. */
  method RunChurn(w: Window, attempts: seq<Attempt>, n: nat, hosts: nat)
    returns (kept: seq<Row>, written: seq<Row>, exp: Expected)
    requires Sensible(w) && hosts > 0
    requires forall i :: 0 <= i < |attempts| ==> attempts[i].hosts > 0
    ensures kept == SavedRows(w, attempts) && Numbered(w, kept)
    ensures exp == ExpectedOf(w, attempts)
    ensures forall row :: row in kept ==> row in written
    ensures |kept| <= MINUTE + 1 ==> DistinctTimes(kept)
    ensures |kept| <= MINUTE ==> Exact(w, exp, kept)
    ensures AllAlike(attempts, n, hosts) ==> NothingStray(w, exp, written, kept, n, hosts)
  {
    var c := new Churner(w);
    kept := [];
    for k := 0 to |attempts|
      invariant fresh(c) && c.w == w
      invariant kept == SavedRows(w, attempts[..k]) && Numbered(w, kept)
      invariant c.saved == ExpectedOf(w, attempts[..k])
      invariant c.saved.nextRound == SavedRounds(attempts[..k]) && c.saved.nextG == |kept|
      invariant forall row :: row in kept ==> row in c.written
      invariant AllAlike(attempts[..k], n, hosts) ==> NothingStray(w, c.saved, c.written, kept, n, hosts)
    {
      var a := attempts[k];
      ghost var e := c.saved;
      ghost var round := RoundRows(w, e.nextRound, e.nextG, a.rows, a.hosts);
      assert attempts[..k + 1] == attempts[..k] + [a] && attempts[..k + 1][..k] == attempts[..k];
      c.Try(a);
      if IsKept(a) {
        NumberedMore(w, kept, e.nextRound, a.rows, a.hosts);
        kept := kept + c.written[|c.written| - a.rows..];
      }
    }
    written, exp := c.written, c.saved;
    assert attempts[..|attempts|] == attempts;
    if |kept| <= MINUTE + 1 {
      SavedTimesDiffer(w, attempts);
    }
    if |kept| <= MINUTE {
      ExpectedIsExact(w, attempts);
    }
  }
}
