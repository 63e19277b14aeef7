/** Heartbeat bars: check rows counted into equal slots of a time window. */
module Heartbeat {
  import opened Options
  import Versions

  const SECOND := 1_000_000   // times are in microseconds

  datatype Level = Ok | Warning | Critical | Unknown

  /** A row whose time cannot be read has none. */
  datatype Row = Row(checkedAt: Option<int>, status: Option<string>, response: Option<real>)

  datatype Slot = Slot(start: int, end: int, status: Level, checks: nat, ok: nat, warning: nat, critical: nat,
                       sample: Option<Row>, response: Option<real>)

  function StatusBucket(status: Option<string>): Level {
    if status.None? then Unknown
    else
      var norm := Versions.Lower(status.value);
      if norm == "ok" then Ok
      else if norm == "warning" then Warning
      else if norm in {"critical", "down", "error"} then Critical
      else Unknown
  }

  /** The counter a row goes to: what is neither ok nor a warning counts as critical. */
  function Counter(r: Row): Level {
    var b := StatusBucket(r.status);
    if b == Ok || b == Warning then b else Critical
  }

  datatype Window = Window(start: int, hours: nat, buckets: nat) {
    predicate Valid() { buckets >= 1 }

    function End(): int { start + hours * 3600 * SECOND }

    function Width(): (w: int)
      requires Valid()
      ensures w >= 60 * SECOND
    {
      (if hours * 3600 / buckets > 60 then hours * 3600 / buckets else 60) * SECOND
    }

    function SlotStart(k: int): int
      requires Valid()
    {
      start + k * Width()
    }
  }

  // ---------------------------------------------------------------- which rows belong to a slot

  predicate InWindow(w: Window, r: Row) { r.checkedAt.Some? && w.start <= r.checkedAt.value < w.End() }

  predicate InSlot(w: Window, r: Row, k: int)
    requires w.Valid()
  {
    InWindow(w, r) && w.SlotStart(k) <= r.checkedAt.value < w.SlotStart(k + 1)
  }

  lemma DivMeaning(x: int, b: int, k: int)
    requires b > 0
    ensures x / b == k <==> k * b <= x < (k + 1) * b
  {
    var q := x / b;
    assert q * b <= x < q * b + b;
    if k < q {
      assert (k + 1) * b <= q * b by { Monotone(k + 1, q, b); }
    } else if k > q {
      assert (q + 1) * b <= k * b by { Monotone(q + 1, k, b); }
    }
  }

  lemma Monotone(i: int, j: int, b: int)
    requires i <= j && b >= 0
    ensures i * b <= j * b
  {
  }

  /** Slots are disjoint: the slot of a row is the quotient of its age. */
  lemma SlotIsQuotient(w: Window, r: Row, k: int)
    requires w.Valid() && InWindow(w, r)
    ensures InSlot(w, r, k) <==> (r.checkedAt.value - w.start) / w.Width() == k
  {
    DivMeaning(r.checkedAt.value - w.start, w.Width(), k);
  }

  // ---------------------------------------------------------------- what a slot must show

  function Count(w: Window, rows: seq<Row>, k: int, level: Option<Level>): nat
    requires w.Valid()
  {
    if rows == [] then 0
    else
      var last := rows[|rows| - 1];
      Count(w, rows[..|rows| - 1], k, level)
      + if InSlot(w, last, k) && (level.None? || Counter(last) == level.value) then 1 else 0
  }

  /** The newest row of the slot, the earlier in the list among equals. */
  function Latest(w: Window, rows: seq<Row>, k: int): (r: Option<Row>)
    requires w.Valid()
    ensures r.Some? ==> InSlot(w, r.value, k)
  {
    if rows == [] then None
    else
      var last, rest := rows[|rows| - 1], Latest(w, rows[..|rows| - 1], k);
      if InSlot(w, last, k) && (rest.None? || last.checkedAt.value > rest.value.checkedAt.value) then Some(last)
      else rest
  }

  function Response(w: Window, rows: seq<Row>, k: int): Option<real>
    requires w.Valid()
  {
    if rows == [] then None
    else
      var last, init := rows[|rows| - 1], rows[..|rows| - 1];
      if Latest(w, rows, k) != Latest(w, init, k) && last.response.Some? then last.response else Response(w, init, k)
  }

  function Worst(s: Slot): Level {
    if s.checks == 0 then Unknown else if s.critical > 0 then Critical else if s.warning > 0 then Warning
    else if s.ok > 0 then Ok else Unknown
  }

  function Tally(w: Window, rows: seq<Row>, k: int): Slot
    requires w.Valid()
  {
    Slot(w.SlotStart(k), w.SlotStart(k) + w.Width(), Unknown, Count(w, rows, k, None), Count(w, rows, k, Some(Ok)),
         Count(w, rows, k, Some(Warning)), Count(w, rows, k, Some(Critical)), Latest(w, rows, k), Response(w, rows, k))
  }

  function Bar(w: Window, rows: seq<Row>, k: int): Slot
    requires w.Valid()
  {
    var s := Tally(w, rows, k); s.(status := Worst(s))
  }

  // ---------------------------------------------------------------- the loops

  function Counted(s: Slot, r: Row): Slot
    requires r.checkedAt.Some? && (s.sample.Some? ==> s.sample.value.checkedAt.Some?)
  {
    var newer := s.sample.None? || r.checkedAt.value > s.sample.value.checkedAt.value;
    var c := Counter(r);
    s.(checks := s.checks + 1,
       ok := s.ok + (if c == Ok then 1 else 0), warning := s.warning + (if c == Warning then 1 else 0),
       critical := s.critical + (if c == Critical then 1 else 0),
       sample := if newer then Some(r) else s.sample,
       response := if newer && r.response.Some? then r.response else s.response)
  }

  lemma TallyOne(w: Window, rows: seq<Row>, r: Row, k: int)
    requires w.Valid()
    ensures Tally(w, rows + [r], k) == if InSlot(w, r, k) then Counted(Tally(w, rows, k), r) else Tally(w, rows, k)
  {
    assert (rows + [r])[..|rows|] == rows;
  }

  /** build_heartbeat_bars */
  method BuildHeartbeatBars(w: Window, rows: seq<Row>) returns (bars: seq<Slot>)
    requires w.buckets >= 1
    ensures |bars| == w.buckets && forall k :: 0 <= k < w.buckets ==> bars[k] == Bar(w, rows, k)
  {
    var width := w.Width();
    var slots := new Slot[w.buckets](k => Slot(w.start, w.start, Unknown, 0, 0, 0, 0, None, None));
    for i := 0 to w.buckets
      invariant forall k :: 0 <= k < i ==> slots[k] == Tally(w, [], k)
    {
      var slotStart := w.start + i * width;
      slots[i] := Slot(slotStart, slotStart + width, Unknown, 0, 0, 0, 0, None, None);
    }
    assert rows[..0] == [];
    for n := 0 to |rows|
      invariant forall k :: 0 <= k < w.buckets ==> slots[k] == Tally(w, rows[..n], k)
    {
      var row := rows[n];
      assert rows[..n + 1] == rows[..n] + [row];
      forall k | 0 <= k < w.buckets
        ensures Tally(w, rows[..n + 1], k) == if InSlot(w, row, k) then Counted(slots[k], row) else slots[k]
      {
        TallyOne(w, rows[..n], row, k);
      }
      if row.checkedAt.Some? && w.start <= row.checkedAt.value < w.End() {
        var offset := (row.checkedAt.value - w.start) / width;
        forall k ensures InSlot(w, row, k) <==> offset == k { SlotIsQuotient(w, row, k); }
        hide InSlot, Tally, Counted, Counter;
        if 0 <= offset < w.buckets {
          slots[offset] := Counted(slots[offset], row);
        }
      }
    }
    assert rows[..|rows|] == rows;
    for k := 0 to w.buckets
      invariant forall j :: 0 <= j < k ==> slots[j] == Bar(w, rows, j)
      invariant forall j :: k <= j < w.buckets ==> slots[j] == Tally(w, rows, j)
    {
      slots[k] := slots[k].(status := Worst(slots[k]));
    }
    bars := slots[..];
  }

  // ---------------------------------------------------------------- what the bars show

  predicate Present(w: Window, rows: seq<Row>, k: int, level: Level)
    requires w.Valid()
  {
    exists i :: 0 <= i < |rows| && InSlot(w, rows[i], k) && Counter(rows[i]) == level
  }

  lemma {:induction false} CountMeaning(w: Window, rows: seq<Row>, k: int, level: Level)
    requires w.Valid()
    ensures Count(w, rows, k, Some(level)) > 0 <==> Present(w, rows, k, level)
  {
    if rows != [] {
      var init := rows[..|rows| - 1];
      CountMeaning(w, init, k, level);
      assert forall i :: 0 <= i < |init| ==> init[i] == rows[i];
      if Present(w, init, k, level) {
        var i :| 0 <= i < |init| && InSlot(w, init[i], k) && Counter(init[i]) == level;
        assert InSlot(w, rows[i], k);
      }
    }
  }

  lemma {:induction false} CountsAddUp(w: Window, rows: seq<Row>, k: int)
    requires w.Valid()
    ensures Count(w, rows, k, None)
         == Count(w, rows, k, Some(Ok)) + Count(w, rows, k, Some(Warning)) + Count(w, rows, k, Some(Critical))
  {
    if rows != [] {
      CountsAddUp(w, rows[..|rows| - 1], k);
      hide InSlot;
    }
  }

  /** In every slot the three counters add up to the checks, and the status is the worst one present. */
  lemma BarMeaning(w: Window, rows: seq<Row>, k: int)
    requires w.Valid()
    ensures var b := Bar(w, rows, k);
            && b.ok + b.warning + b.critical == b.checks
            && (b.status == Critical <==> Present(w, rows, k, Critical))
            && (b.status == Warning <==> Present(w, rows, k, Warning) && !Present(w, rows, k, Critical))
            && (b.status == Ok <==>
                  Present(w, rows, k, Ok) && !Present(w, rows, k, Warning) && !Present(w, rows, k, Critical))
            && (b.status == Unknown <==> b.checks == 0)
  {
    CountsAddUp(w, rows, k);
    CountMeaning(w, rows, k, Ok);
    CountMeaning(w, rows, k, Warning);
    CountMeaning(w, rows, k, Critical);
    hide Present, Count;
  }

  // ---------------------------------------------------------------- the bars in the rows' own terms

  /** The row's status is this text, in any letter case. */
  predicate Says(r: Row, text: string) { r.status.Some? && Versions.Lower(r.status.value) == text }

  /** The texts that belong to each level; what has none of them is unknown. */
  lemma LevelMeaning(r: Row)
    ensures StatusBucket(r.status) == Ok <==> Says(r, "ok")
    ensures StatusBucket(r.status) == Warning <==> Says(r, "warning")
    ensures StatusBucket(r.status) == Critical <==> Says(r, "critical") || Says(r, "down") || Says(r, "error")
    ensures Counter(r) == Ok <==> Says(r, "ok")
    ensures Counter(r) == Warning <==> Says(r, "warning")
    ensures Counter(r) in {Ok, Warning, Critical}
  {
  }

  /** Seconds of one slot: the hours divided by the buckets, rounded down, but at least a minute. */
  function SlotSeconds(w: Window): nat
    requires w.Valid()
  {
    var even := w.hours * 3600 / w.buckets;
    if even < 60 then 60 else even
  }

  /** The row was taken in the window and in its k-th stretch of that many seconds. */
  predicate Within(w: Window, r: Row, k: int)
    requires w.Valid()
  {
    && r.checkedAt.Some?
    && w.start <= r.checkedAt.value < w.start + w.hours * 3600 * 1_000_000
    && w.start + k * (SlotSeconds(w) * 1_000_000) <= r.checkedAt.value
    && r.checkedAt.value < w.start + (k + 1) * (SlotSeconds(w) * 1_000_000)
  }

  ghost function InBar(w: Window, rows: seq<Row>, k: int): set<nat>
    requires w.Valid()
  {
    set i: nat | i < |rows| && Within(w, rows[i], k)
  }

  lemma {:induction false} CountIsSize(w: Window, rows: seq<Row>, k: int, level: Option<Level>)
    requires w.Valid()
    ensures Count(w, rows, k, level) == |CountedRows(w, rows, k, level)|
  {
    if rows == [] {
      assert CountedRows(w, rows, k, level) == {};
    } else {
      var n := |rows| - 1;
      var init := rows[..n];
      CountIsSize(w, init, k, level);
      hide InSlot, Counter;
      CountedOneMore(w, rows, k, level);
      assert n as nat !in CountedRows(w, init, k, level);
      hide CountedRows;
    }
  }

  lemma CountedOneMore(w: Window, rows: seq<Row>, k: int, level: Option<Level>)
    requires w.Valid() && rows != []
    ensures var n: nat := |rows| - 1;
            CountedRows(w, rows, k, level) ==
              CountedRows(w, rows[..n], k, level) +
              if InSlot(w, rows[n], k) && (level.None? || Counter(rows[n]) == level.value) then {n} else {}
  {
    hide InSlot, Counter;
    var init := rows[..|rows| - 1];
    assert forall i :: 0 <= i < |init| ==> init[i] == rows[i];
  }

  ghost function CountedRows(w: Window, rows: seq<Row>, k: int, level: Option<Level>): set<nat>
    requires w.Valid()
  {
    set i: nat | i < |rows| && InSlot(w, rows[i], k) && (level.None? || Counter(rows[i]) == level.value)
  }

  lemma WithinIsInSlot(w: Window, r: Row, k: int)
    requires w.Valid()
    ensures Within(w, r, k) <==> InSlot(w, r, k)
    ensures w.SlotStart(k) == w.start + k * (SlotSeconds(w) * 1_000_000)
    ensures w.SlotStart(k) + w.Width() == w.start + (k + 1) * (SlotSeconds(w) * 1_000_000)
  {
  }

  /** The k-th bar: its span, how many of the span's rows say ok, say warning and say anything else, and the
      status that follows. */
  lemma BarCounts(w: Window, rows: seq<Row>, k: int)
    requires w.Valid()
    ensures var b, here, width := Bar(w, rows, k), InBar(w, rows, k), SlotSeconds(w) * 1_000_000;
            && b.start == w.start + k * width && b.end == w.start + (k + 1) * width
            && b.checks == |here|
            && b.ok == |set i | i in here && Says(rows[i], "ok")|
            && b.warning == |set i | i in here && Says(rows[i], "warning")|
            && b.critical == |set i | i in here && !Says(rows[i], "ok") && !Says(rows[i], "warning")|
            && b.status == (if b.critical > 0 then Critical else if b.warning > 0 then Warning
                            else if b.checks > 0 then Ok else Unknown)
  {
    hide Says, InSlot, Within, Counter, Count, Latest, Response, SlotSeconds, Window.Width, Window.SlotStart;
    var here := InBar(w, rows, k);
    forall r: Row ensures Within(w, r, k) <==> InSlot(w, r, k) { WithinIsInSlot(w, r, k); }
    WithinIsInSlot(w, Row(None, None, None), k);
    forall r: Row
      ensures Counter(r) == Ok <==> Says(r, "ok")
      ensures Counter(r) == Warning <==> Says(r, "warning")
      ensures Counter(r) == Critical <==> !Says(r, "ok") && !Says(r, "warning")
    {
      LevelMeaning(r);
    }
    CountIsSize(w, rows, k, None);
    CountIsSize(w, rows, k, Some(Ok));
    CountIsSize(w, rows, k, Some(Warning));
    CountIsSize(w, rows, k, Some(Critical));
    assert CountedRows(w, rows, k, None) == here;
    assert CountedRows(w, rows, k, Some(Ok)) == set i | i in here && Says(rows[i], "ok");
    assert CountedRows(w, rows, k, Some(Warning)) == set i | i in here && Says(rows[i], "warning");
    assert CountedRows(w, rows, k, Some(Critical)) ==
           set i | i in here && !Says(rows[i], "ok") && !Says(rows[i], "warning");
    CountsAddUp(w, rows, k);
  }

  /** The sample is the newest row of the slot, and the field called an average is that row's own time
      whenever it has one. */
  lemma {:induction false} SampleMeaning(w: Window, rows: seq<Row>, k: int)
    requires w.Valid()
    ensures var r := Latest(w, rows, k);
            && (r.None? <==> forall i :: 0 <= i < |rows| ==> !InSlot(w, rows[i], k))
            && (r.Some? ==> r.value in rows && forall i :: 0 <= i < |rows| && InSlot(w, rows[i], k) ==>
                              rows[i].checkedAt.value <= r.value.checkedAt.value)
            && (r.Some? && r.value.response.Some? ==> Response(w, rows, k) == r.value.response)
  {
    if rows != [] {
      var init := rows[..|rows| - 1];
      SampleMeaning(w, init, k);
      assert forall i :: 0 <= i < |init| ==> init[i] == rows[i];
      hide InSlot;
    }
  }

  // ---------------------------------------------------------------- conservation

  function TotalChecks(bars: seq<Slot>): nat {
    if bars == [] then 0 else TotalChecks(bars[..|bars| - 1]) + bars[|bars| - 1].checks
  }

  /** Rows that fall into one of the first "n" slots. */
  function Covered(w: Window, rows: seq<Row>, n: int): nat
    requires w.Valid()
  {
    if rows == [] then 0
    else
      var last := rows[|rows| - 1];
      Covered(w, rows[..|rows| - 1], n) + if InWindow(w, last) && last.checkedAt.value < w.SlotStart(n) then 1 else 0
  }

  lemma {:induction false} CoveredGrows(w: Window, rows: seq<Row>, n: nat)
    requires w.Valid()
    ensures Covered(w, rows, n + 1) == Covered(w, rows, n) + Count(w, rows, n, None)
    ensures Covered(w, rows, 0) == 0
  {
    if rows != [] {
      CoveredGrows(w, rows[..|rows| - 1], n);
      assert w.SlotStart(n) <= w.SlotStart(n + 1) by { Monotone(n, n + 1, w.Width()); }
      assert w.SlotStart(0) == w.start;
    }
  }

  /** Every row in the covered span is counted, in one slot, once. */
  lemma {:induction false} ChecksConserved(w: Window, rows: seq<Row>, bars: seq<Slot>)
    requires w.Valid() && forall k :: 0 <= k < |bars| ==> bars[k].checks == Count(w, rows, k, None)
    ensures TotalChecks(bars) == Covered(w, rows, |bars|)
  {
    CoveredGrows(w, rows, 0);
    if bars != [] {
      ChecksConserved(w, rows, bars[..|bars| - 1]);
      CoveredGrows(w, rows, |bars| - 1);
    }
  }

  /** The seconds at the end of the window that no slot covers. */
  function Tail(w: Window): nat
    requires w.Valid()
  {
    if 60 * w.buckets <= 3600 * w.hours then (3600 * w.hours) % w.buckets else 0
  }

  lemma SlotsEnd(w: Window)
    requires w.Valid()
    ensures 60 * w.buckets <= 3600 * w.hours ==> w.SlotStart(w.buckets) == w.End() - Tail(w) * SECOND
    ensures 60 * w.buckets > 3600 * w.hours ==> w.SlotStart(w.buckets) > w.End()
  {
    var s, n := 3600 * w.hours, w.buckets;
    assert s == (s / n) * n + s % n;
    if 60 * n <= s {
      DivMeaning(s, n, s / n);
      if s / n < 60 { Monotone(s / n + 1, 60, n); }
      assert w.Width() == (s / n) * SECOND;
      assert n * ((s / n) * SECOND) == ((s / n) * n) * SECOND;
    } else {
      if s / n >= 60 { Monotone(60, s / n, n); }
      assert w.Width() == 60 * SECOND;
    }
  }

  /** A row of the window is counted exactly when it is not in the last Tail(w) seconds; there are none
      such when the window divides evenly.  (The dashboard's 26 bars for 24 hours leave out 2 seconds.) */
  lemma UncountedIsTail(w: Window, r: Row)
    requires w.Valid() && InWindow(w, r)
    ensures (exists k :: 0 <= k < w.buckets && InSlot(w, r, k)) <==> r.checkedAt.value < w.End() - Tail(w) * SECOND
    ensures (3600 * w.hours) % w.buckets == 0 ==> Tail(w) == 0
    ensures Tail(w) < w.buckets
  {
    SlotsEnd(w);
    InSomeSlot(w, r);
  }

  lemma InSomeSlot(w: Window, r: Row)
    requires w.Valid() && InWindow(w, r)
    ensures (exists k :: 0 <= k < w.buckets && InSlot(w, r, k)) <==> r.checkedAt.value < w.SlotStart(w.buckets)
  {
    hide Window.Width, Window.End;
    var age, width := r.checkedAt.value - w.start, w.Width();
    var q := age / width;
    DivMeaning(age, width, q);
    forall k ensures InSlot(w, r, k) <==> q == k { SlotIsQuotient(w, r, k); }
    if q < 0 { Monotone(q + 1, 0, width); }
    assert InSlot(w, r, q);
    hide InSlot;
    if q < w.buckets { Monotone(q + 1, w.buckets, width); } else { Monotone(w.buckets, q, width); }
  }
}
