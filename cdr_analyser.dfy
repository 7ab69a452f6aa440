/**
 * The analytical core of the call-only dashboard (dash-implementation/dash-script.py):
 * its half-hour label table, the date, duration and time-of-day filter of the
 * `update_output_div` callback, and the node numbering and per-row edges of
 * `plot_network`.
 */
module CdrAnalyser {
  import opened Text
  import opened TimeMarks
  import opened Records
  import opened Frames
  import opened NodeIndex

  // ---------------------------------------------------------------- the label table

  /** The labels for keys 0 to n are in the table. */
  predicate LabelsUpTo(times: map<nat, string>, n: nat)
    requires n <= LastMark
  {
    forall k: nat :: k <= n ==> k in times && times[k] == Label(k)
  }

  /** Adding the next key's label extends the table by one key. */
  lemma LabelsExtend(times: map<nat, string>, n: nat, text: string)
    requires n < LastMark && LabelsUpTo(times, n) && text == Label(n + 1)
    ensures LabelsUpTo(times[n + 1 := text], n + 1)
  {
    var next := times[n + 1 := text];
    forall k: nat | k <= n + 1 ensures k in next && next[k] == Label(k) {
      if k <= n {
        assert times[k] == Label(k);
      }
    }
  }

  /**
   * The `times` loop: key 0 is "00:00", and each pass edits the character list
   * `time_str` into the next half hour and stores it under the next key.
   */
  method BuildTimeLabels() returns (times: map<nat, string>)
    ensures forall k: nat :: k in times <==> k <= LastMark
    ensures forall k: nat :: k <= LastMark ==> times[k] == Label(k)
  {
    var timeStr := ['0', '0', ':', '0', '0'];
    FirstAndLastLabel();
    times := map[0 := timeStr];
    for i := 0 to 48
      invariant timeStr == Label(i)
      invariant forall k: nat :: k in times ==> k <= i
      invariant LabelsUpTo(times, i)
    {
      timeStr := NextTimeStr(i, timeStr);
      LabelsExtend(times, i, timeStr);
      times := times[i + 1 := timeStr];
    }
  }

  // ---------------------------------------------------------------- the filter

  /** The date mask: the Date column equal to the picked day. */
  function DateTest(date: int): Call -> bool {
    (c: Call) => c.date == date
  }

  /** The duration mask: both ends of the slider inclusive. */
  function DurationTest(d0: int, d1: int): Call -> bool {
    (c: Call) => d0 <= c.duration <= d1
  }

  /** The time mask: at or after the lower label and strictly before the upper one, in string order. */
  function TimeTest(from: string, to: string): Call -> bool {
    (c: Call) => LexLess(c.time, to) && LexLessEq(from, c.time)
  }

  /** `df[df['Date'] == selected_date]`. */
  function DateStep(rows: seq<Call>, date: int): (kept: seq<Call>)
    ensures forall c :: c in kept <==> c in rows && c.date == date
    ensures forall c :: multiset(kept)[c] == if c.date == date then multiset(rows)[c] else 0
    ensures IsSubsequence(kept, rows)
  {
    Where(rows, DateTest(date))
  }

  /** The duration mask with the slider's two values. */
  function DurationStep(rows: seq<Call>, d0: int, d1: int): (kept: seq<Call>)
    ensures forall c :: c in kept <==> c in rows && d0 <= c.duration <= d1
    ensures forall c :: multiset(kept)[c] == if d0 <= c.duration <= d1 then multiset(rows)[c] else 0
    ensures IsSubsequence(kept, rows)
  {
    Where(rows, DurationTest(d0, d1))
  }

  /** The time mask, with both slider keys looked up in the label table. */
  function TimeStep(rows: seq<Call>, t0: nat, t1: nat): (kept: seq<Call>)
    requires t0 <= LastMark && t1 <= LastMark
    ensures forall c :: c in kept <==> c in rows && LexLessEq(Label(t0), c.time) && LexLess(c.time, Label(t1))
    ensures forall c :: multiset(kept)[c] == if LexLessEq(Label(t0), c.time) && LexLess(c.time, Label(t1)) then multiset(rows)[c] else 0
    ensures IsSubsequence(kept, rows)
  {
    Where(rows, TimeTest(Label(t0), Label(t1)))
  }

  /** The three masks of `update_output_div`, applied one after the other. */
  function OutputRows(rows: seq<Call>, date: int, d0: int, d1: int, t0: nat, t1: nat): seq<Call>
    requires t0 <= LastMark && t1 <= LastMark
  {
    TimeStep(DurationStep(DateStep(rows, date), d0, d1), t0, t1)
  }

  /** A call inside all three ranges. */
  predicate Selected(c: Call, date: int, d0: int, d1: int, t0: nat, t1: nat)
    requires t0 <= LastMark && t1 <= LastMark
  {
    c.date == date && d0 <= c.duration <= d1 && LexLessEq(Label(t0), c.time) && LexLess(c.time, Label(t1))
  }

  /** The conjunction of the three masks as one row test. */
  function SelectedTest(date: int, d0: int, d1: int, t0: nat, t1: nat): Call -> bool
    requires t0 <= LastMark && t1 <= LastMark
  {
    (c: Call) => Selected(c, date, d0, d1, t0, t1)
  }

  /**
   * The three steps in sequence are one filter by the conjunction of their
   * tests: the rows satisfying all three ranges, each as often as in the
   * input, in their input order.
   */
  lemma OutputRowsIsConjunction(rows: seq<Call>, date: int, d0: int, d1: int, t0: nat, t1: nat)
    requires t0 <= LastMark && t1 <= LastMark
    ensures OutputRows(rows, date, d0, d1, t0, t1) == Where(rows, SelectedTest(date, d0, d1, t0, t1))
    ensures forall c :: c in OutputRows(rows, date, d0, d1, t0, t1) <==> c in rows && Selected(c, date, d0, d1, t0, t1)
    ensures forall c :: multiset(OutputRows(rows, date, d0, d1, t0, t1))[c]
                        == if Selected(c, date, d0, d1, t0, t1) then multiset(rows)[c] else 0
    ensures IsSubsequence(OutputRows(rows, date, d0, d1, t0, t1), rows)
  {
    var dateAndDuration := (c: Call) => c.date == date && d0 <= c.duration <= d1;
    WhereFuse(rows, DateTest(date), DurationTest(d0, d1), dateAndDuration);
    WhereFuse(rows, dateAndDuration, TimeTest(Label(t0), Label(t1)), SelectedTest(date, d0, d1, t0, t1));
  }

  /** Filtering the filtered rows again with the same slider values changes nothing. */
  lemma OutputRowsIdempotent(rows: seq<Call>, date: int, d0: int, d1: int, t0: nat, t1: nat)
    requires t0 <= LastMark && t1 <= LastMark
    ensures OutputRows(OutputRows(rows, date, d0, d1, t0, t1), date, d0, d1, t0, t1) == OutputRows(rows, date, d0, d1, t0, t1)
  {
    var once := OutputRows(rows, date, d0, d1, t0, t1);
    OutputRowsIsConjunction(rows, date, d0, d1, t0, t1);
    OutputRowsIsConjunction(once, date, d0, d1, t0, t1);
    WhereIdempotent(rows, SelectedTest(date, d0, d1, t0, t1));
  }

  /**
   * On a call logged exactly at a mark, the time step keeps it iff its key lies
   * from the lower slider key up to but excluding the upper one.
   */
  lemma TimeStepOnMarks(rows: seq<Call>, t0: nat, t1: nat, c: Call, k: nat)
    requires t0 <= LastMark && t1 <= LastMark && k <= LastMark
    requires c in rows && c.time == Label(k)
    ensures c in TimeStep(rows, t0, t1) <==> t0 <= k < t1
  {
    TimeWindowOnMarks(t0, t1, k);
  }

  // ---------------------------------------------------------------- the plot

  /**
   * `plot_network` on the filtered frame, with the positions of the random
   * geometric graph given as `pos` (one per participant, in node-list order).
   * The frame gains the two node columns and nothing else changes; one edge is
   * appended per row, joining the positions of its caller and receiver; the
   * node markers are the positions in node order.
   */
  method PlotNetwork(df: seq<Call>, pos: seq<Point>) returns (numbered: seq<NodedCall>, edges: seq<EdgeTrace>, nodeX: seq<real>, nodeY: seq<real>)
    requires |pos| == |NodeList(df)|
    ensures numbered == NumberCalls(df)
    ensures |numbered| == |df| && forall i :: 0 <= i < |df| ==> numbered[i].call == df[i]
    ensures |edges| == |df|
    ensures forall i :: 0 <= i < |df| ==>
      && NodeList(df)[numbered[i].callerNode] == df[i].caller && NodeList(df)[numbered[i].receiverNode] == df[i].receiver
      && edges[i] == EdgeTrace(pos[numbered[i].callerNode], pos[numbered[i].receiverNode])
    ensures |nodeX| == |nodeY| == |pos|
    ensures forall n :: 0 <= n < |pos| ==> nodeX[n] == pos[n].x && nodeY[n] == pos[n].y
  {
    numbered := NumberCalls(df);
    edges := AddEdges(numbered, pos);
    nodeX, nodeY := NodeMarkers(pos);
  }

  /** `df.apply(add_coords, axis=1)`: one edge per row, appended in row order. */
  method AddEdges(numbered: seq<NodedCall>, pos: seq<Point>) returns (edges: seq<EdgeTrace>)
    requires forall r :: r in numbered ==> r.callerNode < |pos| && r.receiverNode < |pos|
    ensures |edges| == |numbered|
    ensures forall i :: 0 <= i < |numbered| ==> edges[i] == EdgeTrace(pos[numbered[i].callerNode], pos[numbered[i].receiverNode])
  {
    edges := [];
    for i := 0 to |numbered|
      invariant |edges| == i
      invariant forall j :: 0 <= j < i ==> edges[j] == EdgeTrace(pos[numbered[j].callerNode], pos[numbered[j].receiverNode])
    {
      var r := numbered[i];
      assert r in numbered;
      edges := edges + [EdgeTrace(pos[r.callerNode], pos[r.receiverNode])];
    }
  }

  /** The `for node in G.nodes()` loop: the marker coordinates, in node order. */
  method NodeMarkers(pos: seq<Point>) returns (nodeX: seq<real>, nodeY: seq<real>)
    ensures |nodeX| == |nodeY| == |pos|
    ensures forall n :: 0 <= n < |pos| ==> nodeX[n] == pos[n].x && nodeY[n] == pos[n].y
  {
    nodeX, nodeY := [], [];
    for n := 0 to |pos|
      invariant |nodeX| == |nodeY| == n
      invariant forall m :: 0 <= m < n ==> nodeX[m] == pos[m].x && nodeY[m] == pos[m].y
    {
      nodeX, nodeY := nodeX + [pos[n].x], nodeY + [pos[n].y];
    }
  }

  /** Two rows with the same caller start their edges at the same position. */
  lemma SameCallerSameStart(df: seq<Call>, pos: seq<Point>, edges: seq<EdgeTrace>, i: nat, j: nat)
    requires |pos| == |NodeList(df)| && |edges| == |df| && i < |df| && j < |df|
    requires forall k :: 0 <= k < |df| ==>
      edges[k] == EdgeTrace(pos[NumberCalls(df)[k].callerNode], pos[NumberCalls(df)[k].receiverNode])
    requires df[i].caller == df[j].caller
    ensures edges[i].start == edges[j].start
  {
    NodeCount(df);
    SamePositionSameName(NodeList(df), NumberCalls(df)[i].callerNode, NumberCalls(df)[j].callerNode);
  }
}
