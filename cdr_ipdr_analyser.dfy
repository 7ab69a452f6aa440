/**
 * The analytical core of the CDR/IPDR dashboard (dash-implementation/dash_script.py):
 * the slider mark tables, participant numbering and the port-to-application
 * lookup of `preprocess_data`, the lookup dictionaries `plot_network` keeps,
 * and the row filter of the `update_filtered_div_caller` callback.
 */
module CdrIpdrAnalyser {
  import opened Wrappers
  import opened Text
  import opened TimeMarks
  import opened Records
  import opened Frames
  import opened NodeIndex
  import opened IpdrPorts
  import opened Dicts

  // ---------------------------------------------------------------- slider marks

  datatype MarkStyle = Rotated | Hidden

  /** One mark of the time slider: its label and how it is drawn. */
  datatype Mark = Mark(text: string, style: MarkStyle)

  /** Whole hours are drawn rotated; half hours are hidden. */
  function StyleOf(k: nat): MarkStyle {
    if k % 2 == 1 then Hidden else Rotated
  }

  /** The marks for keys 0 to n are in the table, each with its label and style. */
  predicate MarksUpTo(times: map<nat, Mark>, n: nat)
    requires n <= LastMark
  {
    forall k: nat :: k <= n ==> k in times && times[k] == Mark(Label(k), StyleOf(k))
  }

  /** Adding the next key's mark extends the table by one key. */
  lemma MarksExtend(times: map<nat, Mark>, n: nat, m: Mark)
    requires n < LastMark && MarksUpTo(times, n)
    requires m == Mark(Label(n + 1), StyleOf(n + 1))
    ensures MarksUpTo(times[n + 1 := m], n + 1)
  {
    var next := times[n + 1 := m];
    forall k: nat | k <= n + 1 ensures k in next && next[k] == Mark(Label(k), StyleOf(k)) {
      if k <= n {
        assert times[k] == Mark(Label(k), StyleOf(k));
      }
    }
  }

  /** The `times` loop: mark 0 is "00:00", and each pass adds the next half hour. */
  method BuildTimeMarks() returns (times: map<nat, Mark>)
    ensures forall k: nat :: k in times <==> k <= LastMark
    ensures forall k: nat :: k <= LastMark ==> times[k] == Mark(Label(k), StyleOf(k))
  {
    var timeStr := ['0', '0', ':', '0', '0'];
    FirstAndLastLabel();
    times := map[0 := Mark(timeStr, Rotated)];
    var i: nat := 0;
    while i < 48
      invariant i <= LastMark
      invariant timeStr == Label(i)
      invariant forall k: nat :: k in times ==> k <= i
      invariant MarksUpTo(times, i)
    {
      timeStr := NextTimeStr(i, timeStr);
      var mark := Mark(timeStr, if i % 2 == 0 then Hidden else Rotated);
      assert mark.style == StyleOf(i + 1);
      MarksExtend(times, i, mark);
      times := times[i + 1 := mark];
      i := i + 1;
    }
  }

  /** The duration slider's step: a mark every 5 units. */
  predicate OnDurationStep(k: nat) {
    k % 5 == 0
  }

  /** Two distinct marks of the duration slider are at least one step apart. */
  lemma StepGap(j: nat, k: nat)
    requires OnDurationStep(j) && OnDurationStep(k) && j < k
    ensures j + 5 <= k
  {
    assert j == 5 * (j / 5) && k == 5 * (k / 5);
  }

  /** The `durations` loop: a mark every 5 units below the largest duration, labelled `str(i)`. */
  method BuildDurationMarks(maxDuration: int) returns (durations: map<nat, string>)
    ensures forall k: nat :: k in durations <==> k < maxDuration && OnDurationStep(k)
    ensures forall k: nat :: k in durations ==> durations[k] == NatToString(k)
  {
    durations := map[];
    var i: nat := 0;
    while i < maxDuration
      invariant OnDurationStep(i)
      invariant i == 0 || i - 5 < maxDuration
      invariant forall k: nat :: k in durations <==> k < i && OnDurationStep(k)
      invariant forall k: nat :: k in durations ==> durations[k] == NatToString(k)
      decreases maxDuration - i
    {
      durations := durations[i := NatToString(i)];
      forall k: nat | i < k < i + 5 ensures !OnDurationStep(k) {
        if OnDurationStep(k) { StepGap(i, k); }
      }
      i := i + 5;
    }
    forall k: nat | k < i && OnDurationStep(k) ensures k < maxDuration {
      StepGap(k, i);
    }
  }

  /** `df['Duration'].max()`. */
  function MaxDuration(rows: seq<Call>): nat
    requires rows != []
    decreases |rows|
  {
    if |rows| == 1 then rows[0].duration
    else
      var rest := MaxDuration(rows[1..]);
      if rows[0].duration >= rest then rows[0].duration else rest
  }

  /** The largest duration bounds every call's duration and is some call's duration. */
  lemma {:induction false} MaxDurationIsMax(rows: seq<Call>)
    requires rows != []
    ensures forall c :: c in rows ==> c.duration <= MaxDuration(rows)
    ensures exists c :: c in rows && c.duration == MaxDuration(rows)
    decreases |rows|
  {
    if |rows| > 1 {
      MaxDurationIsMax(rows[1..]);
      assert forall c :: c in rows ==> c == rows[0] || c in rows[1..];
      var c :| c in rows[1..] && c.duration == MaxDuration(rows[1..]);
      assert c in rows && rows[0] in rows;
    } else {
      assert rows[0] in rows;
    }
  }

  // ---------------------------------------------------------------- IPDR sessions

  /** `column.apply(lambda x: table[x])`: every key's entry, or the first key the table lacks. */
  function LookupColumn(table: map<string, string>, keys: seq<string>): (r: Result<seq<string>, string>)
    ensures r.Ok? <==> forall i :: 0 <= i < |keys| ==> keys[i] in table
    ensures r.Ok? ==> |r.value| == |keys| && forall i :: 0 <= i < |keys| ==> r.value[i] == table[keys[i]]
    ensures r.Err? ==> exists i :: (0 <= i < |keys| && keys[i] == r.error && keys[i] !in table
                                    && forall j :: 0 <= j < i ==> keys[j] in table)
    decreases |keys|
  {
    if keys == [] then Ok([])
    else if keys[0] !in table then Err(keys[0])
    else match LookupColumn(table, keys[1..])
      case Err(e) =>
        ghost var i :| 0 <= i < |keys[1..]| && keys[1..][i] == e && keys[1..][i] !in table
          && forall j :: 0 <= j < i ==> keys[1..][j] in table;
        assert keys[i + 1] == e;
        Err(e)
      case Ok(rest) => Ok([table[keys[0]]] + rest)
  }

  /** The IMEI column of the session frame. */
  function Imeis(sessions: seq<Session>): (names: seq<string>)
    ensures |names| == |sessions| && forall i :: 0 <= i < |sessions| ==> names[i] == sessions[i].imei
  {
    seq(|sessions|, i requires 0 <= i < |sessions| => sessions[i].imei)
  }

  /** `str(port)` for each session's DEST PORT. */
  function PortKeys(sessions: seq<Session>): (keys: seq<string>)
    ensures |keys| == |sessions| && forall i :: 0 <= i < |sessions| ==> keys[i] == NatToString(sessions[i].destPort)
  {
    seq(|sessions|, i requires 0 <= i < |sessions| => NatToString(sessions[i].destPort))
  }

  /** Why `preprocess_data` raised: list.index's ValueError, or the port table's KeyError. */
  datatype PreprocessError = ImeiNotAParticipant(imei: string) | UnknownPort(port: string)

  /**
   * Whether `preprocess_data` on these frames raises: first the IMEI_node
   * column (an IMEI that is no caller or receiver), then the App_name column.
   */
  function PreprocessFailure(calls: seq<Call>, sessions: seq<Session>): (e: Option<PreprocessError>)
    ensures e.None? <==> (forall s :: s in sessions ==> s.imei in Participants(calls) && NatToString(s.destPort) in PortsToApps)
    ensures e.Some? && e.value.ImeiNotAParticipant? ==> exists s :: s in sessions && s.imei == e.value.imei && s.imei !in Participants(calls)
    ensures e.Some? && e.value.UnknownPort? ==>
      (forall s :: s in sessions ==> s.imei in Participants(calls))
      && exists s :: s in sessions && NatToString(s.destPort) == e.value.port && e.value.port !in PortsToApps
  {
    SessionFailure(NodeList(calls), PortsToApps, sessions)
  }

  /** The two session columns computed against a given node list and port table. */
  function SessionFailure(nodes: seq<string>, table: map<string, string>, sessions: seq<Session>): (e: Option<PreprocessError>)
    ensures e.None? <==> (forall s :: s in sessions ==> s.imei in nodes && NatToString(s.destPort) in table)
    ensures e.Some? && e.value.ImeiNotAParticipant? ==> exists s :: s in sessions && s.imei == e.value.imei && s.imei !in nodes
    ensures e.Some? && e.value.UnknownPort? ==>
      (forall s :: s in sessions ==> s.imei in nodes)
      && exists s :: s in sessions && NatToString(s.destPort) == e.value.port && e.value.port !in table
  {
    match IndexColumn(nodes, Imeis(sessions))
    case Err(imei) =>
      ghost var i :| 0 <= i < |sessions| && Imeis(sessions)[i] == imei && imei !in nodes;
      assert sessions[i] in sessions;
      Some(ImeiNotAParticipant(imei))
    case Ok(_) =>
      assert forall s :: s in sessions ==> s.imei in nodes by {
        forall s | s in sessions ensures s.imei in nodes {
          var i :| 0 <= i < |sessions| && sessions[i] == s;
          assert Imeis(sessions)[i] == s.imei;
        }
      }
      match LookupColumn(table, PortKeys(sessions))
      case Err(port) =>
        ghost var i :| 0 <= i < |sessions| && PortKeys(sessions)[i] == port && port !in table;
        assert sessions[i] in sessions;
        Some(UnknownPort(port))
      case Ok(_) =>
        assert forall s :: s in sessions ==> NatToString(s.destPort) in table by {
          forall s | s in sessions ensures NatToString(s.destPort) in table {
            var i :| 0 <= i < |sessions| && sessions[i] == s;
            assert PortKeys(sessions)[i] == NatToString(s.destPort);
          }
        }
        None
  }

  /** `SessionFailure` reports the first of the two columns that fails, in the order they are computed. */
  lemma SessionFailureCases(nodes: seq<string>, table: map<string, string>, sessions: seq<Session>)
    ensures IndexColumn(nodes, Imeis(sessions)).Err? ==>
      SessionFailure(nodes, table, sessions) == Some(ImeiNotAParticipant(IndexColumn(nodes, Imeis(sessions)).error))
    ensures IndexColumn(nodes, Imeis(sessions)).Ok? && LookupColumn(table, PortKeys(sessions)).Err? ==>
      SessionFailure(nodes, table, sessions) == Some(UnknownPort(LookupColumn(table, PortKeys(sessions)).error))
    ensures IndexColumn(nodes, Imeis(sessions)).Ok? && LookupColumn(table, PortKeys(sessions)).Ok? ==>
      SessionFailure(nodes, table, sessions) == None
  {
  }

  // ---------------------------------------------------------------- the row filter

  /** The range step's bounds, with the time bounds already read from the mark table. */
  datatype Window = Window(fromDate: int, toDate: int, minDuration: int, maxDuration: int, fromTime: string, toTime: string)

  /** Date and duration inside their closed ranges; time of day in [fromTime, toTime). */
  predicate InWindow(c: Call, w: Window) {
    && w.fromDate <= c.date <= w.toDate
    && w.minDuration <= c.duration <= w.maxDuration
    && LexLessEq(w.fromTime, c.time) && LexLess(c.time, w.toTime)
  }

  /** The first mask of the callback: one conjunction of range tests over the whole frame. */
  function RangeStep(rows: seq<NodedCall>, w: Window): (kept: seq<NodedCall>)
    ensures forall r :: r in kept <==> (r in rows
      && w.fromDate <= r.call.date <= w.toDate
      && w.minDuration <= r.call.duration <= w.maxDuration
      && LexLessEq(w.fromTime, r.call.time) && LexLess(r.call.time, w.toTime))
    ensures forall r :: multiset(kept)[r] == if InWindow(r.call, w) then multiset(rows)[r] else 0
    ensures IsSubsequence(kept, rows)
  {
    Where(rows, WindowTest(w))
  }

  function WindowTest(w: Window): NodedCall -> bool {
    (r: NodedCall) => InWindow(r.call, w)
  }

  /**
   * The role dropdown (1 only caller, 2 only receiver, 3 either, 4 both) and the
   * caller and receiver dropdowns; None stands for the dropdown value 'None'.
   */
  datatype RoleQuery = RoleQuery(option: int, callers: Option<set<string>>, receivers: Option<set<string>>)

  /**
   * What `isin(list(selection))` tests against: the chosen numbers, or, for the
   * unset value, the one-letter strings `list('None')` yields.
   */
  function IsinValues(selection: Option<set<string>>): set<string> {
    match selection
    case Some(chosen) => chosen
    case None => {"N", "o", "n", "e"}
  }

  /** Whether the selected option's guard passes, so that the role step filters at all. */
  predicate RoleApplies(q: RoleQuery) {
    || (q.option == 1 && q.callers.Some?)
    || (q.option == 2 && q.receivers.Some?)
    || (q.option == 3 && (q.callers.Some? || q.receivers.Some?))
    || (q.option == 4 && q.callers.Some? && q.receivers.Some?)
  }

  /** The test a row must pass in the role step. */
  predicate RoleHolds(c: Call, q: RoleQuery) {
    if q.option == 1 && q.callers.Some? then c.caller in q.callers.value
    else if q.option == 2 && q.receivers.Some? then c.receiver in q.receivers.value
    else if q.option == 3 && (q.callers.Some? || q.receivers.Some?) then
      c.caller in IsinValues(q.callers) || c.receiver in IsinValues(q.receivers)
    else if q.option == 4 && q.callers.Some? && q.receivers.Some? then
      c.caller in q.callers.value && c.receiver in q.receivers.value
    else true
  }

  /** The option-4 row test: caller and receiver both among the chosen numbers. */
  function BothTest(callers: set<string>, receivers: set<string>): NodedCall -> bool {
    (r: NodedCall) => r.call.caller in callers && r.call.receiver in receivers
  }

  /** The role step, option 4 applied to the range step's result as intended. */
  function RoleStep(rows: seq<NodedCall>, q: RoleQuery): (kept: seq<NodedCall>)
    ensures q.option == 1 && q.callers.Some? ==>
      forall r :: r in kept <==> r in rows && r.call.caller in q.callers.value
    ensures q.option == 2 && q.receivers.Some? ==>
      forall r :: r in kept <==> r in rows && r.call.receiver in q.receivers.value
    ensures q.option == 3 && (q.callers.Some? || q.receivers.Some?) ==>
      forall r :: r in kept <==> r in rows && (r.call.caller in IsinValues(q.callers) || r.call.receiver in IsinValues(q.receivers))
    ensures q.option == 4 && q.callers.Some? && q.receivers.Some? ==>
      forall r :: r in kept <==> r in rows && r.call.caller in q.callers.value && r.call.receiver in q.receivers.value
    ensures !RoleApplies(q) ==> kept == rows
    ensures forall r :: r in kept <==> r in rows && RoleHolds(r.call, q)
    ensures forall r :: multiset(kept)[r] == if RoleHolds(r.call, q) then multiset(rows)[r] else 0
    ensures IsSubsequence(kept, rows)
  {
    if q.option == 1 && q.callers.Some? then
      var chosen := q.callers.value;
      Where(rows, (r: NodedCall) => r.call.caller in chosen)
    else if q.option == 2 && q.receivers.Some? then
      var chosen := q.receivers.value;
      Where(rows, (r: NodedCall) => r.call.receiver in chosen)
    else if q.option == 3 && (q.callers.Some? || q.receivers.Some?) then
      var callers, receivers := IsinValues(q.callers), IsinValues(q.receivers);
      Where(rows, (r: NodedCall) => r.call.caller in callers || r.call.receiver in receivers)
    else if q.option == 4 && q.callers.Some? && q.receivers.Some? then
      Where(rows, BothTest(q.callers.value, q.receivers.value))
    else
      SubsequenceReflexive(rows);
      rows
  }

  /**
   * "Either" with the caller dropdown unset: as long as no caller is one of the
   * letters of 'None', the step keeps exactly the rows with a chosen receiver.
   */
  lemma EitherWithUnsetCaller(rows: seq<NodedCall>, q: RoleQuery)
    requires q.option == 3 && q.callers.None? && q.receivers.Some?
    requires forall r :: r in rows ==> r.call.caller !in {"N", "o", "n", "e"}
    ensures forall r :: r in RoleStep(rows, q) <==> r in rows && r.call.receiver in q.receivers.value
  {
    forall r | r in rows
      ensures r in RoleStep(rows, q) <==> r.call.receiver in q.receivers.value
    {
      assert r.call.caller !in IsinValues(q.callers);
    }
  }

  const NothingMatches: string := "Nothing Matches that Query"
  const UpdatedMessage: string := "Updated"

  /**
   * The callback's two outputs: `dash.no_update` with a message, or the filtered
   * rows with 'Updated'; or the exception `preprocess_data` raised on an upload.
   */
  datatype FilterOutcome =
    | NoUpdate(message: string)
    | Update(rows: seq<NodedCall>, message: string)
    | Failed(error: PreprocessError)

  /** The filter of `update_filtered_div_caller` on the current frame, and its report. */
  function FilteredDiv(df: seq<NodedCall>, w: Window, q: RoleQuery): (outcome: FilterOutcome)
    ensures !outcome.Failed?
    ensures outcome.NoUpdate? <==> forall r :: r in df ==> !(InWindow(r.call, w) && RoleHolds(r.call, q))
    ensures outcome.NoUpdate? ==> outcome.message == NothingMatches
    ensures outcome.Update? ==> outcome.message == UpdatedMessage && outcome.rows != []
    ensures outcome.Update? ==> IsSubsequence(outcome.rows, df)
    ensures outcome.Update? ==>
      forall r :: r in outcome.rows <==> r in df && InWindow(r.call, w) && RoleHolds(r.call, q)
    ensures outcome.Update? ==>
      forall r :: multiset(outcome.rows)[r] == if InWindow(r.call, w) && RoleHolds(r.call, q) then multiset(df)[r] else 0
  {
    var ranged := RangeStep(df, w);
    var filtered := RoleStep(ranged, q);
    SubsequenceTransitive(filtered, ranged, df);
    if |filtered| == 0 then
      NoUpdate(NothingMatches)
    else
      assert filtered[0] in filtered;
      Update(filtered, UpdatedMessage)
  }

  /**
   * The rows the callback hands to `plot_network` come from a frame numbered by
   * `preprocess_data`, so their node numbers identify their participants.
   */
  lemma FilteredRowsConsistent(calls: seq<Call>, w: Window, q: RoleQuery)
    ensures FilteredDiv(NumberCalls(calls), w, q).Update? ==> ConsistentNumbering(FilteredDiv(NumberCalls(calls), w, q).rows)
  {
    NumberCallsConsistent(calls);
    var outcome := FilteredDiv(NumberCalls(calls), w, q);
    if outcome.Update? {
      ConsistentWithin(outcome.rows, NumberCalls(calls));
    }
  }

  /** Rows drawn from a consistently numbered frame are consistently numbered. */
  lemma ConsistentWithin(part: seq<NodedCall>, rows: seq<NodedCall>)
    requires ConsistentNumbering(rows) && forall r :: r in part ==> r in rows
    ensures ConsistentNumbering(part)
  {
  }

  /** Rows that all lie in the window pass the range step unchanged. */
  lemma RangeStepStable(rows: seq<NodedCall>, w: Window)
    requires forall r :: r in rows ==> InWindow(r.call, w)
    ensures RangeStep(rows, w) == rows
  {
    var kept := RangeStep(rows, w);
    assert multiset(kept) == multiset(rows) by {
      forall r ensures multiset(kept)[r] == multiset(rows)[r] {
        if r !in rows { assert multiset(rows)[r] == 0; }
      }
    }
    KeepsAll(kept, rows);
  }

  /** Rows that all pass the role test pass the role step unchanged. */
  lemma RoleStepStable(rows: seq<NodedCall>, q: RoleQuery)
    requires forall r :: r in rows ==> RoleHolds(r.call, q)
    ensures RoleStep(rows, q) == rows
  {
    var kept := RoleStep(rows, q);
    assert multiset(kept) == multiset(rows) by {
      forall r ensures multiset(kept)[r] == multiset(rows)[r] {
        if r !in rows { assert multiset(rows)[r] == 0; }
      }
    }
    KeepsAll(kept, rows);
  }

  /** Filtering the filtered rows again with the same window and query changes nothing. */
  lemma {:induction false} FilterIdempotent(df: seq<NodedCall>, w: Window, q: RoleQuery)
    ensures var once := RoleStep(RangeStep(df, w), q);
      RoleStep(RangeStep(once, w), q) == once
  {
    var once := RoleStep(RangeStep(df, w), q);
    RangeStepStable(once, w);
    RoleStepStable(once, q);
  }

  /** A filter step that keeps every row as often as it occurs returns its input. */
  lemma KeepsAll(kept: seq<NodedCall>, rows: seq<NodedCall>)
    requires IsSubsequence(kept, rows)
    requires multiset(kept) == multiset(rows)
    ensures kept == rows
  {
    assert |kept| == |multiset(kept)| == |multiset(rows)| == |rows|;
    SubsequenceSameLength(kept, rows);
  }

  // ---------------------------------------------------------------- option 4 as written

  /** The option-4 mask, one flag per row of the frame it is computed on. */
  function BothMask(rows: seq<NodedCall>, callers: set<string>, receivers: set<string>): (mask: seq<bool>)
    ensures |mask| == |rows|
    ensures forall i :: 0 <= i < |rows| ==> mask[i] == BothTest(callers, receivers)(rows[i])
  {
    seq(|rows|, i requires 0 <= i < |rows| => BothTest(callers, receivers)(rows[i]))
  }

  /** `frame[mask]` for a mask whose labels cover the frame's labels: the flagged rows, in order. */
  function MaskSelect(rows: seq<NodedCall>, mask: seq<bool>): (kept: seq<NodedCall>)
    requires |rows| <= |mask|
    ensures IsSubsequence(kept, rows)
    decreases |rows|
  {
    if rows == [] then []
    else
      var rest := MaskSelect(rows[1..], mask[1..]);
      if mask[0] then [rows[0]] + rest
      else
        SubsequenceExtend(rest, rows);
        rest
  }

  /** A mask computed from a row test selects what filtering by that test keeps. */
  lemma {:induction false} MaskSelectIsWhere(rows: seq<NodedCall>, mask: seq<bool>, keep: NodedCall -> bool)
    requires |rows| <= |mask| && forall i :: 0 <= i < |rows| ==> mask[i] == keep(rows[i])
    ensures MaskSelect(rows, mask) == Where(rows, keep)
    decreases |rows|
  {
    if rows != [] {
      assert forall i :: 0 <= i < |rows[1..]| ==> mask[1..][i] == keep(rows[1..][i]) by {
        forall i | 0 <= i < |rows[1..]| ensures mask[1..][i] == keep(rows[1..][i]) {
          assert mask[1..][i] == mask[i + 1] && rows[1..][i] == rows[i + 1];
        }
      }
      MaskSelectIsWhere(rows[1..], mask[1..], keep);
    }
  }

  /**
   * Option 4 as the callback writes it: the mask is computed on `filtered`
   * (relabelled 0 .. |filtered|-1 by `reset_index`) and applied to the whole
   * frame `df`. pandas aligns a boolean Series by label and raises
   * IndexingError when some row label of `df` is missing from the mask.
   */
  function BothStepAsWritten(df: seq<NodedCall>, filtered: seq<NodedCall>, callers: set<string>, receivers: set<string>)
    : (r: Result<seq<NodedCall>, string>)
    ensures r.Err? <==> |filtered| < |df|
    ensures r.Ok? ==> IsSubsequence(r.value, df)
  {
    var mask := BothMask(filtered, callers, receivers);
    if |mask| < |df| then Err("Unalignable boolean Series provided as indexer")
    else Ok(MaskSelect(df, mask))
  }

  /** As written, option 4 raises exactly when the range step dropped some row. */
  lemma BothStepAsWrittenFails(df: seq<NodedCall>, w: Window, callers: set<string>, receivers: set<string>)
    ensures BothStepAsWritten(df, RangeStep(df, w), callers, receivers).Err?
      <==> exists r :: r in df && !InWindow(r.call, w)
  {
    var ranged := RangeStep(df, w);
    SubsequenceLength(ranged, df);
    if forall r :: r in df ==> InWindow(r.call, w) {
      RangeStepStable(df, w);
    } else {
      var r :| r in df && !InWindow(r.call, w);
      if |ranged| == |df| {
        SubsequenceSameLength(ranged, df);
      }
    }
  }

  /** When the range step drops nothing, the code as written and the intended filter agree. */
  lemma BothStepAsWrittenAgrees(df: seq<NodedCall>, w: Window, q: RoleQuery)
    requires q.option == 4 && q.callers.Some? && q.receivers.Some?
    requires forall r :: r in df ==> InWindow(r.call, w)
    ensures BothStepAsWritten(df, RangeStep(df, w), q.callers.value, q.receivers.value) == Ok(RoleStep(RangeStep(df, w), q))
  {
    RangeStepStable(df, w);
    var test := BothTest(q.callers.value, q.receivers.value);
    MaskSelectIsWhere(df, BothMask(df, q.callers.value, q.receivers.value), test);
  }

  /**
   * A frame of two calls where only the second falls in the date range and
   * matches the chosen numbers.
   */
  const SampleOther := NodedCall(Call("100", "200", 1, "12:00", 5), 0, 1)
  const SampleWanted := NodedCall(Call("300", "400", 2, "12:00", 5), 2, 3)
  const SampleWindow := Window(2, 2, 0, 100, "00:00", "24:00")
  const SampleQuery := RoleQuery(4, Some({"300"}), Some({"400"}))

  lemma SampleWantedInWindow()
    ensures InWindow(SampleWanted.call, SampleWindow)
  {
    LexLessAt("00:00", "12:00", 0);
    LexLessAt("12:00", "24:00", 0);
  }

  /** On the sample frame the code as written raises. */
  lemma OptionFourAsWrittenRaises()
    ensures BothStepAsWritten([SampleOther, SampleWanted], RangeStep([SampleOther, SampleWanted], SampleWindow), {"300"}, {"400"}).Err?
  {
    assert !InWindow(SampleOther.call, SampleWindow);
    BothStepAsWrittenFails([SampleOther, SampleWanted], SampleWindow, {"300"}, {"400"});
  }

  /** On the same frame the intended filter returns the matching call. */
  lemma OptionFourIntendedKeeps()
    ensures FilteredDiv([SampleOther, SampleWanted], SampleWindow, SampleQuery) == Update([SampleWanted], UpdatedMessage)
  {
    var df := [SampleOther, SampleWanted];
    SampleWantedInWindow();
    assert !InWindow(SampleOther.call, SampleWindow);
    WhereSecondOfTwo(SampleOther, SampleWanted, WindowTest(SampleWindow));
    assert BothTest({"300"}, {"400"})(SampleWanted);
    WhereSingle(SampleWanted, BothTest({"300"}, {"400"}));
  }

  // ---------------------------------------------------------------- the selection text

  /** A component's numbers, one per line, each after a tab. */
  function MembersText(component: seq<string>): string
    decreases |component|
  {
    if component == [] then "" else "\t" + component[0] + "\n" + MembersText(component[1..])
  }

  /** The text for the components, the non-empty ones numbered consecutively from `next`. */
  function ComponentsText(components: seq<seq<string>>, next: nat): string
    decreases |components|
  {
    if components == [] then ""
    else if components[0] == [] then ComponentsText(components[1..], next)
    else Heading(next) + MembersText(components[0]) + ComponentsText(components[1..], next + 1)
  }

  /** The line that opens the listing of component number `n`. */
  function Heading(n: nat): string {
    "Component " + NatToString(n) + ":\n"
  }

  predicate NonEmpty(component: seq<string>) {
    component != []
  }

  /** Empty components leave no trace in the text: not even a number is used up. */
  lemma {:induction false} EmptyComponentsSkipped(components: seq<seq<string>>, next: nat)
    ensures ComponentsText(components, next) == ComponentsText(Where(components, NonEmpty), next)
    decreases |components|
  {
    if components != [] {
      var rest := Where(components[1..], NonEmpty);
      if NonEmpty(components[0]) {
        EmptyComponentsSkipped(components[1..], next + 1);
        var kept := [components[0]] + rest;
        assert kept[0] == components[0] && kept[1..] == rest;
      } else {
        EmptyComponentsSkipped(components[1..], next);
      }
    }
  }

  lemma ComponentsTextStep(components: seq<seq<string>>, k: nat, i: nat)
    requires k < |components|
    ensures ComponentsText(components[k..], i) == if components[k] == [] then ComponentsText(components[k + 1..], i)
      else Heading(i) + MembersText(components[k]) + ComponentsText(components[k + 1..], i + 1)
  {
    assert components[k..][0] == components[k] && components[k..][1..] == components[k + 1..];
  }

  lemma Regroup(a: string, b: string, c: string, d: string)
    ensures a + b + c + d == a + (b + c + d)
  {
  }

  /** The loop of `display_selected_data` that lists the connected components of a selection. */
  method FormatComponents(components: seq<seq<string>>) returns (s: string)
    ensures s == ComponentsText(components, 1)
  {
    s := "";
    var i: nat := 1;
    for k := 0 to |components|
      invariant s + ComponentsText(components[k..], i) == ComponentsText(components, 1)
    {
      var component := components[k];
      ComponentsTextStep(components, k, i);
      if component == [] {
        continue;
      }
      ghost var before := s;
      ghost var rest := ComponentsText(components[k + 1..], i + 1);
      s := AppendMembers(s + Heading(i), component);
      Regroup(before, Heading(i), MembersText(component), rest);
      i := i + 1;
    }
    assert components[|components|..] == [];
  }

  /** The inner loop: one tab-indented line per number of the component. */
  method AppendMembers(s: string, component: seq<string>) returns (t: string)
    ensures t == s + MembersText(component)
  {
    t := s;
    for j := 0 to |component|
      invariant t + MembersText(component[j..]) == s + MembersText(component)
    {
      assert component[j..][0] == component[j] && component[j..][1..] == component[j + 1..];
      ghost var before := t;
      t := t + "\t" + component[j] + "\n";
      Regroup(before, "\t" + component[j], "\n", MembersText(component[j + 1..]));
    }
    assert component[|component|..] == [];
  }

  // ---------------------------------------------------------------- plot bookkeeping

  /** The nodes of the graph drawn for `rows`: both end points of every row. */
  function EndpointNodes(rows: seq<NodedCall>): set<nat> {
    (set r | r in rows :: r.callerNode) + (set r | r in rows :: r.receiverNode)
  }

  /** The `node_to_num` assignments of `add_coords`, row by row: caller first, then receiver. */
  function NamePairs(rows: seq<NodedCall>): seq<(nat, string)>
    decreases |rows|
  {
    if rows == [] then []
    else [(rows[0].callerNode, rows[0].call.caller), (rows[0].receiverNode, rows[0].call.receiver)] + NamePairs(rows[1..])
  }

  /** The `num_to_node` assignments of `add_coords`, row by row: caller first, then receiver. */
  function NumberPairs(rows: seq<NodedCall>): seq<(string, nat)>
    decreases |rows|
  {
    if rows == [] then []
    else [(rows[0].call.caller, rows[0].callerNode), (rows[0].call.receiver, rows[0].receiverNode)] + NumberPairs(rows[1..])
  }

  /** `NamePairs` holds exactly each row's caller and receiver with their nodes. */
  lemma {:induction false} NamePairsOfRows(rows: seq<NodedCall>)
    ensures forall r :: r in rows ==> (r.callerNode, r.call.caller) in NamePairs(rows) && (r.receiverNode, r.call.receiver) in NamePairs(rows)
    ensures forall p :: p in NamePairs(rows) ==>
      exists r :: r in rows && (p == (r.callerNode, r.call.caller) || p == (r.receiverNode, r.call.receiver))
    decreases |rows|
  {
    if rows != [] {
      NamePairsOfRows(rows[1..]);
      assert forall r :: r in rows ==> r == rows[0] || r in rows[1..];
      assert rows[0] in rows;
    }
  }

  /** `NumberPairs` holds exactly each row's caller and receiver with their nodes. */
  lemma {:induction false} NumberPairsOfRows(rows: seq<NodedCall>)
    ensures forall r :: r in rows ==> (r.call.caller, r.callerNode) in NumberPairs(rows) && (r.call.receiver, r.receiverNode) in NumberPairs(rows)
    ensures forall p :: p in NumberPairs(rows) ==>
      exists r :: r in rows && (p == (r.call.caller, r.callerNode) || p == (r.call.receiver, r.receiverNode))
    decreases |rows|
  {
    if rows != [] {
      NumberPairsOfRows(rows[1..]);
      assert forall r :: r in rows ==> r == rows[0] || r in rows[1..];
      assert rows[0] in rows;
    }
  }

  /** The `coords_to_node` assignments of the `for node in pos` loop, in the layout's key order. */
  function PositionPairs(layout: map<nat, Point>, order: seq<nat>): (pairs: seq<(Point, nat)>)
    requires forall n :: n in order ==> n in layout
    ensures |pairs| == |order|
    ensures forall i :: 0 <= i < |order| ==> pairs[i] == (layout[order[i]], order[i])
  {
    seq(|order|, i requires 0 <= i < |order| => (layout[order[i]], order[i]))
  }

  /** After `add_coords` on consistently numbered rows, `node_to_num` maps each end point to its number. */
  lemma NamesReadBack(names: map<nat, string>, rows: seq<NodedCall>)
    requires ConsistentNumbering(rows)
    ensures forall r :: r in rows ==>
      && r.callerNode in Upserts(names, NamePairs(rows)) && Upserts(names, NamePairs(rows))[r.callerNode] == r.call.caller
      && r.receiverNode in Upserts(names, NamePairs(rows)) && Upserts(names, NamePairs(rows))[r.receiverNode] == r.call.receiver
  {
    var pairs := NamePairs(rows);
    NamePairsOfRows(rows);
    assert Functional(pairs) by {
      forall p, q | p in pairs && q in pairs && p.0 == q.0 ensures p.1 == q.1 {
      }
    }
    UpsertsFunctional(names, pairs);
  }

  /** After `add_coords` on consistently numbered rows, `num_to_node` maps each number back to its node. */
  lemma NumbersReadBack(numbers: map<string, nat>, rows: seq<NodedCall>)
    requires ConsistentNumbering(rows)
    ensures forall r :: r in rows ==>
      && r.call.caller in Upserts(numbers, NumberPairs(rows)) && Upserts(numbers, NumberPairs(rows))[r.call.caller] == r.callerNode
      && r.call.receiver in Upserts(numbers, NumberPairs(rows)) && Upserts(numbers, NumberPairs(rows))[r.call.receiver] == r.receiverNode
  {
    var pairs := NumberPairs(rows);
    NumberPairsOfRows(rows);
    assert Functional(pairs) by {
      forall p, q | p in pairs && q in pairs && p.0 == q.0 ensures p.1 == q.1 {
      }
    }
    UpsertsFunctional(numbers, pairs);
  }

  /** No two nodes of the layout share a position. */
  predicate DistinctPositions(layout: map<nat, Point>) {
    forall a, b :: a in layout && b in layout && a != b ==> layout[a] != layout[b]
  }

  /** After the `for node in pos` loop, `coords_to_node` maps each node's position back to that node. */
  lemma PositionsReadBack(coords: map<Point, nat>, layout: map<nat, Point>, order: seq<nat>)
    requires forall n :: n in order <==> n in layout
    requires DistinctPositions(layout)
    ensures forall n :: n in layout ==> Upserts(coords, PositionPairs(layout, order))[layout[n]] == n
  {
    var pairs := PositionPairs(layout, order);
    assert Functional(pairs) by {
      forall p, q | p in pairs && q in pairs && p.0 == q.0 ensures p.1 == q.1 {
        var i :| 0 <= i < |pairs| && pairs[i] == p;
        var j :| 0 <= j < |pairs| && pairs[j] == q;
      }
    }
    UpsertsFunctional(coords, pairs);
    forall n | n in layout ensures (layout[n], n) in pairs {
      var i :| 0 <= i < |order| && order[i] == n;
      assert pairs[i] == (layout[n], n);
    }
  }

  /** Every node drawn has an entry in `node_to_num` once the rows are added, so the hover text exists. */
  lemma EndpointsNamed(names: map<nat, string>, rows: seq<NodedCall>)
    ensures forall n :: n in EndpointNodes(rows) ==> n in Upserts(names, NamePairs(rows))
  {
    var pairs := NamePairs(rows);
    NamePairsOfRows(rows);
    forall n | n in EndpointNodes(rows) ensures n in KeysOf(pairs) {
      var r :| r in rows && (r.callerNode == n || r.receiverNode == n);
      assert (r.callerNode, r.call.caller) in pairs && (r.receiverNode, r.call.receiver) in pairs;
    }
  }

  /**
   * The number shown for a point of the plot: the node `coords_to_node` gives
   * for it, then that node's number in `node_to_num`; None where the source
   * raises KeyError.
   */
  function NumberAtPoint(coords: map<Point, nat>, names: map<nat, string>, p: Point): (number: Option<string>)
    ensures number.Some? <==> p in coords && coords[p] in names
    ensures number.Some? ==> number.value == names[coords[p]]
  {
    if p in coords && coords[p] in names then Some(names[coords[p]]) else None
  }

  /**
   * Clicking or hovering a drawn node gives the phone number of that
   * participant, whatever the lookup maps held before the plot.
   */
  lemma PointLookupFindsNumber(coords: map<Point, nat>, names: map<nat, string>, rows: seq<NodedCall>,
                               layout: map<nat, Point>, order: seq<nat>)
    requires ConsistentNumbering(rows)
    requires forall n :: n in order <==> n in layout
    requires DistinctPositions(layout)
    ensures forall r :: r in rows && r.callerNode in layout ==>
      NumberAtPoint(Upserts(coords, PositionPairs(layout, order)), Upserts(names, NamePairs(rows)), layout[r.callerNode]) == Some(r.call.caller)
    ensures forall r :: r in rows && r.receiverNode in layout ==>
      NumberAtPoint(Upserts(coords, PositionPairs(layout, order)), Upserts(names, NamePairs(rows)), layout[r.receiverNode]) == Some(r.call.receiver)
  {
    NamesReadBack(names, rows);
    PositionsReadBack(coords, layout, order);
  }

  /** The summed duration of the calls incident to `node`, the quantity the marker size grows with. */
  function IncidentDuration(rows: seq<NodedCall>, node: nat): nat
    decreases |rows|
  {
    if rows == [] then 0
    else (if Incident(rows[0], node) then rows[0].call.duration else 0) + IncidentDuration(rows[1..], node)
  }

  /** The row's call is made or received by `node`: the mask `Caller_node == node | Receiver_node == node`. */
  predicate Incident(r: NodedCall, node: nat) {
    r.callerNode == node || r.receiverNode == node
  }

  /**
   * A node's summed duration counts each incident call in full, is zero for a
   * node no call touches, and never exceeds the summed duration of all calls.
   */
  lemma {:induction false} IncidentDurationBounds(rows: seq<NodedCall>, node: nat)
    ensures IncidentDuration(rows, node) <= TotalDuration(rows)
    ensures forall r :: r in rows && Incident(r, node) ==> r.call.duration <= IncidentDuration(rows, node)
    ensures (forall r :: r in rows ==> !Incident(r, node)) ==> IncidentDuration(rows, node) == 0
    decreases |rows|
  {
    if rows != [] {
      IncidentDurationBounds(rows[1..], node);
      assert forall x :: x in rows ==> x == rows[0] || x in rows[1..];
      assert rows[0] in rows;
    }
  }

  /** The row test `(Caller_node == node) | (Receiver_node == node)` as a mask function. */
  function IncidentTest(node: nat): NodedCall -> bool {
    (r: NodedCall) => Incident(r, node)
  }

  /**
   * A node's incident duration is the source's mask-then-sum: the total
   * duration of the rows the incidence mask selects.
   */
  lemma {:induction false} IncidentDurationIsMaskedSum(rows: seq<NodedCall>, node: nat)
    ensures IncidentDuration(rows, node) == TotalDuration(Where(rows, IncidentTest(node)))
    decreases |rows|
  {
    if rows != [] {
      IncidentDurationIsMaskedSum(rows[1..], node);
      var rest := Where(rows[1..], IncidentTest(node));
      if Incident(rows[0], node) {
        assert ([rows[0]] + rest)[1..] == rest;
      }
    }
  }

  /** The summed duration of all calls, the quantity `df['Duration'].sum()` computes. */
  function TotalDuration(rows: seq<NodedCall>): nat
    decreases |rows|
  {
    if rows == [] then 0 else rows[0].call.duration + TotalDuration(rows[1..])
  }

  /** The assignments for rows i.. are those of row i followed by those of the rest. */
  lemma AddCoordsStep(rows: seq<NodedCall>, i: nat)
    requires i < |rows|
    ensures NamePairs(rows[i..]) ==
      [(rows[i].callerNode, rows[i].call.caller), (rows[i].receiverNode, rows[i].call.receiver)] + NamePairs(rows[i + 1..])
    ensures NumberPairs(rows[i..]) ==
      [(rows[i].call.caller, rows[i].callerNode), (rows[i].call.receiver, rows[i].receiverNode)] + NumberPairs(rows[i + 1..])
  {
    assert rows[i..][0] == rows[i] && rows[i..][1..] == rows[i + 1..];
  }

  /** The hover texts, positions and incident durations of the nodes in `done`, in that order. */
  ghost predicate Placed(rows: seq<NodedCall>, layout: map<nat, Point>, names: map<nat, string>, done: seq<nat>,
                         hover: seq<string>, nodeXY: seq<Point>, weights: seq<nat>)
  {
    && |hover| == |nodeXY| == |weights| == |done|
    && forall j :: 0 <= j < |done| ==>
      && done[j] in names && hover[j] == names[done[j]]
      && done[j] in layout && nodeXY[j] == layout[done[j]]
      && weights[j] == IncidentDuration(rows, done[j])
  }

  /** Placing the next node of `order` extends the three lists by its entries. */
  lemma PlacedStep(rows: seq<NodedCall>, layout: map<nat, Point>, names: map<nat, string>, order: seq<nat>, i: nat,
                   hover: seq<string>, nodeXY: seq<Point>, weights: seq<nat>)
    requires i < |order| && order[i] in names && order[i] in layout
    requires Placed(rows, layout, names, order[..i], hover, nodeXY, weights)
    ensures Placed(rows, layout, names, order[..i + 1], hover + [names[order[i]]], nodeXY + [layout[order[i]]],
                   weights + [IncidentDuration(rows, order[i])])
  {
    assert order[..i + 1] == order[..i] + [order[i]];
  }

  // ---------------------------------------------------------------- the dashboard's state

  /**
   * The module-level state of the dashboard: the call frame `df` with its node
   * columns, the session frame `df2` with its IMEI_node and App_name columns,
   * the three lookup dictionaries, and the two slider mark tables.
   */
  class Dashboard {
    var df: seq<NodedCall>
    var sessions: seq<Session>
    var imeiNode: seq<nat>
    var appName: seq<string>
    var coordsToNode: map<Point, nat>
    var nodeToNum: map<nat, string>
    var numToNode: map<string, nat>
    var times: map<nat, Mark>
    var durations: map<nat, string>

    /** The time slider's table holds the 49 half-hour marks. */
    ghost predicate Valid()
      reads this`times
    {
      && (forall k: nat :: k in times <==> k <= LastMark)
      && (forall k: nat :: k <= LastMark ==> times[k] == Mark(Label(k), StyleOf(k)))
    }

    /**
     * The module's first statements: the session frame as loaded, the time
     * slider's marks, and the duration slider's marks up to the largest
     * duration of the start-up call frame `calls`. That frame enters `df`
     * with the `preprocess_data` call that follows (`PreprocessData`).
     */
    constructor(calls: seq<Call>, ipdr: seq<Session>)
      requires calls != []
      ensures Valid()
      ensures sessions == ipdr && df == [] && imeiNode == [] && appName == []
      ensures coordsToNode == map[] && nodeToNum == map[] && numToNode == map[]
      ensures forall k: nat :: k in durations <==> k < MaxDuration(calls) && OnDurationStep(k)
      ensures forall k: nat :: k in durations ==> durations[k] == NatToString(k)
    {
      var marks := BuildTimeMarks();
      var steps := BuildDurationMarks(MaxDuration(calls));
      times, durations := marks, steps;
      sessions := ipdr;
      df, imeiNode, appName := [], [], [];
      coordsToNode, nodeToNum, numToNode := map[], map[], map[];
    }

    /**
     * `preprocess_data(df, df2)` on a new call frame: the node columns of the
     * calls, then IMEI_node and App_name of the sessions, then the three
     * dictionaries cleared. An exception in a session column leaves the
     * later steps undone.
     */
    method PreprocessData(calls: seq<Call>) returns (failure: Option<PreprocessError>)
      modifies this`df, this`imeiNode, this`appName, this`coordsToNode, this`nodeToNum, this`numToNode
      ensures failure == PreprocessFailure(calls, sessions)
      ensures df == NumberCalls(calls)
      ensures IndexColumn(NodeList(calls), Imeis(sessions)).Err? ==> imeiNode == old(imeiNode)
      ensures IndexColumn(NodeList(calls), Imeis(sessions)).Ok? ==> imeiNode == IndexColumn(NodeList(calls), Imeis(sessions)).value
      ensures failure.Some? ==>
        && appName == old(appName)
        && coordsToNode == old(coordsToNode) && nodeToNum == old(nodeToNum) && numToNode == old(numToNode)
      ensures failure.None? ==> appName == LookupColumn(PortsToApps, PortKeys(sessions)).value
      ensures failure.None? ==> coordsToNode == map[] && nodeToNum == map[] && numToNode == map[]
    {
      df := NumberCalls(calls);
      failure := AddSessionColumns(NodeList(calls), PortsToApps);
    }

    /**
     * The part of `preprocess_data` after the call columns: IMEI_node against
     * the node list, App_name from the port table, and the dictionaries
     * cleared, stopping at the first column that raises.
     */
    method AddSessionColumns(nodes: seq<string>, table: map<string, string>) returns (failure: Option<PreprocessError>)
      modifies this`imeiNode, this`appName, this`coordsToNode, this`nodeToNum, this`numToNode
      ensures failure == SessionFailure(nodes, table, sessions)
      ensures IndexColumn(nodes, Imeis(sessions)).Err? ==> imeiNode == old(imeiNode)
      ensures IndexColumn(nodes, Imeis(sessions)).Ok? ==> imeiNode == IndexColumn(nodes, Imeis(sessions)).value
      ensures failure.Some? ==>
        && appName == old(appName)
        && coordsToNode == old(coordsToNode) && nodeToNum == old(nodeToNum) && numToNode == old(numToNode)
      ensures failure.None? ==> appName == LookupColumn(table, PortKeys(sessions)).value
      ensures failure.None? ==> coordsToNode == map[] && nodeToNum == map[] && numToNode == map[]
    {
      SessionFailureCases(nodes, table, sessions);
      var imeiColumn := IndexColumn(nodes, Imeis(sessions));
      if imeiColumn.Err? {
        return Some(ImeiNotAParticipant(imeiColumn.error));
      }
      imeiNode := imeiColumn.value;
      var appColumn := LookupColumn(table, PortKeys(sessions));
      if appColumn.Err? {
        return Some(UnknownPort(appColumn.error));
      }
      appName := appColumn.value;
      coordsToNode, numToNode, nodeToNum := map[], map[], map[];
      return None;
    }

    /**
     * The bookkeeping of `plot_network` for the rows drawn and the layout
     * computed for their graph (keys `order`, in the layout's order): one edge
     * per row, the `add_coords` updates of `node_to_num` and `num_to_node`,
     * and for each node its position in `coords_to_node`, its hover text and
     * its incident duration. The dictionaries only gain or overwrite entries.
     */
    method PlotNetwork(rows: seq<NodedCall>, layout: map<nat, Point>, order: seq<nat>)
      returns (edges: seq<EdgeTrace>, hover: seq<string>, nodeXY: seq<Point>, weights: seq<nat>)
      requires forall n :: n in layout <==> n in EndpointNodes(rows)
      requires Distinct(order) && forall n :: n in order <==> n in layout
      modifies this`coordsToNode, this`nodeToNum, this`numToNode
      ensures nodeToNum == Upserts(old(nodeToNum), NamePairs(rows))
      ensures numToNode == Upserts(old(numToNode), NumberPairs(rows))
      ensures coordsToNode == Upserts(old(coordsToNode), PositionPairs(layout, order))
      ensures |edges| == |rows|
      ensures forall i :: 0 <= i < |rows| ==>
        edges[i] == EdgeTrace(layout[rows[i].callerNode], layout[rows[i].receiverNode])
      ensures |hover| == |nodeXY| == |weights| == |order|
      ensures forall i :: 0 <= i < |order| ==>
        && order[i] in nodeToNum && hover[i] == nodeToNum[order[i]]
        && nodeXY[i] == layout[order[i]]
        && weights[i] == IncidentDuration(rows, order[i])
      ensures ConsistentNumbering(rows) && DistinctPositions(layout) ==>
        forall r :: r in rows ==>
          && NumberAt(layout[r.callerNode]) == Some(r.call.caller)
          && NumberAt(layout[r.receiverNode]) == Some(r.call.receiver)
    {
      edges := AddEdges(rows, layout);
      EndpointsNamed(old(nodeToNum), rows);
      hover, nodeXY, weights := PlaceNodes(rows, layout, order);
      if ConsistentNumbering(rows) && DistinctPositions(layout) {
        PointLookupFindsNumber(old(coordsToNode), old(nodeToNum), rows, layout, order);
      }
    }

    /** `df.apply(add_coords, axis=1)`: every row in order. */
    method AddEdges(rows: seq<NodedCall>, layout: map<nat, Point>) returns (edges: seq<EdgeTrace>)
      requires forall n :: n in EndpointNodes(rows) ==> n in layout
      modifies this`nodeToNum, this`numToNode
      ensures nodeToNum == Upserts(old(nodeToNum), NamePairs(rows))
      ensures numToNode == Upserts(old(numToNode), NumberPairs(rows))
      ensures |edges| == |rows|
      ensures forall i :: 0 <= i < |rows| ==>
        edges[i] == EdgeTrace(layout[rows[i].callerNode], layout[rows[i].receiverNode])
    {
      edges := [];
      for i := 0 to |rows|
        invariant |edges| == i
        invariant forall j :: 0 <= j < i ==> edges[j] == EdgeTrace(layout[rows[j].callerNode], layout[rows[j].receiverNode])
        invariant Upserts(nodeToNum, NamePairs(rows[i..])) == Upserts(old(nodeToNum), NamePairs(rows))
        invariant Upserts(numToNode, NumberPairs(rows[i..])) == Upserts(old(numToNode), NumberPairs(rows))
      {
        var r := rows[i];
        assert r in rows;
        AddCoordsStep(rows, i);
        UpsertsTwo(nodeToNum, (r.callerNode, r.call.caller), (r.receiverNode, r.call.receiver), NamePairs(rows[i + 1..]));
        UpsertsTwo(numToNode, (r.call.caller, r.callerNode), (r.call.receiver, r.receiverNode), NumberPairs(rows[i + 1..]));
        ghost var names: map<nat, string>, numbers: map<string, nat> := nodeToNum, numToNode;
        var edge := AddCoords(r, layout);
        assert nodeToNum == names[r.callerNode := r.call.caller][r.receiverNode := r.call.receiver];
        assert numToNode == numbers[r.call.caller := r.callerNode][r.call.receiver := r.receiverNode];
        edges := edges + [edge];
      }
      assert rows[|rows|..] == [];
    }

    /** `add_coords` on one row: its edge, and its two end points named and numbered. */
    method AddCoords(r: NodedCall, layout: map<nat, Point>) returns (edge: EdgeTrace)
      requires r.callerNode in layout && r.receiverNode in layout
      modifies this`nodeToNum, this`numToNode
      ensures edge == EdgeTrace(layout[r.callerNode], layout[r.receiverNode])
      ensures nodeToNum == old(nodeToNum)[r.callerNode := r.call.caller][r.receiverNode := r.call.receiver]
      ensures numToNode == old(numToNode)[r.call.caller := r.callerNode][r.call.receiver := r.receiverNode]
    {
      nodeToNum := nodeToNum[r.callerNode := r.call.caller];
      nodeToNum := nodeToNum[r.receiverNode := r.call.receiver];
      numToNode := numToNode[r.call.caller := r.callerNode];
      numToNode := numToNode[r.call.receiver := r.receiverNode];
      edge := EdgeTrace(layout[r.callerNode], layout[r.receiverNode]);
    }

    /** The `for node in pos` loop: each node's position, hover text and incident duration. */
    method PlaceNodes(rows: seq<NodedCall>, layout: map<nat, Point>, order: seq<nat>)
      returns (hover: seq<string>, nodeXY: seq<Point>, weights: seq<nat>)
      requires forall n :: n in order <==> n in layout
      requires forall n :: n in layout ==> n in nodeToNum
      modifies this`coordsToNode
      ensures coordsToNode == Upserts(old(coordsToNode), PositionPairs(layout, order))
      ensures |hover| == |nodeXY| == |weights| == |order|
      ensures forall i :: 0 <= i < |order| ==>
        && order[i] in nodeToNum && hover[i] == nodeToNum[order[i]]
        && nodeXY[i] == layout[order[i]]
        && weights[i] == IncidentDuration(rows, order[i])
    {
      var positions := PositionPairs(layout, order);
      var names := nodeToNum;
      hover, nodeXY, weights := [], [], [];
      for i := 0 to |order|
        invariant Upserts(coordsToNode, positions[i..]) == Upserts(old(coordsToNode), positions)
        invariant Placed(rows, layout, names, order[..i], hover, nodeXY, weights)
      {
        UpsertsAt(coordsToNode, positions, i);
        ghost var before := coordsToNode;
        var text, xy, weight := PlaceNode(rows, layout, order[i]);
        assert positions[i] == (layout[order[i]], order[i]);
        assert coordsToNode == before[positions[i].0 := positions[i].1];
        PlacedStep(rows, layout, names, order, i, hover, nodeXY, weights);
        hover, nodeXY, weights := hover + [text], nodeXY + [xy], weights + [weight];
      }
      assert positions[|order|..] == [] && order[..|order|] == order;
    }

    /** One pass of the `for node in pos` loop. */
    method PlaceNode(rows: seq<NodedCall>, layout: map<nat, Point>, node: nat) returns (text: string, xy: Point, weight: nat)
      requires node in layout && node in nodeToNum
      modifies this`coordsToNode
      ensures coordsToNode == old(coordsToNode)[layout[node] := node]
      ensures text == nodeToNum[node] && xy == layout[node] && weight == IncidentDuration(rows, node)
    {
      xy := layout[node];
      coordsToNode := coordsToNode[xy := node];
      text := nodeToNum[node];
      weight := IncidentDuration(rows, node);
    }

    /** The number of the participant drawn at `p`, read as the hover and click callbacks do. */
    function NumberAt(p: Point): Option<string>
      reads this
    {
      NumberAtPoint(coordsToNode, nodeToNum, p)
    }

    /**
     * `update_filtered_div_caller`: an upload replaces the call frame and runs
     * `preprocess_data` (its exception is the callback's outcome); then the
     * filter runs on the current frame, its time bounds read from the marks
     * at the slider positions.
     */
    method UpdateFilteredDivCaller(upload: Option<seq<Call>>, date1: int, date2: int, d0: int, d1: int,
                                   t0: nat, t1: nat, q: RoleQuery) returns (outcome: FilterOutcome)
      requires Valid() && t0 <= LastMark && t1 <= LastMark
      modifies this`df, this`imeiNode, this`appName, this`coordsToNode, this`nodeToNum, this`numToNode
      ensures Valid()
      ensures upload.Some? ==> df == NumberCalls(upload.value)
      ensures upload.Some? ==> var column := IndexColumn(NodeList(upload.value), Imeis(sessions));
        imeiNode == if column.Ok? then column.value else old(imeiNode)
      ensures upload.Some? && PreprocessFailure(upload.value, sessions).Some? ==>
        && appName == old(appName)
        && coordsToNode == old(coordsToNode) && nodeToNum == old(nodeToNum) && numToNode == old(numToNode)
      ensures upload.Some? && PreprocessFailure(upload.value, sessions).None? ==>
        && appName == LookupColumn(PortsToApps, PortKeys(sessions)).value
        && coordsToNode == map[] && nodeToNum == map[] && numToNode == map[]
      ensures upload.None? ==>
        && df == old(df) && imeiNode == old(imeiNode) && appName == old(appName)
        && coordsToNode == old(coordsToNode) && nodeToNum == old(nodeToNum) && numToNode == old(numToNode)
      ensures upload.Some? && PreprocessFailure(upload.value, sessions).Some? ==>
        outcome == Failed(PreprocessFailure(upload.value, sessions).value)
      ensures (upload.None? || PreprocessFailure(upload.value, sessions).None?) ==>
        outcome == FilteredDiv(df, Window(date1, date2, d0, d1, Label(t0), Label(t1)), q)
    {
      if upload.Some? {
        var failure := PreprocessData(upload.value);
        if failure.Some? {
          return Failed(failure.value);
        }
      }
      outcome := FilteredDiv(df, Window(date1, date2, d0, d1, times[t0].text, times[t1].text), q);
    }
  }

}
