# CDR/IPDR analyser: a verified model of its analytical core

The repository is a pair of Dash dashboards for call-detail records (CDR):
who called whom, when and for how long. The larger one, `dash_script.py`,
also reads IP-detail records (IPDR). Under the UI wiring both scripts share a
small, sequential core, and this project models it in Dafny:

- the half-hour label table of the time-of-day slider ("00:00" to "24:00", keys 0 to 48),
  built by a loop that edits a character list, and the duration slider's marks;
- participant numbering: the node list is the sorted, duplicate-free union of
  callers and receivers (`np.union1d`); each row's `Caller_node` and
  `Receiver_node` is its participant's position in that list; each IPDR
  session's `IMEI_node` is found the same way, and its `App_name` comes from a
  fixed port table;
- the row filter of the callbacks:
  - a date, duration and time-of-day range step;
  - in `dash_script.py`, a caller/receiver role step (options 1 to 4);
  - "no update" with a message when nothing is left;
- the lookup dictionaries `coords_to_node`, `node_to_num` and `num_to_node`:
  module-level state that `preprocess_data` clears and `plot_network` fills;
- the per-row edge list and per-node marker data of `plot_network`, and the
  text listing of connected components in `display_selected_data`.

Modules:

- `Wrappers`: `Option` and `Result`.
- `Text`: Python's `str(int)`, `int(str)`, `zfill` and string `<` on
  non-negative integers and strings.
- `TimeMarks`: the label of key k, and the facts about label order.
- `Records`: calls, numbered calls, sessions, points and edges.
- `Frames`: boolean-mask selection `frame[mask]`, which keeps an
  order-preserving subsequence.
- `NodeIndex`: `np.union1d` and `list.index`.
- `IpdrPorts`: the port table.
- `Dicts`: a dictionary after a sequence of assignments.
- `CdrIpdrAnalyser`: `dash_script.py`. Its module-level state is the class
  `Dashboard`, whose methods update the fields in place.
- `CdrAnalyser`: `dash-script.py`.

The model follows the code, with one exception: role option 4 is modelled as
evidently intended (see "## Findings"). Some behaviours of the code are easy
to miss:

- Role option 3 ("either") with one dropdown left at 'None' tests
  `isin(list('None'))`, so that side matches the one-letter strings
  "N", "o", "n" and "e" rather than nothing (`IsinValues`,
  `EitherWithUnsetCaller`).
- Role options 1 to 4 with an empty selection (an empty list, not 'None') filter
  against the empty set and keep no row; they are not no-ops.
- The label table has 49 entries, keys 0 to 48.
- Loading performs no row validation: rows are taken as they come.

## Model

| member | source | states |
|---|---|---|
| TimeMarks.NextTimeStr | dash-implementation/dash_script.py:44-49 | one loop pass turns label i into label i+1: the '3' overwrite after an even key, the parse-increment-zfill after an odd key |
| TimeMarks.HalfHourStep | dash-implementation/dash_script.py:44-45 | writing '3' at index 3 of an even key's label gives the next key's label |
| TimeMarks.NextHourStep | dash-implementation/dash_script.py:47-49 | the first two characters of an odd key's label parse as its hour, and that hour plus one zfilled with ":00" is the next label |
| TimeMarks.FirstAndLastLabel | dash-implementation/dash_script.py:40-51 | key 0 is "00:00" and key 48 is "24:00" |
| TimeMarks.LabelParts | dash-implementation/dash-script.py:99-106 | every label has five characters, ends in ":00" for even keys and ":30" for odd keys, and its first two characters read back as the hour |
| TimeMarks.TwoDigitsParse | dash-implementation/dash_script.py:49 | `int` of the two hour characters gives back the hour |
| TimeMarks.TwoDigitHour | dash-implementation/dash_script.py:49 | `str(h).zfill(2)` for an hour below 100 is its two decimal digits |
| TimeMarks.LabelIsPaddedHour | dash-implementation/dash_script.py:40-51 | every label is the zero-padded decimal text of its hour followed by ":00" or ":30" |
| TimeMarks.LabelsIncrease | dash-implementation/dash_script.py:403-405 | a larger key has a label that is strictly greater in Python's string order |
| TimeMarks.LabelOrder | dash-implementation/dash_script.py:403-405 | string `<` between two labels holds exactly when `<` holds between their keys (both directions) |
| TimeMarks.LabelInjective | dash-implementation/dash_script.py:40-51 | different keys have different labels |
| TimeMarks.TimeWindowOnMarks | dash-implementation/dash_script.py:405 | for a time equal to label k, `times[t0] <= Time < times[t1]` holds exactly when t0 <= k < t1 |
| CdrIpdrAnalyser.BuildTimeMarks | dash-implementation/dash_script.py:40-51 | the `times` loop yields exactly the keys 0..48, each with its label, and style rotated for whole hours and hidden for half hours |
| CdrIpdrAnalyser.MarksExtend | dash-implementation/dash_script.py:46-51 | adding the next key's mark to a table complete up to n makes it complete up to n+1 |
| CdrIpdrAnalyser.BuildDurationMarks | dash-implementation/dash_script.py:53-55 | the `durations` loop: keys exactly the multiples of 5 below the largest duration, each labelled `str(k)` |
| CdrIpdrAnalyser.MaxDurationIsMax | dash-implementation/dash_script.py:54 | `df['Duration'].max()` bounds every duration and is some row's duration |
| NodeIndex.NodeList | dash-implementation/dash_script.py:85 | the node list holds exactly the callers and receivers |
| NodeIndex.NodeListSorted | dash-implementation/dash_script.py:85 | the node list is strictly increasing in string order |
| NodeIndex.Insert | dash-implementation/dash_script.py:85 | adding a name to a sorted union gives the old names plus that one |
| NodeIndex.InsertSorted | dash-implementation/dash_script.py:85 | adding a name keeps the union strictly sorted |
| NodeIndex.NodeCount | dash-implementation/dash_script.py:85 | the node list is duplicate-free and its length is the number of distinct participants |
| NodeIndex.SortedIsDistinct | dash-implementation/dash_script.py:85 | a strictly sorted list has no duplicates |
| NodeIndex.DistinctCard | dash-implementation/dash_script.py:85 | a duplicate-free list has as many elements as its set |
| NodeIndex.IndexOf | dash-implementation/dash_script.py:91-94 | `list.index`: present iff the value occurs; then the first position holding it |
| NodeIndex.IndexColumn | dash-implementation/dash_script.py:91-96 | a whole column through `list.index`: succeeds iff every value is listed, and then each entry points at its value; otherwise the error names an unlisted value (ValueError) |
| NodeIndex.NumberCalls | dash-implementation/dash_script.py:91-94 | every row keeps its call, and `nodes[Caller_node] == Caller` and `nodes[Receiver_node] == Receiver` |
| NodeIndex.NumberAgainst | dash-implementation/dash_script.py:91-94 | the same two columns computed against any node list that holds every end point |
| NodeIndex.EndpointsListed | dash-implementation/dash_script.py:85-94 | every caller and receiver is in the node list, so the two `index` calls cannot fail |
| NodeIndex.NumberCallsConsistent | dash-implementation/dash_script.py:85-94 | within a frame, two end points have the same node number iff they are the same participant |
| NodeIndex.DistinctNumbering | dash-implementation/dash_script.py:91-94 | indices into a duplicate-free list identify participants one to one |
| NodeIndex.SamePositionSameName | dash-implementation/dash_script.py:91-94 | in a duplicate-free list, equal names means equal positions |
| IpdrPorts.SkypePort | dash-implementation/dash_script.py:69-78 | port 443 is looked up as "443" and gives Skype |
| IpdrPorts.WhatsAppPort | dash-implementation/dash_script.py:69-78 | port 5223 gives WhatsApp |
| IpdrPorts.GamesPort | dash-implementation/dash_script.py:73 | port 40017 is the one "Microsoft Various Games" entry |
| IpdrPorts.LowRangeNotExpanded | dash-implementation/dash_script.py:70 | port 3478 lies inside the key "3478-3481" but is not found (KeyError) |
| IpdrPorts.HighRangeNotExpanded | dash-implementation/dash_script.py:70 | port 50000 lies inside "49152-65535" but is not found |
| IpdrPorts.RangeKeysUnreachable | dash-implementation/dash_script.py:70 | no port's decimal text is either range key "3478-3481" or "49152-65535" |
| IpdrPorts.LowRangeUnknown | dash-implementation/dash_script.py:70 | every port from 3478 to 3481 is unknown to the table (KeyError) |
| IpdrPorts.SkypeOnlyOnPort443 | dash-implementation/dash_script.py:70 | a port is reported as Skype iff it is 443: the range keys never match |
| IpdrPorts.HeaderEntryUnreachable | dash-implementation/dash_script.py:69 | no port's decimal text equals the header key "DEST PORT" |
| CdrIpdrAnalyser.LookupColumn | dash-implementation/dash_script.py:97 | a column through the port table: succeeds iff every key is present, giving each key's application; otherwise names a missing key |
| CdrIpdrAnalyser.SessionFailure | dash-implementation/dash_script.py:96-97 | no failure iff every IMEI is a participant and every port's text is a key; the IMEI failure names an IMEI that is not a participant; the port failure comes only when every IMEI is a participant, and it names a port text that is not in the table |
| CdrIpdrAnalyser.SessionFailureCases | dash-implementation/dash_script.py:96-97 | the IMEI column is tried first and the port column second; the first column that raises is the one reported |
| CdrIpdrAnalyser.PreprocessFailure | dash-implementation/dash_script.py:83-101 | `preprocess_data` raises iff some IMEI is not a call participant or some port is not a literal key |
| CdrIpdrAnalyser.Dashboard.constructor | dash-implementation/dash_script.py:31-61 | start-up: the session frame as loaded, the 49 time marks, the duration marks every 5 below the start-up frame's largest duration, and empty dictionaries |
| CdrIpdrAnalyser.Dashboard.PreprocessData | dash-implementation/dash_script.py:83-101 | new state: the node columns are always added; IMEI_node is set and kept only when it succeeds; App_name is set and the three dictionaries are cleared only when no column raised; otherwise they keep their old values |
| CdrIpdrAnalyser.Dashboard.AddSessionColumns | dash-implementation/dash_script.py:96-101 | the session columns and the clearing, in source order, stopping at the first exception |
| CdrIpdrAnalyser.RangeStep | dash-implementation/dash_script.py:403-405 | a row survives iff date1 <= Date <= date2, d0 <= Duration <= d1 and label(t0) <= Time < label(t1); survivors keep their multiplicity and their input order |
| CdrIpdrAnalyser.RoleStep | dash-implementation/dash_script.py:407-428 | option 1 keeps callers in C, option 2 keeps receivers in R, option 3 keeps caller in C or receiver in R (the 'None' side matched against the letters of 'None'), option 4 keeps caller in C and receiver in R; when the option's guard fails the rows are unchanged; no row is ever added and the input order is kept |
| CdrIpdrAnalyser.EitherWithUnsetCaller | dash-implementation/dash_script.py:420-423 | option 3 with the caller dropdown at 'None' keeps exactly the rows whose receiver is chosen, unless a caller is one of the letters of 'None' |
| CdrIpdrAnalyser.FilteredDiv | dash-implementation/dash_script.py:403-434 | no update with 'Nothing Matches that Query' iff no row passes both steps; otherwise 'Updated' with a non-empty, order-preserving subsequence of the frame holding exactly the rows that pass, each as often as in the frame |
| CdrIpdrAnalyser.FilteredRowsConsistent | dash-implementation/dash_script.py:83-434 | the rows the callback passes to `plot_network` come from a frame numbered by `preprocess_data`, so equal node numbers mean equal participants |
| CdrIpdrAnalyser.ConsistentWithin | dash-implementation/dash_script.py:403-428 | rows selected from a consistently numbered frame are consistently numbered |
| CdrIpdrAnalyser.RangeStepStable | dash-implementation/dash_script.py:403-405 | rows already inside the window pass the range step unchanged |
| CdrIpdrAnalyser.RoleStepStable | dash-implementation/dash_script.py:407-423 | rows that already pass the role test pass the role step unchanged |
| CdrIpdrAnalyser.FilterIdempotent | dash-implementation/dash_script.py:403-428 | filtering the filtered rows again with the same inputs changes nothing |
| CdrIpdrAnalyser.KeepsAll | dash-implementation/dash_script.py:403-428 | a mask selection that keeps every row as often as it occurs returns its input |
| CdrIpdrAnalyser.Dashboard.UpdateFilteredDivCaller | dash-implementation/dash_script.py:394-434 | an upload replaces the frame and runs `preprocess_data`: IMEI_node set when its column succeeds, App_name set and the three dictionaries cleared only without an exception, which otherwise becomes the outcome and leaves them as they were; otherwise the outcome is the filter on the current frame with labels read from the marks; without an upload no state changes |
| CdrIpdrAnalyser.MaskSelect | dash-implementation/dash_script.py:427 | selecting with a mask positioned on the frame keeps an order-preserving subsequence |
| CdrIpdrAnalyser.MaskSelectIsWhere | dash-implementation/dash_script.py:427 | a mask built from a row test selects exactly what filtering by that test does |
| CdrIpdrAnalyser.BothStepAsWritten | dash-implementation/dash_script.py:427-428 | the code as written: `df[mask over filtered_df]` is refused as unalignable iff the range step dropped rows; otherwise the mask is applied to `df` |
| CdrIpdrAnalyser.BothStepAsWrittenFails | dash-implementation/dash_script.py:403-428 | option 4 as written fails iff some row of the frame lies outside the window |
| CdrIpdrAnalyser.BothStepAsWrittenAgrees | dash-implementation/dash_script.py:403-428 | when every row lies inside the window, option 4 as written gives the intended result |
| CdrIpdrAnalyser.SampleWantedInWindow | dash-implementation/dash_script.py:403-405 | the sample call of day 2 lies in the sample window |
| CdrIpdrAnalyser.OptionFourAsWrittenRaises | dash-implementation/dash_script.py:427 | on a two-row frame whose first row is outside the window, option 4 as written fails |
| CdrIpdrAnalyser.OptionFourIntendedKeeps | dash-implementation/dash_script.py:403-434 | on the same frame, the intended filter returns the one wanted row with 'Updated' |
| CdrIpdrAnalyser.NamePairsOfRows | dash-implementation/dash_script.py:127-128 | the `node_to_num` assignments are exactly each row's caller and receiver with their nodes |
| CdrIpdrAnalyser.NumberPairsOfRows | dash-implementation/dash_script.py:129-130 | the `num_to_node` assignments are exactly each row's caller and receiver with their nodes |
| CdrIpdrAnalyser.AddCoordsStep | dash-implementation/dash_script.py:123-141 | the assignments for rows i onwards are those of row i, caller first, followed by those of the rest |
| CdrIpdrAnalyser.NamesReadBack | dash-implementation/dash_script.py:127-128 | after `add_coords` on a consistently numbered frame, `node_to_num` maps every end point's node to its phone number, whatever it held before |
| CdrIpdrAnalyser.NumbersReadBack | dash-implementation/dash_script.py:129-130 | after `add_coords`, `num_to_node` maps every phone number back to its node |
| CdrIpdrAnalyser.PositionsReadBack | dash-implementation/dash_script.py:148-150 | when the layout gives distinct positions, `coords_to_node` maps each node's position back to that node |
| CdrIpdrAnalyser.EndpointsNamed | dash-implementation/dash_script.py:123-151 | every node of the graph has a `node_to_num` entry once the rows are added, so the hover text lookup cannot fail |
| CdrIpdrAnalyser.PointLookupFindsNumber | dash-implementation/dash_script.py:448-500 | hovering or selecting the drawn position of a row's caller or receiver yields that participant's phone number, whatever the dictionaries held before the plot |
| CdrIpdrAnalyser.IncidentDurationBounds | dash-implementation/dash_script.py:154 | a node's incident duration is at least each incident call's duration, zero for a node no call touches, and at most the total duration |
| CdrIpdrAnalyser.IncidentDurationIsMaskedSum | dash-implementation/dash_script.py:154 | a node's incident duration equals the `Duration` sum over the rows whose caller node or receiver node is that node, the table the source's incidence mask selects |
| CdrIpdrAnalyser.Dashboard.PlotNetwork | dash-implementation/dash_script.py:110-154 | the dictionaries only gain or overwrite entries: `node_to_num`/`num_to_node` by the rows' assignments, `coords_to_node` by the layout's; one edge per row joining its end points' positions; per layout node, its hover number, position and incident duration; on consistently numbered rows with distinct positions, the point lookup of the hover callback at each end point's position gives that participant's number |
| CdrIpdrAnalyser.Dashboard.AddEdges | dash-implementation/dash_script.py:123-141 | `df.apply(add_coords)`: both dictionaries after every row's assignments in order, and one edge per row |
| CdrIpdrAnalyser.Dashboard.AddCoords | dash-implementation/dash_script.py:123-132 | one row: its edge, and the four dictionary writes in source order |
| CdrIpdrAnalyser.Dashboard.PlaceNodes | dash-implementation/dash_script.py:148-154 | the `for node in pos` loop: `coords_to_node` after every node's assignment, and the hover texts, positions and incident durations in layout order |
| CdrIpdrAnalyser.PlacedStep | dash-implementation/dash_script.py:148-154 | one pass of the node loop extends the hover texts, positions and incident durations by the next node's entries |
| CdrIpdrAnalyser.Dashboard.PlaceNode | dash-implementation/dash_script.py:149-154 | one node: its position written to `coords_to_node`, and its hover text, position and incident duration |
| CdrIpdrAnalyser.FormatComponents | dash-implementation/dash_script.py:502-511 | the component listing: each non-empty component headed "Component i:" with i counting from 1, each number on its own tab-indented line |
| CdrIpdrAnalyser.AppendMembers | dash-implementation/dash_script.py:509-510 | the inner loop appends one tab-indented line per number |
| CdrIpdrAnalyser.EmptyComponentsSkipped | dash-implementation/dash_script.py:505-506 | empty components leave no text and use up no number |
| CdrIpdrAnalyser.ComponentsTextStep | dash-implementation/dash_script.py:504-510 | the listing from component k onwards is the text of k (nothing when it is empty) followed by the rest, numbered on |
| CdrAnalyser.BuildTimeLabels | dash-implementation/dash-script.py:99-106 | the `times` loop yields exactly the keys 0..48, each holding its plain label |
| CdrAnalyser.LabelsExtend | dash-implementation/dash-script.py:106 | storing the next key's label in a table complete up to n makes it complete up to n+1 |
| CdrAnalyser.DateStep | dash-implementation/dash-script.py:191 | keeps exactly the rows whose Date equals the picked date, each as often as in the frame, in order |
| CdrAnalyser.DurationStep | dash-implementation/dash-script.py:194 | keeps exactly the rows with d0 <= Duration <= d1, each as often as in the frame, in order |
| CdrAnalyser.TimeStep | dash-implementation/dash-script.py:197 | keeps exactly the rows with `times[t0] <= Time < times[t1]`, each as often as in the frame, in order |
| CdrAnalyser.OutputRowsIsConjunction | dash-implementation/dash-script.py:191-197 | the three steps in sequence are one filter by the conjunction of their tests: the same rows, multiplicities and order |
| CdrAnalyser.OutputRowsIdempotent | dash-implementation/dash-script.py:191-197 | applying the three steps to their own result changes nothing |
| CdrAnalyser.TimeStepOnMarks | dash-implementation/dash-script.py:197 | a call logged exactly at label k survives the time step iff t0 <= k < t1 |
| CdrAnalyser.PlotNetwork | dash-implementation/dash-script.py:37-60 | the frame gains the two node columns and keeps every call; the node columns point at each row's participants in the sorted node list; one edge per row joins the positions of its caller and receiver; the marker coordinates are the positions in node order |
| CdrAnalyser.AddEdges | dash-implementation/dash-script.py:45-54 | `df.apply(add_coords)`: one edge per row, in row order, joining its two nodes' positions |
| CdrAnalyser.NodeMarkers | dash-implementation/dash-script.py:56-61 | the node loop: x and y of every node's position, in node order |
| CdrAnalyser.SameCallerSameStart | dash-implementation/dash-script.py:38-54 | two rows with the same caller start their edges at the same point |
| Text.NatToString | dash-implementation/dash_script.py:49 | `str(n)` for n >= 0: non-empty decimal digits, with no leading zero except for 0 itself |
| Text.ParseNatToString | dash-implementation/dash_script.py:49 | `int(str(n)) == n` |
| Text.ZFill | dash-implementation/dash_script.py:49 | `zfill(width)`: pads with '0' on the left to at least the width, and keeps the original as a suffix |
| Text.ParseZFilled | dash-implementation/dash_script.py:49 | a zero-padded decimal still parses as the same number |
| Text.NatToStringInjective | dash-implementation/dash_script.py:97 | different ports have different decimal texts |
| Text.LexLessTotal | dash-implementation/dash_script.py:405 | Python's string `<` is total on distinct strings |
| Text.LexLessTransitive | dash-implementation/dash_script.py:405 | Python's string `<` is transitive |
| Text.LexLessAsymmetric | dash-implementation/dash_script.py:405 | Python's string `<` is asymmetric |
| Frames.Where | dash-implementation/dash_script.py:403-405 | `frame[mask]`: exactly the rows passing the test, each as often as in the frame, as an order-preserving subsequence |
| Frames.WhereFuse | dash-implementation/dash-script.py:191-197 | two masks in sequence are one mask by their conjunction |
| Frames.WhereIdempotent | dash-implementation/dash-script.py:191-197 | masking twice with one test is masking once |
| Dicts.Upserts | dash-implementation/dash_script.py:127-130 | a dictionary after a sequence of item assignments has the old keys plus the assigned ones |
| Dicts.UpsertsFunctional | dash-implementation/dash_script.py:127-130 | when no key is assigned two different values, each assigned key ends up holding its assigned value |
| Dicts.UpsertsUntouched | dash-implementation/dash_script.py:127-130 | a key no assignment writes keeps its old value |

## Left out

- The Dash layout, callback wiring, dropdown option builders, plotly figures, `app.run_server` and the start-up network plot of `dash-script.py` (its line 127) are UI plumbing and are not modelled.
- CSV reading, base64 upload decoding and the `to_json`/`read_json` round trips are I/O: an upload enters `UpdateFilteredDivCaller` as an optional already-parsed frame.
- Graph layouts (`graphviz_layout`, `random_geometric_graph`) are foreign, and the second is random: they are parameters (`layout` with its key order, `pos`). Position uniqueness is a hypothesis (`DistinctPositions`), not a result.
- `addEdge` is not shown, so an edge is modelled by its two end points only.
- Edge colour (`Duration / max` through viridis) and marker size (`27 * pow(sum / max, 0.3)`) are floating point. The model keeps the integer sum of incident durations that the size grows with.
- `pd.to_datetime` is not modelled: dates are day ordinals already parsed. The `Dura_color` and `Date` column rewrites of `preprocess_data` are therefore not modelled.
- The `stats` functions (`meanDur`, `peakHours`, `ogIc`, `mostCalls`) and `bfs` are not shown and are not modelled. The components `bfs` returns are the input of `FormatComponents`. The hover text after the phone number is not modelled.
- `display_click_data`'s pie chart and row table are not modelled.
- CdrIpdrAnalyser.Dashboard.constructor: requires a non-empty start-up frame. On an empty one `.max()` is NaN and `range` raises TypeError (dash_script.py:53-55), which is not modelled. The `preprocess_data` call at import time is the `PreprocessData` call that follows; its exception is that method's `Some` result rather than an aborted start.
- CdrIpdrAnalyser.Dashboard.UpdateFilteredDivCaller: requires both time-slider keys to be in 0..48, the slider's range. Other keys would raise KeyError in the source.
- CdrAnalyser.TimeStep: requires both slider keys to be in 0..48, for the same reason.
- CdrAnalyser.PlotNetwork: returns the numbered frame instead of writing the two columns into the caller's frame. The caller drops that frame, so nothing observable is lost. The graph's nodes are the positions of `pos`, one per participant.
- CdrAnalyser.DateStep: compares day ordinals. How pandas compares the `datetime.date` column with a `Timestamp` is not modelled.
- CdrIpdrAnalyser.NumberAtPoint: a KeyError in the hover callback or the selection loop is `None`. The click callback's own `coords_to_node` lookup is not modelled, since all it feeds is the pie chart and the row table.
- CdrIpdrAnalyser.FilteredDiv: role option 4 is the corrected filter (`RoleStep` over the range step's rows), not line 427 as written, which raises IndexingError whenever the range step dropped a row; `BothStepAsWritten` models the code as written.
- CdrIpdrAnalyser.Dashboard.UpdateFilteredDivCaller: its outcome is `FilteredDiv`, so it also uses the corrected option 4.
- CdrIpdrAnalyser.BothStepAsWritten: pandas's handling of a boolean Series indexed differently from the frame it masks is modelled as the "Unalignable boolean Series" refusal whenever the lengths differ. Finer alignment behaviour is not modelled.
- Python `int`/`str` are modelled on non-negative integers only (ports, hours and durations).
- The `print` calls, the module-level `fig` and `pos` placeholders, and `data_columns` are not modelled.

## Findings

| source | as written | input that shows it | evidently intended | confidence | as-written member | corrected member |
|---|---|---|---|---|---|---|
| dash-implementation/dash_script.py:427 | option 4 masks `df` with a mask computed over `filtered_df` | a frame of two calls, the first (day 1) outside the date window and the second (day 2, caller "300", receiver "400") inside it, with callers {"300"} and receivers {"400"}: the mask has one entry but `df` has two rows, so pandas refuses the unalignable boolean key | mask `filtered_df`, keeping the range step's survivors whose caller and receiver are both chosen | not executed | CdrIpdrAnalyser.BothStepAsWritten, CdrIpdrAnalyser.OptionFourAsWrittenRaises | CdrIpdrAnalyser.RoleStep, CdrIpdrAnalyser.OptionFourIntendedKeeps |
