/**
 * Participant numbering. The node list is `np.union1d` of the callers and the
 * receivers: every participant once, in sorted order. A participant's node
 * number is its position in that list, found with `list.index`.
 */
module NodeIndex {
  import opened Wrappers
  import opened Text
  import opened Records

  predicate StrictlySorted(s: seq<string>) {
    forall i, j :: 0 <= i < j < |s| ==> LexLess(s[i], s[j])
  }

  predicate Distinct<T(==)>(s: seq<T>) {
    forall i, j :: 0 <= i < j < |s| ==> s[i] != s[j]
  }

  lemma SortedIsDistinct(s: seq<string>)
    requires StrictlySorted(s)
    ensures Distinct(s)
  {
    forall i, j | 0 <= i < j < |s| ensures s[i] != s[j] {
      LexLessIrreflexive(s[i]);
    }
  }

  /** A duplicate-free sequence has as many elements as the set of its elements. */
  lemma {:induction false} DistinctCard<T>(s: seq<T>)
    requires Distinct(s)
    ensures |set x | x in s| == |s|
    decreases |s|
  {
    if s != [] {
      var rest := s[1..];
      assert Distinct(rest) by {
        forall i, j | 0 <= i < j < |rest| ensures rest[i] != rest[j] {
          assert rest[i] == s[i + 1] && rest[j] == s[j + 1];
        }
      }
      DistinctCard(rest);
      assert s[0] !in rest by {
        forall j | 0 <= j < |rest| ensures rest[j] != s[0] { assert rest[j] == s[j + 1]; }
      }
      assert (set x | x in s) == {s[0]} + (set x | x in rest);
    }
  }

  /** Putting a string below every element in front of a sorted list keeps it sorted. */
  lemma SortedCons(x: string, s: seq<string>)
    requires StrictlySorted(s)
    requires forall y :: y in s ==> LexLess(x, y)
    ensures StrictlySorted([x] + s)
  {
    var t := [x] + s;
    forall i, j | 0 <= i < j < |t| ensures LexLess(t[i], t[j]) {
      if i == 0 {
        assert t[j] == s[j - 1] && s[j - 1] in s;
      } else {
        assert t[i] == s[i - 1] && t[j] == s[j - 1];
      }
    }
  }

  /** Inserts x into a sorted list before the first element above it, unless it is already there. */
  function Insert(sorted: seq<string>, x: string): (r: seq<string>)
    ensures forall y :: y in r <==> y in sorted || y == x
    decreases |sorted|
  {
    if sorted == [] then [x]
    else if x == sorted[0] then sorted
    else if LexLess(x, sorted[0]) then [x] + sorted
    else [sorted[0]] + Insert(sorted[1..], x)
  }

  /** Insertion keeps a sorted duplicate-free list sorted and duplicate-free. */
  lemma {:induction false} InsertSorted(sorted: seq<string>, x: string)
    requires StrictlySorted(sorted)
    ensures StrictlySorted(Insert(sorted, x))
    decreases |sorted|
  {
    if sorted == [] || x == sorted[0] {
    } else if LexLess(x, sorted[0]) {
      assert forall y :: y in sorted ==> LexLess(x, y) by {
        forall y | y in sorted ensures LexLess(x, y) {
          var j :| 0 <= j < |sorted| && sorted[j] == y;
          if j > 0 { LexLessTransitive(x, sorted[0], y); }
        }
      }
      SortedCons(x, sorted);
    } else {
      LexLessTotal(x, sorted[0]);
      assert StrictlySorted(sorted[1..]) by {
        forall i, j | 0 <= i < j < |sorted[1..]| ensures LexLess(sorted[1..][i], sorted[1..][j]) {
          assert sorted[1..][i] == sorted[i + 1] && sorted[1..][j] == sorted[j + 1];
        }
      }
      InsertSorted(sorted[1..], x);
      var rest := Insert(sorted[1..], x);
      assert forall y :: y in rest ==> LexLess(sorted[0], y) by {
        forall y | y in rest ensures LexLess(sorted[0], y) {
          if y != x {
            var j :| 0 <= j < |sorted[1..]| && sorted[1..][j] == y;
            assert sorted[j + 1] == y;
          }
        }
      }
      SortedCons(sorted[0], rest);
    }
  }

  /** Everyone who calls or is called in `rows`. */
  function Participants(rows: seq<Call>): set<string> {
    (set c | c in rows :: c.caller) + (set c | c in rows :: c.receiver)
  }

  lemma ParticipantsOfLast(rows: seq<Call>)
    requires rows != []
    ensures var last := rows[|rows| - 1];
      Participants(rows) == Participants(rows[..|rows| - 1]) + {last.caller, last.receiver}
  {
    var prefix, last := rows[..|rows| - 1], rows[|rows| - 1];
    assert rows == prefix + [last];
    forall y ensures y in Participants(rows) <==> y in Participants(prefix) + {last.caller, last.receiver} {
      if y in Participants(rows) {
        var c :| c in rows && (c.caller == y || c.receiver == y);
        if c != last { assert c in prefix; }
      }
    }
  }

  /** `np.union1d(callers, receivers)`: the participants, sorted, each once. */
  function NodeList(rows: seq<Call>): (nodes: seq<string>)
    ensures forall y :: y in nodes <==> y in Participants(rows)
    decreases |rows|
  {
    if rows == [] then []
    else
      var last := rows[|rows| - 1];
      ParticipantsOfLast(rows);
      Insert(Insert(NodeList(rows[..|rows| - 1]), last.caller), last.receiver)
  }

  /** The node list is sorted in string order, each participant once. */
  lemma {:induction false} NodeListSorted(rows: seq<Call>)
    ensures StrictlySorted(NodeList(rows))
    decreases |rows|
  {
    if rows != [] {
      var last := rows[|rows| - 1];
      var prefix := NodeList(rows[..|rows| - 1]);
      NodeListSorted(rows[..|rows| - 1]);
      InsertSorted(prefix, last.caller);
      InsertSorted(Insert(prefix, last.caller), last.receiver);
    }
  }

  /** The node list has one entry per participant: its length is the number of participants. */
  lemma NodeCount(rows: seq<Call>)
    ensures Distinct(NodeList(rows))
    ensures |NodeList(rows)| == |Participants(rows)|
  {
    var nodes := NodeList(rows);
    NodeListSorted(rows);
    SortedIsDistinct(nodes);
    DistinctCard(nodes);
    assert (set x | x in nodes) == Participants(rows);
  }

  /** `s.index(x)`: the first position of x, or None where `list.index` raises ValueError. */
  function IndexOf<T(==)>(s: seq<T>, x: T): (r: Option<nat>)
    ensures r.Some? <==> x in s
    ensures r.Some? ==> r.value < |s| && s[r.value] == x
    ensures r.Some? ==> forall j :: 0 <= j < r.value ==> s[j] != x
    decreases |s|
  {
    if s == [] then None
    else if s[0] == x then Some(0)
    else match IndexOf(s[1..], x)
      case None => None
      case Some(k) => Some(k + 1)
  }

  /**
   * `column.apply(lambda x: list(nodes).index(x))`: every name's position in
   * `nodes`, or the first name that is missing, at which the apply raises.
   */
  function IndexColumn(nodes: seq<string>, names: seq<string>): (r: Result<seq<nat>, string>)
    ensures r.Ok? <==> forall i :: 0 <= i < |names| ==> names[i] in nodes
    ensures r.Ok? ==> |r.value| == |names|
    ensures r.Ok? ==> forall i :: 0 <= i < |names| ==> r.value[i] < |nodes| && nodes[r.value[i]] == names[i]
    ensures r.Err? ==> exists i :: (0 <= i < |names| && names[i] == r.error && names[i] !in nodes
                                    && forall j :: 0 <= j < i ==> names[j] in nodes)
    decreases |names|
  {
    if names == [] then Ok([])
    else match IndexOf(nodes, names[0])
      case None => Err(names[0])
      case Some(k) =>
        match IndexColumn(nodes, names[1..])
        case Err(e) =>
          ghost var i :| 0 <= i < |names[1..]| && names[1..][i] == e && names[1..][i] !in nodes
            && forall j :: 0 <= j < i ==> names[1..][j] in nodes;
          assert names[i + 1] == e;
          Err(e)
        case Ok(rest) => Ok([k] + rest)
  }

  function Callers(rows: seq<Call>): (names: seq<string>)
    ensures |names| == |rows| && forall i :: 0 <= i < |rows| ==> names[i] == rows[i].caller
  {
    seq(|rows|, i requires 0 <= i < |rows| => rows[i].caller)
  }

  function Receivers(rows: seq<Call>): (names: seq<string>)
    ensures |names| == |rows| && forall i :: 0 <= i < |rows| ==> names[i] == rows[i].receiver
  {
    seq(|rows|, i requires 0 <= i < |rows| => rows[i].receiver)
  }

  /** Every caller and every receiver of the frame is in its node list. */
  lemma EndpointsListed(rows: seq<Call>)
    ensures forall i :: 0 <= i < |rows| ==> rows[i].caller in NodeList(rows) && rows[i].receiver in NodeList(rows)
  {
    forall i | 0 <= i < |rows| ensures rows[i].caller in NodeList(rows) && rows[i].receiver in NodeList(rows) {
      assert rows[i] in rows;
    }
  }

  /**
   * The frame with the Caller_node and Receiver_node columns added: every row
   * keeps its call, and each node number points at the participant in the node list.
   */
  function NumberCalls(rows: seq<Call>): (numbered: seq<NodedCall>)
    ensures |numbered| == |rows|
    ensures forall i :: 0 <= i < |rows| ==> numbered[i].call == rows[i]
    ensures forall i :: 0 <= i < |rows| ==>
      numbered[i].callerNode < |NodeList(rows)| && NodeList(rows)[numbered[i].callerNode] == rows[i].caller
    ensures forall i :: 0 <= i < |rows| ==>
      numbered[i].receiverNode < |NodeList(rows)| && NodeList(rows)[numbered[i].receiverNode] == rows[i].receiver
  {
    EndpointsListed(rows);
    NumberAgainst(NodeList(rows), rows)
  }

  /** Both node columns computed against a given node list holding every end point. */
  function NumberAgainst(nodes: seq<string>, rows: seq<Call>): (numbered: seq<NodedCall>)
    requires forall i :: 0 <= i < |rows| ==> rows[i].caller in nodes && rows[i].receiver in nodes
    ensures |numbered| == |rows|
    ensures forall i :: 0 <= i < |rows| ==> numbered[i].call == rows[i]
    ensures forall i :: 0 <= i < |rows| ==>
      numbered[i].callerNode < |nodes| && nodes[numbered[i].callerNode] == rows[i].caller
    ensures forall i :: 0 <= i < |rows| ==>
      numbered[i].receiverNode < |nodes| && nodes[numbered[i].receiverNode] == rows[i].receiver
  {
    var callers := IndexColumn(nodes, Callers(rows)).value;
    var receivers := IndexColumn(nodes, Receivers(rows)).value;
    seq(|rows|, i requires 0 <= i < |rows| => NodedCall(rows[i], callers[i], receivers[i]))
  }

  /**
   * Node numbers and participants correspond one to one within a frame: two
   * end points have the same number exactly when they are the same participant.
   */
  predicate ConsistentNumbering(rows: seq<NodedCall>) {
    forall a, b :: a in rows && b in rows ==>
      && (a.callerNode == b.callerNode <==> a.call.caller == b.call.caller)
      && (a.callerNode == b.receiverNode <==> a.call.caller == b.call.receiver)
      && (a.receiverNode == b.receiverNode <==> a.call.receiver == b.call.receiver)
  }

  /** Every row's node numbers are positions in `nodes` holding its caller and its receiver. */
  predicate PointsInto(numbered: seq<NodedCall>, nodes: seq<string>) {
    forall r :: r in numbered ==>
      && r.callerNode < |nodes| && nodes[r.callerNode] == r.call.caller
      && r.receiverNode < |nodes| && nodes[r.receiverNode] == r.call.receiver
  }

  /** Numbering by position in a duplicate-free list gives distinct participants distinct numbers. */
  lemma DistinctNumbering(numbered: seq<NodedCall>, nodes: seq<string>)
    requires Distinct(nodes) && PointsInto(numbered, nodes)
    ensures ConsistentNumbering(numbered)
  {
    forall a, b | a in numbered && b in numbered
      ensures a.callerNode == b.callerNode <==> a.call.caller == b.call.caller
      ensures a.callerNode == b.receiverNode <==> a.call.caller == b.call.receiver
      ensures a.receiverNode == b.receiverNode <==> a.call.receiver == b.call.receiver
    {
      SamePositionSameName(nodes, a.callerNode, b.callerNode);
      SamePositionSameName(nodes, a.callerNode, b.receiverNode);
      SamePositionSameName(nodes, a.receiverNode, b.receiverNode);
    }
  }

  /** The node columns `preprocess_data` adds are consistent with the participants. */
  lemma NumberCallsConsistent(rows: seq<Call>)
    ensures ConsistentNumbering(NumberCalls(rows))
  {
    var nodes, numbered := NodeList(rows), NumberCalls(rows);
    NodeCount(rows);
    assert PointsInto(numbered, nodes) by {
      forall r | r in numbered
        ensures r.callerNode < |nodes| && nodes[r.callerNode] == r.call.caller
        ensures r.receiverNode < |nodes| && nodes[r.receiverNode] == r.call.receiver
      {
        var i :| 0 <= i < |numbered| && numbered[i] == r;
      }
    }
    DistinctNumbering(numbered, nodes);
  }

  /** In a duplicate-free list two positions hold the same element exactly when they are equal. */
  lemma SamePositionSameName(nodes: seq<string>, p: nat, q: nat)
    requires Distinct(nodes) && p < |nodes| && q < |nodes|
    ensures nodes[p] == nodes[q] <==> p == q
  {
  }
}
