/** Bounded reachability over memory edges: what the recursive query with its textual path guard returns. */
module Reachability {
  import opened Rows

  datatype Edge = Edge(source: string, target: string, relation: string)

  datatype Row = Row(id: string, relation: string, depth: nat, path: seq<string>)

  // --- the path guard ---------------------------------------------------------------------------------------

  predicate CommaFree(id: string) { ',' !in id }

  /** The visited path as the query keeps it: every id between commas. */
  function PathText(path: seq<string>): string {
    if path == [] then "," else PathText(path[..|path| - 1]) + path[|path| - 1] + ","
  }

  function Delimited(id: string): string { "," + id + "," }

  predicate OccursAt(text: string, part: string, i: nat) {
    i + |part| <= |text| && text[i..i + |part|] == part
  }

  predicate Contains(text: string, part: string) {
    exists i :: 0 <= i <= |text| && OccursAt(text, part, i)
  }

  lemma {:induction false} VisitedOccurs(path: seq<string>, k: nat)
    requires k < |path|
    ensures Contains(PathText(path), Delimited(path[k]))
    decreases |path|
  {
    var init, last := path[..|path| - 1], path[|path| - 1];
    var text, head := PathText(path), PathText(init);
    if k == |path| - 1 {
      assert text[|head| - 1..] == Delimited(last);
      assert OccursAt(text, Delimited(last), |head| - 1);
    } else {
      VisitedOccurs(init, k);
      var i :| 0 <= i <= |head| && OccursAt(head, Delimited(init[k]), i);
      assert text[..|head|] == head;
      assert text[i..i + |Delimited(path[k])|] == head[i..i + |Delimited(path[k])|];
      assert OccursAt(text, Delimited(path[k]), i);
    }
  }

  /** An occurrence that starts before the last comma of the earlier text but reaches past it has a comma inside. */
  lemma CommaInside(head: string, last: string, id: string, i: nat)
    requires head != [] && head[|head| - 1] == ',' && OccursAt(head + last + ",", Delimited(id), i) && i + |id| + 2 > |head|
    ensures i < |head| - 1 ==> ',' in id
  {
    var found := (head + last + ",")[i..i + |id| + 2];
    if i < |head| - 1 {
      assert found[|head| - 1 - i] == ',';
      assert found[|head| - 1 - i] == Delimited(id)[|head| - 1 - i] == id[|head| - 2 - i];
    }
  }

  lemma CommaBeyond(head: string, last: string, id: string, i: nat)
    requires OccursAt(head + last + ",", Delimited(id), i) && i + |id| + 2 > |head|
    ensures i + |id| + 2 == |head| + |last| + 1 || ',' in last
  {
    var text := head + last + ",";
    var found, end := text[i..i + |id| + 2], i + |id| + 1;
    assert found[|id| + 1] == text[end] == ',';
    if end < |text| - 1 { assert text[end] == last[end - |head|]; }
  }

  /** An occurrence that reaches past the earlier text is the last id itself. */
  lemma LastOccurrence(head: string, last: string, id: string, i: nat)
    requires head != [] && head[|head| - 1] == ',' && CommaFree(last) && CommaFree(id)
    requires OccursAt(head + last + ",", Delimited(id), i) && i + |id| + 2 > |head|
    ensures id == last
  {
    var text := head + last + ",";
    var found := text[i..i + |id| + 2];
    CommaInside(head, last, id, i);
    CommaBeyond(head, last, id, i);
    assert i >= |head| - 1;
    assert text[i] == found[0] == ',';
    assert i == |head| - 1;
    assert found[1..1 + |id|] == id && text[|head|..|head| + |last|] == last;
    assert found[1..1 + |id|] == text[|head|..|head| + |id|];
  }

  lemma {:induction false} OccursVisited(path: seq<string>, id: string)
    requires CommaFree(id) && forall k :: 0 <= k < |path| ==> CommaFree(path[k])
    requires Contains(PathText(path), Delimited(id))
    ensures id in path
    decreases |path|
  {
    var i :| 0 <= i <= |PathText(path)| && OccursAt(PathText(path), Delimited(id), i);
    if path != [] {
      var init, last := path[..|path| - 1], path[|path| - 1];
      var head, n := PathText(init), |Delimited(id)|;
      if i + n <= |head| {
        assert head == PathText(path)[..|head|];
        assert PathText(path)[i..i + n] == head[i..i + n];
        assert OccursAt(head, Delimited(id), i);
        OccursVisited(init, id);
      } else {
        LastOccurrence(head, last, id, i);
      }
    }
  }

  /** For ids without a comma the substring test is exactly membership in the visited path. */
  lemma GuardIsMembership(path: seq<string>, id: string)
    requires CommaFree(id) && forall k :: 0 <= k < |path| ==> CommaFree(path[k])
    ensures Contains(PathText(path), Delimited(id)) <==> id in path
  {
    if id in path {
      var k :| 0 <= k < |path| && path[k] == id;
      VisitedOccurs(path, k);
    }
    if Contains(PathText(path), Delimited(id)) { OccursVisited(path, id); }
  }

  // --- the query --------------------------------------------------------------------------------------------------

  function FirstLevel(edges: set<Edge>, start: string): set<Row> {
    set e | e in edges && e.source == start :: Row(e.target, e.relation, 1, [start, e.target])
  }

  /** One step of the recursion, guarded by the textual path. */
  function NextLevel(edges: set<Edge>, rows: set<Row>): set<Row> {
    set r, e | r in rows && e in edges && e.source == r.id && !Contains(PathText(r.path), Delimited(e.target)) ::
      Row(e.target, e.relation, r.depth + 1, r.path + [e.target])
  }

  function Level(edges: set<Edge>, start: string, d: nat): set<Row>
    requires d >= 1
  {
    if d == 1 then FirstLevel(edges, start) else NextLevel(edges, Level(edges, start, d - 1))
  }

  /** All rows the recursion produces: the first level always, deeper ones while the depth is below the bound. */
  function Reachable(edges: set<Edge>, start: string, maxDepth: nat): set<Row> {
    if maxDepth <= 1 then FirstLevel(edges, start) else Reachable(edges, start, maxDepth - 1) + Level(edges, start, maxDepth)
  }

  function DepthBound(maxDepth: nat): nat { if maxDepth == 0 then 1 else maxDepth }

  predicate InSomeLevel(edges: set<Edge>, start: string, n: nat, r: Row) {
    exists d :: 1 <= d <= n && r in Level(edges, start, d)
  }

  lemma OneMoreLevel(edges: set<Edge>, start: string, n: nat, r: Row)
    requires n >= 1
    ensures InSomeLevel(edges, start, n, r) <==> InSomeLevel(edges, start, n - 1, r) || r in Level(edges, start, n)
  {
    if InSomeLevel(edges, start, n - 1, r) {
      var d :| 1 <= d <= n - 1 && r in Level(edges, start, d);
      assert InSomeLevel(edges, start, n, r);
    }
  }

  lemma {:induction false} ReachableIsLevels(edges: set<Edge>, start: string, maxDepth: nat, r: Row)
    ensures r in Reachable(edges, start, maxDepth) <==> InSomeLevel(edges, start, DepthBound(maxDepth), r)
  {
    OneMoreLevel(edges, start, DepthBound(maxDepth), r);
    if maxDepth > 1 { ReachableIsLevels(edges, start, maxDepth - 1, r); }
  }

  // --- walks ---------------------------------------------------------------------------------------------------------

  predicate Linked(edges: set<Edge>, a: string, b: string) {
    exists e :: e in edges && e.source == a && e.target == b
  }

  predicate IsWalk(edges: set<Edge>, w: seq<string>) {
    forall k :: 0 <= k < |w| - 1 ==> Linked(edges, w[k], w[k + 1])
  }

  /** A walk from one node to another. */
  predicate Walk(edges: set<Edge>, w: seq<string>, start: string, id: string) {
    |w| >= 1 && w[0] == start && w[|w| - 1] == id && IsWalk(edges, w)
  }

  /** After the first step no node is visited again. */
  predicate NoRevisit(w: seq<string>) {
    forall i, j :: 0 <= i < j < |w| && j >= 2 ==> w[i] != w[j]
  }

  predicate PlainIds(edges: set<Edge>, start: string) {
    CommaFree(start) && forall e :: e in edges ==> CommaFree(e.source) && CommaFree(e.target)
  }

  /** Rows of a level are exactly the walks of that length without revisits, with the relation of their last edge. */
  predicate IsRowOf(edges: set<Edge>, start: string, d: nat, r: Row) {
    && d >= 1 && r.depth == d && |r.path| == d + 1 && Walk(edges, r.path, start, r.id) && NoRevisit(r.path)
    && Edge(r.path[d - 1], r.id, r.relation) in edges
  }

  lemma WalkIdsPlain(edges: set<Edge>, w: seq<string>, start: string)
    requires PlainIds(edges, start) && |w| >= 1 && w[0] == start && IsWalk(edges, w)
    ensures forall k :: 0 <= k < |w| ==> CommaFree(w[k])
  {
    forall k | 0 <= k < |w| ensures CommaFree(w[k]) {
      if k > 0 { assert Linked(edges, w[k - 1], w[k]); }
    }
  }

  lemma RowExtends(edges: set<Edge>, start: string, d: nat, r: Row, e: Edge)
    requires PlainIds(edges, start) && d >= 1 && IsRowOf(edges, start, d, r) && e in edges && e.source == r.id
    ensures Contains(PathText(r.path), Delimited(e.target)) <==> e.target in r.path
    ensures e.target !in r.path ==> IsRowOf(edges, start, d + 1, Row(e.target, e.relation, r.depth + 1, r.path + [e.target]))
  {
    WalkIdsPlain(edges, r.path, start);
    GuardIsMembership(r.path, e.target);
  }

  lemma FirstRows(edges: set<Edge>, start: string)
    ensures forall r :: r in FirstLevel(edges, start) ==> IsRowOf(edges, start, 1, r)
  {
    forall r | r in FirstLevel(edges, start) ensures IsRowOf(edges, start, 1, r) {
      var e :| e in edges && e.source == start && r == Row(e.target, e.relation, 1, [start, e.target]);
    }
  }

  lemma {:induction false} LevelRows(edges: set<Edge>, start: string, d: nat)
    requires PlainIds(edges, start) && d >= 1
    ensures forall r :: r in Level(edges, start, d) ==> IsRowOf(edges, start, d, r)
  {
    if d == 1 {
      FirstRows(edges, start);
    } else {
      LevelRows(edges, start, d - 1);
      var before := Level(edges, start, d - 1);
      forall r | r in NextLevel(edges, before) ensures IsRowOf(edges, start, d, r) {
        var q, e :| q in before && e in edges && e.source == q.id && !Contains(PathText(q.path), Delimited(e.target))
          && r == Row(e.target, e.relation, q.depth + 1, q.path + [e.target]);
        RowExtends(edges, start, d - 1, q, e);
      }
    }
  }

  /** Every walk without revisits is found, with every relation of its last step. */
  lemma {:induction false} WalkIsRow(edges: set<Edge>, start: string, d: nat, r: Row)
    requires PlainIds(edges, start) && d >= 1 && IsRowOf(edges, start, d, r)
    ensures r in Level(edges, start, d)
  {
    var last := Edge(r.path[d - 1], r.id, r.relation);
    if d == 1 {
      assert r.path == [start, last.target];
      assert last in edges && last.source == start;
    } else {
      var init := r.path[..d];
      assert Linked(edges, r.path[d - 2], r.path[d - 1]);
      var e :| e in edges && e.source == r.path[d - 2] && e.target == r.path[d - 1];
      var q := Row(r.path[d - 1], e.relation, d - 1, init);
      assert IsRowOf(edges, start, d - 1, q) by {
        forall k | 0 <= k < |init| - 1 ensures Linked(edges, init[k], init[k + 1]) { assert Linked(edges, r.path[k], r.path[k + 1]); }
      }
      WalkIsRow(edges, start, d - 1, q);
      RowExtends(edges, start, d - 1, q, last);
      assert r.path == init + [r.id] && r.id !in init;
    }
  }

  // --- distances -----------------------------------------------------------------------------------------------------------

  /** Cutting out cycles never lengthens a walk. */
  lemma {:induction false} Shortcut(edges: set<Edge>, w: seq<string>, start: string, id: string) returns (v: seq<string>)
    requires Walk(edges, w, start, id)
    ensures Walk(edges, v, start, id) && |v| <= |w| && Distinct(v)
    decreases |w|
  {
    if Distinct(w) {
      v := w;
    } else {
      var i, j :| 0 <= i < j < |w| && w[i] == w[j];
      var cut := w[..i] + w[j..];
      assert cut[0] == start && cut[|cut| - 1] == id;
      v := Shortcut(edges, cut, start, id);
    }
  }

  /** A simple walk to another node shows up as a row of its own length. */
  lemma SimpleWalkReported(edges: set<Edge>, start: string, id: string, maxDepth: nat, v: seq<string>) returns (r: Row)
    requires PlainIds(edges, start) && id != start && Walk(edges, v, start, id) && Distinct(v) && |v| - 1 <= DepthBound(maxDepth)
    ensures r in Reachable(edges, start, maxDepth) && r.id == id && r.depth == |v| - 1
  {
    var d := |v| - 1;
    assert Linked(edges, v[d - 1], v[d]);
    var e :| e in edges && e.source == v[d - 1] && e.target == v[d];
    r := Row(id, e.relation, d, v);
    WalkIsRow(edges, start, d, r);
    ReachableIsLevels(edges, start, maxDepth, r);
    assert r in Level(edges, start, d) && 1 <= d <= DepthBound(maxDepth);
  }

  predicate WithinDistance(edges: set<Edge>, start: string, id: string, n: nat, w: seq<string>) {
    Walk(edges, w, start, id) && |w| - 1 <= n
  }

  /** Apart from the start itself, exactly the nodes within the depth bound are returned, cycles or not. */
  lemma ReachableIsWithinDistance(edges: set<Edge>, start: string, maxDepth: nat, id: string)
    requires PlainIds(edges, start) && id != start
    ensures (exists r :: r in Reachable(edges, start, maxDepth) && r.id == id)
       <==> exists w :: WithinDistance(edges, start, id, DepthBound(maxDepth), w)
  {
    if r :| r in Reachable(edges, start, maxDepth) && r.id == id {
      var d := RowWalk(edges, start, maxDepth, r);
      assert WithinDistance(edges, start, id, DepthBound(maxDepth), r.path);
    }
    if w :| WithinDistance(edges, start, id, DepthBound(maxDepth), w) {
      var v := Shortcut(edges, w, start, id);
      var r := SimpleWalkReported(edges, start, id, maxDepth, v);
    }
  }

  lemma RowWalk(edges: set<Edge>, start: string, maxDepth: nat, r: Row) returns (d: nat)
    requires PlainIds(edges, start) && r in Reachable(edges, start, maxDepth)
    ensures 1 <= d <= DepthBound(maxDepth) && IsRowOf(edges, start, d, r)
  {
    ReachableIsLevels(edges, start, maxDepth, r);
    d :| 1 <= d <= DepthBound(maxDepth) && r in Level(edges, start, d);
    LevelRows(edges, start, d);
  }

  /** The least depth reported for a node is the length of its shortest walk. */
  lemma LeastDepthIsDistance(edges: set<Edge>, start: string, maxDepth: nat, least: Row)
    requires PlainIds(edges, start) && least in Reachable(edges, start, maxDepth) && least.id != start
    requires forall r :: r in Reachable(edges, start, maxDepth) && r.id == least.id ==> least.depth <= r.depth
    ensures Walk(edges, least.path, start, least.id) && |least.path| - 1 == least.depth
    ensures forall w :: Walk(edges, w, start, least.id) ==> least.depth <= |w| - 1
  {
    var d := RowWalk(edges, start, maxDepth, least);
    forall w | Walk(edges, w, start, least.id) ensures least.depth <= |w| - 1 {
      if |w| - 1 < least.depth {
        var v := Shortcut(edges, w, start, least.id);
        var r := SimpleWalkReported(edges, start, least.id, maxDepth, v);
      }
    }
  }

  /** The start is returned only for an edge to itself, and then at depth one. */
  lemma StartOnlyThroughSelfEdge(edges: set<Edge>, start: string, maxDepth: nat, r: Row)
    requires PlainIds(edges, start) && r in Reachable(edges, start, maxDepth) && r.id == start
    ensures r.depth == 1 && Edge(start, start, r.relation) in edges
  {
    var d := RowWalk(edges, start, maxDepth, r);
  }

  /** A bound of zero still returns the direct neighbours. */
  lemma ZeroDepthReturnsNeighbours(edges: set<Edge>, start: string, e: Edge)
    requires e in edges && e.source == start
    ensures Row(e.target, e.relation, 1, [start, e.target]) in Reachable(edges, start, 0)
  {}

  // --- ids with commas -----------------------------------------------------------------------------------------------------

  lemma {:induction false} PathTextCons(first: string, rest: seq<string>)
    ensures PathText([first] + rest) == "," + first + PathText(rest)
    decreases |rest|
  {
    var path := [first] + rest;
    if rest == [] {
      assert path[..0] == [] && PathText([]) == ",";
    } else {
      var init := rest[..|rest| - 1];
      assert path[..|path| - 1] == [first] + init && path[|path| - 1] == rest[|rest| - 1];
      PathTextCons(first, init);
      assert "," + first + PathText(init) + rest[|rest| - 1] + "," == "," + first + (PathText(init) + rest[|rest| - 1] + ",");
    }
  }

  /** The parts of an id between its commas spell it out again when they are a path. */
  lemma {:induction false} SplitAtCommas(id: string, from: nat) returns (parts: seq<string>)
    requires from <= |id|
    ensures parts != [] && PathText(parts) == "," + id[from..] + "," && forall k :: 0 <= k < |parts| ==> CommaFree(parts[k])
    decreases |id| - from
  {
    var i := from;
    while i < |id| && id[i] != ','
      invariant from <= i <= |id| && ',' !in id[from..i]
    {
      assert id[from..i + 1] == id[from..i] + [id[i]];
      i := i + 1;
    }
    var first := id[from..i];
    if i == |id| {
      parts := [first];
      PathTextCons(first, []);
      assert [first] + [] == parts && first == id[from..];
    } else {
      var rest := SplitAtCommas(id, i + 1);
      parts := [first] + rest;
      PathTextCons(first, rest);
      assert id[from..] == first + "," + id[i + 1..];
      assert "," + first + ("," + id[i + 1..] + ",") == "," + id[from..] + ",";
    }
  }

  predicate PlainPath(path: seq<string>) {
    forall k :: 0 <= k < |path| ==> CommaFree(path[k])
  }

  /** The guard tells whether the path holds the id. */
  predicate GuardIsRight(path: seq<string>, id: string) {
    Contains(PathText(path), Delimited(id)) <==> id in path
  }

  /** The guard is right about an id on every path of plain ids exactly when the id has no comma. */
  lemma GuardIsRightIff(id: string)
    ensures (forall path :: PlainPath(path) ==> GuardIsRight(path, id)) <==> CommaFree(id)
  {
    if CommaFree(id) {
      forall path | PlainPath(path) ensures GuardIsRight(path, id) { GuardIsMembership(path, id); }
    } else {
      var parts := SplitAtCommas(id, 0);
      assert id[0..] == id && PathText(parts) == Delimited(id);
      assert OccursAt(PathText(parts), Delimited(id), 0);
      assert PlainPath(parts) && !GuardIsRight(parts, id);
    }
  }

  const COMMA_EDGES := {Edge("a", "b", "r"), Edge("b", "a,b", "r")}

  lemma CommaLevels(d: nat)
    requires d >= 1
    ensures Level(COMMA_EDGES, "a", d) == if d == 1 then {Row("b", "r", 1, ["a", "b"])} else {}
  {
    if d == 1 {
      assert FirstLevel(COMMA_EDGES, "a") == {Row("b", "r", 1, ["a", "b"])};
    } else {
      CommaLevels(d - 1);
      PathTextCons("a", ["b"]);
      PathTextCons("b", []);
      assert ["a"] + ["b"] == ["a", "b"] && ["b"] + [] == ["b"] && PathText([]) == ",";
      assert PathText(["a", "b"]) == Delimited("a,b");
      assert OccursAt(PathText(["a", "b"]), Delimited("a,b"), 0);
    }
  }

  /** A graph with such an id: `a,b` is two steps from `a`, and the query never returns it, whatever the bound. */
  lemma CommaHidesNode(maxDepth: nat)
    ensures WithinDistance(COMMA_EDGES, "a", "a,b", 2, ["a", "b", "a,b"])
    ensures forall r :: r in Reachable(COMMA_EDGES, "a", maxDepth) ==> r.id != "a,b"
  {
    var w := ["a", "b", "a,b"];
    assert Edge("a", "b", "r") in COMMA_EDGES && Edge("b", "a,b", "r") in COMMA_EDGES;
    assert Linked(COMMA_EDGES, w[0], w[1]) && Linked(COMMA_EDGES, w[1], w[2]);
    forall r | r in Reachable(COMMA_EDGES, "a", maxDepth) ensures r.id != "a,b" {
      ReachableIsLevels(COMMA_EDGES, "a", maxDepth, r);
      var d :| 1 <= d <= DepthBound(maxDepth) && r in Level(COMMA_EDGES, "a", d);
      CommaLevels(d);
    }
  }

  /** All nodes an edge leads to, and the start. */
  function Nodes(edges: set<Edge>, start: string): set<string> {
    {start} + set e | e in edges :: e.target
  }

  /** The recursion dies out by itself: no level deeper than the number of nodes has a row. */
  lemma LevelsRunOut(edges: set<Edge>, start: string, d: nat)
    requires PlainIds(edges, start) && d > |Nodes(edges, start)|
    ensures Level(edges, start, d) == {}
  {
    LevelRows(edges, start, d);
    if r :| r in Level(edges, start, d) {
      var w, nodes := r.path[1..], Nodes(edges, start);
      forall k | 0 <= k < |w| ensures w[k] in nodes {
        assert Linked(edges, r.path[k], r.path[k + 1]);
      }
      assert Distinct(w);
      DistinctFit(w, nodes);
    }
  }

  lemma {:induction false} DistinctFit(w: seq<string>, s: set<string>)
    requires Distinct(w) && forall k :: 0 <= k < |w| ==> w[k] in s
    ensures |w| <= |s|
  {
    if w != [] {
      var rest := w[1..];
      assert forall k :: 0 <= k < |rest| ==> rest[k] == w[k + 1] && w[0] != w[k + 1];
      DistinctFit(rest, s - {w[0]});
    }
  }
}
