/** Walking the association graph: the recursive query, and what it computes. */
module Traversal {
  import opened Common
  import opened KnowledgeGraph
  import opened Rows

  datatype Direction = Outgoing | Incoming

  /** A row of the recursive query: the association last taken, the concept it reached, and all
      concepts reached on the way. */
  datatype Row = Row(association: Id, relationship: string, related: Id, direction: Direction,
                     depth: nat, visited: seq<Id>)

  /** `active` is the expansion filter: absent, or the active expansions (the base game always
      counts). */
  datatype Query = Query(g: Graph, game: GameId, root: Id, active: Option<set<ExpansionId>>, maxDepth: int)

  // ------------------------------------------------------------------- query

  /** The expansion clause, in its three spellings. */
  predicate Passes(q: Query, c: Id) {
    match q.active
    case None => true
    case Some(expansions) =>
      if expansions != {} then
        exists i :: 0 <= i < |q.g.sources| && q.g.sources[i].concept == c
                    && (q.g.sources[i].expansion.None? || q.g.sources[i].expansion.value in expansions)
      else
        exists i :: 0 <= i < |q.g.sources| && q.g.sources[i].concept == c && q.g.sources[i].expansion.None?
  }

  /** A concept the join admits: stored, canonical, and passing the filter. */
  predicate Admitted(q: Query, c: Id) {
    c in q.g.concepts && q.g.concepts[c].canonical.None? && Passes(q, c)
  }

  function OutgoingRows(q: Query, rows: seq<Association>): seq<Row> {
    if rows == [] then []
    else
      var a := rows[0];
      (if a.source == q.root && a.game == q.game && Admitted(q, a.target)
       then [Row(a.id, a.relationship, a.target, Outgoing, 1, [a.target])] else [])
      + OutgoingRows(q, rows[1..])
  }

  function IncomingRows(q: Query, rows: seq<Association>): seq<Row> {
    if rows == [] then []
    else
      var a := rows[0];
      (if a.target == q.root && a.game == q.game && Admitted(q, a.source)
       then [Row(a.id, a.relationship, a.source, Incoming, 1, [a.source])] else [])
      + IncomingRows(q, rows[1..])
  }

  /** The two anchor members. */
  function Anchors(q: Query): seq<Row> {
    OutgoingRows(q, q.g.associations) + IncomingRows(q, q.g.associations)
  }

  function OtherEnd(a: Association, c: Id): Id { if a.source == c then a.target else a.source }

  predicate Joins(q: Query, t: Row, a: Association) {
    && (a.source == t.related || a.target == t.related)
    && t.depth < q.maxDepth && a.game == q.game
    && Admitted(q, OtherEnd(a, t.related))
    && OtherEnd(a, t.related) !in t.visited && OtherEnd(a, t.related) != q.root
  }

  function Extend(t: Row, a: Association): Row {
    var next := OtherEnd(a, t.related);
    Row(a.id, a.relationship, next, if a.source == t.related then Outgoing else Incoming,
        t.depth + 1, t.visited + [next])
  }

  function ExtendRow(q: Query, t: Row, rows: seq<Association>): (r: seq<Row>)
    ensures forall x :: x in r <==> exists a :: a in rows && Joins(q, t, a) && x == Extend(t, a)
  {
    if rows == [] then []
    else (if Joins(q, t, rows[0]) then [Extend(t, rows[0])] else []) + ExtendRow(q, t, rows[1..])
  }

  /** The recursive member applied to a working table. */
  function Advance(q: Query, working: seq<Row>): (r: seq<Row>)
    ensures forall x :: x in r <==>
              exists t, a :: t in working && a in q.g.associations && Joins(q, t, a) && x == Extend(t, a)
  {
    if working == [] then [] else ExtendRow(q, working[0], q.g.associations) + Advance(q, working[1..])
  }

  ghost predicate AtDepth(rows: seq<Row>, depth: nat) { forall t :: t in rows ==> t.depth == depth }

  /** Evaluation of the recursive query: rows of the working table go to the result, and the
      recursive member computes the next table, until it is empty. */
  function Iterate(q: Query, working: seq<Row>, depth: nat): seq<Row>
    requires AtDepth(working, depth)
    decreases if working == [] then 0 else if depth < q.maxDepth then q.maxDepth - depth + 1 else 1
  {
    if working == [] then [] else
      var next := Advance(q, working);
      assert depth >= q.maxDepth ==> next == [] by {
        if next != [] { assert next[0] in next; }
      }
      working + Iterate(q, next, depth + 1)
  }

  lemma {:induction false} AnchorRows(q: Query, rows: seq<Association>, x: Row)
    ensures x in OutgoingRows(q, rows) <==>
              exists a :: a in rows && a.source == q.root && a.game == q.game && Admitted(q, a.target)
                     && x == Row(a.id, a.relationship, a.target, Outgoing, 1, [a.target])
    ensures x in IncomingRows(q, rows) <==>
              exists a :: a in rows && a.target == q.root && a.game == q.game && Admitted(q, a.source)
                     && x == Row(a.id, a.relationship, a.source, Incoming, 1, [a.source])
  {
    if rows != [] {
      AnchorRows(q, rows[1..], x);
      assert forall a :: a in rows <==> a == rows[0] || a in rows[1..];
    }
  }

  lemma AnchorsAtDepthOne(q: Query)
    ensures AtDepth(Anchors(q), 1)
  {
    forall t | t in Anchors(q) ensures t.depth == 1 { AnchorRows(q, q.g.associations, t); }
  }

  function AllRows(q: Query): seq<Row> {
    AnchorsAtDepthOne(q);
    Iterate(q, Anchors(q), 1)
  }

  predicate Ascending(rows: seq<Row>) {
    forall i, j :: 0 <= i < j < |rows| ==> rows[i].related < rows[j].related
  }

  /** Some row of `rows` reaches the same concept at no greater depth. */
  ghost predicate Covered(t: Row, rows: seq<Row>) {
    exists x :: x in rows && x.related == t.related && x.depth <= t.depth
  }

  /** `DISTINCT ON (related_id) ... ORDER BY related_id, depth`: one row of least depth for each
      concept, in order of concept.  Which row among equals is left open. */
  ghost predicate IsDistinctOn(result: seq<Row>, rows: seq<Row>) {
    && Ascending(result)
    && (forall x :: x in result ==> x in rows)
    && (forall t :: t in rows ==> Covered(t, result))
  }

  function InsertRow(t: Row, sorted: seq<Row>): seq<Row> {
    if sorted == [] || t.related < sorted[0].related then [t] + sorted
    else if t.related > sorted[0].related then [sorted[0]] + InsertRow(t, sorted[1..])
    else if t.depth < sorted[0].depth then [t] + sorted[1..]
    else sorted
  }

  function DistinctOn(rows: seq<Row>): seq<Row> {
    if rows == [] then [] else InsertRow(rows[0], DistinctOn(rows[1..]))
  }

  lemma {:induction false} InsertRowKeeps(t: Row, sorted: seq<Row>)
    requires Ascending(sorted)
    ensures var r := InsertRow(t, sorted);
            && Ascending(r)
            && (forall x :: x in r ==> x == t || x in sorted)
            && (forall x :: x == t || x in sorted ==> Covered(x, r))
  {
    var r := InsertRow(t, sorted);
    if sorted == [] || t.related < sorted[0].related {
      assert forall x :: x == t || x in sorted ==> x in r;
    } else if t.related > sorted[0].related {
      InsertRowKeeps(t, sorted[1..]);
      var rest := InsertRow(t, sorted[1..]);
      assert r == [sorted[0]] + rest;
      forall j | 0 <= j < |rest| ensures sorted[0].related < rest[j].related {
        assert rest[j] in rest;
      }
      forall x | x == t || x in sorted ensures Covered(x, r) {
        if x == sorted[0] {
          assert sorted[0] in r;
        } else {
          assert Covered(x, rest);
          var y :| y in rest && y.related == x.related && y.depth <= x.depth;
          assert y in r;
        }
      }
    } else {
      forall x | x == t || x in sorted ensures Covered(x, r) {
        assert r[0] in r;
        if x != t && x != sorted[0] { assert x in sorted[1..] && x in r; }
      }
    }
  }

  lemma {:induction false} DistinctOnIsDistinct(rows: seq<Row>)
    ensures IsDistinctOn(DistinctOn(rows), rows)
  {
    if rows != [] {
      var rest := DistinctOn(rows[1..]);
      DistinctOnIsDistinct(rows[1..]);
      InsertRowKeeps(rows[0], rest);
      var r := InsertRow(rows[0], rest);
      forall t | t in rows ensures Covered(t, r) {
        if t != rows[0] {
          assert t in rows[1..] && Covered(t, rest);
          var x :| x in rest && x.related == t.related && x.depth <= t.depth;
          assert Covered(x, r);
        }
      }
    }
  }

  /** `traverse_associations`: nothing for a concept the game does not have. */
  function Traverse(q: Query): seq<Row> {
    if q.root in q.g.concepts && q.g.concepts[q.root].game == q.game then DistinctOn(AllRows(q)) else []
  }

  // ------------------------------------------------------------------- walks

  /** An association of the game joins the two concepts, in either direction. */
  ghost predicate Adjacent(q: Query, b: Id, c: Id) {
    exists a :: a in q.g.associations && a.game == q.game
                && ((a.source == b && a.target == c) || (a.source == c && a.target == b))
  }

  /** A walk of `n` associations leads from the root to `c` through admitted concepts. */
  ghost predicate Walk(q: Query, c: Id, n: nat)
    decreases n
  {
    if n == 0 then c == q.root
    else Admitted(q, c) && exists b :: Walk(q, b, n - 1) && Adjacent(q, b, c)
  }

  ghost predicate Shortest(q: Query, c: Id, n: nat) {
    Walk(q, c, n) && forall m: nat :: m < n ==> !Walk(q, c, m)
  }

  /** Depths the query explores: the anchors are evaluated whatever the limit. */
  function Limit(q: Query): nat { if q.maxDepth < 1 then 1 else q.maxDepth }

  // ------------------------------------------------------------------- layers

  /** The working table of each round. */
  function Layer(q: Query, d: nat): seq<Row>
    requires d >= 1
  {
    if d == 1 then Anchors(q) else Advance(q, Layer(q, d - 1))
  }

  /** The concept visited before the last one, or the root. */
  function Before(q: Query, t: Row): Id
    requires t.visited != []
  {
    if |t.visited| == 1 then q.root else t.visited[|t.visited| - 2]
  }

  /** The visited concepts form a path from the root: each is adjacent to the one before it. */
  ghost predicate IsPath(q: Query, visited: seq<Id>) {
    && (visited != [] ==> Adjacent(q, q.root, visited[0]))
    && forall i :: 0 < i < |visited| ==> Adjacent(q, visited[i - 1], visited[i])
  }

  /** The association that a row reports leads from the previous concept to the one reached, in
      the direction reported. */
  ghost predicate LastTaken(q: Query, t: Row, a: Association)
    requires t.visited != []
  {
    && a.id == t.association && a.relationship == t.relationship && a.game == q.game
    && (if t.direction == Outgoing then a.source == Before(q, t) && a.target == t.related
        else a.target == Before(q, t) && a.source == t.related)
  }

  /** What every row of a layer records: its visited concepts form a path of admitted, distinct
      concepts from the root, as long as the row is deep, and its association is the last step of
      that path. */
  ghost predicate RowSound(q: Query, t: Row) {
    && t.depth >= 1 && |t.visited| == t.depth && Last(t.visited) == t.related
    && IsPath(q, t.visited)
    && (forall i :: 0 <= i < |t.visited| ==> Admitted(q, t.visited[i]))
    && (forall i :: 0 <= i < |t.visited| ==> Walk(q, t.visited[i], i + 1))
    && (forall i, j :: 0 <= i < j < |t.visited| ==> t.visited[i] != t.visited[j])
    && t.depth <= Limit(q)
    && (exists a :: a in q.g.associations && LastTaken(q, t, a))
  }

  lemma AnchorSound(q: Query, t: Row)
    requires t in Anchors(q)
    ensures RowSound(q, t) && t.depth == 1
  {
    AnchorRows(q, q.g.associations, t);
    var a :| a in q.g.associations && a.game == q.game && Admitted(q, t.related)
             && t.visited == [t.related] && t.depth == 1 && LastTaken(q, t, a);
    hide Admitted;
    assert Walk(q, q.root, 0) && Adjacent(q, q.root, t.related);
    assert Walk(q, t.related, 1);
  }

  lemma ExtendSound(q: Query, t: Row, a: Association)
    requires RowSound(q, t) && a in q.g.associations && Joins(q, t, a)
    ensures RowSound(q, Extend(t, a)) && Extend(t, a).depth == t.depth + 1
  {
    hide Admitted;
    var next := OtherEnd(a, t.related);
    var x := Extend(t, a);
    assert Walk(q, t.visited[|t.visited| - 1], t.depth);
    assert Adjacent(q, t.related, next);
    assert Walk(q, next, t.depth + 1);
    forall i | 0 <= i < |x.visited| ensures Walk(q, x.visited[i], i + 1) && Admitted(q, x.visited[i]) {
      if i < |t.visited| { assert x.visited[i] == t.visited[i]; }
    }
    assert x.visited[|x.visited| - 2] == t.related;
    assert LastTaken(q, x, a);
  }

  lemma {:induction false} LayerSound(q: Query, d: nat)
    requires d >= 1
    ensures forall t :: t in Layer(q, d) ==> RowSound(q, t) && t.depth == d
  {
    hide RowSound, Anchors, Advance;
    if d == 1 {
      forall t | t in Anchors(q) ensures RowSound(q, t) && t.depth == 1 { AnchorSound(q, t); }
    } else {
      LayerSound(q, d - 1);
      AdvanceSound(q, Layer(q, d - 1), d - 1);
    }
  }

  lemma AdvanceSound(q: Query, working: seq<Row>, d: nat)
    requires forall t :: t in working ==> RowSound(q, t) && t.depth == d
    ensures forall x :: x in Advance(q, working) ==> RowSound(q, x) && x.depth == d + 1
  {
    hide RowSound, Joins, Extend;
    forall x | x in Advance(q, working) ensures RowSound(q, x) && x.depth == d + 1 {
      var t, a :| t in working && a in q.g.associations && Joins(q, t, a) && x == Extend(t, a);
      ExtendSound(q, t, a);
    }
  }

  lemma FirstIsMember(rows: seq<Row>)
    ensures rows == [] || rows[0] in rows
  {
  }

  /** At the depth limit the recursive member finds nothing. */
  lemma DeepestIsLast(q: Query, d: nat)
    requires d >= 1
    ensures d >= q.maxDepth ==> Layer(q, d + 1) == []
  {
    hide RowSound;
    LayerSound(q, d);
    var next := Advance(q, Layer(q, d));
    if d >= q.maxDepth {
      FirstIsMember(next);
    }
  }

  lemma {:induction false} EmptyStaysEmpty(q: Query, d: nat, e: nat)
    requires 1 <= d <= e && Layer(q, d) == []
    ensures Layer(q, e) == []
    decreases e - d
  {
    if d < e {
      assert Layer(q, d + 1) == [];
      EmptyStaysEmpty(q, d + 1, e);
    }
  }

  /** The recursive evaluation collects exactly the layers. */
  lemma {:induction false} IterateCollects(q: Query, d: nat, t: Row)
    requires d >= 1 && AtDepth(Layer(q, d), d)
    ensures t in Iterate(q, Layer(q, d), d) <==> exists e :: d <= e && t in Layer(q, e)
    decreases if Layer(q, d) == [] then 0 else if d < q.maxDepth then q.maxDepth - d + 1 else 1
  {
    hide RowSound, Anchors, Advance;
    if Layer(q, d) == [] {
      forall e | d <= e ensures t !in Layer(q, e) { EmptyStaysEmpty(q, d, e); }
    } else {
      LayerSound(q, d + 1);
      DeepestIsLast(q, d);
      IterateCollects(q, d + 1, t);
    }
  }

  lemma RowsAreLayers(q: Query, t: Row)
    ensures t in AllRows(q) <==> t.depth >= 1 && t in Layer(q, t.depth)
    ensures t in AllRows(q) ==> RowSound(q, t)
  {
    AnchorsAtDepthOne(q);
    IterateCollects(q, 1, t);
    if e :| 1 <= e && t in Layer(q, e) {
      LayerSound(q, e);
    }
  }

  // ---------------------------------------------------------------- main results

  ghost predicate Joined(q: Query, a: Association, b: Id, c: Id) {
    a in q.g.associations && a.game == q.game
    && ((a.source == b && a.target == c) || (a.source == c && a.target == b))
  }

  /** The concept before the last on a shortest walk is itself at a shortest distance. */
  lemma Predecessor(q: Query, c: Id, n: nat) returns (b: Id, a: Association)
    requires n >= 1 && Shortest(q, c, n)
    ensures Shortest(q, b, n - 1) && Joined(q, a, b, c) && Admitted(q, c)
    ensures n == 1 ==> b == q.root
    ensures n > 1 ==> b != q.root
  {
    b :| Walk(q, b, n - 1) && Adjacent(q, b, c);
    a :| a in q.g.associations && a.game == q.game
         && ((a.source == b && a.target == c) || (a.source == c && a.target == b));
    forall m: nat | m < n - 1 ensures !Walk(q, b, m) {
      NoShortcut(q, b, c, m);
    }
    assert n > 1 ==> !Walk(q, b, 0);
  }

  /** Every concept at a shortest distance within the limit has a row of that depth. */
  lemma {:induction false} ShortestHasRow(q: Query, c: Id, n: nat)
    requires 1 <= n <= Limit(q) && c != q.root && Shortest(q, c, n)
    decreases n
    ensures exists t :: t in Layer(q, n) && t.related == c
  {
    hide Shortest, Admitted, RowSound, Joins, Layer;
    var b, a := Predecessor(q, c, n);
    if n == 1 {
      AnchorFor(q, a, c);
    } else {
      ShortestHasRow(q, b, n - 1);
      var t :| t in Layer(q, n - 1) && t.related == b;
      LayerSound(q, n - 1);
      ExtendTo(q, t, a, c, n);
      ExtendInLayer(q, n, t, a);
    }
  }

  lemma ExtendInLayer(q: Query, n: nat, t: Row, a: Association)
    requires n >= 2 && t in Layer(q, n - 1) && a in q.g.associations && Joins(q, t, a)
    ensures Extend(t, a) in Layer(q, n)
  {
  }

  lemma NoShortcut(q: Query, b: Id, c: Id, m: nat)
    requires !Walk(q, c, m + 1) && Admitted(q, c) && Adjacent(q, b, c)
    ensures !Walk(q, b, m)
  {
  }

  lemma ExtendTo(q: Query, t: Row, a: Association, c: Id, n: nat)
    requires RowSound(q, t) && t.depth == n - 1 && 2 <= n <= Limit(q) && c != q.root && Shortest(q, c, n)
    requires a.game == q.game && ((a.source == t.related && a.target == c) || (a.source == c && a.target == t.related))
    ensures Joins(q, t, a) && Extend(t, a).related == c
  {
    forall i | 0 <= i < |t.visited| ensures t.visited[i] != c {
      assert Walk(q, t.visited[i], i + 1);
    }
    assert t.visited[|t.visited| - 1] == t.related;
  }

  lemma AnchorFor(q: Query, a: Association, c: Id)
    requires a in q.g.associations && a.game == q.game && Admitted(q, c)
    requires (a.source == q.root && a.target == c) || (a.source == c && a.target == q.root)
    ensures exists t :: t in Layer(q, 1) && t.related == c
  {
    var outgoing := Row(a.id, a.relationship, c, Outgoing, 1, [c]);
    var incoming := Row(a.id, a.relationship, c, Incoming, 1, [c]);
    AnchorRows(q, q.g.associations, outgoing);
    AnchorRows(q, q.g.associations, incoming);
    assert outgoing in Layer(q, 1) || incoming in Layer(q, 1);
  }

  /** The recursive step never comes back to the root. */
  lemma RootOnlyAtOne(q: Query, t: Row)
    requires t in AllRows(q) && t.related == q.root
    ensures t in Anchors(q)
  {
    RowsAreLayers(q, t);
    LaterLayersAvoidRoot(q, t.depth);
  }

  lemma LaterLayersAvoidRoot(q: Query, d: nat)
    requires d >= 1
    ensures d >= 2 ==> forall t :: t in Layer(q, d) ==> t.related != q.root
  {
    if d >= 2 {
      forall t | t in Layer(q, d) ensures t.related != q.root {
        var u, a :| u in Layer(q, d - 1) && a in q.g.associations && Joins(q, u, a) && t == Extend(u, a);
      }
    }
  }

  lemma {:induction false} LeastWalk(q: Query, c: Id, n: nat) returns (m: nat)
    requires Walk(q, c, n)
    ensures m <= n && Shortest(q, c, m)
  {
    if k: nat :| k < n && Walk(q, c, k) {
      m := LeastWalk(q, c, k);
    } else {
      m := n;
    }
  }

  ghost predicate RootExists(q: Query) { q.root in q.g.concepts && q.g.concepts[q.root].game == q.game }

  ghost predicate Reported(result: seq<Row>, c: Id) { exists t :: t in result && t.related == c }

  ghost predicate Reachable(q: Query, c: Id) { exists n: nat :: n <= Limit(q) && Walk(q, c, n) }

  /** The answer reports every concept other than the root that a walk within the limit reaches,
      no other, each once, and with the length of a shortest walk as its depth. */
  lemma TraversalIsShortestPaths(q: Query, result: seq<Row>)
    requires RootExists(q) && IsDistinctOn(result, AllRows(q))
    ensures forall c :: c != q.root ==> (Reported(result, c) <==> Reachable(q, c))
    ensures forall t :: t in result && t.related != q.root ==>
              RowSound(q, t) && Shortest(q, t.related, t.depth)
    ensures forall t, u :: t in result && u in result && t.related == u.related ==> t == u
  {
    hide RowSound, Walk, Shortest, AllRows;
    forall t | t in result && t.related != q.root ensures RowSound(q, t) && Shortest(q, t.related, t.depth) {
      ResultIsShortest(q, result, t);
    }
    forall c | c != q.root ensures Reported(result, c) <==> Reachable(q, c) {
      ReportedIffReachable(q, result, c);
    }
  }

  lemma ReportedIffReachable(q: Query, result: seq<Row>, c: Id)
    requires IsDistinctOn(result, AllRows(q)) && c != q.root
    ensures Reported(result, c) <==> Reachable(q, c)
  {
    hide AllRows, Layer;
    if t :| t in result && t.related == c {
      ResultIsShortest(q, result, t);
    }
    if n: nat :| n <= Limit(q) && Walk(q, c, n) {
      var m := LeastWalk(q, c, n);
      ShortestHasRow(q, c, m);
      var t :| t in Layer(q, m) && t.related == c;
      LayerSound(q, m);
      RowsAreLayers(q, t);
      assert Covered(t, result);
    }
  }

  lemma ResultIsShortest(q: Query, result: seq<Row>, t: Row)
    requires IsDistinctOn(result, AllRows(q)) && t in result && t.related != q.root
    ensures RowSound(q, t) && Shortest(q, t.related, t.depth)
  {
    RowsAreLayers(q, t);
    assert Walk(q, t.visited[|t.visited| - 1], t.depth);
    var m := LeastWalk(q, t.related, t.depth);
    ShortestHasRow(q, t.related, m);
    var u :| u in Layer(q, m) && u.related == t.related;
    LayerSound(q, m);
    RowsAreLayers(q, u);
    assert Covered(u, result);
  }

  /** The root itself is reported exactly when it is associated with itself and admitted, then at
      depth one. */
  lemma TraversalOfRoot(q: Query, result: seq<Row>)
    requires RootExists(q) && IsDistinctOn(result, AllRows(q))
    ensures Reported(result, q.root) <==> Admitted(q, q.root) && Adjacent(q, q.root, q.root)
    ensures forall t :: t in result && t.related == q.root ==> t.depth == 1 && RowSound(q, t)
  {
    hide RowSound;
    forall t | t in result && t.related == q.root
      ensures t.depth == 1 && RowSound(q, t) && Admitted(q, q.root) && Adjacent(q, q.root, q.root)
    {
      RootOnlyAtOne(q, t);
      AnchorSound(q, t);
      AnchorRows(q, q.g.associations, t);
    }
    if Admitted(q, q.root) && Adjacent(q, q.root, q.root) {
      var a :| a in q.g.associations && a.game == q.game && a.source == q.root && a.target == q.root;
      AnchorFor(q, a, q.root);
      var t :| t in Layer(q, 1) && t.related == q.root;
      LayerSound(q, 1);
      RowsAreLayers(q, t);
      assert Covered(t, result);
    }
  }

  /** Path enumeration ends by itself: no row is deeper than there are concepts, whatever the
      depth limit. */
  lemma RowsAreBounded(q: Query, t: Row)
    requires t in AllRows(q)
    ensures t.depth <= |q.g.concepts|
  {
    RowsAreLayers(q, t);
    forall i | 0 <= i < |t.visited| ensures t.visited[i] in q.g.concepts {
      assert Walk(q, t.visited[i], i + 1);
    }
    DistinctFit(t.visited, q.g.concepts.Keys);
  }

  lemma {:induction false} DistinctFit(ids: seq<Id>, pool: set<Id>)
    requires forall i :: 0 <= i < |ids| ==> ids[i] in pool
    requires forall i, j :: 0 <= i < j < |ids| ==> ids[i] != ids[j]
    ensures |ids| <= |pool|
  {
    if ids != [] {
      DistinctFit(ids[1..], pool - {ids[0]});
    }
  }

  // -------------------------------------------------------------- monotonicity

  /** Everything `p` admits, `q` admits, and `q` may go at least as deep. */
  ghost predicate NoNarrower(p: Query, q: Query) {
    && q.g == p.g && q.game == p.game && q.root == p.root && p.maxDepth <= q.maxDepth
    && (q.active.None? || (p.active.Some? && p.active.value <= q.active.value))
  }

  lemma AdmittedMonotone(p: Query, q: Query, c: Id)
    requires NoNarrower(p, q) && Admitted(p, c)
    ensures Admitted(q, c)
  {
    if q.active.Some? {
      var i :| 0 <= i < |p.g.sources| && p.g.sources[i].concept == c
               && (p.g.sources[i].expansion.None? || p.g.sources[i].expansion.value in p.active.value);
      assert q.g.sources[i] == p.g.sources[i];
    }
  }

  lemma {:induction false} WalkMonotone(p: Query, q: Query, c: Id, n: nat)
    requires NoNarrower(p, q) && Walk(p, c, n)
    ensures Walk(q, c, n)
    decreases n
  {
    if n > 0 {
      AdmittedMonotone(p, q, c);
      var b :| Walk(p, b, n - 1) && Adjacent(p, b, c);
      WalkMonotone(p, q, b, n - 1);
      assert Adjacent(q, b, c);
    }
  }

  /** Activating more expansions, dropping the filter, or going deeper never loses a concept and
      never reports one farther away. */
  lemma TraversalIsMonotone(p: Query, q: Query, narrow: seq<Row>, wide: seq<Row>, t: Row)
    requires NoNarrower(p, q) && RootExists(p)
    requires IsDistinctOn(narrow, AllRows(p)) && IsDistinctOn(wide, AllRows(q)) && t in narrow
    ensures Covered(t, wide)
  {
    hide Admitted, AllRows, IsDistinctOn;
    if t.related == p.root {
      TraversalOfRoot(p, narrow);
      TraversalOfRoot(q, wide);
      assert Reported(narrow, p.root);
      AdmittedMonotone(p, q, p.root);
      assert Adjacent(q, q.root, q.root);
    } else {
      ResultIsShortest(p, narrow, t);
      RowsAreLayers(p, t);
      WalkMonotone(p, q, t.related, t.depth);
      ReportedIffReachable(q, wide, t.related);
      assert Reachable(q, t.related);
      var u :| u in wide && u.related == t.related;
      ResultIsShortest(q, wide, u);
    }
  }

  // -------------------------------------------------------- direct associations

  /** An entry of the direct-association list. */
  datatype Direct = Direct(association: Id, relationship: string, description: Option<string>,
                           related: Id, direction: Direction)

  /** Two passes over the associations of a concept: outgoing, then incoming.  An association of
      the concept with itself is listed by both. */
  method DirectAssociations(q: Query) returns (list: seq<Direct>)
    ensures list == Entries(q, q.g.associations, Outgoing) + Entries(q, q.g.associations, Incoming)
  {
    hide *;
    var outgoing := DirectPass(q, Outgoing);
    var incoming := DirectPass(q, Incoming);
    list := outgoing + incoming;
  }

  method DirectPass(q: Query, direction: Direction) returns (list: seq<Direct>)
    ensures list == Entries(q, q.g.associations, direction)
  {
    var rows := q.g.associations;
    list := [];
    for i := 0 to |rows|
      invariant list == Entries(q, rows[..i], direction)
    {
      hide IsDirect, Entry, Entries;
      EntriesNext(q, rows, i, direction);
      if IsDirect(q, rows[i], direction) {
        list := list + [Entry(rows[i], direction)];
      }
    }
    assert rows[..|rows|] == rows;
  }

  lemma {:induction false} EntriesConcat(q: Query, a: seq<Association>, b: seq<Association>, direction: Direction)
    ensures Entries(q, a + b, direction) == Entries(q, a, direction) + Entries(q, b, direction)
  {
    hide IsDirect, Entry;
    if a == [] {
      assert a + b == b;
    } else {
      assert (a + b)[1..] == a[1..] + b;
      EntriesConcat(q, a[1..], b, direction);
    }
  }

  lemma EntriesNext(q: Query, rows: seq<Association>, i: nat, direction: Direction)
    requires i < |rows|
    ensures Entries(q, rows[..i + 1], direction)
         == if IsDirect(q, rows[i], direction) then Entries(q, rows[..i], direction) + [Entry(rows[i], direction)]
            else Entries(q, rows[..i], direction)
  {
    hide IsDirect, Entry;
    assert rows[..i + 1] == rows[..i] + [rows[i]];
    EntriesConcat(q, rows[..i], [rows[i]], direction);
    assert [rows[i]][1..] == [];
  }

  function Entries(q: Query, rows: seq<Association>, direction: Direction): seq<Direct> {
    if rows == [] then []
    else (if IsDirect(q, rows[0], direction) then [Entry(rows[0], direction)] else [])
         + Entries(q, rows[1..], direction)
  }

  lemma {:induction false} EntriesMembers(q: Query, rows: seq<Association>, direction: Direction, x: Direct)
    ensures x in Entries(q, rows, direction)
       <==> exists a :: a in rows && IsDirect(q, a, direction) && x == Entry(a, direction)
  {
    hide IsDirect, Entry;
    if rows != [] {
      EntriesMembers(q, rows[1..], direction, x);
      assert forall a :: a in rows <==> a == rows[0] || a in rows[1..];
    }
  }

  predicate IsDirect(q: Query, a: Association, direction: Direction) {
    && a.game == q.game
    && (if direction == Outgoing then a.source else a.target) == q.root
    && Admitted(q, if direction == Outgoing then a.target else a.source)
  }

  function Entry(a: Association, direction: Direction): Direct {
    Direct(a.id, a.relationship, a.description, if direction == Outgoing then a.target else a.source, direction)
  }

  ghost predicate Listed(list: seq<Direct>, c: Id) { exists x :: x in list && x.related == c }

  /** The direct-association list names exactly the admitted concepts adjacent to the root. */
  lemma ListedAreAdjacent(q: Query, c: Id)
    ensures Listed(Entries(q, q.g.associations, Outgoing) + Entries(q, q.g.associations, Incoming), c)
       <==> Admitted(q, c) && Adjacent(q, q.root, c)
  {
    hide Admitted, Entries;
    var rows := q.g.associations;
    var outgoing, incoming := Entries(q, rows, Outgoing), Entries(q, rows, Incoming);
    if Listed(outgoing + incoming, c) {
      var x: Direct :| x in outgoing + incoming && x.related == c;
      EntriesMembers(q, rows, Outgoing, x);
      EntriesMembers(q, rows, Incoming, x);
    }
    if Admitted(q, c) && Adjacent(q, q.root, c) {
      var a :| a in rows && a.game == q.game
               && ((a.source == q.root && a.target == c) || (a.source == c && a.target == q.root));
      var direction := if a.source == q.root && a.target == c then Outgoing else Incoming;
      EntriesMembers(q, rows, direction, Entry(a, direction));
      assert Entry(a, direction) in outgoing + incoming;
    }
  }

  ghost predicate ReportedAt(result: seq<Row>, c: Id, depth: nat) {
    exists t :: t in result && t.related == c && t.depth == depth
  }

  /** The concepts that the traversal reports at depth one are exactly those that the
      direct-association list holds. */
  lemma DepthOneIsDirect(q: Query, result: seq<Row>, c: Id)
    requires RootExists(q) && IsDistinctOn(result, AllRows(q))
    ensures ReportedAt(result, c, 1)
       <==> Listed(Entries(q, q.g.associations, Outgoing) + Entries(q, q.g.associations, Incoming), c)
  {
    hide Admitted, AllRows, Entries, IsDistinctOn;
    ListedAreAdjacent(q, c);
    TraversalOfRoot(q, result);
    if c == q.root {
      assert Reported(result, c) <==> ReportedAt(result, c, 1);
    } else {
      OtherAtDepthOne(q, result, c);
    }
  }

  /** The row and the entry name the same association, concept, label and direction. */
  predicate SameLink(t: Row, x: Direct) {
    && t.association == x.association && t.relationship == x.relationship
    && t.related == x.related && t.direction == x.direction
  }

  /** Each row reported at depth one is an entry of the direct-association list. */
  lemma DepthOneRowIsEntry(q: Query, result: seq<Row>, t: Row)
    requires IsDistinctOn(result, AllRows(q)) && t in result && t.depth == 1
    ensures exists x :: x in Entries(q, q.g.associations, Outgoing) + Entries(q, q.g.associations, Incoming)
                        && SameLink(t, x)
  {
    hide Admitted, Entries, AllRows;
    RowsAreLayers(q, t);
    assert |t.visited| == 1 && t.visited[0] == t.related && Admitted(q, t.visited[0]);
    var a :| a in q.g.associations && LastTaken(q, t, a);
    var x := Entry(a, t.direction);
    EntriesMembers(q, q.g.associations, t.direction, x);
    assert x in Entries(q, q.g.associations, Outgoing) + Entries(q, q.g.associations, Incoming);
  }

  lemma OtherAtDepthOne(q: Query, result: seq<Row>, c: Id)
    requires IsDistinctOn(result, AllRows(q)) && c != q.root
    ensures ReportedAt(result, c, 1) <==> Admitted(q, c) && Adjacent(q, q.root, c)
  {
    hide Admitted, AllRows, IsDistinctOn, RowSound;
    if t :| t in result && t.related == c && t.depth == 1 {
      ResultIsShortest(q, result, t);
      assert Walk(q, c, 1);
      var b :| Walk(q, b, 0) && Adjacent(q, b, c);
    }
    if Admitted(q, c) && Adjacent(q, q.root, c) {
      assert Walk(q, q.root, 0) && Walk(q, c, 1);
      ReportedIffReachable(q, result, c);
      assert Reachable(q, c);
      var t :| t in result && t.related == c;
      ResultIsShortest(q, result, t);
      assert t.depth == 1;
    }
  }

  /** What the service returns is such an answer, and nothing for a root the game lacks. */
  lemma TraverseAnswers(q: Query)
    ensures RootExists(q) ==> IsDistinctOn(Traverse(q), AllRows(q))
    ensures RootExists(q) ==>
              && (forall c :: c != q.root ==> (Reported(Traverse(q), c) <==> Reachable(q, c)))
              && (forall t :: t in Traverse(q) && t.related != q.root ==>
                    RowSound(q, t) && Shortest(q, t.related, t.depth))
    ensures !(q.root in q.g.concepts && q.g.concepts[q.root].game == q.game) ==> Traverse(q) == []
  {
    if RootExists(q) {
      DistinctOnIsDistinct(AllRows(q));
      hide AllRows, IsDistinctOn, Shortest, Reachable, RowSound;
      TraversalIsShortestPaths(q, Traverse(q));
    }
  }

  // ----------------------------------------------------- what the filter admits

  /** A source counts under a set of active expansions: it belongs to the base game, or to one of
      them. */
  ghost predicate Counts(s: Source, active: set<ExpansionId>) {
    s.expansion.None? || s.expansion.value in active
  }

  /** One law for the three spellings of the filter: without one everything passes; otherwise some
      source of the concept must count. */
  lemma FilterLaw(q: Query, c: Id)
    ensures Passes(q, c)
       <==> q.active.None? || exists s :: s in q.g.sources && s.concept == c && Counts(s, q.active.value)
  {
    if q.active.Some? {
      var active := q.active.value;
      if Passes(q, c) {
        var i :| 0 <= i < |q.g.sources| && q.g.sources[i].concept == c && Counts(q.g.sources[i], active);
        assert q.g.sources[i] in q.g.sources;
      }
      if s :| s in q.g.sources && s.concept == c && Counts(s, active) {
        var i :| 0 <= i < |q.g.sources| && q.g.sources[i] == s;
        assert active == {} ==> q.g.sources[i].expansion.None?;
      }
    }
  }

  /** A stored canonical concept that has a source which counts, if there is a filter at all. */
  ghost predicate Eligible(q: Query, c: Id) {
    && c in q.g.concepts && q.g.concepts[c].canonical == None
    && (q.active.Some? ==> exists s :: s in q.g.sources && s.concept == c && Counts(s, q.active.value))
  }

  lemma AdmittedIsEligible(q: Query, c: Id)
    ensures Admitted(q, c) <==> Eligible(q, c)
  {
    hide Passes;
    FilterLaw(q, c);
  }

  /** A chain of associations from the root, every concept after the root eligible. */
  ghost predicate IsTrail(q: Query, trail: seq<Id>) {
    && trail != [] && trail[0] == q.root
    && forall i :: 0 < i < |trail| ==> Eligible(q, trail[i]) && Adjacent(q, trail[i - 1], trail[i])
  }

  ghost predicate TrailTo(q: Query, trail: seq<Id>, c: Id) { IsTrail(q, trail) && Last(trail) == c }

  lemma {:induction false} TrailOfWalk(q: Query, c: Id, n: nat) returns (trail: seq<Id>)
    requires Walk(q, c, n)
    ensures TrailTo(q, trail, c) && |trail| == n + 1
    decreases n
  {
    hide Eligible, Admitted;
    if n == 0 {
      trail := [q.root];
    } else {
      var b :| Walk(q, b, n - 1) && Adjacent(q, b, c);
      AdmittedIsEligible(q, c);
      var before := TrailOfWalk(q, b, n - 1);
      trail := before + [c];
    }
  }

  lemma {:induction false} WalkOfTrail(q: Query, trail: seq<Id>)
    requires IsTrail(q, trail)
    ensures Walk(q, Last(trail), |trail| - 1)
    decreases |trail|
  {
    hide Eligible, Admitted;
    if |trail| > 1 {
      var n := |trail| - 1;
      WalkOfTrail(q, trail[..n]);
      AdmittedIsEligible(q, trail[n]);
      assert Walk(q, trail[n - 1], n - 1) && Adjacent(q, trail[n - 1], trail[n]);
    }
  }

  /** The answer in terms of the rows: a concept other than the root is reported if and only if a
      trail within the limit leads to it. */
  lemma TraverseFollowsTrails(q: Query, c: Id)
    requires RootExists(q) && c != q.root
    ensures Reported(Traverse(q), c) <==> exists trail :: TrailTo(q, trail, c) && |trail| <= Limit(q) + 1
  {
    hide Traverse, Walk, IsTrail, RowSound, Shortest, IsDistinctOn, AllRows;
    TraverseAnswers(q);
    if n: nat :| n <= Limit(q) && Walk(q, c, n) {
      var trail := TrailOfWalk(q, c, n);
    }
    if trail :| TrailTo(q, trail, c) && |trail| <= Limit(q) + 1 {
      assert trail != [] by { NoEmptyTrail(q, trail); }
      WalkOfTrail(q, trail);
    }
  }

  lemma NoEmptyTrail(q: Query, trail: seq<Id>)
    requires IsTrail(q, trail)
    ensures trail != []
  {
  }

  /** A concept that one expansion alone sources is reported without a filter or with that
      expansion active, and then whenever a trail of eligible concepts leads to it. */
  lemma ExpansionConceptReported(q: Query, c: Id, e: ExpansionId)
    requires RootExists(q) && c != q.root
    requires forall s :: s in q.g.sources && s.concept == c ==> s.expansion == Some(e)
    ensures Reported(Traverse(q), c) ==> q.active.None? || e in q.active.value
    ensures forall b, trail ::
              TrailTo(q, trail, b) && |trail| <= Limit(q) && Adjacent(q, b, c) && Sourced(q.g, c)
              && c in q.g.concepts && q.g.concepts[c].canonical == None
              && (q.active.None? || e in q.active.value)
              ==> Reported(Traverse(q), c)
  {
    hide Traverse, Adjacent;
    TraverseFollowsTrails(q, c);
    if Reported(Traverse(q), c) {
      var trail :| TrailTo(q, trail, c);
      assert Eligible(q, trail[|trail| - 1]);
    }
    forall b, trail |
      TrailTo(q, trail, b) && |trail| <= Limit(q) && Adjacent(q, b, c) && Sourced(q.g, c)
      && c in q.g.concepts && q.g.concepts[c].canonical == None
      && (q.active.None? || e in q.active.value)
      ensures Reported(Traverse(q), c)
    {
      var s :| s in q.g.sources && s.concept == c;
      assert Eligible(q, c);
      assert TrailTo(q, trail + [c], c);
    }
  }

  /** The direct list, entry by entry: what it holds of an association of the game, and for which
      associations it holds anything. */
  lemma DirectEntries(q: Query, x: Direct)
    ensures x in Entries(q, q.g.associations, Outgoing) + Entries(q, q.g.associations, Incoming)
       <==> exists a :: a in q.g.associations && a.game == q.game
              && x.association == a.id && x.relationship == a.relationship && x.description == a.description
              && Eligible(q, x.related)
              && (if x.direction == Outgoing then a.source == q.root && a.target == x.related
                  else a.target == q.root && a.source == x.related)
  {
    hide Eligible, Admitted;
    AdmittedIsEligible(q, x.related);
    EntriesMembers(q, q.g.associations, Outgoing, x);
    EntriesMembers(q, q.g.associations, Incoming, x);
  }

  /** Entries keep the order of the associations they come from. */
  lemma {:induction false} EntriesInOrder(q: Query, rows: seq<Association>, direction: Direction)
    ensures var listed := Filter((a: Association) => IsDirect(q, a, direction), rows);
            && |Entries(q, rows, direction)| == |listed|
            && forall i :: 0 <= i < |listed| ==> Entries(q, rows, direction)[i].association == listed[i].id
  {
    hide IsDirect;
    if rows != [] {
      EntriesInOrder(q, rows[1..], direction);
    }
  }
}
