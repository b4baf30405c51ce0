/** The solver object: `nodes_` as an array of records that `Cover` and `Uncover` rewrite in
    place, and the backtracking search over them. */
module SudokuSolver {
  import opened DancingLinks
  import opened ExactCovers
  import opened PoolBuilding
  import opened SudokuRules
  import opened SudokuEncoding

  const MAX_NODES := 1 + 81 * 4 + 9 * 9 * 9 * 4
  const MAX_COLUMNS := 400

  /** No column of that number: the null pointer in `columns_`. */
  const NIL := -1

  lemma UnlinkablePrefix(m: Matrix, st: State, js: seq<int>, k: nat)
    requires Unlinkable(m, st, js) && k <= |js|
    ensures Unlinkable(m, st, js[..k])
  {
    assert forall j :: j in js[..k] ==> j in js;
  }

  /** After any prefix of a trace the pool is still linked. */
  lemma UnlinkedSoFar(m: Matrix, h: State, js: seq<int>, k: nat) returns (st: State)
    requires Linked(m, h) && Unlinkable(m, h, js) && k <= |js|
    ensures st == UnlinkNodes(m, h, js[..k])
    ensures Linked(m, st) && |st.pool| == |h.pool|
  {
    UnlinkablePrefix(m, h, js, k);
    UnlinkNodesLinked(m, h, js[..k]);
    st := UnlinkNodes(m, h, js[..k]);
    assert |st.pool| == |h.pool| by {
      UnlinkNodesSize(m, h, js[..k]);
    }
  }

  lemma {:induction false} UnlinkNodesSize(m: Matrix, st: State, js: seq<int>)
    ensures |UnlinkNodes(m, st, js).pool| == |st.pool|
  {
    if js != [] {
      UnlinkNodesSize(m, st, js[..|js| - 1]);
    }
  }

  /** The next node of a trace is still live, between neighbours that point at it. */
  lemma NextUnlink(m: Matrix, h: State, js: seq<int>, k: nat, st: State)
    requires Linked(m, h) && Unlinkable(m, h, js) && k < |js|
    requires st == UnlinkNodes(m, h, js[..k]) && Linked(m, st)
    ensures Wired(st.pool, js[k])
    ensures st.pool[st.pool[js[k]].down].up == js[k] && st.pool[st.pool[js[k]].up].down == js[k]
    ensures UnlinkNodes(m, h, js[..k + 1]).pool == Unlink(st.pool, js[k])
  {
    var j := js[k];
    UnlinkablePrefix(m, h, js, k);
    UnlinkNodesLinked(m, h, js[..k]);
    assert js[..k + 1][..k] == js[..k] && js[..k + 1][k] == j;
    assert j in js && j !in js[..k];
    assert RowOk(m, j);
    var c := m.col[j];
    assert c in m.cols && j in st.vert[c];
    var i := LiveNode(m, st, j);
  }

  /** A column off the trace keeps its ring. */
  lemma OffTrace(m: Matrix, h: State, js: seq<int>, k: nat, c: int)
    requires Linked(m, h) && Unlinkable(m, h, js) && k <= |js|
    requires c in m.cols && forall j :: j in js ==> m.col[j] != c
    ensures c in UnlinkNodes(m, h, js[..k]).vert && UnlinkNodes(m, h, js[..k]).vert[c] == h.vert[c]
  {
    UnlinkablePrefix(m, h, js, k);
    UnlinkNodesLinked(m, h, js[..k]);
    forall x | x in h.vert[c]
      ensures x !in js[..k]
    {
      OnColumn(m, h, c, x);
    }
  }

  function At(x: int, o: seq<int>, k: nat): (r: int)
    requires k <= |o|
  {
    if k < |o| then o[k] else x
  }

  function Before(x: int, o: seq<int>, k: nat): (r: int)
    requires k <= |o|
  {
    if k == 0 then x else o[k - 1]
  }

  /** Walking a row ring from `x` meets the other nodes in order and comes back to `x`. */
  lemma RowWalk(m: Matrix, st: State, x: int, k: nat)
    requires Linked(m, st) && x in m.others && k <= |m.others[x]|
    ensures var o := m.others[x];
      && InPool(st.pool, Before(x, o, k)) && InPool(st.pool, At(x, o, k))
      && st.pool[Before(x, o, k)].right == At(x, o, k) && st.pool[At(x, o, k)].left == Before(x, o, k)
      && (At(x, o, k) == x <==> k == |o|)
      && (Before(x, o, k) == x <==> k == 0)
  {
    assert RowOk(m, x) && RowLinked(m, st.pool, x);
    assert HLink(st.pool, [x] + m.others[x], k);
  }

  lemma ColumnWalk(m: Matrix, st: State, c: int, k: nat)
    requires Linked(m, st) && c in m.cols && k <= |st.vert[c]|
    ensures var v := st.vert[c];
      && InPool(st.pool, Before(c, v, k)) && InPool(st.pool, At(c, v, k))
      && st.pool[Before(c, v, k)].down == At(c, v, k) && st.pool[At(c, v, k)].up == Before(c, v, k)
      && (At(c, v, k) == c <==> k == |v|)
      && (Before(c, v, k) == c <==> k == 0)
  {
    var v := st.vert[c];
    assert ColumnLinked(m, st.pool, c, v);
    assert VLink(st.pool, [c] + v, k);
    OnColumn(m, st, c, c);
  }

  lemma HeaderWalk(m: Matrix, st: State, k: nat)
    requires Linked(m, st) && k <= |st.header|
    ensures var h := st.header;
      && InPool(st.pool, Before(m.root, h, k)) && InPool(st.pool, At(m.root, h, k))
      && st.pool[Before(m.root, h, k)].right == At(m.root, h, k) && st.pool[At(m.root, h, k)].left == Before(m.root, h, k)
      && (At(m.root, h, k) == m.root <==> k == |h|)
      && (Before(m.root, h, k) == m.root <==> k == 0)
  {
    assert HLink(st.pool, [m.root] + st.header, k);
    if k < |st.header| {
      assert st.header[k] in st.header;
    }
    if k > 0 {
      assert st.header[k - 1] in st.header;
    }
  }

  /** The pool when the inner loop of `cover` has unlinked the first `k` nodes beside `row`. */
  ghost function RowPool(m: Matrix, h: State, pre: seq<int>, row: int, k: nat): (p: Pool)
    requires row in m.others && k <= |m.others[row]|
  {
    UnlinkNodes(m, h, pre + m.others[row][..k]).pool
  }

  /** `ps[k]` is the pool when `k` of the nodes `o` beside `row` are unlinked: where the walk is
      then, and how to get to the next pool and back. */
  ghost predicate RowTraceAt(o: seq<int>, row: int, ps: seq<Pool>, k: nat) {
    && k <= |o| < |ps|
    && InPool(ps[k], Before(row, o, k)) && InPool(ps[k], At(row, o, k))
    && ps[k][Before(row, o, k)].right == At(row, o, k) && ps[k][At(row, o, k)].left == Before(row, o, k)
    && (At(row, o, k) == row <==> k == |o|)
    && (Before(row, o, k) == row <==> k == 0)
    && (k < |o| ==> Wired(ps[k], o[k]) && ps[k][ps[k][o[k]].down].up == o[k] && ps[k][ps[k][o[k]].up].down == o[k]
                    && ps[k + 1] == Unlink(ps[k], o[k]))
  }

  ghost predicate RowTrace(o: seq<int>, row: int, ps: seq<Pool>) {
    |ps| == |o| + 1 && forall k: nat {:trigger RowTraceAt(o, row, ps, k)} :: k <= |o| ==> RowTraceAt(o, row, ps, k)
  }

  lemma RowTraceOf(m: Matrix, h: State, pre: seq<int>, row: int) returns (ps: seq<Pool>)
    requires row in m.others && Linked(m, h) && Unlinkable(m, h, pre + m.others[row])
    ensures RowTrace(m.others[row], row, ps)
    ensures ps[0] == UnlinkNodes(m, h, pre).pool && ps[|m.others[row]|] == UnlinkNodes(m, h, pre + m.others[row]).pool
  {
    var o := m.others[row];
    ps := seq(|o| + 1, k requires 0 <= k <= |o| => RowPool(m, h, pre, row, k));
    forall k: nat | k <= |o|
      ensures RowTraceAt(o, row, ps, k)
    {
      RowStep(m, h, pre, row, k);
    }
    assert pre + o[..0] == pre && o[..|o|] == o;
  }

  lemma RowStep(m: Matrix, h: State, pre: seq<int>, row: int, k: nat)
    requires row in m.others && Linked(m, h) && Unlinkable(m, h, pre + m.others[row]) && k <= |m.others[row]|
    ensures var o, p := m.others[row], RowPool(m, h, pre, row, k);
      && InPool(p, Before(row, o, k)) && InPool(p, At(row, o, k))
      && p[Before(row, o, k)].right == At(row, o, k) && p[At(row, o, k)].left == Before(row, o, k)
      && (At(row, o, k) == row <==> k == |o|)
      && (Before(row, o, k) == row <==> k == 0)
      && (k < |o| ==> Wired(p, o[k]) && p[p[o[k]].down].up == o[k] && p[p[o[k]].up].down == o[k]
                      && RowPool(m, h, pre, row, k + 1) == Unlink(p, o[k]))
  {
    var o := m.others[row];
    var js, n := pre + o, |pre| + k;
    assert js[..n] == pre + o[..k];
    var st := UnlinkedSoFar(m, h, js, n);
    RowWalk(m, st, row, k);
    if k < |o| {
      assert js[..n + 1] == pre + o[..k + 1];
      NextUnlink(m, h, js, n, st);
    }
  }

  /** `columns_` finds exactly the columns appended so far, by number. */
  ghost predicate Indexed(columns: seq<int>, ids: map<int, int>, cols: set<int>) {
    && |columns| == MAX_COLUMNS
    && (forall n :: n in ids ==> 0 <= n < MAX_COLUMNS && columns[n] == ids[n] && ids[n] in cols)
    && (forall n :: 0 <= n < MAX_COLUMNS && n !in ids ==> columns[n] == NIL)
    && (forall n, n' :: n in ids && n' in ids && ids[n] == ids[n'] ==> n == n')
    && (forall c :: c in cols ==> exists n :: n in ids && ids[n] == c)
  }

  /** Items whose unit and digit come before `k` in the constructor's order. */
  ghost predicate Listed(g: Board, n: int, k: int) {
    if n < 100 then IsItem(g, n)
    else exists u, v :: IsUnit(u) && IsDigit(v) && u * 10 + v < k && IsUnitItem(g, n, u, v)
  }

  lemma ListedStep(g: Board, u: int, v: int, n: int)
    requires IsUnit(u) && IsDigit(v)
    ensures Listed(g, n, u * 10 + v + 1) <==>
            || Listed(g, n, u * 10 + v)
            || (n == RowName(u, v) && !RowUses(g, u, v))
            || (n == ColName(u, v) && !ColUses(g, u, v))
            || (n == BoxName(u, v) && !BoxUses(g, u, v))
    ensures !Listed(g, RowName(u, v), u * 10 + v) && !Listed(g, ColName(u, v), u * 10 + v) && !Listed(g, BoxName(u, v), u * 10 + v)
  {
    forall u', v' | IsUnit(u') && IsDigit(v')
      ensures u' * 10 + v' < u * 10 + v + 1 <==> u' * 10 + v' < u * 10 + v || (u' == u && v' == v)
    {
    }
    forall u', v' | IsUnit(u') && IsDigit(v') && u' * 10 + v' < u * 10 + v
      ensures !IsUnitItem(g, RowName(u, v), u', v') && !IsUnitItem(g, ColName(u, v), u', v') && !IsUnitItem(g, BoxName(u, v), u', v')
    {
      UnitItemIs(g, u, v, u', v');
    }
    assert IsUnitItem(g, n, u, v) ==> Listed(g, n, u * 10 + v + 1);
  }

  lemma ListedEnds(g: Board, u: int, n: int)
    requires 0 <= u <= 9
    ensures Listed(g, n, u * 10) <==> Listed(g, n, u * 10 + 1)
    ensures Listed(g, n, 1) <==> IsItem(g, n) && n < 100
    ensures Listed(g, n, 91) <==> IsItem(g, n)
    ensures IsItem(g, n) && n < 100 ==> n < 81
    ensures IsItem(g, n) ==> 0 <= n < 400
  {
    forall u', v' | IsUnit(u') && IsDigit(v')
      ensures u' * 10 + v' != u * 10 && 1 <= u' * 10 + v' < 91
    {
    }
  }

  lemma ListedKeys(g: Board, u: int, v: int, was: set<int>, now: set<int>)
    requires IsUnit(u) && IsDigit(v) && forall n :: n in was <==> Listed(g, n, u * 10 + v)
    requires now == was + (if RowUses(g, u, v) then {} else {RowName(u, v)})
                        + (if ColUses(g, u, v) then {} else {ColName(u, v)})
                        + (if BoxUses(g, u, v) then {} else {BoxName(u, v)})
    ensures forall n :: n in now <==> Listed(g, n, u * 10 + v + 1)
  {
    forall n
      ensures n in now <==> Listed(g, n, u * 10 + v + 1)
    {
      ListedStep(g, u, v, n);
      assert n in was <==> Listed(g, n, u * 10 + v);
    }
  }

  lemma IndexedAfterAppend(columns: seq<int>, ids: map<int, int>, cols: set<int>, n: int, c: int)
    requires Indexed(columns, ids, cols) && 0 <= n < MAX_COLUMNS && n !in ids && c !in cols
    ensures Indexed(columns[n := c], ids[n := c], cols + {c})
  {
    var ids' := ids[n := c];
    forall d | d in cols + {c}
      ensures exists k :: k in ids' && ids'[k] == d
    {
      if d == c {
        assert ids'[n] == c;
      } else {
        var k :| k in ids && ids[k] == d;
        assert ids'[k] == d;
      }
    }
  }

  ghost predicate Tables(g: Board, rows: array2<bool>, cols: array2<bool>, boxes: array2<bool>)
    reads rows, cols, boxes
  {
    && rows.Length0 == cols.Length0 == boxes.Length0 == 81 && rows.Length1 == cols.Length1 == boxes.Length1 == 10
    && (forall u, v :: 0 <= u < 9 && 0 <= v < 10 ==> rows[u, v] == RowUses(g, u, v))
    && (forall u, v :: 0 <= u < 9 && 0 <= v < 10 ==> cols[u, v] == ColUses(g, u, v))
    && (forall u, v :: 0 <= u < 9 && 0 <= v < 10 ==> boxes[u, v] == BoxUses(g, u, v))
  }

  /** `m'` is `m` with the row of option `o`, which can be joined. */
  ghost predicate OptionRow(m: Matrix, ids: map<int, int>, x: int, o: (int, int), m': Matrix) {
    && (forall n :: n in OptionItems(o) ==> n in ids)
    && RowJoinable(OptionNodes(m, ids, x, o), x) && m' == WithOption(m, ids, x, o)
  }

  lemma OptionFits(g: Board, m: Matrix, ids: map<int, int>, choice: Choice, x: int, o: (int, int))
      returns (m': Matrix, choice': Choice)
    requires MatrixOk(m) && RowsEncode(g, m, ids, choice) && IsOption(g, o) && (forall n :: n in ids <==> IsItem(g, n))
    requires !HasRow(m, choice, o)
    requires forall z :: z in m.others ==> z < x
    requires forall n, n' :: n in ids && n' in ids && ids[n] == ids[n'] ==> n == n'
    ensures OptionRow(m, ids, x, o, m') && RowsEncode(g, m', ids, choice')
    ensures forall o' :: HasRow(m', choice', o') <==> HasRow(m, choice, o') || o' == o
  {
    forall n | n in OptionItems(o)
      ensures n in ids
    {
      OptionItemsAreItems(g, o, n);
    }
    FourNodesJoinable(g, m, ids, x, o);
    WithOptionEncodes(g, m, ids, choice, x, o);
    m', choice' := WithOption(m, ids, x, o), WithChoice(choice, x, o);
  }

  /** The row of the next option fits, and brings the encoding past that option. */
  lemma NextOptionFits(g: Board, m: Matrix, ids: map<int, int>, choice: Choice, x: int, i: int, v: int)
      returns (m': Matrix, choice': Choice)
    requires MatrixOk(m) && RowsEncode(g, m, ids, choice) && IsOption(g, (i, v)) && (forall n :: n in ids <==> IsItem(g, n))
    requires RowsUpTo(g, m, choice, i, v)
    requires forall z :: z in m.others ==> z < x
    requires forall n, n' :: n in ids && n' in ids && ids[n] == ids[n'] ==> n == n'
    ensures OptionRow(m, ids, x, (i, v), m') && RowsEncode(g, m', ids, choice') && RowsUpTo(g, m', choice', i, v + 1)
  {
    assert !Earlier(g, (i, v), i, v);
    m', choice' := OptionFits(g, m, ids, choice, x, (i, v));
    RowAdded(g, m, choice, m', choice', i, v);
  }

  /** Some cell before `i` that `unit` sends to `u` holds digit `v`. */
  ghost predicate Seen(unit: int -> int, g: Board, i: nat, u: int, v: int)
    requires i <= 81
  {
    i > 0 && (Seen(unit, g, i - 1, u, v) || (unit(i - 1) == u && g[i - 1] == v))
  }

  lemma {:induction false} SeenIsExists(unit: int -> int, g: Board, i: nat, u: int, v: int)
    requires i <= 81
    ensures Seen(unit, g, i, u, v) <==> exists k :: 0 <= k < i && unit(k) == u && g[k] == v
  {
    if i > 0 {
      SeenIsExists(unit, g, i - 1, u, v);
    }
  }

  lemma SeenAll(g: Board, u: int, v: int)
    ensures Seen(RowOf, g, 81, u, v) == RowUses(g, u, v)
    ensures Seen(ColOf, g, 81, u, v) == ColUses(g, u, v)
    ensures Seen(BoxOf, g, 81, u, v) == BoxUses(g, u, v)
  {
    SeenIsExists(RowOf, g, 81, u, v);
    SeenIsExists(ColOf, g, 81, u, v);
    SeenIsExists(BoxOf, g, 81, u, v);
    assert forall k :: IsCell(k) <==> 0 <= k < 81;
  }

  ghost predicate Table(unit: int -> int, g: Board, i: nat, t: array2<bool>)
    requires i <= 81
    reads t
  {
    t.Length0 == 81 && t.Length1 == 10 && forall u, v :: 0 <= u < 9 && 0 <= v < 10 ==> t[u, v] == Seen(unit, g, i, u, v)
  }

  /** Which digits the givens use in each row, column and box. */
  method ScanGivens(board: array<int>) returns (rows: array2<bool>, cols: array2<bool>, boxes: array2<bool>)
    requires board.Length == 81 && Givens(board[..])
    ensures Tables(board[..], rows, cols, boxes) && fresh(rows) && fresh(cols) && fresh(boxes)
  {
    rows := new bool[81, 10]((i, j) => false);
    cols := new bool[81, 10]((i, j) => false);
    boxes := new bool[81, 10]((i, j) => false);
    ghost var g: Board := board[..];
    for i := 0 to 81
      invariant fresh(rows) && fresh(cols) && fresh(boxes) && rows != cols && rows != boxes && cols != boxes
      invariant Table(RowOf, g, i, rows) && Table(ColOf, g, i, cols) && Table(BoxOf, g, i, boxes)
    {
      var row, col, val := i / 9, i % 9, board[i];
      var box := row / 3 * 3 + col / 3;
      assert IsCell(i) && val == g[i];
      UnitsInRange(i);
      rows[row, val] := true;
      cols[col, val] := true;
      boxes[box, val] := true;
    }
    forall u, v
      ensures Seen(RowOf, g, 81, u, v) == RowUses(g, u, v)
      ensures Seen(ColOf, g, 81, u, v) == ColUses(g, u, v)
      ensures Seen(BoxOf, g, 81, u, v) == BoxUses(g, u, v)
    {
      SeenAll(g, u, v);
    }
  }

  class SudokuSolver {
    const root: int
    const nodes: array<Node>
    const board: array<int>
    const columns: array<int>
    var stack: seq<int>
    var curNode: nat
    ghost var mat: Matrix
    ghost var built: State
    ghost var ids: map<int, int>
    ghost var choice: Choice

    // ----- construction

    /** The matrix of the givens on `b`. */
    constructor (b: array<int>)
      requires b.Length == 81 && Givens(b[..])
      ensures board == b && fresh(nodes) && stack == []
      ensures Inv(mat, built) && Active(built) == mat.cols && nodes[..] == built.pool && mat.root == root
      ensures Labelled(mat, choice, 81) && Encodes(b[..], mat, ids, choice)
    {
      board := b;
      stack := [];
      nodes := new Node[MAX_NODES](_ => Node(0, 0, 0, 0, 0, 0, 0));
      columns := new int[MAX_COLUMNS](_ => NIL);
      curNode := 0;
      root := 0;
      mat, built := Matrix(0, {}, map[], map[], map[]), State([], [], map[]);
      ids, choice := map[], map[];
      new;
      StartPool();
      Build(b[..]);
    }

    /** The root column, alone on the header ring. */
    method StartPool()
      requires nodes.Length == MAX_NODES && columns.Length == MAX_COLUMNS && columns != board
      requires curNode == 0 && root == 0 && mat == Matrix(0, {}, map[], map[], map[]) && ids == map[]
      requires forall n :: 0 <= n < MAX_COLUMNS ==> columns[n] == NIL
      modifies nodes, `curNode, `built
      ensures Valid() && curNode == 1
    {
      var r := NewColumn(0);
      built := State(nodes[..], [], map[]);
      assert HLink(nodes[..], [root], 0) && [mat.root] + built.header == [root];
    }

    method Build(ghost g: Board)
      requires Valid() && board.Length == 81 && board[..] == g && Givens(g) && curNode == 1
      requires mat == Matrix(0, {}, map[], map[], map[]) && ids == map[] && choice == map[]
      modifies nodes, columns, `curNode, `mat, `built, `ids, `choice
      ensures Inv(mat, built) && Active(built) == mat.cols && nodes[..] == built.pool && mat.root == root
      ensures Labelled(mat, choice, 81) && Encodes(g, mat, ids, choice)
    {
      var rows, cols, boxes := ScanGivens(board);
      AppendColumns(rows, cols, boxes, g);
      NoRowsYet(g, mat, choice);
      AppendRows(rows, cols, boxes, g);
      AllRows(g, mat, choice);
      BuiltIsInv(mat, built, curNode);
    }

    ghost predicate Valid()
      reads this, nodes, columns
    {
      var wellBuilt, wellIndexed := Building(mat, built, curNode), Indexed(columns[..], ids, mat.cols);
      && nodes.Length == MAX_NODES && columns != board
      && wellBuilt && nodes[..] == built.pool && mat.root == root
      && wellIndexed
    }

    method NewColumn(n: int) returns (c: int)
      requires curNode < nodes.Length
      modifies nodes, `curNode
      ensures c == old(curNode) && curNode == c + 1
      ensures nodes[..] == Isolated(old(nodes[..]), c, c, n)
    {
      c := curNode;
      nodes[c] := Node(c, c, c, c, c, n, 0);
      curNode := curNode + 1;
    }

    method InsertLeft(o: int, n: int)
      requires InPool(nodes[..], o) && InPool(nodes[..], n) && InPool(nodes[..], nodes[o].left) && o != n
      modifies nodes
      ensures nodes[..] == PutLeft(old(nodes[..]), o, n)
    {
      nodes[n] := nodes[n].(left := nodes[o].left);
      nodes[n] := nodes[n].(right := o);
      nodes[nodes[o].left] := nodes[nodes[o].left].(right := n);
      nodes[o] := nodes[o].(left := n);
    }

    method InsertUp(o: int, n: int)
      requires InPool(nodes[..], o) && InPool(nodes[..], n) && InPool(nodes[..], nodes[o].up) && o != n
      modifies nodes
      ensures nodes[..] == PutUp(old(nodes[..]), o, n)
    {
      nodes[n] := nodes[n].(up := nodes[o].up);
      nodes[n] := nodes[n].(down := o);
      nodes[nodes[o].up] := nodes[nodes[o].up].(down := n);
      nodes[o] := nodes[o].(up := n);
      nodes[o] := nodes[o].(size := nodes[o].size + 1);
      nodes[n] := nodes[n].(col := o);
    }

    method AppendColumn(n: int)
      requires Valid() && 0 <= n < MAX_COLUMNS && n !in ids && curNode < MAX_NODES
      modifies nodes, columns, `curNode, `mat, `built, `ids
      ensures Valid() && curNode == old(curNode) + 1 && ids.Keys == old(ids.Keys) + {n}
      ensures mat == WithColumn(old(mat), old(curNode))
    {
      assert columns[n] == NIL;
      ghost var r := AppendColumnBuilds(mat, built, curNode, n);
      IndexedAfterAppend(columns[..], ids, mat.cols, n, curNode);
      var c := NewColumn(n);
      InsertLeft(root, c);
      columns[n] := c;
      ids := ids[n := c];
      mat, built := WithColumn(mat, c), r;
    }

    method NewRow(n: int) returns (x: int)
      requires Valid() && n in ids && curNode < MAX_NODES
      modifies nodes, `curNode, `mat, `built
      ensures Valid() && x == old(curNode) && curNode == x + 1
      ensures mat == WithNode(old(mat), x, ids[n], n)
    {
      assert columns[n] != NIL;
      ghost var r := NewNodeBuilds(mat, built, curNode, ids[n], n);
      x := curNode;
      nodes[x] := Node(x, x, x, x, columns[n], n, 0);
      curNode := curNode + 1;
      InsertUp(columns[n], x);
      mat, built := WithNode(mat, x, ids[n], n), r;
    }

    /** Two nodes, each at the bottom of its column. */
    method NewPair(i: int, r: int) returns (n0: int, nr: int)
      requires Valid() && i in ids && r in ids && curNode + 2 <= MAX_NODES
      modifies nodes, `curNode, `mat, `built
      ensures Valid() && n0 == old(curNode) && nr == n0 + 1 && curNode == n0 + 2
      ensures mat == WithNode(WithNode(old(mat), n0, ids[i], i), n0 + 1, ids[r], r)
    {
      n0 := NewRow(i);
      nr := NewRow(r);
    }

    /** Four nodes, each at the bottom of its column. */
    method NewNodes(i: int, r: int, c: int, b: int) returns (n0: int, nr: int, nc: int, nb: int)
      requires Valid() && i in ids && r in ids && c in ids && b in ids && curNode + 4 <= MAX_NODES
      modifies nodes, `curNode, `mat, `built
      ensures Valid() && n0 == old(curNode) && nr == n0 + 1 && nc == n0 + 2 && nb == n0 + 3 && curNode == n0 + 4
      ensures mat == FourNodes(old(mat), ids, n0, i, r, c, b)
    {
      n0, nr := NewPair(i, r);
      nc, nb := NewPair(c, b);
    }

    /** Three insertions make one ring of four nodes that are alone on their rows. */
    method JoinNodes(n0: int, nr: int, nc: int, nb: int)
      requires InPool(nodes[..], n0) && InPool(nodes[..], nr) && InPool(nodes[..], nc) && InPool(nodes[..], nb)
      requires n0 != nr && n0 != nc && n0 != nb && nr != nc && nr != nb && nc != nb && nodes[n0].left == n0
      modifies nodes
      ensures nodes[..] == JoinPool(old(nodes[..]), n0, nr, nc, nb)
      ensures HRing(nodes[..], [n0, nr, nc, nb])
    {
      ghost var p := nodes[..];
      InsertLeft(n0, nr);
      InsertLeft(n0, nc);
      InsertLeft(n0, nb);
      JoinedRing(p, n0, nr, nc, nb);
      assert [n0] + [nr, nc, nb] == [n0, nr, nc, nb];
    }

    method JoinRow(n0: int, nr: int, nc: int, nb: int)
      requires Valid() && RowJoinable(mat, n0) && nr == n0 + 1 && nc == n0 + 2 && nb == n0 + 3
      modifies nodes, `mat, `built
      ensures Valid() && mat == RowJoined(old(mat), n0)
    {
      ghost var r := JoinBuilds(mat, built, curNode, n0, nr, nc, nb);
      JoinNodes(n0, nr, nc, nb);
      mat, built := RowJoined(mat, n0), r;
    }

    /** One row of the matrix, hitting four columns. */
    method AddRow(i: int, r: int, c: int, b: int, ghost m': Matrix)
      requires Valid() && i in ids && r in ids && c in ids && b in ids && curNode + 4 <= MAX_NODES
      requires RowJoinable(FourNodes(mat, ids, curNode, i, r, c, b), curNode)
      requires m' == RowJoined(FourNodes(mat, ids, curNode, i, r, c, b), curNode)
      modifies nodes, `curNode, `mat, `built
      ensures Valid() && curNode == old(curNode) + 4 && mat == m'
    {
      var n0, nr, nc, nb := NewNodes(i, r, c, b);
      JoinRow(n0, nr, nc, nb);
    }

    method AppendUnless(used: bool, n: int)
      requires Valid() && 0 <= n < MAX_COLUMNS && n !in ids && curNode < MAX_NODES
      modifies nodes, columns, `curNode, `mat, `built, `ids
      ensures Valid() && old(curNode) <= curNode <= old(curNode) + 1 && mat.others == old(mat.others)
      ensures ids.Keys == old(ids.Keys) + if used then {} else {n}
    {
      if !used {
        AppendColumn(n);
      }
    }

    method AppendThree(usedR: bool, r: int, usedC: bool, c: int, usedB: bool, b: int)
      requires Valid() && 0 <= r < c < b < MAX_COLUMNS && r !in ids && c !in ids && b !in ids && curNode + 3 <= MAX_NODES
      modifies nodes, columns, `curNode, `mat, `built, `ids
      ensures Valid() && old(curNode) <= curNode <= old(curNode) + 3 && mat.others == old(mat.others)
      ensures ids.Keys == old(ids.Keys) + (if usedR then {} else {r}) + (if usedC then {} else {c}) + (if usedB then {} else {b})
    {
      AppendUnless(usedR, r);
      AppendUnless(usedC, c);
      AppendUnless(usedB, b);
    }

    method AppendUnitColumns(u: int, v: int, rows: array2<bool>, cols: array2<bool>, boxes: array2<bool>, ghost g: Board)
      requires Valid() && IsUnit(u) && IsDigit(v) && Tables(g, rows, cols, boxes) && curNode + 3 <= MAX_NODES
      requires forall n :: n in ids <==> Listed(g, n, u * 10 + v)
      modifies nodes, columns, `curNode, `mat, `built, `ids
      ensures Valid() && old(curNode) <= curNode <= old(curNode) + 3 && mat.others == old(mat.others)
      ensures forall n :: n in ids <==> Listed(g, n, u * 10 + v + 1)
    {
      ghost var was := ids.Keys;
      NamesApart(0, u, v, u, v);
      ListedStep(g, u, v, 0);
      AppendThree(rows[u, v], RowName(u, v), cols[u, v], ColName(u, v), boxes[u, v], BoxName(u, v));
      ListedKeys(g, u, v, was, ids.Keys);
    }

    /** One column per item. */
    method AppendColumns(rows: array2<bool>, cols: array2<bool>, boxes: array2<bool>, ghost g: Board)
      requires Valid() && Tables(g, rows, cols, boxes) && board[..] == g && curNode == 1 && ids == map[]
      modifies nodes, columns, `curNode, `mat, `built, `ids
      ensures Valid() && curNode <= 325 && mat.others == old(mat.others)
      ensures forall n :: n in ids <==> IsItem(g, n)
    {
      for i := 0 to 81
        invariant Valid() && curNode <= 1 + i && mat.others == old(mat.others)
        invariant forall n :: n in ids <==> IsItem(g, n) && n < i
      {
        if board[i] == 0 {
          AppendColumn(i);
        }
      }
      forall n
        ensures n in ids <==> Listed(g, n, 1)
      {
        ListedEnds(g, 0, n);
      }
      for u := 0 to 9
        invariant Valid() && curNode <= 82 + 27 * u && mat.others == old(mat.others)
        invariant forall n :: n in ids <==> Listed(g, n, u * 10 + 1)
      {
        for v := 1 to 10
          invariant Valid() && curNode <= 82 + 27 * u + 3 * (v - 1) && mat.others == old(mat.others)
          invariant forall n :: n in ids <==> Listed(g, n, u * 10 + v)
        {
          AppendUnitColumns(u, v, rows, cols, boxes, g);
        }
        forall n
          ensures n in ids <==> Listed(g, n, (u + 1) * 10 + 1)
        {
          ListedEnds(g, u + 1, n);
        }
      }
      forall n
        ensures n in ids <==> IsItem(g, n)
      {
        ListedEnds(g, 9, n);
      }
    }

    /** The rows so far are one for each option before digit `v` of cell `i`, and no others. */
    ghost predicate Encoding(g: Board, i: int, v: int)
      reads this
    {
      var encoded, upTo := RowsEncode(g, mat, ids, choice), RowsUpTo(g, mat, choice, i, v);
      encoded && upTo && forall n :: n in ids <==> IsItem(g, n)
    }

    method AddOptionRow(i: int, v: int, ghost m': Matrix)
      requires Valid() && curNode + 4 <= MAX_NODES && OptionRow(mat, ids, curNode, (i, v), m')
      modifies nodes, `curNode, `mat, `built
      ensures Valid() && curNode == old(curNode) + 4 && mat == m'
    {
      var row, col := i / 9, i % 9;
      var box := row / 3 * 3 + col / 3;
      AddRow(i, RowName(row, v), ColName(col, v), BoxName(box, v), m');
    }

    method AddLabelledRow(i: int, v: int, ghost g: Board, ghost m': Matrix, ghost c': Choice)
      requires Valid() && curNode + 4 <= MAX_NODES && OptionRow(mat, ids, curNode, (i, v), m')
      requires RowsEncode(g, m', ids, c') && RowsUpTo(g, m', c', i, v + 1) && forall n :: n in ids <==> IsItem(g, n)
      modifies nodes, `curNode, `mat, `built, `choice
      ensures Valid() && Encoding(g, i, v + 1) && curNode == old(curNode) + 4
    {
      AddOptionRow(i, v, m');
      choice := c';
    }

    /** The row for digit `v` in cell `i`, which is the next option. */
    method AddOption(i: int, v: int, ghost g: Board)
      requires Valid() && Encoding(g, i, v) && IsOption(g, (i, v)) && curNode + 4 <= MAX_NODES
      modifies nodes, `curNode, `mat, `built, `choice
      ensures Valid() && Encoding(g, i, v + 1) && curNode == old(curNode) + 4
    {
      ghost var m, d, c, x := mat, ids, choice, curNode;
      ghost var m', c' := NextOptionFits(g, m, d, c, x, i, v);
      AddLabelledRow(i, v, g, m', c');
    }

    /** The row for digit `v` in cell `i`, unless the givens forbid it. */
    method AddIfAllowed(i: int, v: int, rows: array2<bool>, cols: array2<bool>, boxes: array2<bool>, ghost g: Board)
      requires Valid() && Tables(g, rows, cols, boxes) && IsCell(i) && g[i] == 0 && IsDigit(v) && curNode + 4 <= MAX_NODES && Encoding(g, i, v)
      modifies nodes, `curNode, `mat, `built, `choice
      ensures Valid() && Encoding(g, i, v + 1) && curNode <= old(curNode) + 4
    {
      var row, col := i / 9, i % 9;
      var box := row / 3 * 3 + col / 3;
      UnitsInRange(i);
      if !(rows[row, v] || cols[col, v] || boxes[box, v]) {
        assert IsOption(g, (i, v));
        AddOption(i, v, g);
      } else {
        RowSkipped(g, mat, choice, i, v);
      }
    }

    /** The rows of one empty cell. */
    method AppendCellRows(i: int, rows: array2<bool>, cols: array2<bool>, boxes: array2<bool>, ghost g: Board)
      requires Valid() && Tables(g, rows, cols, boxes) && IsCell(i) && g[i] == 0 && curNode + 36 <= MAX_NODES && Encoding(g, i, 1)
      modifies nodes, `curNode, `mat, `built, `choice
      ensures Valid() && Encoding(g, i + 1, 1) && curNode <= old(curNode) + 36
    {
      for v := 1 to 10
        invariant Valid() && Encoding(g, i, v) && curNode <= old(curNode) + 4 * (v - 1)
      {
        AddIfAllowed(i, v, rows, cols, boxes, g);
      }
      CellDone(g, mat, choice, i);
    }

    /** One row per option. */
    method AppendRows(rows: array2<bool>, cols: array2<bool>, boxes: array2<bool>, ghost g: Board)
      requires Valid() && Tables(g, rows, cols, boxes) && board[..] == g && curNode <= 325 && Encoding(g, 0, 1)
      modifies nodes, `curNode, `mat, `built, `choice
      ensures Valid() && Encoding(g, 81, 1)
    {
      for i := 0 to 81
        invariant Valid() && Encoding(g, i, 1) && curNode <= 325 + 36 * i
      {
        if board[i] == 0 {
          AppendCellRows(i, rows, cols, boxes, g);
        } else {
          CellGiven(g, mat, choice, i);
        }
      }
    }

    // ----- single links

    method UnlinkAt(j: int)
      requires Wired(nodes[..], j)
      modifies nodes
      ensures nodes[..] == Unlink(old(nodes[..]), j)
    {
      nodes[nodes[j].down] := nodes[nodes[j].down].(up := nodes[j].up);
      nodes[nodes[j].up] := nodes[nodes[j].up].(down := nodes[j].down);
      nodes[nodes[j].col] := nodes[nodes[j].col].(size := nodes[nodes[j].col].size - 1);
    }

    method RelinkAt(j: int)
      requires Wired(nodes[..], j)
      modifies nodes
      ensures nodes[..] == Relink(old(nodes[..]), j)
    {
      nodes[nodes[j].col] := nodes[nodes[j].col].(size := nodes[nodes[j].col].size + 1);
      nodes[nodes[j].down] := nodes[nodes[j].down].(up := j);
      nodes[nodes[j].up] := nodes[nodes[j].up].(down := j);
    }

    // ----- cover and uncover

    /** The inner loop of `cover`: unlink the other nodes of `row`, rightwards. */
    method UnlinkRow(row: int, ghost o: seq<int>, ghost ps: seq<Pool>)
      requires RowTrace(o, row, ps) && nodes[..] == ps[0]
      modifies nodes
      ensures nodes[..] == ps[|o|]
    {
      ghost var k := 0;
      assert RowTraceAt(o, row, ps, 0);
      var j := nodes[row].right;
      while j != row
        invariant k <= |o| && j == At(row, o, k) && (j == row <==> k == |o|)
        invariant nodes[..] == ps[k]
        decreases |o| - k
      {
        assert RowTraceAt(o, row, ps, k) && RowTraceAt(o, row, ps, k + 1);
        UnlinkAt(j);
        k := k + 1;
        j := nodes[j].right;
      }
    }

    /** The outer loop of `cover`: the rows of `c`, downwards. */
    method UnlinkRows(c: int, ghost st: State)
      requires Inv(mat, st) && c in st.header
      requires nodes[..] == CoverHeader(st, c).pool
      modifies nodes
      ensures nodes[..] == DancingLinks.Cover(mat, st, c).pool
    {
      ghost var m := mat;
      CoverTrace(m, st, c);
      CoverHeaderLinked(m, st, c);
      ghost var h, xs := CoverHeader(st, c), st.vert[c];
      ghost var js := Trace(m, xs);
      ghost var i := 0;
      ColumnStep(m, h, js, c, xs, i);
      var row := nodes[c].down;
      while row != c
        invariant i <= |xs| && row == At(c, xs, i) && (row == c <==> i == |xs|)
        invariant RowsKnown(m, xs[..i]) && nodes[..] == UnlinkNodes(m, h, Trace(m, xs[..i])).pool
        decreases |xs| - i
      {
        TracePrefix(m, xs, i);
        UnlinkablePrefix(m, h, js, |Trace(m, xs[..i + 1])|);
        ghost var ps := RowTraceOf(m, h, Trace(m, xs[..i]), row);
        UnlinkRow(row, m.others[row], ps);
        i := i + 1;
        ColumnStep(m, h, js, c, xs, i);
        row := nodes[row].down;
      }
      assert xs[..i] == xs;
    }

    /** `CoverRefines` says what the covered pool means. */
    method Cover(c: int, ghost st: State)
      requires Inv(mat, st) && nodes[..] == st.pool && c in st.header
      modifies nodes
      ensures nodes[..] == DancingLinks.Cover(mat, st, c).pool
    {
      ghost var at := LiveHeader(mat, st, c);
      nodes[nodes[c].right] := nodes[nodes[c].right].(left := nodes[c].left);
      nodes[nodes[c].left] := nodes[nodes[c].left].(right := nodes[c].right);
      assert nodes[..] == CoverHeader(st, c).pool;
      UnlinkRows(c, st);
    }

    /** The inner loop of `uncover`: relink the other nodes of `row`, leftwards. */
    method RelinkRow(row: int, ghost o: seq<int>, ghost ps: seq<Pool>)
      requires RowTrace(o, row, ps) && nodes[..] == ps[|o|]
      modifies nodes
      ensures nodes[..] == ps[0]
    {
      ghost var k: nat := |o|;
      assert RowTraceAt(o, row, ps, k);
      var j := nodes[row].left;
      while j != row
        invariant k <= |o| && j == Before(row, o, k) && (j == row <==> k == 0)
        invariant nodes[..] == ps[k]
        decreases k
      {
        k := k - 1;
        assert RowTraceAt(o, row, ps, k);
        RelinkUndoesUnlink(ps[k], j);
        RelinkAt(j);
        j := nodes[j].left;
      }
    }

    /** The outer loop of `uncover`: the rows of `c`, upwards. */
    method RelinkRows(c: int, ghost st: State)
      requires Inv(mat, st) && c in st.header
      requires nodes[..] == DancingLinks.Cover(mat, st, c).pool
      modifies nodes
      ensures nodes[..] == CoverHeader(st, c).pool
    {
      ghost var m := mat;
      CoverTrace(m, st, c);
      CoverHeaderLinked(m, st, c);
      ghost var h, xs := CoverHeader(st, c), st.vert[c];
      ghost var js := Trace(m, xs);
      ghost var i: nat := |xs|;
      assert xs[..i] == xs;
      ColumnStep(m, h, js, c, xs, i);
      var row := nodes[c].up;
      while row != c
        invariant i <= |xs| && row == Before(c, xs, i) && (row == c <==> i == 0)
        invariant RowsKnown(m, xs[..i]) && nodes[..] == UnlinkNodes(m, h, Trace(m, xs[..i])).pool
        decreases i
      {
        i := i - 1;
        TracePrefix(m, xs, i);
        UnlinkablePrefix(m, h, js, |Trace(m, xs[..i + 1])|);
        ghost var ps := RowTraceOf(m, h, Trace(m, xs[..i]), row);
        RelinkRow(row, m.others[row], ps);
        ColumnStep(m, h, js, c, xs, i);
        row := nodes[row].up;
      }
    }

    /** Undo a cover: the pool is again, link for link and size for size, the one before it. */
    method Uncover(c: int, ghost st: State)
      requires Inv(mat, st) && c in st.header
      requires nodes[..] == DancingLinks.Cover(mat, st, c).pool
      modifies nodes
      ensures nodes[..] == st.pool
    {
      ghost var at := LiveHeader(mat, st, c);
      RelinkRows(c, st);
      RelinkHeaderUndoesUnlinkHeader(st.pool, c);
      nodes[nodes[c].right] := nodes[nodes[c].right].(left := c);
      nodes[nodes[c].left] := nodes[nodes[c].left].(right := c);
      assert nodes[..] == RelinkHeader(CoverHeader(st, c).pool, c);
    }

    /** A smallest uncovered column, or the first one met with at most one row. */
    method MinColumn(ghost st: State) returns (c: int)
      requires Inv(mat, st) && nodes[..] == st.pool && mat.root == root && st.header != []
      ensures c in st.header
      ensures 0 <= c < nodes.Length && nodes[c].size == |st.vert[c]|
      ensures |st.vert[c]| <= 1 || forall q :: q in st.header ==> |st.vert[c]| <= |st.vert[q]|
    {
      ghost var m := mat;
      HeaderWalk(m, st, 0);
      c := nodes[root].right;
      HeaderSize(m, st, 0);
      var minSize := nodes[c].size;
      if minSize > 1 {
        ghost var k := 1;
        HeaderWalk(m, st, 1);
        var cc := nodes[c].right;
        while cc != root
          invariant 1 <= k <= |st.header| && cc == At(root, st.header, k) && (cc == root <==> k == |st.header|)
          invariant c in st.header && 0 <= c < nodes.Length && minSize == nodes[c].size == |st.vert[c]|
          invariant forall i :: 0 <= i < k ==> minSize <= |st.vert[st.header[i]]|
          decreases |st.header| - k
        {
          HeaderSize(m, st, k);
          if minSize > nodes[cc].size {
            c := cc;
            minSize := nodes[cc].size;
            if minSize <= 1 {
              break;
            }
          }
          k := k + 1;
          HeaderWalk(m, st, k);
          cc := nodes[cc].right;
        }
      }
    }

    // ----- choosing a row

    /** Cover the columns of the other nodes of `row`, rightwards. */
    method CoverOthers(row: int, ghost o: seq<int>, ghost sts: seq<State>)
      requires OthersTrace(mat, o, row, sts) && nodes[..] == sts[0].pool
      modifies nodes
      ensures nodes[..] == sts[|o|].pool
    {
      ghost var m, k := mat, 0;
      assert OthersAt(m, o, row, sts, 0);
      var j := nodes[row].right;
      while j != row
        invariant k <= |o| && j == At(row, o, k) && (j == row <==> k == |o|)
        invariant nodes[..] == sts[k].pool
        decreases |o| - k
      {
        assert OthersAt(m, o, row, sts, k) && OthersAt(m, o, row, sts, k + 1);
        Cover(nodes[j].col, sts[k]);
        k := k + 1;
        j := nodes[j].right;
      }
    }

    /** Uncover them again, leftwards. */
    method UncoverOthers(row: int, ghost o: seq<int>, ghost sts: seq<State>)
      requires OthersTrace(mat, o, row, sts) && nodes[..] == sts[|o|].pool
      modifies nodes
      ensures nodes[..] == sts[0].pool
    {
      ghost var m := mat;
      ghost var k: nat := |o|;
      assert OthersAt(m, o, row, sts, k);
      var j := nodes[row].left;
      while j != row
        invariant k <= |o| && j == Before(row, o, k) && (j == row <==> k == 0)
        invariant nodes[..] == sts[k].pool
        decreases k
      {
        assert OthersAt(m, o, row, sts, k);
        k := k - 1;
        assert OthersAt(m, o, row, sts, k);
        Uncover(nodes[j].col, sts[k]);
        j := nodes[j].left;
      }
    }

    /** Read a chosen row's cell and digit off its labels. */
    method Decode(x: int, ghost st: State) returns (cell: int, val: int)
      requires Linked(mat, st) && nodes[..] == st.pool && Labelled(mat, choice, board.Length) && x in mat.others
      ensures (cell, val) == choice[x]
    {
      ghost var m, o, k := mat, mat.others[x], 0;
      ghost var i0, i1 := LabelPositions(m, choice, board.Length, x);
      var n := x;
      cell, val := -1, -1;
      while cell == -1 || val == -1
        invariant k <= |o| + 1 && n == (if k == 0 then x else At(x, o, k - 1))
        invariant i0 < k ==> cell != -1
        invariant i1 < k ==> val != -1
        invariant cell != -1 ==> cell == choice[x].0
        invariant val != -1 ==> val == choice[x].1
        decreases |o| + 1 - k
      {
        assert n == Before(x, o, k);
        RowWalk(m, st, x, k);
        LabelAt(m, choice, board.Length, x, k, st);
        if nodes[n].name < 100 {
          cell := nodes[n].name;
        } else {
          val := nodes[n].name % 10;
        }
        n := nodes[n].right;
        k := k + 1;
      }
    }

    /** Write every choice on the stack to the board. */
    method WriteSolution(ghost st: State)
      requires Linked(mat, st) && nodes[..] == st.pool && Labelled(mat, choice, board.Length) && Chosen(mat, stack)
      modifies board
      ensures board[..] == Filled(old(board[..]), choice, stack)
    {
      for i := 0 to |stack|
        invariant board[..] == Filled(old(board[..]), choice, stack[..i])
      {
        var cell, val := Decode(stack[i], st);
        assert LabelOk(mat, choice, board.Length, stack[i]);
        board[cell] := val;
        assert stack[..i + 1][..i] == stack[..i];
      }
      assert stack[..|stack|] == stack;
    }

    /** The search is sound and complete, and leaves no trace when it fails. */
    method Solve(ghost st: State) returns (ok: bool)
      requires Inv(mat, st) && mat.root == root && Labelled(mat, choice, board.Length)
      requires nodes[..] == st.pool && Chosen(mat, stack)
      modifies nodes, board, `stack
      ensures ok <==> Solvable(mat, Active(st))
      ensures ok ==> |old(stack)| <= |stack| && stack[..|old(stack)|] == old(stack)
      ensures ok ==> ExactCover(mat, Active(st), stack[|old(stack)|..])
      ensures ok ==> board[..] == Filled(old(board[..]), choice, stack)
      ensures !ok ==> nodes[..] == old(nodes[..]) && stack == old(stack) && board[..] == old(board[..])
      decreases |st.header|, 0
    {
      ghost var m := mat;
      HeaderWalk(m, st, |st.header|);
      if nodes[root].left == root {
        WriteSolution(st);
        EmptyCover(m);
        assert Active(st) == {} && stack[|stack|..] == [];
        return true;
      }
      var c := MinColumn(st);
      Cover(c, st);
      CoverRefines(m, st, c);
      ghost var st1, xs, i := DancingLinks.Cover(m, st, c), st.vert[c], 0;
      ColumnWalk(m, st1, c, 0);
      var row := nodes[c].down;
      while row != c
        invariant i <= |xs| && row == At(c, xs, i) && (row == c <==> i == |xs|)
        invariant nodes[..] == st1.pool && stack == old(stack) && board[..] == old(board[..])
        invariant forall t :: 0 <= t < i ==> xs[t] in m.others && !Solvable(m, Active(st) - Items(m, xs[t]))
        decreases |xs| - i
      {
        LiveRow(m, st, c, row);
        ok := TryRow(c, row, st);
        if ok {
          return true;
        }
        i := i + 1;
        ColumnWalk(m, st1, c, i);
        row := nodes[row].down;
      }
      Uncover(c, st);
      if Solvable(m, Active(st)) {
        ghost var x := BranchComplete(m, st, c);
        assert false;
      }
      return false;
    }

    /** The body of the search loop: choose `row`, search on, and undo the choice if that fails. */
    method TryRow(c: int, row: int, ghost st: State) returns (ok: bool)
      requires Inv(mat, st) && mat.root == root && Labelled(mat, choice, board.Length)
      requires c in st.header && c in st.vert && row in st.vert[c] && row in mat.others
      requires nodes[..] == DancingLinks.Cover(mat, st, c).pool && Chosen(mat, stack)
      modifies nodes, board, `stack
      ensures ok <==> Solvable(mat, Active(st) - Items(mat, row))
      ensures ok ==> Solvable(mat, Active(st))
      ensures ok ==> |old(stack)| <= |stack| && stack[..|old(stack)|] == old(stack)
      ensures ok ==> ExactCover(mat, Active(st), stack[|old(stack)|..])
      ensures ok ==> board[..] == Filled(old(board[..]), choice, stack)
      ensures !ok ==> nodes[..] == old(nodes[..]) && stack == old(stack) && board[..] == old(board[..])
      decreases |st.header| - 1, 1
    {
      ghost var m, n := mat, |stack|;
      ChooseRow(m, st, c, row);
      ghost var st1 := DancingLinks.Cover(m, st, c);
      stack := stack + [row];
      ghost var sts := OthersTraceOf(m, st1, row);
      CoverOthers(row, m.others[row], sts);
      ok := Solve(CoverAll(m, st1, m.others[row]));
      if ok {
        LiveRow(m, st, c, row);
        ExtendCover(m, Active(st), row, stack[n + 1..]);
        SplitStack(stack, n, row);
      } else {
        stack := stack[..|stack| - 1];
        UncoverOthers(row, m.others[row], sts);
      }
    }
  }

  lemma SplitStack(s: seq<int>, n: nat, x: int)
    requires n < |s| && s[..n + 1][n] == x
    ensures s[n..] == [x] + s[n + 1..] && s[..n] == s[..n + 1][..n]
  {
  }

  lemma RowPosition(m: Matrix, x: int, y: int) returns (i: nat)
    requires x in m.others && y in RowNodes(m, x)
    ensures i <= |m.others[x]| && Before(x, m.others[x], i) == y
  {
    if y == x {
      i := 0;
    } else {
      var k :| 0 <= k < |m.others[x]| && m.others[x][k] == y;
      i := k + 1;
    }
  }

  lemma LabelPositions(m: Matrix, choice: map<int, (int, int)>, cells: nat, x: int) returns (i0: nat, i1: nat)
    requires Labelled(m, choice, cells) && x in m.others
    ensures i0 <= |m.others[x]| && i1 <= |m.others[x]|
    ensures var o := m.others[x];
      && Before(x, o, i0) in m.name && m.name[Before(x, o, i0)] < 100
      && Before(x, o, i1) in m.name && m.name[Before(x, o, i1)] >= 100
  {
    assert LabelOk(m, choice, cells, x);
    var y :| y in RowNodes(m, x) && y in m.name && m.name[y] < 100;
    var z :| z in RowNodes(m, x) && z in m.name && m.name[z] >= 100;
    i0 := RowPosition(m, x, y);
    i1 := RowPosition(m, x, z);
  }

  lemma LabelAt(m: Matrix, choice: map<int, (int, int)>, cells: nat, x: int, k: nat, st: State)
    requires Linked(m, st) && Labelled(m, choice, cells) && x in m.others && k <= |m.others[x]|
    ensures var n := Before(x, m.others[x], k);
      && InPool(st.pool, n) && n in m.name && st.pool[n].name == m.name[n] && m.name[n] >= 0
      && (m.name[n] < 100 ==> m.name[n] == choice[x].0)
      && (m.name[n] >= 100 ==> m.name[n] % 10 == choice[x].1)
  {
    var n := Before(x, m.others[x], k);
    assert RowOk(m, x) && LabelOk(m, choice, cells, x);
    assert n in RowNodes(m, x);
    assert RowLinked(m, st.pool, n);
  }

  /** `sts[k]` is the state when the columns of `k` of the nodes `o` beside `row` are covered. */
  ghost predicate OthersAt(m: Matrix, o: seq<int>, row: int, sts: seq<State>, k: nat) {
    && k <= |o| < |sts| && Inv(m, sts[k])
    && InPool(sts[k].pool, Before(row, o, k)) && InPool(sts[k].pool, At(row, o, k))
    && sts[k].pool[Before(row, o, k)].right == At(row, o, k) && sts[k].pool[At(row, o, k)].left == Before(row, o, k)
    && (At(row, o, k) == row <==> k == |o|)
    && (Before(row, o, k) == row <==> k == 0)
    && (k > 0 ==> o[k - 1] in m.col && sts[k].pool[Before(row, o, k)].col == m.col[o[k - 1]])
    && (k < |o| ==> o[k] in m.col && sts[k].pool[At(row, o, k)].col == m.col[o[k]] && m.col[o[k]] in sts[k].header
                    && sts[k + 1] == DancingLinks.Cover(m, sts[k], m.col[o[k]]))
  }

  ghost predicate OthersTrace(m: Matrix, o: seq<int>, row: int, sts: seq<State>) {
    |sts| == |o| + 1 && forall k: nat {:trigger OthersAt(m, o, row, sts, k)} :: k <= |o| ==> OthersAt(m, o, row, sts, k)
  }

  lemma OthersTraceOf(m: Matrix, st: State, x: int) returns (sts: seq<State>)
    requires Choosable(m, st, x)
    ensures OthersTrace(m, m.others[x], x, sts)
    ensures sts[0] == st && sts[|m.others[x]|] == CoverAll(m, st, m.others[x])
  {
    var o := m.others[x];
    sts := seq(|o| + 1, k requires 0 <= k <= |o| && RowsInMatrix(m, o[..k]) => CoverAll(m, st, o[..k]));
    forall k: nat | k <= |o|
      ensures OthersAt(m, o, x, sts, k)
    {
      var cur := OthersStep(m, st, x, k);
    }
    assert o[..0] == [] && o[..|o|] == o;
  }

  lemma OthersStep(m: Matrix, st: State, x: int, k: nat) returns (cur: State)
    requires Choosable(m, st, x) && k <= |m.others[x]|
    ensures cur == CoverAll(m, st, m.others[x][..k]) && Inv(m, cur) && |cur.pool| == |st.pool|
    ensures var o, p := m.others[x], cur.pool;
      && InPool(p, Before(x, o, k)) && InPool(p, At(x, o, k))
      && p[Before(x, o, k)].right == At(x, o, k) && p[At(x, o, k)].left == Before(x, o, k)
      && (At(x, o, k) == x <==> k == |o|)
      && (Before(x, o, k) == x <==> k == 0)
      && (k > 0 ==> p[o[k - 1]].col == m.col[o[k - 1]])
      && (k < |o| ==> p[o[k]].col == m.col[o[k]] && m.col[o[k]] in cur.header
                      && CoverAll(m, st, o[..k + 1]) == DancingLinks.Cover(m, cur, m.col[o[k]]))
  {
    var o := m.others[x];
    CoverAllRefines(m, st, o[..k]);
    cur := CoverAll(m, st, o[..k]);
    RowWalk(m, cur, x, k);
    if k < |o| {
      assert o[..k + 1][..k] == o[..k] && o[..k + 1][k] == o[k];
      ColumnsOfLast(m, o[..k + 1]);
      assert m.col[o[k]] in Active(cur);
      assert RowLinked(m, cur.pool, o[k]);
    }
    if k > 0 {
      assert RowLinked(m, cur.pool, o[k - 1]);
    }
  }

  lemma HeaderSize(m: Matrix, st: State, k: nat)
    requires Linked(m, st) && k < |st.header|
    ensures st.header[k] in m.cols && InPool(st.pool, st.header[k]) && st.pool[st.header[k]].size == |st.vert[st.header[k]]|
  {
    assert st.header[k] in st.header;
    assert ColumnLinked(m, st.pool, st.header[k], st.vert[st.header[k]]);
  }

  /** Covering never disturbs the covered column's own ring. */
  lemma ColumnStep(m: Matrix, h: State, js: seq<int>, c: int, xs: seq<int>, i: nat)
    requires Linked(m, h) && Unlinkable(m, h, js) && c in m.cols && h.vert[c] == xs && i <= |xs|
    requires RowsKnown(m, xs) && js == Trace(m, xs) && forall j :: j in js ==> m.col[j] != c
    ensures RowsKnown(m, xs[..i])
    ensures var p := UnlinkNodes(m, h, Trace(m, xs[..i])).pool;
      && InPool(p, Before(c, xs, i)) && InPool(p, At(c, xs, i))
      && p[Before(c, xs, i)].down == At(c, xs, i) && p[At(c, xs, i)].up == Before(c, xs, i)
      && (At(c, xs, i) == c <==> i == |xs|)
      && (Before(c, xs, i) == c <==> i == 0)
  {
    TraceIsPrefix(m, xs, i);
    var n := |Trace(m, xs[..i])|;
    assert js[..n] == Trace(m, xs[..i]);
    var st := UnlinkedSoFar(m, h, js, n);
    OffTrace(m, h, js, n, c);
    ColumnWalk(m, st, c, i);
  }

  /** Traces of successive prefixes extend each other by one row. */
  lemma TracePrefix(m: Matrix, xs: seq<int>, i: nat)
    requires RowsKnown(m, xs) && i < |xs|
    ensures Trace(m, xs[..i + 1]) == Trace(m, xs[..i]) + m.others[xs[i]]
    ensures |Trace(m, xs[..i + 1])| <= |Trace(m, xs)|
    ensures Trace(m, xs)[..|Trace(m, xs[..i + 1])|] == Trace(m, xs[..i + 1])
  {
    assert xs[..i + 1][..i] == xs[..i];
    TraceIsPrefix(m, xs, i + 1);
  }

  lemma {:induction false} TraceIsPrefix(m: Matrix, xs: seq<int>, k: nat)
    requires RowsKnown(m, xs) && k <= |xs|
    ensures Trace(m, xs[..k]) <= Trace(m, xs)
  {
    if k < |xs| {
      TraceIsPrefix(m, xs[..|xs| - 1], k);
      assert xs[..|xs| - 1][..k] == xs[..k];
    } else {
      assert xs[..k] == xs;
    }
  }

  // ----- the interface

  function CellValue(c: char): (v: int) {
    c as int - '0' as int
  }

  function BoardFrom(s: string): (b: Board)
    requires |s| == 81
  {
    seq(81, i requires 0 <= i < 81 => CellValue(s[i]))
  }

  ghost predicate AllDigits(s: string) {
    forall i :: 0 <= i < |s| ==> '0' <= s[i] <= '9'
  }

  const NO_SOLUTION := "NoSolution"

  /** The cells of a puzzle, and whether they are all digits. */
  method ReadPuzzle(puzzle: string) returns (board: array<int>, valid: bool)
    requires |puzzle| == 81
    ensures fresh(board) && board.Length == 81 && board[..] == BoardFrom(puzzle)
    ensures valid <==> AllDigits(puzzle)
    ensures valid ==> Givens(BoardFrom(puzzle))
  {
    board := new int[81](_ => 0);
    valid := true;
    for i := 0 to 81
      invariant forall k :: 0 <= k < i ==> board[k] == CellValue(puzzle[k])
      invariant valid <==> forall k :: 0 <= k < i ==> '0' <= puzzle[k] <= '9'
    {
      board[i] := puzzle[i] as int - '0' as int;
      valid := valid && 0 <= board[i] <= 9;
    }
    assert forall i :: IsCell(i) ==> 0 <= i < 81;
  }

  method PrintBoard(board: array<int>) returns (result: string)
    requires board.Length == 81 && Solved(board[..])
    ensures |result| == 81 && AllDigits(result) && BoardFrom(result) == board[..]
  {
    assert forall i :: 0 <= i < 81 ==> IsCell(i) && IsDigit(board[..][i]);
    result := [];
    for i := 0 to 81
      invariant |result| == i && forall k :: 0 <= k < i ==> result[k] == (board[k] + '0' as int) as char
    {
      result := result + [(board[i] + '0' as int) as char];
    }
  }

  /** A puzzle of digits is answered with a completion of its givens if there is one, and with
      "NoSolution" if there is none; any other character also means "NoSolution". */
  method SolveSudoku(puzzle: string) returns (result: string)
    requires |puzzle| == 81
    ensures AllDigits(puzzle) && HasCompletion(BoardFrom(puzzle)) ==>
              |result| == 81 && AllDigits(result) && Completes(BoardFrom(result), BoardFrom(puzzle))
    ensures !(AllDigits(puzzle) && HasCompletion(BoardFrom(puzzle))) ==> result == NO_SOLUTION
  {
    result := NO_SOLUTION;
    var board, valid := ReadPuzzle(puzzle);
    if valid {
      var ok := RunSolver(board, BoardFrom(puzzle));
      if ok {
        result := PrintBoard(board);
      }
    }
  }

  /** Build the matrix, search it, and leave the completion on the board. */
  method RunSolver(board: array<int>, ghost g: Board) returns (ok: bool)
    requires board.Length == 81 && board[..] == g && Givens(g)
    modifies board
    ensures ok <==> HasCompletion(g)
    ensures ok ==> Completes(board[..], g)
  {
    var s := new SudokuSolver(board);
    ghost var m, ids, choice := s.mat, s.ids, s.choice;
    SolvableIffCompletable(g, m, ids, choice);
    ok := s.Solve(s.built);
    if ok {
      assert s.stack[0..] == s.stack;
      CoverSolves(g, m, ids, choice, s.stack);
    }
  }
}
