/** How the constructor grows the node pool: columns are appended to the header ring, nodes to
    the bottom of a column, and four fresh nodes are joined into a row. */
module PoolBuilding {
  import opened Basics
  import opened DancingLinks

  /** Everything built so far is linked, uncovered and below the next free index. */
  ghost predicate Building(m: Matrix, st: State, n: int) {
    && Linked(m, st)
    && n <= |st.pool| && 0 <= m.root < n
    && (forall c :: c in m.cols ==> 0 <= c < n && c in st.header)
    && (forall x :: x in m.others ==> 0 <= x < n)
    && (forall x {:trigger m.col[x]} :: x in m.others ==> m.col[x] in st.vert && x in st.vert[m.col[x]])
  }

  /** A fully built matrix represents its whole problem. */
  lemma BuiltIsInv(m: Matrix, st: State, n: int)
    requires Building(m, st, n)
    ensures Inv(m, st) && Active(st) == m.cols
  {
    forall x | x in m.others
      ensures Items(m, x) <= m.cols
    {
      forall y | y in RowNodes(m, x)
        ensures y in m.col && m.col[y] in m.cols
      {
        SameRow(m, x, y);
        assert RowOk(m, y);
      }
    }
    forall c
      ensures c in Active(st) <==> c in m.cols
    {
      assert c in Active(st) <==> c in st.header;
    }
  }

  // ----- the pool operations

  /** A node linked only to itself. */
  function Isolated(p: Pool, x: int, c: int, name: int): (r: Pool)
    requires InPool(p, x)
  {
    p[x := Node(x, x, x, x, c, name, 0)]
  }

  /** Insert `n` to the left of `o`. */
  function PutLeft(p: Pool, o: int, n: int): (r: Pool)
    requires InPool(p, o) && InPool(p, n) && InPool(p, p[o].left) && o != n
  {
    SetLeft(SetRight(SetRight(SetLeft(p, n, p[o].left), n, o), p[o].left, n), o, n)
  }

  /** Insert `n` above `o`, which counts it. */
  function PutUp(p: Pool, o: int, n: int): (r: Pool)
    requires InPool(p, o) && InPool(p, n) && InPool(p, p[o].up) && o != n
  {
    var q := Resize(SetUp(SetDown(SetDown(SetUp(p, n, p[o].up), n, o), p[o].up, n), o, n), o, 1);
    q[n := q[n].(col := o)]
  }

  // ----- framing

  lemma HRingFrame(p: Pool, q: Pool, s: seq<int>)
    requires HRing(p, s) && |q| == |p|
    requires forall i :: 0 <= i < |s| ==> InPool(p, s[i]) ==> q[s[i]].left == p[s[i]].left && q[s[i]].right == p[s[i]].right
    ensures HRing(q, s)
  {
    forall i: nat | i < |s|
      ensures HLink(q, s, i)
    {
      assert HLink(p, s, i);
    }
  }

  lemma VRingFrame(p: Pool, q: Pool, s: seq<int>)
    requires VRing(p, s) && |q| == |p|
    requires forall i :: 0 <= i < |s| ==> InPool(p, s[i]) ==> q[s[i]].up == p[s[i]].up && q[s[i]].down == p[s[i]].down
    ensures VRing(q, s)
  {
    forall i: nat | i < |s|
      ensures VLink(q, s, i)
    {
      assert VLink(p, s, i);
    }
  }

  lemma RowFrame(m: Matrix, p: Pool, m': Matrix, q: Pool, x: int)
    requires x in m.others && x in m.col && x in m.name && RowLinked(m, p, x) && |q| == |p|
    requires x in m'.others && x in m'.col && x in m'.name
    requires m'.others[x] == m.others[x] && m'.col[x] == m.col[x] && m'.name[x] == m.name[x]
    requires q[x].left == p[x].left && q[x].right == p[x].right && q[x].col == p[x].col && q[x].name == p[x].name
    requires forall i :: 0 <= i < |m.others[x]| ==> InPool(p, m.others[x][i]) ==>
                           q[m.others[x][i]].left == p[m.others[x][i]].left && q[m.others[x][i]].right == p[m.others[x][i]].right
    ensures RowLinked(m', q, x)
  {
    HRingFrame(p, q, [x] + m.others[x]);
  }

  lemma ColumnFrame(m: Matrix, p: Pool, m': Matrix, q: Pool, c: int, v: seq<int>)
    requires ColumnLinked(m, p, c, v) && |q| == |p|
    requires forall x :: x in v ==> x in m'.col && m'.col[x] == c
    requires q[c].up == p[c].up && q[c].down == p[c].down && q[c].size == p[c].size
    requires forall i :: 0 <= i < |v| ==> InPool(p, v[i]) ==> q[v[i]].up == p[v[i]].up && q[v[i]].down == p[v[i]].down
    ensures ColumnLinked(m', q, c, v)
  {
    VRingFrame(p, q, [c] + v);
  }

  // ----- appending a column

  function WithColumn(m: Matrix, c: int): (r: Matrix) {
    m.(cols := m.cols + {c})
  }

  lemma WithColumnOk(m: Matrix, c: int)
    requires MatrixOk(m) && c != m.root && c !in m.others
    ensures MatrixOk(WithColumn(m, c))
  {
    var r := WithColumn(m, c);
    forall x | x in r.others
      ensures RowOk(r, x)
    {
      assert RowOk(m, x);
    }
  }

  lemma PutLeftRing(p: Pool, s: seq<int>, n: int)
    requires HRing(p, s) && s != [] && InPool(p, n) && n !in s && Distinct(s)
    ensures InPool(p, s[0]) && InPool(p, p[s[0]].left) && s[0] != n && p[s[0]].left == s[|s| - 1]
    ensures HRing(PutLeft(p, s[0], n), s + [n])
  {
    var k := |s| - 1;
    assert HLink(p, s, k) && HLink(p, s, 0);
    var last := p[s[0]].left;
    assert last == s[k];
    var q := PutLeft(p, s[0], n);
    var t := s + [n];
    forall i: nat | i < |t|
      ensures HLink(q, t, i)
    {
      if i < k {
        assert HLink(p, s, i);
        assert s[i] != s[k] && s[i + 1] != s[0];
        assert t[Next(t, i)] == s[i + 1];
      }
    }
  }

  ghost function ColumnAppended(m: Matrix, st: State, c: int, name: int): (p: Pool)
    requires Building(m, st, c) && c < |st.pool|
  {
    AppendFits(m, st, c, name);
    PutLeft(Isolated(st.pool, c, c, name), m.root, c)
  }

  lemma AppendFits(m: Matrix, st: State, c: int, name: int)
    requires Building(m, st, c) && c < |st.pool|
    ensures var p := Isolated(st.pool, c, c, name);
      && InPool(p, m.root) && InPool(p, p[m.root].left) && m.root != c
      && (p[m.root].left == m.root || p[m.root].left in m.cols)
      && HRing(PutLeft(p, m.root, c), [m.root] + (st.header + [c]))
  {
    var p := Isolated(st.pool, c, c, name);
    var s := [m.root] + st.header;
    RootRingDistinct(m, st);
    forall i | 0 <= i < |s|
      ensures s[i] != c
    {
      var y := s[i];
      assert y in s;
    }
    HRingFrame(st.pool, p, s);
    PutLeftRing(p, s, c);
    assert s + [c] == [m.root] + (st.header + [c]);
    var last := s[|s| - 1];
    assert last in s;
  }

  lemma AppendKeepsRow(m: Matrix, st: State, c: int, name: int, x: int)
    requires Building(m, st, c) && c < |st.pool| && x in m.others
    ensures RowLinked(WithColumn(m, c), ColumnAppended(m, st, c, name), x)
  {
    AppendFits(m, st, c, name);
    assert RowOk(m, x) && RowLinked(m, st.pool, x);
    forall i | 0 <= i < |m.others[x]|
      ensures m.others[x][i] in m.others && m.others[x][i] != m.root && m.others[x][i] !in m.cols && m.others[x][i] != c
    {
      var y := m.others[x][i];
      assert y in m.others[x] && RowOk(m, y);
    }
    RowFrame(m, st.pool, WithColumn(m, c), ColumnAppended(m, st, c, name), x);
  }

  lemma AppendKeepsColumn(m: Matrix, st: State, c: int, name: int, d: int)
    requires Building(m, st, c) && c < |st.pool| && d in m.cols
    ensures ColumnLinked(WithColumn(m, c), ColumnAppended(m, st, c, name), d, st.vert[d])
  {
    AppendFits(m, st, c, name);
    var v := st.vert[d];
    assert ColumnLinked(m, st.pool, d, v);
    forall i | 0 <= i < |v|
      ensures v[i] in m.others
    {
      var x := v[i];
      assert x in v;
    }
    ColumnFrame(m, st.pool, WithColumn(m, c), ColumnAppended(m, st, c, name), d, v);
  }

  lemma AppendColumnBuilds(m: Matrix, st: State, c: int, name: int) returns (r: State)
    requires Building(m, st, c) && c < |st.pool|
    ensures InPool(st.pool, m.root) && InPool(Isolated(st.pool, c, c, name), Isolated(st.pool, c, c, name)[m.root].left)
    ensures r == State(PutLeft(Isolated(st.pool, c, c, name), m.root, c), st.header + [c], st.vert[c := []])
    ensures Building(WithColumn(m, c), r, c + 1)
  {
    var m' := WithColumn(m, c);
    AppendFits(m, st, c, name);
    var q := ColumnAppended(m, st, c, name);
    r := State(q, st.header + [c], st.vert[c := []]);
    WithColumnOk(m, c);
    DistinctConcat(st.header, [c]);
    forall x | x in m'.others
      ensures RowLinked(m', q, x)
    {
      AppendKeepsRow(m, st, c, name, x);
    }
    forall d | d in m'.cols
      ensures ColumnLinked(m', q, d, r.vert[d])
    {
      if d == c {
        assert VLink(q, [c], 0);
      } else {
        AppendKeepsColumn(m, st, c, name, d);
      }
    }
    forall x | x in m'.others
      ensures m'.col[x] in r.vert && x in r.vert[m'.col[x]]
    {
      assert RowOk(m, x);
    }
    assert r.header[|st.header|] == c;
  }

  // ----- appending a node to a column

  function WithNode(m: Matrix, x: int, c: int, name: int): (r: Matrix) {
    m.(col := m.col[x := c], others := m.others[x := []], name := m.name[x := name])
  }

  lemma WithNodeOk(m: Matrix, x: int, c: int, name: int)
    requires MatrixOk(m) && x !in m.others && x !in m.cols && x != m.root && c in m.cols
    ensures MatrixOk(WithNode(m, x, c, name))
  {
    var r := WithNode(m, x, c, name);
    forall y | y in r.others
      ensures RowOk(r, y)
    {
      if y != x {
        assert RowOk(m, y);
        forall z | z in m.others[y]
          ensures z in r.others && r.col[z] != r.col[y] && RowNodes(r, z) == RowNodes(r, y)
        {
          assert z != x;
        }
      }
    }
  }

  lemma PutUpRing(p: Pool, s: seq<int>, n: int)
    requires VRing(p, s) && s != [] && InPool(p, n) && n !in s && Distinct(s)
    ensures InPool(p, s[0]) && InPool(p, p[s[0]].up) && s[0] != n && p[s[0]].up == s[|s| - 1]
    ensures VRing(PutUp(p, s[0], n), s + [n])
  {
    var k := |s| - 1;
    assert VLink(p, s, k) && VLink(p, s, 0);
    var last := p[s[0]].up;
    assert last == s[k];
    var q := PutUp(p, s[0], n);
    var t := s + [n];
    forall i: nat | i < |t|
      ensures VLink(q, t, i)
    {
      if i < k {
        assert VLink(p, s, i);
        assert s[i] != s[k] && s[i + 1] != s[0];
        assert t[Next(t, i)] == s[i + 1];
      }
    }
  }

  lemma NewNodeColumn(m: Matrix, st: State, x: int, c: int, name: int)
    requires Building(m, st, x) && x < |st.pool| && c in m.cols
    ensures var p := Isolated(st.pool, x, c, name);
      && InPool(p, c) && InPool(p, p[c].up) && c != x
      && (p[c].up == c || p[c].up in st.vert[c])
      && ColumnLinked(WithNode(m, x, c, name), PutUp(p, c, x), c, st.vert[c] + [x])
  {
    var p := Isolated(st.pool, x, c, name);
    var v := st.vert[c];
    assert ColumnLinked(m, st.pool, c, v);
    forall i | 0 <= i < |v|
      ensures v[i] in m.others && v[i] != x
    {
      var y := v[i];
      assert y in v && y in m.others;
    }
    ColumnRingDistinct(m, st, c);
    VRingFrame(st.pool, p, [c] + v);
    PutUpRing(p, [c] + v, x);
    assert [c] + v + [x] == [c] + (v + [x]);
    DistinctConcat(v, [x]);
  }

  lemma NewNodeKeepsRow(m: Matrix, st: State, x: int, c: int, name: int, y: int)
    requires Building(m, st, x) && x < |st.pool| && c in m.cols && (y in m.others || y == x)
    requires var p := Isolated(st.pool, x, c, name); InPool(p, c) && InPool(p, p[c].up) && c != x
    ensures RowLinked(WithNode(m, x, c, name), PutUp(Isolated(st.pool, x, c, name), c, x), y)
  {
    var m', q := WithNode(m, x, c, name), PutUp(Isolated(st.pool, x, c, name), c, x);
    if y == x {
      assert HLink(q, [x], 0);
    } else {
      assert RowOk(m, y) && RowLinked(m, st.pool, y);
      forall i | 0 <= i < |m.others[y]|
        ensures m.others[y][i] in m.others && m.others[y][i] != x
      {
        var z := m.others[y][i];
        assert z in m.others[y];
      }
      RowFrame(m, st.pool, m', q, y);
    }
  }

  lemma NewNodeBuilds(m: Matrix, st: State, x: int, c: int, name: int) returns (r: State)
    requires Building(m, st, x) && x < |st.pool| && c in m.cols
    ensures var p := Isolated(st.pool, x, c, name); InPool(p, c) && InPool(p, p[c].up) && c != x
    ensures r == State(PutUp(Isolated(st.pool, x, c, name), c, x), st.header, st.vert[c := st.vert[c] + [x]])
    ensures Building(WithNode(m, x, c, name), r, x + 1)
  {
    var m' := WithNode(m, x, c, name);
    var p := Isolated(st.pool, x, c, name);
    NewNodeColumn(m, st, x, c, name);
    var q := PutUp(p, c, x);
    r := State(q, st.header, st.vert[c := st.vert[c] + [x]]);
    WithNodeOk(m, x, c, name);
    HRingFrame(st.pool, q, [m.root] + st.header);
    forall y | y in m'.others
      ensures RowLinked(m', q, y)
    {
      NewNodeKeepsRow(m, st, x, c, name, y);
    }
    forall d | d in m'.cols
      ensures ColumnLinked(m', q, d, r.vert[d])
    {
      if d != c {
        NewNodeKeepsColumn(m, st, x, c, name, d);
      }
    }
    forall y | y in m'.others
      ensures m'.col[y] in r.vert && y in r.vert[m'.col[y]]
    {
      if y == x {
        assert r.vert[c][|st.vert[c]|] == x;
      }
    }
  }

  lemma NewNodeKeepsColumn(m: Matrix, st: State, x: int, c: int, name: int, d: int)
    requires Building(m, st, x) && x < |st.pool| && c in m.cols && d in m.cols && d != c
    requires var p := Isolated(st.pool, x, c, name);
      InPool(p, c) && InPool(p, p[c].up) && c != x && (p[c].up == c || p[c].up in st.vert[c])
    ensures ColumnLinked(WithNode(m, x, c, name), PutUp(Isolated(st.pool, x, c, name), c, x), d, st.vert[d])
  {
    var p, v := Isolated(st.pool, x, c, name), st.vert[d];
    assert ColumnLinked(m, st.pool, d, v);
    forall y | y in v
      ensures y in m.others && y != x && m.col[y] == d && y != c && y != p[c].up
    {
      OnColumn(m, st, d, y);
      OnColumn(m, st, c, y);
    }
    forall i | 0 <= i < |v|
      ensures v[i] != x && v[i] != c && v[i] != p[c].up
    {
      var y := v[i];
      assert y in v;
    }
    OnColumn(m, st, c, d);
    ColumnFrame(m, st.pool, WithNode(m, x, c, name), PutUp(p, c, x), d, v);
  }

  // ----- joining four fresh nodes into a row

  function Joined(m: Matrix, a: int, b: int, c: int, d: int): (r: Matrix) {
    m.(others := m.others[a := [b, c, d]][b := [c, d, a]][c := [d, a, b]][d := [a, b, c]])
  }

  /** The four nodes are alone on their rows, in four different columns. */
  ghost predicate Joinable(m: Matrix, a: int, b: int, c: int, d: int) {
    && (forall x :: x in {a, b, c, d} ==> x in m.others && m.others[x] == [])
    && a != b && a != c && a != d && b != c && b != d && c != d
    && a in m.col && b in m.col && c in m.col && d in m.col
    && m.col[a] != m.col[b] && m.col[a] != m.col[c] && m.col[a] != m.col[d]
    && m.col[b] != m.col[c] && m.col[b] != m.col[d] && m.col[c] != m.col[d]
  }

  /** The same for four nodes allocated one after the other. */
  function RowJoined(m: Matrix, x: int): (r: Matrix) {
    Joined(m, x, x + 1, x + 2, x + 3)
  }

  ghost predicate RowJoinable(m: Matrix, x: int) {
    var joinable := Joinable(m, x, x + 1, x + 2, x + 3);
    joinable
  }

  lemma RowNodes4(m: Matrix, x: int, y: int, z: int, w: int)
    requires x in m.others && m.others[x] == [y, z, w]
    ensures RowNodes(m, x) == {x, y, z, w}
  {
  }

  lemma JoinedRowNodes(m: Matrix, a: int, b: int, c: int, d: int, x: int)
    requires Joinable(m, a, b, c, d) && x in {a, b, c, d}
    ensures x in Joined(m, a, b, c, d).others && RowNodes(Joined(m, a, b, c, d), x) == {a, b, c, d}
  {
    var r := Joined(m, a, b, c, d);
    RowNodes4(r, a, b, c, d);
    RowNodes4(r, b, c, d, a);
    RowNodes4(r, c, d, a, b);
    RowNodes4(r, d, a, b, c);
  }

  lemma JoinedOldRow(m: Matrix, a: int, b: int, c: int, d: int, x: int)
    requires MatrixOk(m) && Joinable(m, a, b, c, d) && x in m.others && x !in {a, b, c, d}
    ensures forall y :: y in m.others[x] ==> y !in {a, b, c, d}
    ensures RowNodes(Joined(m, a, b, c, d), x) == RowNodes(m, x)
    ensures RowOk(Joined(m, a, b, c, d), x)
  {
    var r := Joined(m, a, b, c, d);
    assert RowOk(m, x);
    forall y | y in m.others[x]
      ensures y !in {a, b, c, d} && RowNodes(r, y) == RowNodes(m, y)
    {
      assert x in RowNodes(m, y);
    }
  }

  lemma JoinedNewRow(m: Matrix, a: int, b: int, c: int, d: int, x: int)
    requires MatrixOk(m) && Joinable(m, a, b, c, d) && x in {a, b, c, d}
    ensures x in Joined(m, a, b, c, d).others && RowOk(Joined(m, a, b, c, d), x)
  {
    var r := Joined(m, a, b, c, d);
    assert RowOk(m, x);
    JoinedRowNodes(m, a, b, c, d, x);
    forall y | y in r.others[x]
      ensures y in r.others && r.col[y] != r.col[x] && RowNodes(r, y) == RowNodes(r, x)
    {
      assert y in RowNodes(r, x);
      JoinedRowNodes(m, a, b, c, d, y);
    }
  }

  lemma JoinedOk(m: Matrix, a: int, b: int, c: int, d: int)
    requires MatrixOk(m) && Joinable(m, a, b, c, d)
    ensures MatrixOk(Joined(m, a, b, c, d))
  {
    var r := Joined(m, a, b, c, d);
    assert r.others.Keys == m.others.Keys;
    forall x | x in r.others
      ensures RowOk(r, x)
    {
      if x in {a, b, c, d} {
        JoinedNewRow(m, a, b, c, d, x);
      } else {
        JoinedOldRow(m, a, b, c, d, x);
      }
    }
  }

  function JoinPool(p: Pool, a: int, b: int, c: int, d: int): (r: Pool)
    requires InPool(p, a) && InPool(p, b) && InPool(p, c) && InPool(p, d)
    requires a != b && a != c && a != d && b != c && b != d && c != d
    requires p[a].left == a
    ensures |r| == |p|
  {
    PutLeft(PutLeft(PutLeft(p, a, b), a, c), a, d)
  }

  lemma JoinFields(p: Pool, a: int, b: int, c: int, d: int)
    requires InPool(p, a) && InPool(p, b) && InPool(p, c) && InPool(p, d)
    requires a != b && a != c && a != d && b != c && b != d && c != d
    requires p[a].left == a
    ensures var q := JoinPool(p, a, b, c, d);
      forall x :: InPool(p, x) ==>
        && q[x].up == p[x].up && q[x].down == p[x].down && q[x].col == p[x].col && q[x].name == p[x].name && q[x].size == p[x].size
        && (x !in {a, b, c, d} ==> q[x].left == p[x].left && q[x].right == p[x].right)
  {
  }

  lemma JoinableInPool(m: Matrix, st: State, a: int, b: int, c: int, d: int)
    requires Linked(m, st) && Joinable(m, a, b, c, d)
    ensures InPool(st.pool, a) && InPool(st.pool, b) && InPool(st.pool, c) && InPool(st.pool, d) && st.pool[a].left == a
  {
    var p := st.pool;
    assert RowLinked(m, p, a) && RowLinked(m, p, b) && RowLinked(m, p, c) && RowLinked(m, p, d);
    assert HLink(p, [a] + m.others[a], 0);
  }

  lemma JoinRows(m: Matrix, st: State, a: int, b: int, c: int, d: int, x: int)
    requires Linked(m, st) && Joinable(m, a, b, c, d) && x in m.others
    requires InPool(st.pool, a) && InPool(st.pool, b) && InPool(st.pool, c) && InPool(st.pool, d) && st.pool[a].left == a
    ensures RowLinked(Joined(m, a, b, c, d), JoinPool(st.pool, a, b, c, d), x)
  {
    var p := st.pool;
    assert RowLinked(m, p, x);
    JoinFields(p, a, b, c, d);
    if x in {a, b, c, d} {
      JoinedRing(p, a, b, c, d);
    } else {
      JoinedOldRow(m, a, b, c, d, x);
      forall i | 0 <= i < |m.others[x]|
        ensures m.others[x][i] !in {a, b, c, d}
      {
        var y := m.others[x][i];
        assert y in m.others[x];
      }
      RowFrame(m, p, Joined(m, a, b, c, d), JoinPool(p, a, b, c, d), x);
    }
  }

  lemma JoinHeader(m: Matrix, st: State, a: int, b: int, c: int, d: int)
    requires Linked(m, st) && Joinable(m, a, b, c, d)
    requires InPool(st.pool, a) && InPool(st.pool, b) && InPool(st.pool, c) && InPool(st.pool, d) && st.pool[a].left == a
    ensures HRing(JoinPool(st.pool, a, b, c, d), [m.root] + st.header)
  {
    var s := [m.root] + st.header;
    assert RowOk(m, a) && RowOk(m, b) && RowOk(m, c) && RowOk(m, d);
    RootRingDistinct(m, st);
    JoinFields(st.pool, a, b, c, d);
    forall i | 0 <= i < |s|
      ensures s[i] !in {a, b, c, d}
    {
      var y := s[i];
      assert y in s;
    }
    HRingFrame(st.pool, JoinPool(st.pool, a, b, c, d), s);
  }

  lemma JoinColumns(m: Matrix, st: State, n: int, a: int, b: int, c: int, d: int, e: int)
    requires Building(m, st, n) && Joinable(m, a, b, c, d) && e in m.cols
    requires InPool(st.pool, a) && InPool(st.pool, b) && InPool(st.pool, c) && InPool(st.pool, d) && st.pool[a].left == a
    ensures ColumnLinked(Joined(m, a, b, c, d), JoinPool(st.pool, a, b, c, d), e, st.vert[e])
  {
    assert ColumnLinked(m, st.pool, e, st.vert[e]);
    JoinFields(st.pool, a, b, c, d);
    ColumnFrame(m, st.pool, Joined(m, a, b, c, d), JoinPool(st.pool, a, b, c, d), e, st.vert[e]);
  }

  lemma JoinLinked(m: Matrix, st: State, n: int, a: int, b: int, c: int, d: int)
    requires Building(m, st, n) && Joinable(m, a, b, c, d)
    requires InPool(st.pool, a) && InPool(st.pool, b) && InPool(st.pool, c) && InPool(st.pool, d) && st.pool[a].left == a
    ensures Linked(Joined(m, a, b, c, d), State(JoinPool(st.pool, a, b, c, d), st.header, st.vert))
  {
    var m', q := Joined(m, a, b, c, d), JoinPool(st.pool, a, b, c, d);
    JoinedOk(m, a, b, c, d);
    JoinHeader(m, st, a, b, c, d);
    forall x | x in m'.others
      ensures RowLinked(m', q, x)
    {
      JoinRows(m, st, a, b, c, d, x);
    }
    forall e | e in m'.cols
      ensures ColumnLinked(m', q, e, st.vert[e])
    {
      JoinColumns(m, st, n, a, b, c, d, e);
    }
  }

  lemma JoinBuilds(m: Matrix, st: State, n: int, a: int, b: int, c: int, d: int) returns (r: State)
    requires Building(m, st, n) && Joinable(m, a, b, c, d)
    ensures InPool(st.pool, a) && InPool(st.pool, b) && InPool(st.pool, c) && InPool(st.pool, d) && st.pool[a].left == a
    ensures r == State(JoinPool(st.pool, a, b, c, d), st.header, st.vert)
    ensures Building(Joined(m, a, b, c, d), r, n)
  {
    JoinableInPool(m, st, a, b, c, d);
    r := State(JoinPool(st.pool, a, b, c, d), st.header, st.vert);
    JoinLinked(m, st, n, a, b, c, d);
  }

  lemma JoinedRing(p: Pool, a: int, b: int, c: int, d: int)
    requires InPool(p, a) && InPool(p, b) && InPool(p, c) && InPool(p, d)
    requires a != b && a != c && a != d && b != c && b != d && c != d
    requires p[a].left == a
    ensures var q := JoinPool(p, a, b, c, d);
      && HRing(q, [a] + [b, c, d]) && HRing(q, [b] + [c, d, a]) && HRing(q, [c] + [d, a, b]) && HRing(q, [d] + [a, b, c])
  {
    var q := JoinPool(p, a, b, c, d);
    assert q[a].right == b && q[b].right == c && q[c].right == d && q[d].right == a;
    assert q[a].left == d && q[b].left == a && q[c].left == b && q[d].left == c;
    Ring4(q, a, b, c, d);
    Ring4(q, b, c, d, a);
    Ring4(q, c, d, a, b);
    Ring4(q, d, a, b, c);
  }

  lemma Ring4(q: Pool, a: int, b: int, c: int, d: int)
    requires InPool(q, a) && InPool(q, b) && InPool(q, c) && InPool(q, d)
    requires q[a].right == b && q[b].right == c && q[c].right == d && q[d].right == a
    requires q[a].left == d && q[b].left == a && q[c].left == b && q[d].left == c
    ensures HRing(q, [a] + [b, c, d])
  {
    var s := [a] + [b, c, d];
    forall i: nat | i < |s|
      ensures HLink(q, s, i)
    {
      assert s[0] == a && s[1] == b && s[2] == c && s[3] == d;
    }
  }
}
