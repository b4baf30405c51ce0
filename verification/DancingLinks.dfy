/** The node pool of the Sudoku solver as a value: links, rings, and the two
    undoable operations on them, for an arbitrary sparse matrix.

    A pool is a sequence of records that point at each other by index.  The
    matrix they represent is described by a `Matrix`, which never changes while
    the solver searches; `State` adds what does change: the links, the ring of
    uncovered columns and the vertical ring of every column. */
module DancingLinks {
  import opened Basics

  datatype Node = Node(left: int, right: int, up: int, down: int, col: int, name: int, size: int)

  type Pool = seq<Node>

  /** `others[x]` lists the nodes to the right of `x` in its row, up to but not
      including `x` again; `col[x]` is the column header of node `x` and `name[x]` its label. */
  datatype Matrix = Matrix(root: int, cols: set<int>, col: map<int, int>, others: map<int, seq<int>>, name: map<int, int>)

  datatype State = State(pool: Pool, header: seq<int>, vert: map<int, seq<int>>)

  // ----- sequences without repetition

  function Remove(s: seq<int>, x: int): (r: seq<int>) {
    if s == [] then [] else if s[0] == x then s[1..] else [s[0]] + Remove(s[1..], x)
  }

  lemma {:induction false} RemoveAt(s: seq<int>, k: nat)
    requires k < |s| && Distinct(s)
    ensures Remove(s, s[k]) == s[..k] + s[k + 1..]
  {
    if k > 0 {
      assert s[1..][k - 1] == s[k];
      RemoveAt(s[1..], k - 1);
    }
  }

  lemma RemoveFacts(s: seq<int>, x: int)
    requires Distinct(s) && x in s
    ensures Distinct(Remove(s, x)) && |Remove(s, x)| == |s| - 1
    ensures forall y :: y in Remove(s, x) <==> y in s && y != x
  {
    var k :| 0 <= k < |s| && s[k] == x;
    RemoveAt(s, k);
    var r := s[..k] + s[k + 1..];
    forall y
      ensures y in r <==> y in s && y != x
    {
      if y in s && y != x {
        var i :| 0 <= i < |s| && s[i] == y;
        assert y == if i < k then r[i] else r[i - 1];
      }
    }
  }

  lemma DistinctConcat(a: seq<int>, b: seq<int>)
    requires Distinct(a) && Distinct(b) && forall x :: x in b ==> x !in a
    ensures Distinct(a + b)
  {
    forall i, j | 0 <= i < j < |a + b|
      ensures (a + b)[i] != (a + b)[j]
    {
      if j >= |a| {
        assert (a + b)[j] == b[j - |a|];
        assert b[j - |a|] in b;
        if i >= |a| {
          assert (a + b)[i] == b[i - |a|];
        }
      }
    }
  }

  // ----- rings

  function Next(s: seq<int>, i: nat): (n: nat)
    requires i < |s|
    ensures n < |s|
  {
    if i + 1 < |s| then i + 1 else 0
  }

  predicate InPool(p: Pool, x: int) {
    0 <= x < |p|
  }

  predicate VLink(p: Pool, s: seq<int>, i: nat) {
    i < |s| && InPool(p, s[i]) && InPool(p, s[Next(s, i)])
    && p[s[i]].down == s[Next(s, i)] && p[s[Next(s, i)]].up == s[i]
  }

  predicate HLink(p: Pool, s: seq<int>, i: nat) {
    i < |s| && InPool(p, s[i]) && InPool(p, s[Next(s, i)])
    && p[s[i]].right == s[Next(s, i)] && p[s[Next(s, i)]].left == s[i]
  }

  /** `s` read downwards is a whole vertical ring. */
  ghost predicate VRing(p: Pool, s: seq<int>) {
    forall i: nat :: i < |s| ==> VLink(p, s, i)
  }

  /** `s` read rightwards is a whole horizontal ring. */
  ghost predicate HRing(p: Pool, s: seq<int>) {
    forall i: nat :: i < |s| ==> HLink(p, s, i)
  }

  // ----- the link operations

  predicate Wired(p: Pool, j: int) {
    InPool(p, j) && InPool(p, p[j].up) && InPool(p, p[j].down) && InPool(p, p[j].col)
  }

  predicate Beamed(p: Pool, c: int) {
    InPool(p, c) && InPool(p, p[c].left) && InPool(p, p[c].right)
  }

  function SetUp(p: Pool, x: int, v: int): (r: Pool)
    requires InPool(p, x)
  {
    p[x := p[x].(up := v)]
  }

  function SetDown(p: Pool, x: int, v: int): (r: Pool)
    requires InPool(p, x)
  {
    p[x := p[x].(down := v)]
  }

  function SetLeft(p: Pool, x: int, v: int): (r: Pool)
    requires InPool(p, x)
  {
    p[x := p[x].(left := v)]
  }

  function SetRight(p: Pool, x: int, v: int): (r: Pool)
    requires InPool(p, x)
  {
    p[x := p[x].(right := v)]
  }

  function Resize(p: Pool, x: int, d: int): (r: Pool)
    requires InPool(p, x)
  {
    p[x := p[x].(size := p[x].size + d)]
  }

  /** Take node `j` out of its vertical ring. */
  function Unlink(p: Pool, j: int): (r: Pool) {
    if !Wired(p, j) then p else
      Resize(SetDown(SetUp(p, p[j].down, p[j].up), p[j].up, p[j].down), p[j].col, -1)
  }

  /** Put node `j` back where its own pointers say it was. */
  function Relink(p: Pool, j: int): (r: Pool) {
    if !Wired(p, j) then p else
      var q := SetUp(Resize(p, p[j].col, 1), p[j].down, j);
      SetDown(q, q[j].up, j)
  }

  /** Take column `c` out of the header ring. */
  function UnlinkHeader(p: Pool, c: int): (r: Pool) {
    if !Beamed(p, c) then p else
      SetRight(SetLeft(p, p[c].right, p[c].left), p[c].left, p[c].right)
  }

  function RelinkHeader(p: Pool, c: int): (r: Pool) {
    if !Beamed(p, c) then p else
      var q := SetLeft(p, p[c].right, c);
      SetRight(q, q[c].left, c)
  }

  /** Undo is exact for any node its neighbours still point at. */
  lemma RelinkUndoesUnlink(p: Pool, j: int)
    requires Wired(p, j) && p[p[j].down].up == j && p[p[j].up].down == j
    ensures Wired(Unlink(p, j), j) && Relink(Unlink(p, j), j) == p
  {
    var q := Unlink(p, j);
    assert q[j].up == p[j].up && q[j].down == p[j].down && q[j].col == p[j].col;
  }

  lemma RelinkHeaderUndoesUnlinkHeader(p: Pool, c: int)
    requires Beamed(p, c) && p[p[c].right].left == c && p[p[c].left].right == c
    ensures Beamed(UnlinkHeader(p, c), c) && RelinkHeader(UnlinkHeader(p, c), c) == p
  {
    var q := UnlinkHeader(p, c);
    assert q[c].left == p[c].left && q[c].right == p[c].right;
  }

  // ----- what a pool represents

  function RowNodes(m: Matrix, x: int): (r: set<int>)
    requires x in m.others
  {
    {x} + set y | y in m.others[x]
  }

  /** The columns that the row of node `x` hits. */
  function Items(m: Matrix, x: int): (r: set<int>)
    requires x in m.others
  {
    set y | y in RowNodes(m, x) && y in m.col :: m.col[y]
  }

  ghost predicate RowOk(m: Matrix, x: int)
    requires x in m.others
  {
    && x in m.col && m.col[x] in m.cols && x !in m.cols && x != m.root
    && Distinct(m.others[x]) && x !in m.others[x]
    && (forall y :: y in m.others[x] ==>
                      y in m.others && y in m.col && m.col[y] != m.col[x] && RowNodes(m, y) == RowNodes(m, x))
  }

  /** A well-formed matrix over any number of rows and columns. */
  ghost predicate MatrixOk(m: Matrix) {
    && m.root !in m.cols
    && m.col.Keys == m.others.Keys && m.name.Keys == m.others.Keys
    && forall x {:trigger RowOk(m, x)} :: x in m.others ==> RowOk(m, x)
  }

  ghost predicate ColumnLinked(m: Matrix, p: Pool, q: int, v: seq<int>) {
    && Distinct(v)
    && (forall x :: x in v ==> x in m.col && m.col[x] == q)
    && VRing(p, [q] + v)
    && InPool(p, q) && p[q].size == |v|
  }

  ghost predicate RowLinked(m: Matrix, p: Pool, x: int)
    requires x in m.others && x in m.col && x in m.name
  {
    HRing(p, [x] + m.others[x]) && InPool(p, x) && p[x].col == m.col[x] && p[x].name == m.name[x]
  }

  /** The pool's rings are exactly the ones the state names. */
  ghost predicate Linked(m: Matrix, st: State) {
    && MatrixOk(m)
    && Distinct(st.header)
    && (forall c :: c in st.header ==> c in m.cols)
    && HRing(st.pool, [m.root] + st.header)
    && st.vert.Keys == m.cols
    && (forall q {:trigger ColumnLinked(m, st.pool, q, st.vert[q])} :: q in m.cols ==> ColumnLinked(m, st.pool, q, st.vert[q]))
    && (forall x {:trigger RowLinked(m, st.pool, x)} :: x in m.others ==> RowLinked(m, st.pool, x))
  }

  function Active(st: State): (a: set<int>) {
    set c | c in st.header
  }

  /** An uncovered column's ring holds exactly the rows all of whose columns are uncovered. */
  ghost predicate Represents(m: Matrix, st: State)
    requires Linked(m, st)
  {
    forall x :: x in m.others && m.col[x] in st.header && m.col[x] in st.vert ==>
                  (x in st.vert[m.col[x]] <==> Items(m, x) <= Active(st))
  }

  ghost predicate Inv(m: Matrix, st: State) {
    var linked := Linked(m, st);
    linked && Represents(m, st)
  }

  // ----- cover, as a trace of unlinks

  /** The order in which covering a column unlinks nodes: its rows downwards, each row rightwards. */
  function Trace(m: Matrix, xs: seq<int>): (js: seq<int>)
    requires RowsKnown(m, xs)
  {
    if xs == [] then [] else Trace(m, xs[..|xs| - 1]) + m.others[xs[|xs| - 1]]
  }

  function UnlinkNode(m: Matrix, st: State, j: int): (r: State) {
    if j in m.col && m.col[j] in st.vert
    then State(Unlink(st.pool, j), st.header, st.vert[m.col[j] := Remove(st.vert[m.col[j]], j)])
    else st
  }

  function UnlinkNodes(m: Matrix, st: State, js: seq<int>): (r: State) {
    if js == [] then st else UnlinkNode(m, UnlinkNodes(m, st, js[..|js| - 1]), js[|js| - 1])
  }

  function CoverHeader(st: State, c: int): (r: State) {
    State(UnlinkHeader(st.pool, c), Remove(st.header, c), st.vert)
  }

  predicate RowsKnown(m: Matrix, xs: seq<int>) {
    forall i :: 0 <= i < |xs| ==> xs[i] in m.others
  }

  function Cover(m: Matrix, st: State, c: int): (r: State) {
    if c in st.vert && RowsKnown(m, st.vert[c])
    then UnlinkNodes(m, CoverHeader(st, c), Trace(m, st.vert[c]))
    else st
  }

  /** Cover, in order, the columns of the given nodes. */
  function CoverAll(m: Matrix, st: State, js: seq<int>): (r: State)
    requires forall i :: 0 <= i < |js| ==> js[i] in m.col
  {
    if js == [] then st else Cover(m, CoverAll(m, st, js[..|js| - 1]), m.col[js[|js| - 1]])
  }

  // ----- one unlink keeps every ring linked

  lemma UnlinkFields(p: Pool, j: int)
    requires Wired(p, j)
    ensures var q := Unlink(p, j);
      && |q| == |p|
      && (forall x :: InPool(p, x) ==>
            && q[x].left == p[x].left && q[x].right == p[x].right && q[x].col == p[x].col && q[x].name == p[x].name
            && q[x].up == (if x == p[j].down then p[j].up else p[x].up)
            && q[x].down == (if x == p[j].up then p[j].down else p[x].down)
            && q[x].size == (if x == p[j].col then p[x].size - 1 else p[x].size))
  {
  }

  lemma UnlinkRing(p: Pool, s: seq<int>, k: nat)
    requires VRing(p, s) && Distinct(s) && 0 < k < |s|
    requires InPool(p, s[k]) && InPool(p, p[s[k]].col)
    ensures Wired(p, s[k])
    ensures VRing(Unlink(p, s[k]), s[..k] + s[k + 1..])
  {
    var j := s[k];
    assert VLink(p, s, k) && VLink(p, s, k - 1);
    UnlinkFields(p, j);
    var q := Unlink(p, j);
    var t := s[..k] + s[k + 1..];
    forall i: nat | i < |t|
      ensures VLink(q, t, i)
    {
      var i' := if i < k then i else i + 1;
      assert t[i] == s[i'];
      assert VLink(p, s, i');
      if i == k - 1 {
        assert t[Next(t, i)] == s[Next(s, k)];
      } else {
        assert t[Next(t, i)] == s[Next(s, i')];
      }
    }
  }

  /** A vertical ring that the unlinked node's neighbours are not on is untouched. */
  lemma UnlinkKeepsVRing(p: Pool, j: int, s: seq<int>)
    requires Wired(p, j) && VRing(p, s) && p[j].up !in s && p[j].down !in s
    ensures VRing(Unlink(p, j), s)
  {
    UnlinkFields(p, j);
    forall i: nat | i < |s|
      ensures VLink(Unlink(p, j), s, i)
    {
      assert VLink(p, s, i) && s[i] in s && s[Next(s, i)] in s;
    }
  }

  lemma UnlinkKeepsHRing(p: Pool, j: int, s: seq<int>)
    requires Wired(p, j) && HRing(p, s)
    ensures HRing(Unlink(p, j), s)
  {
    UnlinkFields(p, j);
    forall i: nat | i < |s|
      ensures HLink(Unlink(p, j), s, i)
    {
      assert HLink(p, s, i);
    }
  }

  /** A live node sits on its column's ring between two neighbours that point back at it. */
  lemma LiveNode(m: Matrix, st: State, j: int) returns (k: nat)
    requires Linked(m, st) && j in m.col && m.col[j] in st.vert && j in st.vert[m.col[j]]
    ensures j in m.others && m.col[j] in m.cols
    ensures k < |st.vert[m.col[j]]| && st.vert[m.col[j]][k] == j
    ensures Wired(st.pool, j) && st.pool[j].col == m.col[j]
    ensures st.pool[st.pool[j].down].up == j && st.pool[st.pool[j].up].down == j
    ensures st.pool[j].up in [m.col[j]] + st.vert[m.col[j]] && st.pool[j].down in [m.col[j]] + st.vert[m.col[j]]
    ensures st.pool[j].up != j && st.pool[j].down != j
  {
    var c := m.col[j];
    assert RowOk(m, j) && RowLinked(m, st.pool, j);
    assert ColumnLinked(m, st.pool, c, st.vert[c]);
    var v := st.vert[c];
    var s := [c] + v;
    k :| 0 <= k < |v| && v[k] == j;
    assert s[k + 1] == j;
    assert VLink(st.pool, s, k) && VLink(st.pool, s, k + 1);
    assert j != c;
    assert s[k] != j by {
      if k > 0 {
        assert s[k] == v[k - 1];
      }
    }
    assert s[Next(s, k + 1)] != j by {
      if k + 2 < |s| {
        assert s[k + 2] == v[k + 1];
      }
    }
  }

  lemma UnlinkKeepsRow(m: Matrix, p: Pool, j: int, x: int)
    requires Wired(p, j) && x in m.others && x in m.col && x in m.name && RowLinked(m, p, x)
    ensures RowLinked(m, Unlink(p, j), x)
  {
    UnlinkFields(p, j);
    UnlinkKeepsHRing(p, j, [x] + m.others[x]);
  }

  lemma ConsParts(c: int, v: seq<int>, k: nat)
    requires k < |v|
    ensures ([c] + v)[k + 1] == v[k]
    ensures ([c] + v)[..k + 1] == [c] + v[..k] && ([c] + v)[k + 2..] == v[k + 1..]
  {
  }

  lemma ConsRemove(c: int, v: seq<int>, k: nat)
    requires k < |v| && Distinct(v)
    ensures ([c] + v)[k + 1] == v[k]
    ensures ([c] + v)[..k + 1] + ([c] + v)[k + 2..] == [c] + Remove(v, v[k])
  {
    ConsParts(c, v, k);
    RemoveAt(v, k);
    var a, b := v[..k], v[k + 1..];
    assert ([c] + a) + b == [c] + (a + b);
  }

  lemma UnlinkShrinksRing(p: Pool, c: int, v: seq<int>, k: nat)
    requires VRing(p, [c] + v) && Distinct([c] + v) && Distinct(v) && k < |v|
    requires InPool(p, c) && InPool(p, v[k]) && p[v[k]].col == c
    ensures Wired(p, v[k])
    ensures VRing(Unlink(p, v[k]), [c] + Remove(v, v[k]))
  {
    ConsRemove(c, v, k);
    UnlinkRing(p, [c] + v, k + 1);
  }

  lemma UnlinkShrinksColumn(m: Matrix, p: Pool, c: int, v: seq<int>, k: nat)
    requires ColumnLinked(m, p, c, v) && Distinct([c] + v) && k < |v| && InPool(p, v[k]) && p[v[k]].col == c
    ensures ColumnLinked(m, Unlink(p, v[k]), c, Remove(v, v[k]))
  {
    UnlinkShrinksRing(p, c, v, k);
    UnlinkFields(p, v[k]);
    RemoveFacts(v, v[k]);
  }

  lemma UnlinkKeepsOtherColumn(m: Matrix, st: State, j: int, q: int)
    requires Linked(m, st) && j in m.col && m.col[j] in st.vert && j in st.vert[m.col[j]]
    requires q in m.cols && q != m.col[j]
    ensures ColumnLinked(m, Unlink(st.pool, j), q, st.vert[q])
  {
    var p := st.pool;
    var k := LiveNode(m, st, j);
    assert ColumnLinked(m, p, q, st.vert[q]);
    ColumnsApart(m, st, m.col[j], q, p[j].up);
    ColumnsApart(m, st, m.col[j], q, p[j].down);
    UnlinkKeepsVRing(p, j, [q] + st.vert[q]);
    UnlinkFields(p, j);
  }

  lemma UnlinkNodeLinked(m: Matrix, st: State, j: int)
    requires Linked(m, st) && j in m.col && m.col[j] in st.vert && j in st.vert[m.col[j]]
    ensures Linked(m, UnlinkNode(m, st, j))
  {
    var r := UnlinkNode(m, st, j);
    var k := LiveNode(m, st, j);
    UnlinkKeepsHRing(st.pool, j, [m.root] + st.header);
    forall x | x in m.others
      ensures RowLinked(m, r.pool, x)
    {
      UnlinkKeepsRow(m, st.pool, j, x);
    }
    forall q | q in m.cols
      ensures ColumnLinked(m, r.pool, q, r.vert[q])
    {
      if q == m.col[j] {
        ColumnRingDistinct(m, st, q);
        UnlinkShrinksColumn(m, st.pool, q, st.vert[q], k);
      } else {
        UnlinkKeepsOtherColumn(m, st, j, q);
      }
    }
  }

  lemma ColumnRingDistinct(m: Matrix, st: State, c: int)
    requires Linked(m, st) && c in m.cols
    ensures Distinct([c] + st.vert[c])
  {
    var v := st.vert[c];
    assert ColumnLinked(m, st.pool, c, v);
    forall i, j | 0 <= i < j < |[c] + v|
      ensures ([c] + v)[i] != ([c] + v)[j]
    {
      assert ([c] + v)[j] == v[j - 1] && v[j - 1] in v;
      assert RowOk(m, v[j - 1]);
      if i > 0 {
        assert ([c] + v)[i] == v[i - 1];
      }
    }
  }

  lemma OnColumn(m: Matrix, st: State, c: int, x: int)
    requires Linked(m, st) && c in m.cols
    ensures x in [c] + st.vert[c] <==> x == c || x in st.vert[c]
    ensures x in st.vert[c] ==> x !in m.cols && x in m.col && m.col[x] == c
  {
    assert ColumnLinked(m, st.pool, c, st.vert[c]);
    if x in st.vert[c] {
      assert RowOk(m, x);
    }
  }

  lemma ColumnsApart(m: Matrix, st: State, c: int, q: int, x: int)
    requires Linked(m, st) && c in m.cols && q in m.cols && c != q
    requires x in [c] + st.vert[c]
    ensures x !in [q] + st.vert[q]
  {
    OnColumn(m, st, c, x);
    OnColumn(m, st, q, x);
  }

  // ----- unlinking a whole trace

  lemma UnlinkNodeMembers(m: Matrix, st: State, j: int, q: int, x: int)
    requires Linked(m, st) && j in m.col && m.col[j] in st.vert && j in st.vert[m.col[j]] && q in m.cols
    ensures q in UnlinkNode(m, st, j).vert
    ensures x in UnlinkNode(m, st, j).vert[q] <==> x in st.vert[q] && x != j
  {
    assert ColumnLinked(m, st.pool, m.col[j], st.vert[m.col[j]]);
    RemoveFacts(st.vert[m.col[j]], j);
    OnColumn(m, st, q, x);
    OnColumn(m, st, q, j);
  }

  /** Column ring `w` is `v` without the nodes of `js`, and the same ring if it had none of them. */
  ghost predicate Without(w: seq<int>, v: seq<int>, js: seq<int>) {
    && (forall x :: x in w <==> x in v && x !in js)
    && ((forall x :: x in v ==> x !in js) ==> w == v)
  }

  lemma OneMoreWithout(m: Matrix, st: State, js: seq<int>, j: int, q: int, v: seq<int>)
    requires Linked(m, st) && j in m.col && m.col[j] in st.vert && j in st.vert[m.col[j]] && q in m.cols
    requires Without(st.vert[q], v, js)
    ensures q in UnlinkNode(m, st, j).vert && Without(UnlinkNode(m, st, j).vert[q], v, js + [j])
  {
    var w := UnlinkNode(m, st, j).vert[q];
    forall x
      ensures x in w <==> x in v && x !in js + [j]
    {
      UnlinkNodeMembers(m, st, j, q, x);
    }
    if forall x :: x in v ==> x !in js + [j] {
      assert forall x :: x in v ==> x !in js;
      assert st.vert[q] == v && j in js + [j];
      assert q != m.col[j];
    }
  }

  /** The nodes of a trace are all live and all different. */
  ghost predicate Unlinkable(m: Matrix, st: State, js: seq<int>) {
    Distinct(js) && forall j :: j in js ==> j in m.col && m.col[j] in st.vert && j in st.vert[m.col[j]]
  }

  lemma {:induction false} UnlinkNodesWithout(m: Matrix, st: State, js: seq<int>)
    requires Linked(m, st) && Unlinkable(m, st, js)
    ensures Linked(m, UnlinkNodes(m, st, js))
    ensures UnlinkNodes(m, st, js).header == st.header
    ensures |UnlinkNodes(m, st, js).pool| == |st.pool|
    ensures forall q :: q in m.cols ==> Without(UnlinkNodes(m, st, js).vert[q], st.vert[q], js)
  {
    if js != [] {
      var pre, j := js[..|js| - 1], js[|js| - 1];
      assert js == pre + [j] && j in js && j !in pre;
      UnlinkNodesWithout(m, st, pre);
      var mid := UnlinkNodes(m, st, pre);
      assert RowOk(m, j);
      var c := m.col[j];
      assert c in m.cols && Without(mid.vert[c], st.vert[c], pre);
      UnlinkNodeLinked(m, mid, j);
      forall q | q in m.cols
        ensures Without(UnlinkNodes(m, st, js).vert[q], st.vert[q], js)
      {
        OneMoreWithout(m, mid, pre, j, q, st.vert[q]);
      }
    }
  }

  lemma UnlinkNodesLinked(m: Matrix, st: State, js: seq<int>)
    requires Linked(m, st) && Unlinkable(m, st, js)
    ensures Linked(m, UnlinkNodes(m, st, js))
    ensures UnlinkNodes(m, st, js).header == st.header
    ensures |UnlinkNodes(m, st, js).pool| == |st.pool|
    ensures forall q, x {:trigger x in UnlinkNodes(m, st, js).vert[q]} :: q in m.cols ==>
                           (x in UnlinkNodes(m, st, js).vert[q] <==> x in st.vert[q] && x !in js)
    ensures forall q :: q in m.cols && (forall x :: x in st.vert[q] ==> x !in js) ==> UnlinkNodes(m, st, js).vert[q] == st.vert[q]
  {
    UnlinkNodesWithout(m, st, js);
    assert forall q :: q in m.cols ==> Without(UnlinkNodes(m, st, js).vert[q], st.vert[q], js);
  }

  // ----- taking a column out of the header ring

  lemma UnlinkHeaderFields(p: Pool, c: int)
    requires Beamed(p, c)
    ensures var q := UnlinkHeader(p, c);
      && |q| == |p|
      && (forall x :: InPool(p, x) ==>
            && q[x].up == p[x].up && q[x].down == p[x].down && q[x].col == p[x].col
            && q[x].name == p[x].name && q[x].size == p[x].size
            && q[x].left == (if x == p[c].right then p[c].left else p[x].left)
            && q[x].right == (if x == p[c].left then p[c].right else p[x].right))
  {
  }

  lemma UnlinkHeaderRing(p: Pool, s: seq<int>, k: nat)
    requires HRing(p, s) && Distinct(s) && 0 < k < |s|
    ensures Beamed(p, s[k]) && p[s[k]].left in s && p[s[k]].right in s
    ensures p[p[s[k]].left].right == s[k] && p[p[s[k]].right].left == s[k]
    ensures HRing(UnlinkHeader(p, s[k]), s[..k] + s[k + 1..])
  {
    var c := s[k];
    assert HLink(p, s, k) && HLink(p, s, k - 1);
    assert p[c].left == s[k - 1];
    UnlinkHeaderFields(p, c);
    var q := UnlinkHeader(p, c);
    var t := s[..k] + s[k + 1..];
    forall i: nat | i < |t|
      ensures HLink(q, t, i)
    {
      var i' := if i < k then i else i + 1;
      assert t[i] == s[i'];
      assert HLink(p, s, i');
      if i == k - 1 {
        assert t[Next(t, i)] == s[Next(s, k)];
      } else {
        assert t[Next(t, i)] == s[Next(s, i')];
      }
    }
  }

  lemma UnlinkHeaderKeepsRow(m: Matrix, p: Pool, c: int, x: int)
    requires Beamed(p, c) && x in m.others && x in m.col && x in m.name && RowLinked(m, p, x)
    requires p[c].left != x && p[c].right != x && p[c].left !in m.others[x] && p[c].right !in m.others[x]
    ensures RowLinked(m, UnlinkHeader(p, c), x)
  {
    UnlinkHeaderFields(p, c);
    var s := [x] + m.others[x];
    forall i: nat | i < |s|
      ensures HLink(UnlinkHeader(p, c), s, i)
    {
      assert HLink(p, s, i);
      assert s[i] == x || s[i] in m.others[x];
      assert s[Next(s, i)] == x || s[Next(s, i)] in m.others[x];
    }
  }

  lemma UnlinkHeaderKeepsColumn(m: Matrix, p: Pool, c: int, q: int, v: seq<int>)
    requires Beamed(p, c) && ColumnLinked(m, p, q, v)
    ensures ColumnLinked(m, UnlinkHeader(p, c), q, v)
  {
    UnlinkHeaderFields(p, c);
    forall i: nat | i < |[q] + v|
      ensures VLink(UnlinkHeader(p, c), [q] + v, i)
    {
      assert VLink(p, [q] + v, i);
    }
  }

  lemma RootRingDistinct(m: Matrix, st: State)
    requires Linked(m, st)
    ensures Distinct([m.root] + st.header)
    ensures forall x :: x in [m.root] + st.header ==> x == m.root || x in m.cols
  {
    var s := [m.root] + st.header;
    forall i, j | 0 <= i < j < |s|
      ensures s[i] != s[j]
    {
      assert s[j] == st.header[j - 1] && st.header[j - 1] in st.header;
      if i > 0 {
        assert s[i] == st.header[i - 1];
      }
    }
  }

  /** An uncovered column's neighbours in the header ring point back at it. */
  lemma LiveHeader(m: Matrix, st: State, c: int) returns (k: nat)
    requires Linked(m, st) && c in st.header
    ensures k < |st.header| && st.header[k] == c
    ensures Beamed(st.pool, c)
    ensures st.pool[st.pool[c].left].right == c && st.pool[st.pool[c].right].left == c
    ensures st.pool[c].left == m.root || st.pool[c].left in m.cols
    ensures st.pool[c].right == m.root || st.pool[c].right in m.cols
    ensures HRing(CoverHeader(st, c).pool, [m.root] + CoverHeader(st, c).header)
  {
    k :| 0 <= k < |st.header| && st.header[k] == c;
    RootRingDistinct(m, st);
    ConsRemove(m.root, st.header, k);
    UnlinkHeaderRing(st.pool, [m.root] + st.header, k + 1);
  }

  lemma CoverHeaderLinked(m: Matrix, st: State, c: int)
    requires Linked(m, st) && c in st.header
    ensures Linked(m, CoverHeader(st, c))
    ensures |CoverHeader(st, c).pool| == |st.pool|
    ensures Active(CoverHeader(st, c)) == Active(st) - {c}
  {
    var k := LiveHeader(m, st, c);
    var r := CoverHeader(st, c);
    RemoveFacts(st.header, c);
    forall x
      ensures x in Active(r) <==> x in Active(st) - {c}
    {
      assert x in Remove(st.header, c) <==> x in st.header && x != c;
    }
    forall x | x in m.others
      ensures RowLinked(m, r.pool, x)
    {
      assert RowOk(m, x);
      forall y | y in m.others[x]
        ensures y != m.root && y !in m.cols
      {
        assert RowOk(m, y);
      }
      UnlinkHeaderKeepsRow(m, st.pool, c, x);
    }
    forall q | q in m.cols
      ensures ColumnLinked(m, r.pool, q, r.vert[q])
    {
      UnlinkHeaderKeepsColumn(m, st.pool, c, q, st.vert[q]);
    }
  }

  // ----- covering a column

  lemma {:induction false} TraceMember(m: Matrix, xs: seq<int>, j: int)
    requires RowsKnown(m, xs)
    ensures j in Trace(m, xs) <==> exists i :: 0 <= i < |xs| && j in m.others[xs[i]]
  {
    if xs != [] {
      var n := |xs| - 1;
      var pre := xs[..n];
      TraceMember(m, pre, j);
      if j in Trace(m, pre) {
        var i :| 0 <= i < |pre| && j in m.others[pre[i]];
        assert pre[i] == xs[i];
      }
      if i :| 0 <= i < |xs| && j in m.others[xs[i]] {
        assert i < n ==> pre[i] == xs[i];
      }
    }
  }

  lemma SameRow(m: Matrix, x: int, y: int)
    requires MatrixOk(m) && x in m.others && y in RowNodes(m, x)
    ensures y in m.others && RowNodes(m, y) == RowNodes(m, x) && Items(m, y) == Items(m, x)
    ensures m.col[y] in Items(m, x)
    ensures y == x || (m.col[y] != m.col[x] && x in m.others[y])
  {
    assert RowOk(m, x);
    assert x in RowNodes(m, y);
  }

  /** Nodes of one column lie on different rows, so the rows' traces do not overlap. */
  lemma {:induction false} TraceDistinct(m: Matrix, c: int, xs: seq<int>)
    requires MatrixOk(m) && Distinct(xs)
    requires forall i :: 0 <= i < |xs| ==> xs[i] in m.others && m.col[xs[i]] == c
    ensures Distinct(Trace(m, xs))
  {
    if xs != [] {
      var n := |xs| - 1;
      var pre, x := xs[..n], xs[n];
      TraceDistinct(m, c, pre);
      assert RowOk(m, x);
      forall j | j in m.others[x]
        ensures j !in Trace(m, pre)
      {
        TraceMember(m, pre, j);
        if i :| 0 <= i < |pre| && j in m.others[pre[i]] {
          SameRow(m, x, j);
          SameRow(m, pre[i], j);
          assert pre[i] in RowNodes(m, x);
          SameRow(m, x, pre[i]);
          assert false;
        }
      }
      DistinctConcat(Trace(m, pre), m.others[x]);
    }
  }

  /** In a represented state, the nodes that covering `c` unlinks are the live nodes outside `c`
      on the rows that hit `c`. */
  lemma CoverTrace(m: Matrix, st: State, c: int)
    requires Inv(m, st) && c in st.header
    ensures c in m.cols && c in st.vert
    ensures RowsKnown(m, st.vert[c])
    ensures Unlinkable(m, st, Trace(m, st.vert[c]))
    ensures forall x :: x in m.others && m.col[x] in st.header && Items(m, x) <= Active(st) ==>
                          (x in Trace(m, st.vert[c]) <==> m.col[x] != c && c in Items(m, x))
    ensures forall j :: j in Trace(m, st.vert[c]) ==> j in m.col && m.col[j] != c
  {
    var xs := st.vert[c];
    assert ColumnLinked(m, st.pool, c, xs);
    forall i | 0 <= i < |xs|
      ensures xs[i] in m.others && m.col[xs[i]] == c
    {
      var x := xs[i];
      assert x in xs;
    }
    TraceDistinct(m, c, xs);
    forall j | j in Trace(m, xs)
      ensures j in m.col && m.col[j] != c && m.col[j] in st.vert && j in st.vert[m.col[j]] && c in Items(m, j)
    {
      TraceMember(m, xs, j);
      var i :| 0 <= i < |xs| && j in m.others[xs[i]];
      assert xs[i] in xs && RowOk(m, xs[i]);
      SameRow(m, xs[i], j);
    }
    forall x | x in m.others && m.col[x] in st.header && Items(m, x) <= Active(st) && m.col[x] != c && c in Items(m, x)
      ensures x in Trace(m, xs)
    {
      var y :| y in RowNodes(m, x) && y in m.col && m.col[y] == c;
      SameRow(m, x, y);
      assert y in xs;
      TraceMember(m, xs, x);
    }
  }

  /** Covering a column is the set-level step: the column leaves the problem, and with it every
      row that hits it. */
  lemma CoverRefines(m: Matrix, st: State, c: int)
    requires Inv(m, st) && c in st.header
    ensures c in st.vert && RowsKnown(m, st.vert[c])
    ensures var r := Cover(m, st, c);
      && Inv(m, r)
      && |r.pool| == |st.pool|
      && |r.header| == |st.header| - 1
      && Active(r) == Active(st) - {c}
      && r.vert[c] == st.vert[c]
  {
    CoverTrace(m, st, c);
    var js := Trace(m, st.vert[c]);
    var h := CoverHeader(st, c);
    CoverHeaderLinked(m, st, c);
    RemoveFacts(st.header, c);
    assert Unlinkable(m, h, js);
    UnlinkNodesLinked(m, h, js);
    var r := Cover(m, st, c);
    forall x | x in m.others && m.col[x] in r.header
      ensures x in r.vert[m.col[x]] <==> Items(m, x) <= Active(r)
    {
      assert m.col[x] in st.header && m.col[x] != c;
      assert Items(m, x) <= Active(r) <==> Items(m, x) <= Active(st) && c !in Items(m, x);
    }
    forall x | x in st.vert[c]
      ensures x !in js
    {
      assert ColumnLinked(m, st.pool, c, st.vert[c]);
    }
  }

  function ColumnsOf(m: Matrix, js: seq<int>): (r: set<int>)
    requires forall i :: 0 <= i < |js| ==> js[i] in m.col
  {
    set i | 0 <= i < |js| :: m.col[js[i]]
  }

  lemma ColumnsOfLast(m: Matrix, js: seq<int>)
    requires js != [] && forall i :: 0 <= i < |js| ==> js[i] in m.col
    requires forall i, k :: 0 <= i < k < |js| ==> m.col[js[i]] != m.col[js[k]]
    ensures var n := |js| - 1;
      && ColumnsOf(m, js) == ColumnsOf(m, js[..n]) + {m.col[js[n]]}
      && m.col[js[n]] !in ColumnsOf(m, js[..n])
  {
    var n := |js| - 1;
    assert forall i :: 0 <= i < n ==> js[..n][i] == js[i];
    forall d | d in ColumnsOf(m, js)
      ensures d in ColumnsOf(m, js[..n]) + {m.col[js[n]]}
    {
      var i :| 0 <= i < |js| && m.col[js[i]] == d;
      assert i < n ==> m.col[js[..n][i]] == d;
    }
  }

  /** Covering the columns of several nodes removes exactly those columns. */
  lemma {:induction false} CoverAllRefines(m: Matrix, st: State, js: seq<int>)
    requires Inv(m, st)
    requires forall i :: 0 <= i < |js| ==> js[i] in m.col && m.col[js[i]] in Active(st)
    requires forall i, k :: 0 <= i < k < |js| ==> m.col[js[i]] != m.col[js[k]]
    ensures var r := CoverAll(m, st, js);
      && Inv(m, r)
      && |r.pool| == |st.pool|
      && |r.header| == |st.header| - |js|
      && Active(r) == Active(st) - ColumnsOf(m, js)
  {
    if js != [] {
      var n := |js| - 1;
      CoverAllRefines(m, st, js[..n]);
      ColumnsOfLast(m, js);
      assert m.col[js[n]] in Active(CoverAll(m, st, js[..n]));
      CoverRefines(m, CoverAll(m, st, js[..n]), m.col[js[n]]);
    }
  }
}
