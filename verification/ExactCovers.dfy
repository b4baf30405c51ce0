/** The set-level problem that the dancing-links search solves: choose rows that hit every
    column of a given set exactly once.  A row is named by any one of its nodes. */
module ExactCovers {
  import opened DancingLinks

  ghost predicate ExactCover(m: Matrix, a: set<int>, s: seq<int>) {
    && (forall i :: 0 <= i < |s| ==> s[i] in m.others && Items(m, s[i]) <= a)
    && (forall i, j :: 0 <= i < j < |s| ==> Items(m, s[i]) !! Items(m, s[j]))
    && (forall c :: c in a ==> Hit(m, s, c))
  }

  ghost predicate Hit(m: Matrix, s: seq<int>, c: int) {
    exists i :: 0 <= i < |s| && s[i] in m.others && c in Items(m, s[i])
  }

  ghost predicate Solvable(m: Matrix, a: set<int>) {
    exists s: seq<int> :: ExactCover(m, a, s)
  }

  lemma EmptyCover(m: Matrix)
    ensures ExactCover(m, {}, [])
    ensures Solvable(m, {})
  {
    assert ExactCover(m, {}, []);
  }

  /** Choosing a row and covering the rest covers everything. */
  lemma ExtendCover(m: Matrix, a: set<int>, x: int, s: seq<int>)
    requires x in m.others && Items(m, x) <= a && ExactCover(m, a - Items(m, x), s)
    ensures ExactCover(m, a, [x] + s)
  {
    var t := [x] + s;
    forall i, j | 0 <= i < j < |t|
      ensures t[i] in m.others && t[j] in m.others && Items(m, t[i]) !! Items(m, t[j])
    {
      assert t[j] == s[j - 1];
      if i > 0 {
        assert t[i] == s[i - 1];
      }
    }
    forall c | c in a
      ensures Hit(m, t, c)
    {
      if c in Items(m, x) {
        assert t[0] == x;
      } else {
        assert Hit(m, s, c);
        var i :| 0 <= i < |s| && s[i] in m.others && c in Items(m, s[i]);
        assert t[i + 1] == s[i];
      }
    }
  }

  /** Dropping the row that hits a column leaves a cover of the remaining columns. */
  lemma DropRow(m: Matrix, a: set<int>, s: seq<int>, k: nat)
    requires ExactCover(m, a, s) && k < |s|
    ensures ExactCover(m, a - Items(m, s[k]), s[..k] + s[k + 1..])
  {
    var t := s[..k] + s[k + 1..];
    var b := a - Items(m, s[k]);
    forall i | 0 <= i < |t|
      ensures t[i] in m.others && Items(m, t[i]) <= b
    {
      assert t[i] == s[if i < k then i else i + 1];
    }
    forall i, j | 0 <= i < j < |t|
      ensures Items(m, t[i]) !! Items(m, t[j])
    {
      assert t[i] == s[if i < k then i else i + 1];
      assert t[j] == s[if j < k then j else j + 1];
    }
    forall c | c in b
      ensures Hit(m, t, c)
    {
      assert Hit(m, s, c);
      var i :| 0 <= i < |s| && s[i] in m.others && c in Items(m, s[i]);
      assert t[if i < k then i else i - 1] == s[i];
    }
  }

  /** Every cover uses some row of every column: branching over one column loses no solution. */
  lemma BranchComplete(m: Matrix, st: State, c: int) returns (x: int)
    requires Inv(m, st) && c in st.header && Solvable(m, Active(st))
    ensures x in m.others && x in st.vert[c] && Items(m, x) <= Active(st)
    ensures Solvable(m, Active(st) - Items(m, x))
  {
    var a := Active(st);
    var s :| ExactCover(m, a, s);
    assert Hit(m, s, c);
    var k :| 0 <= k < |s| && s[k] in m.others && c in Items(m, s[k]);
    x :| x in RowNodes(m, s[k]) && x in m.col && m.col[x] == c;
    SameRow(m, s[k], x);
    DropRow(m, a, s, k);
  }

  /** A live row of an uncovered column lies within the problem. */
  lemma LiveRow(m: Matrix, st: State, c: int, x: int)
    requires Inv(m, st) && c in st.header && x in st.vert[c]
    ensures x in m.others && m.col[x] == c && Items(m, x) <= Active(st)
    ensures forall i :: 0 <= i < |m.others[x]| ==> m.others[x][i] in m.col && m.col[m.others[x][i]] in Active(st) - {c}
    ensures forall i, k :: 0 <= i < k < |m.others[x]| ==> m.col[m.others[x][i]] != m.col[m.others[x][k]]
    ensures Items(m, x) == {c} + ColumnsOf(m, m.others[x])
  {
    assert ColumnLinked(m, st.pool, c, st.vert[c]);
    assert RowOk(m, x);
    var o := m.others[x];
    forall i | 0 <= i < |o|
      ensures o[i] in m.col && m.col[o[i]] in Active(st) - {c}
    {
      assert o[i] in o;
      SameRow(m, x, o[i]);
    }
    forall i, k | 0 <= i < k < |o|
      ensures m.col[o[i]] != m.col[o[k]]
    {
      assert o[i] in o && o[k] in o;
      SameRow(m, x, o[i]);
      assert o[k] in RowNodes(m, o[i]);
      SameRow(m, o[i], o[k]);
    }
    forall d | d in Items(m, x)
      ensures d in {c} + ColumnsOf(m, o)
    {
      var y :| y in RowNodes(m, x) && y in m.col && m.col[y] == d;
      if y != x {
        var i :| 0 <= i < |o| && o[i] == y;
      }
    }
    forall d | d in ColumnsOf(m, o)
      ensures d in Items(m, x)
    {
      var i :| 0 <= i < |o| && m.col[o[i]] == d;
      var y := o[i];
      assert y in o && y in RowNodes(m, x);
      SameRow(m, x, y);
    }
  }

  predicate RowsInMatrix(m: Matrix, js: seq<int>) {
    forall i :: 0 <= i < |js| ==> js[i] in m.col
  }

  /** A row may be chosen when the columns of its other nodes are all uncovered. */
  ghost predicate Choosable(m: Matrix, st: State, x: int) {
    && Inv(m, st) && x in m.others && RowsInMatrix(m, m.others[x])
    && (forall i :: 0 <= i < |m.others[x]| ==> m.col[m.others[x][i]] in Active(st))
    && (forall i, k :: 0 <= i < k < |m.others[x]| ==> m.col[m.others[x][i]] != m.col[m.others[x][k]])
  }

  /** Choosing a live row removes its columns and nothing else. */
  lemma ChooseRow(m: Matrix, st: State, c: int, x: int)
    requires Inv(m, st) && c in st.header && x in st.vert[c]
    ensures Choosable(m, Cover(m, st, c), x)
    ensures var r := CoverAll(m, Cover(m, st, c), m.others[x]);
      && Inv(m, r)
      && |r.pool| == |st.pool|
      && |r.header| < |st.header|
      && Active(r) == Active(st) - Items(m, x)
  {
    LiveRow(m, st, c, x);
    CoverRefines(m, st, c);
    var st1 := Cover(m, st, c);
    assert forall i :: 0 <= i < |m.others[x]| ==> m.col[m.others[x][i]] in Active(st1);
    CoverAllRefines(m, st1, m.others[x]);
  }
}
