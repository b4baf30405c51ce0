/** When a dancing-links matrix encodes a Sudoku board, its exact covers are the board's
    completions. */
module SudokuEncoding {
  import opened DancingLinks
  import opened ExactCovers
  import opened PoolBuilding
  import opened SudokuRules

  type Choice = map<int, (int, int)>

  /** Node labels below 100 are cells; the others end in the digit they place. */
  ghost predicate LabelOk(m: Matrix, choice: Choice, cells: nat, x: int)
    requires x in m.others && x in choice
  {
    && 0 <= choice[x].0 < cells
    && (exists y :: y in RowNodes(m, x) && y in m.name && m.name[y] < 100)
    && (exists y :: y in RowNodes(m, x) && y in m.name && m.name[y] >= 100)
    && (forall y :: y in RowNodes(m, x) ==>
          && y in m.name && m.name[y] >= 0
          && (m.name[y] < 100 ==> m.name[y] == choice[x].0)
          && (m.name[y] >= 100 ==> m.name[y] % 10 == choice[x].1))
  }

  /** Every row names one cell of the board and one digit: `choice` of any of its nodes. */
  ghost predicate Labelled(m: Matrix, choice: Choice, cells: nat) {
    choice.Keys == m.others.Keys && forall x {:trigger LabelOk(m, choice, cells, x)} :: x in m.others ==> LabelOk(m, choice, cells, x)
  }

  ghost predicate Chosen(m: Matrix, s: seq<int>) {
    forall i :: 0 <= i < |s| ==> s[i] in m.others
  }

  /** The board after writing the choices of `s` in order. */
  ghost function Filled(b: seq<int>, choice: Choice, s: seq<int>): (r: seq<int>)
    ensures |r| == |b|
  {
    if s == [] then b else
      var r := Filled(b, choice, s[..|s| - 1]);
      var x := s[|s| - 1];
      if x in choice && 0 <= choice[x].0 < |b| then r[choice[x].0 := choice[x].1] else r
  }

  function IdsOf(ids: map<int, int>, names: set<int>): (r: set<int>) {
    set n | n in names && n in ids :: ids[n]
  }

  ghost predicate RowEncodes(g: Board, m: Matrix, ids: map<int, int>, choice: Choice, x: int)
    requires x in m.others && x in choice
  {
    IsOption(g, choice[x]) && Items(m, x) == IdsOf(ids, OptionItems(choice[x]))
  }

  ghost predicate HasRow(m: Matrix, choice: Choice, o: (int, int)) {
    exists x :: x in m.others && x in choice && choice[x] == o
  }

  ghost predicate SameRowIff(m: Matrix, choice: Choice, x: int, y: int)
    requires x in m.others && x in choice && y in choice
  {
    y in RowNodes(m, x) <==> choice[x] == choice[y]
  }

  /** No option has two rows. */
  ghost predicate OneRowEach(m: Matrix, choice: Choice)
    requires choice.Keys == m.others.Keys
  {
    forall x, y {:trigger SameRowIff(m, choice, x, y)} :: x in m.others && y in m.others ==> SameRowIff(m, choice, x, y)
  }

  /** `ids` numbers the items, and the rows are exactly the options, each once; `choice[x]` is the
      option of the row that node `x` lies on. */
  ghost predicate Encodes(g: Board, m: Matrix, ids: map<int, int>, choice: Choice) {
    && choice.Keys == m.others.Keys
    && (forall n :: n in ids <==> IsItem(g, n))
    && (forall n, n' :: n in ids && n' in ids && ids[n] == ids[n'] ==> n == n')
    && (forall n :: n in ids ==> ids[n] in m.cols)
    && (forall c :: c in m.cols ==> exists n :: n in ids && ids[n] == c)
    && (forall x {:trigger RowEncodes(g, m, ids, choice, x)} :: x in m.others ==> RowEncodes(g, m, ids, choice, x))
    && (forall o :: IsOption(g, o) ==> HasRow(m, choice, o))
    && OneRowEach(m, choice)
  }

  lemma OptionItemsAreItems(g: Board, o: (int, int), n: int)
    requires IsOption(g, o) && n in OptionItems(o)
    ensures IsItem(g, n)
  {
    UnitsInRange(o.0);
    UnitItems(g, RowOf(o.0), o.1);
    UnitItems(g, ColOf(o.0), o.1);
    UnitItems(g, BoxOf(o.0), o.1);
  }

  /** A row hits a column exactly when its option meets the item of that column. */
  lemma HitsIffMeets(g: Board, m: Matrix, ids: map<int, int>, choice: Choice, x: int, n: int)
    requires Encodes(g, m, ids, choice) && x in m.others && n in ids
    ensures IsOption(g, choice[x])
    ensures ids[n] in Items(m, x) <==> n in OptionItems(choice[x])
  {
    assert RowEncodes(g, m, ids, choice, x);
    if ids[n] in Items(m, x) {
      var n' :| n' in OptionItems(choice[x]) && n' in ids && ids[n'] == ids[n];
    }
  }

  ghost function ChoicesOf(choice: Choice, s: seq<int>): (r: set<(int, int)>) {
    set i | 0 <= i < |s| && s[i] in choice :: choice[s[i]]
  }

  lemma RowsDisjoint(g: Board, m: Matrix, ids: map<int, int>, choice: Choice, x: int, y: int)
    requires Encodes(g, m, ids, choice) && x in m.others && y in m.others && Items(m, x) !! Items(m, y)
    ensures OptionItems(choice[x]) !! OptionItems(choice[y])
  {
    assert RowEncodes(g, m, ids, choice, x) && RowEncodes(g, m, ids, choice, y);
    forall n | n in OptionItems(choice[x]) && n in OptionItems(choice[y])
      ensures false
    {
      OptionItemsAreItems(g, choice[x], n);
      HitsIffMeets(g, m, ids, choice, x, n);
      HitsIffMeets(g, m, ids, choice, y, n);
    }
  }

  lemma CoverChoosesExactly(g: Board, m: Matrix, ids: map<int, int>, choice: Choice, s: seq<int>)
    requires Encodes(g, m, ids, choice) && ExactCover(m, m.cols, s)
    ensures ExactOptions(g, ChoicesOf(choice, s))
    ensures forall i, j :: 0 <= i < j < |s| ==> choice[s[i]].0 != choice[s[j]].0
  {
    var t := ChoicesOf(choice, s);
    forall i | 0 <= i < |s|
      ensures IsOption(g, choice[s[i]])
    {
      assert RowEncodes(g, m, ids, choice, s[i]);
    }
    forall i, j | 0 <= i < j < |s|
      ensures choice[s[i]].0 != choice[s[j]].0 && OptionItems(choice[s[i]]) !! OptionItems(choice[s[j]])
    {
      RowsDisjoint(g, m, ids, choice, s[i], s[j]);
      assert choice[s[i]].0 in OptionItems(choice[s[i]]) && choice[s[j]].0 in OptionItems(choice[s[j]]);
    }
    forall o, o' | o in t && o' in t && o != o'
      ensures OptionItems(o) !! OptionItems(o')
    {
      var i :| 0 <= i < |s| && s[i] in choice && choice[s[i]] == o;
      var j :| 0 <= j < |s| && s[j] in choice && choice[s[j]] == o';
      assert i < j || j < i;
    }
    forall n | IsItem(g, n)
      ensures Met(t, n)
    {
      assert n in ids && Hit(m, s, ids[n]);
      var i :| 0 <= i < |s| && s[i] in m.others && ids[n] in Items(m, s[i]);
      HitsIffMeets(g, m, ids, choice, s[i], n);
      assert choice[s[i]] in t;
    }
  }

  // ----- what the solver writes

  lemma {:induction false} FilledAt(b: seq<int>, choice: Choice, s: seq<int>, i: int)
    requires forall k :: 0 <= k < |s| ==> s[k] in choice && 0 <= choice[s[k]].0 < |b|
    requires forall k, l :: 0 <= k < l < |s| ==> choice[s[k]].0 != choice[s[l]].0
    requires 0 <= i < |b|
    ensures forall k :: 0 <= k < |s| && choice[s[k]].0 == i ==> Filled(b, choice, s)[i] == choice[s[k]].1
    ensures (forall k :: 0 <= k < |s| ==> choice[s[k]].0 != i) ==> Filled(b, choice, s)[i] == b[i]
  {
    if s != [] {
      var n := |s| - 1;
      FilledAt(b, choice, s[..n], i);
      assert forall k :: 0 <= k < n ==> s[..n][k] == s[k];
    }
  }

  lemma FilledIsBoardOf(g: Board, m: Matrix, ids: map<int, int>, choice: Choice, s: seq<int>)
    requires Encodes(g, m, ids, choice) && ExactCover(m, m.cols, s)
    ensures Filled(g, choice, s) == BoardOf(g, ChoicesOf(choice, s))
  {
    var t := ChoicesOf(choice, s);
    CoverChoosesExactly(g, m, ids, choice, s);
    forall k | 0 <= k < |s|
      ensures s[k] in choice && choice[s[k]] in t && IsOption(g, choice[s[k]])
    {
      assert RowEncodes(g, m, ids, choice, s[k]);
    }
    forall i | 0 <= i < 81
      ensures Filled(g, choice, s)[i] == BoardOf(g, t)[i]
    {
      FilledAt(g, choice, s, i);
      if k :| 0 <= k < |s| && choice[s[k]].0 == i {
        OneDigitPerCell(g, t, choice[s[k]]);
      } else {
        assert forall v :: (i, v) !in t;
      }
    }
  }

  /** Soundness: the board the solver writes for an exact cover completes the givens. */
  lemma CoverSolves(g: Board, m: Matrix, ids: map<int, int>, choice: Choice, s: seq<int>)
    requires Givens(g) && Encodes(g, m, ids, choice) && ExactCover(m, m.cols, s)
    ensures Completes(Filled(g, choice, s), g)
  {
    FilledIsBoardOf(g, m, ids, choice, s);
    CoverChoosesExactly(g, m, ids, choice, s);
    CoverIsCompletion(g, ChoicesOf(choice, s));
  }

  // ----- from a completion back to rows

  ghost predicate Picks(g: Board, b: Board, m: Matrix, choice: Choice, s: seq<int>, k: int) {
    && (forall i :: 0 <= i < |s| ==> s[i] in m.others && s[i] in choice && IsCell(choice[s[i]].0) && choice[s[i]].0 < k
                                     && g[choice[s[i]].0] == 0 && choice[s[i]].1 == b[choice[s[i]].0])
    && (forall i, j :: 0 <= i < j < |s| ==> choice[s[i]].0 != choice[s[j]].0)
    && (forall c :: 0 <= c < k && IsCell(c) && g[c] == 0 ==> exists i :: 0 <= i < |s| && s[i] in choice && choice[s[i]].0 == c)
  }

  lemma {:induction false} PickRows(g: Board, b: Board, m: Matrix, ids: map<int, int>, choice: Choice, k: nat) returns (s: seq<int>)
    requires Completes(b, g) && Encodes(g, m, ids, choice) && k <= 81
    ensures Picks(g, b, m, choice, s, k)
  {
    if k == 0 {
      s := [];
    } else {
      var t := PickRows(g, b, m, ids, choice, k - 1);
      if g[k - 1] == 0 {
        CompletionOptionAllowed(g, b, k - 1);
        assert HasRow(m, choice, (k - 1, b[k - 1]));
        var x :| x in m.others && x in choice && choice[x] == (k - 1, b[k - 1]);
        s := t + [x];
        assert IsCell(k - 1) && s[|t|] == x;
        forall c | 0 <= c < k && IsCell(c) && g[c] == 0
          ensures exists i :: 0 <= i < |s| && s[i] in choice && choice[s[i]].0 == c
        {
          if c == k - 1 {
            assert s[|t|] == x;
          } else {
            var i :| 0 <= i < |t| && t[i] in choice && choice[t[i]].0 == c;
            assert s[i] == t[i];
          }
        }
      } else {
        s := t;
      }
    }
  }

  lemma PickedRowsDisjoint(g: Board, b: Board, m: Matrix, ids: map<int, int>, choice: Choice, x: int, y: int)
    requires Completes(b, g) && Encodes(g, m, ids, choice) && x in m.others && y in m.others
    requires choice[x] in OptionsOf(g, b) && choice[y] in OptionsOf(g, b) && choice[x] != choice[y]
    ensures Items(m, x) !! Items(m, y)
  {
    CompletionIsCover(g, b);
    assert RowEncodes(g, m, ids, choice, x) && RowEncodes(g, m, ids, choice, y);
  }

  lemma PickedRowsCover(g: Board, b: Board, m: Matrix, ids: map<int, int>, choice: Choice, s: seq<int>)
    requires Completes(b, g) && Encodes(g, m, ids, choice) && Picks(g, b, m, choice, s, 81)
    ensures ExactCover(m, m.cols, s)
  {
    forall i | 0 <= i < |s|
      ensures s[i] in m.others && choice[s[i]] in OptionsOf(g, b) && Items(m, s[i]) <= m.cols
    {
      assert RowEncodes(g, m, ids, choice, s[i]);
      assert choice[s[i]] == (choice[s[i]].0, b[choice[s[i]].0]);
    }
    forall i, j | 0 <= i < j < |s|
      ensures Items(m, s[i]) !! Items(m, s[j])
    {
      PickedRowsDisjoint(g, b, m, ids, choice, s[i], s[j]);
    }
    forall c | c in m.cols
      ensures Hit(m, s, c)
    {
      var n :| n in ids && ids[n] == c;
      CompletionMeets(g, b, n);
      var o :| o in OptionsOf(g, b) && n in OptionItems(o);
      assert IsCell(o.0);
      var i :| 0 <= i < |s| && s[i] in choice && choice[s[i]].0 == o.0;
      assert choice[s[i]] == o;
      HitsIffMeets(g, m, ids, choice, s[i], n);
    }
  }

  lemma PickedRowsFill(g: Board, b: Board, m: Matrix, choice: Choice, s: seq<int>)
    requires Completes(b, g) && Picks(g, b, m, choice, s, 81)
    ensures Filled(g, choice, s) == b
  {
    forall i | 0 <= i < 81
      ensures Filled(g, choice, s)[i] == b[i]
    {
      FilledAt(g, choice, s, i);
      if g[i] == 0 {
        assert IsCell(i);
        var k :| 0 <= k < |s| && s[k] in choice && choice[s[k]].0 == i;
      }
    }
  }

  /** Completeness: the search space has an exact cover for every completion of the givens, and
      writing it gives that completion. */
  lemma CompletionSolves(g: Board, b: Board, m: Matrix, ids: map<int, int>, choice: Choice) returns (s: seq<int>)
    requires Completes(b, g) && Encodes(g, m, ids, choice)
    ensures ExactCover(m, m.cols, s) && Filled(g, choice, s) == b
  {
    s := PickRows(g, b, m, ids, choice, 81);
    PickedRowsCover(g, b, m, ids, choice, s);
    PickedRowsFill(g, b, m, choice, s);
  }

  /** `s` and `t` name the same rows. */
  ghost predicate SameRows(m: Matrix, s: seq<int>, t: seq<int>) {
    RowsAmong(m, s, t) && RowsAmong(m, t, s)
  }

  ghost predicate RowsAmong(m: Matrix, s: seq<int>, t: seq<int>) {
    forall i :: 0 <= i < |s| && s[i] in m.others ==> exists j :: 0 <= j < |t| && t[j] in RowNodes(m, s[i])
  }

  lemma ChoicesAmong(m: Matrix, choice: Choice, s: seq<int>, t: seq<int>)
    requires choice.Keys == m.others.Keys && OneRowEach(m, choice) && Chosen(m, s) && Chosen(m, t)
    ensures RowsAmong(m, s, t) <==> ChoicesOf(choice, s) <= ChoicesOf(choice, t)
  {
    if RowsAmong(m, s, t) {
      forall i | 0 <= i < |s|
        ensures choice[s[i]] in ChoicesOf(choice, t)
      {
        var j :| 0 <= j < |t| && t[j] in RowNodes(m, s[i]);
        assert SameRowIff(m, choice, s[i], t[j]);
      }
    }
    if ChoicesOf(choice, s) <= ChoicesOf(choice, t) {
      forall i | 0 <= i < |s|
        ensures exists j :: 0 <= j < |t| && t[j] in RowNodes(m, s[i])
      {
        assert choice[s[i]] in ChoicesOf(choice, s);
        var j :| 0 <= j < |t| && t[j] in choice && choice[t[j]] == choice[s[i]];
        assert SameRowIff(m, choice, s[i], t[j]);
      }
    }
  }

  /** Two exact covers of the matrix write the same board exactly if they choose the same rows. */
  lemma CoversDiffer(g: Board, m: Matrix, ids: map<int, int>, choice: Choice, s: seq<int>, t: seq<int>)
    requires Givens(g) && Encodes(g, m, ids, choice) && ExactCover(m, m.cols, s) && ExactCover(m, m.cols, t)
    ensures Filled(g, choice, s) == Filled(g, choice, t) <==> SameRows(m, s, t)
  {
    var a, b := ChoicesOf(choice, s), ChoicesOf(choice, t);
    FilledIsBoardOf(g, m, ids, choice, s);
    FilledIsBoardOf(g, m, ids, choice, t);
    CoverChoosesExactly(g, m, ids, choice, s);
    CoverChoosesExactly(g, m, ids, choice, t);
    CoversAreCompletions(g, a, BoardOf(g, a));
    CoversAreCompletions(g, b, BoardOf(g, b));
    ChoicesAmong(m, choice, s, t);
    ChoicesAmong(m, choice, t, s);
    assert a <= b && b <= a ==> a == b;
  }

  /** The matrix is solvable exactly when the board has a completion. */
  lemma SolvableIffCompletable(g: Board, m: Matrix, ids: map<int, int>, choice: Choice)
    requires Givens(g) && Encodes(g, m, ids, choice)
    ensures Solvable(m, m.cols) <==> HasCompletion(g)
  {
    if s :| ExactCover(m, m.cols, s) {
      CoverSolves(g, m, ids, choice, s);
    }
    if b: Board :| Completes(b, g) {
      var s := CompletionSolves(g, b, m, ids, choice);
    }
  }

  // ----- building the encoding row by row

  ghost predicate RowsEncode(g: Board, m: Matrix, ids: map<int, int>, choice: Choice) {
    && choice.Keys == m.others.Keys
    && (forall x {:trigger RowEncodes(g, m, ids, choice, x)} :: x in m.others ==> RowEncodes(g, m, ids, choice, x))
    && (forall x {:trigger LabelOk(m, choice, 81, x)} :: x in m.others ==> LabelOk(m, choice, 81, x))
    && OneRowEach(m, choice)
  }

  /** Four fresh nodes `x .. x + 3` at the bottom of the columns numbered `i`, `r`, `c` and `b`. */
  function FourNodes(m: Matrix, ids: map<int, int>, x: int, i: int, r: int, c: int, b: int): (m4: Matrix)
    requires i in ids && r in ids && c in ids && b in ids
  {
    WithNode(WithNode(WithNode(WithNode(m, x, ids[i], i), x + 1, ids[r], r), x + 2, ids[c], c), x + 3, ids[b], b)
  }

  /** The matrix after adding the four nodes of option `o` and joining them. */
  function WithOption(m: Matrix, ids: map<int, int>, x: int, o: (int, int)): (r: Matrix)
    requires forall n :: n in OptionItems(o) ==> n in ids
  {
    RowJoined(OptionNodes(m, ids, x, o), x)
  }

  function OptionNodes(m: Matrix, ids: map<int, int>, x: int, o: (int, int)): (r: Matrix)
    requires forall n :: n in OptionItems(o) ==> n in ids
  {
    FourNodes(m, ids, x, o.0, RowName(RowOf(o.0), o.1), ColName(ColOf(o.0), o.1), BoxName(BoxOf(o.0), o.1))
  }

  function WithChoice(choice: Choice, x: int, o: (int, int)): (r: Choice) {
    choice[x := o][x + 1 := o][x + 2 := o][x + 3 := o]
  }

  lemma FourNodesJoinable(g: Board, m: Matrix, ids: map<int, int>, x: int, o: (int, int))
    requires IsOption(g, o) && (forall n :: n in OptionItems(o) ==> n in ids)
    requires forall n, n' :: n in ids && n' in ids && ids[n] == ids[n'] ==> n == n'
    ensures RowJoinable(OptionNodes(m, ids, x, o), x)
  {
    UnitsInRange(o.0);
  }

  lemma FourItems(m: Matrix, y: int, x: int)
    requires y in m.others && RowNodes(m, y) == {x, x + 1, x + 2, x + 3}
    requires x in m.col && x + 1 in m.col && x + 2 in m.col && x + 3 in m.col
    ensures Items(m, y) == {m.col[x], m.col[x + 1], m.col[x + 2], m.col[x + 3]}
  {
    assert x in RowNodes(m, y) && x + 1 in RowNodes(m, y) && x + 2 in RowNodes(m, y) && x + 3 in RowNodes(m, y);
  }

  lemma FourIds(ids: map<int, int>, o: (int, int))
    requires forall n :: n in OptionItems(o) ==> n in ids
    ensures IdsOf(ids, OptionItems(o)) == {ids[o.0], ids[RowName(RowOf(o.0), o.1)], ids[ColName(ColOf(o.0), o.1)], ids[BoxName(BoxOf(o.0), o.1)]}
  {
  }

  lemma FourLabels(m: Matrix, choice: Choice, y: int, x: int, o: (int, int))
    requires IsCell(o.0) && IsDigit(o.1) && y in choice && choice[y] == o
    requires y in m.others && RowNodes(m, y) == {x, x + 1, x + 2, x + 3}
    requires x in m.name && x + 1 in m.name && x + 2 in m.name && x + 3 in m.name
    requires m.name[x] == o.0 && m.name[x + 1] == RowName(RowOf(o.0), o.1)
    requires m.name[x + 2] == ColName(ColOf(o.0), o.1) && m.name[x + 3] == BoxName(BoxOf(o.0), o.1)
    ensures LabelOk(m, choice, 81, y)
  {
    UnitsInRange(o.0);
    NamesApart(o.0, RowOf(o.0), o.1, 0, 1);
    NamesApart(o.0, ColOf(o.0), o.1, 0, 1);
    NamesApart(o.0, BoxOf(o.0), o.1, 0, 1);
    assert x in RowNodes(m, y) && x + 1 in RowNodes(m, y);
  }

  lemma NewRowEncodes(g: Board, m: Matrix, ids: map<int, int>, choice: Choice, x: int, o: (int, int), y: int)
    requires IsOption(g, o) && (forall n :: n in OptionItems(o) ==> n in ids)
    requires forall n, n' :: n in ids && n' in ids && ids[n] == ids[n'] ==> n == n'
    requires y in {x, x + 1, x + 2, x + 3}
    ensures var m' := WithOption(m, ids, x, o);
      && y in m'.others
      && RowEncodes(g, m', ids, WithChoice(choice, x, o), y) && LabelOk(m', WithChoice(choice, x, o), 81, y)
  {
    var m' := WithOption(m, ids, x, o);
    FourNodesJoinable(g, m, ids, x, o);
    JoinedRowNodes(OptionNodes(m, ids, x, o), x, x + 1, x + 2, x + 3, y);
    FourItems(m', y, x);
    FourIds(ids, o);
    FourLabels(m', WithChoice(choice, x, o), y, x, o);
  }

  lemma OldRowEncodes(g: Board, m: Matrix, ids: map<int, int>, choice: Choice, x: int, o: (int, int), y: int)
    requires MatrixOk(m) && RowsEncode(g, m, ids, choice) && y in m.others
    requires forall z :: z in m.others ==> z < x
    requires IsOption(g, o) && (forall n :: n in OptionItems(o) ==> n in ids)
    ensures var m' := WithOption(m, ids, x, o);
      && y in m'.others
      && RowEncodes(g, m', ids, WithChoice(choice, x, o), y) && LabelOk(m', WithChoice(choice, x, o), 81, y)
  {
    var m' := WithOption(m, ids, x, o);
    assert RowOk(m, y) && RowEncodes(g, m, ids, choice, y) && LabelOk(m, choice, 81, y);
    assert RowNodes(m', y) == RowNodes(m, y);
    forall z | z in RowNodes(m, y)
      ensures z in m.others && z in m.col && m'.col[z] == m.col[z] && z in m.name && m'.name[z] == m.name[z]
    {
      assert z == y || z in m.others[y];
    }
    assert Items(m', y) == Items(m, y);
  }

  /** A new option's nodes form one row, and no old row's nodes join it. */
  lemma OneRowMore(g: Board, m: Matrix, ids: map<int, int>, choice: Choice, x: int, o: (int, int), y: int, z: int)
    requires MatrixOk(m) && RowsEncode(g, m, ids, choice) && !HasRow(m, choice, o)
    requires forall u :: u in m.others ==> u < x
    requires IsOption(g, o) && (forall n :: n in OptionItems(o) ==> n in ids)
    requires forall n, n' :: n in ids && n' in ids && ids[n] == ids[n'] ==> n == n'
    requires y in m.others || y in {x, x + 1, x + 2, x + 3}
    requires z in m.others || z in {x, x + 1, x + 2, x + 3}
    ensures var m', choice' := WithOption(m, ids, x, o), WithChoice(choice, x, o);
      y in m'.others && y in choice' && z in choice' && SameRowIff(m', choice', y, z)
  {
    FourNodesJoinable(g, m, ids, x, o);
    if y in m.others {
      assert RowOk(m, y);
      assert RowNodes(WithOption(m, ids, x, o), y) == RowNodes(m, y);
      assert choice[y] != o;
      assert z in m.others ==> SameRowIff(m, choice, y, z);
      assert z !in m.others ==> z !in RowNodes(m, y);
    } else {
      JoinedRowNodes(OptionNodes(m, ids, x, o), x, x + 1, x + 2, x + 3, y);
      assert z in m.others ==> choice[z] != o;
    }
  }

  lemma OneRowEachMore(g: Board, m: Matrix, ids: map<int, int>, choice: Choice, x: int, o: (int, int))
    requires MatrixOk(m) && RowsEncode(g, m, ids, choice) && !HasRow(m, choice, o)
    requires forall u :: u in m.others ==> u < x
    requires IsOption(g, o) && (forall n :: n in OptionItems(o) ==> n in ids)
    requires forall n, n' :: n in ids && n' in ids && ids[n] == ids[n'] ==> n == n'
    ensures var m', choice' := WithOption(m, ids, x, o), WithChoice(choice, x, o);
      choice'.Keys == m'.others.Keys && OneRowEach(m', choice')
  {
    var m', choice' := WithOption(m, ids, x, o), WithChoice(choice, x, o);
    WithOptionKeys(m, ids, choice, x, o);
    forall y, z | y in m'.others && z in m'.others
      ensures SameRowIff(m', choice', y, z)
    {
      OneRowMore(g, m, ids, choice, x, o, y, z);
    }
  }

  /** A row for an option that has none: the encoding is kept, and exactly that option is added. */
  lemma WithOptionEncodes(g: Board, m: Matrix, ids: map<int, int>, choice: Choice, x: int, o: (int, int))
    requires MatrixOk(m) && RowsEncode(g, m, ids, choice) && !HasRow(m, choice, o)
    requires forall z :: z in m.others ==> z < x
    requires IsOption(g, o) && (forall n :: n in OptionItems(o) ==> n in ids)
    requires forall n, n' :: n in ids && n' in ids && ids[n] == ids[n'] ==> n == n'
    ensures RowsEncode(g, WithOption(m, ids, x, o), ids, WithChoice(choice, x, o))
    ensures forall o' :: HasRow(WithOption(m, ids, x, o), WithChoice(choice, x, o), o') <==> HasRow(m, choice, o') || o' == o
  {
    var m', choice' := WithOption(m, ids, x, o), WithChoice(choice, x, o);
    WithOptionKeys(m, ids, choice, x, o);
    OneRowEachMore(g, m, ids, choice, x, o);
    forall y | y in m'.others
      ensures RowEncodes(g, m', ids, choice', y) && LabelOk(m', choice', 81, y)
    {
      if y in m.others {
        OldRowEncodes(g, m, ids, choice, x, o, y);
      } else {
        NewRowEncodes(g, m, ids, choice, x, o, y);
      }
    }
  }

  lemma WithOptionKeys(m: Matrix, ids: map<int, int>, choice: Choice, x: int, o: (int, int))
    requires (forall n :: n in OptionItems(o) ==> n in ids) && choice.Keys == m.others.Keys
    requires forall z :: z in m.others ==> z < x
    ensures var m', choice' := WithOption(m, ids, x, o), WithChoice(choice, x, o);
      && m'.others.Keys == m.others.Keys + {x, x + 1, x + 2, x + 3} == choice'.Keys
      && (forall o' :: HasRow(m', choice', o') <==> HasRow(m, choice, o') || o' == o)
  {
    var m', choice' := WithOption(m, ids, x, o), WithChoice(choice, x, o);
    assert x in m'.others && choice'[x] == o;
    forall o'
      ensures HasRow(m', choice', o') <==> HasRow(m, choice, o') || o' == o
    {
      if HasRow(m, choice, o') {
        var y :| y in m.others && y in choice && choice[y] == o';
        assert y in m'.others && choice'[y] == o';
      }
      if HasRow(m', choice', o') {
        var y :| y in m'.others && y in choice' && choice'[y] == o';
        assert y in m.others ==> choice[y] == o';
      }
    }
  }

  // ----- the order of the rows

  /** Option `o` comes before digit `v` of cell `i`. */
  ghost predicate Earlier(g: Board, o: (int, int), i: int, v: int) {
    IsOption(g, o) && (o.0 < i || (o.0 == i && o.1 < v))
  }

  /** Exactly the options before digit `v` of cell `i` have rows. */
  ghost predicate RowsUpTo(g: Board, m: Matrix, choice: Choice, i: int, v: int) {
    forall o {:trigger HasRow(m, choice, o)} :: HasRow(m, choice, o) <==> Earlier(g, o, i, v)
  }

  lemma NoRowsYet(g: Board, m: Matrix, choice: Choice)
    requires m.others == map[]
    ensures RowsUpTo(g, m, choice, 0, 1)
  {
  }

  lemma RowAdded(g: Board, m: Matrix, choice: Choice, m': Matrix, choice': Choice, i: int, v: int)
    requires RowsUpTo(g, m, choice, i, v) && IsOption(g, (i, v))
    requires forall o :: HasRow(m', choice', o) <==> HasRow(m, choice, o) || o == (i, v)
    ensures !HasRow(m, choice, (i, v)) && RowsUpTo(g, m', choice', i, v + 1)
  {
    assert !Earlier(g, (i, v), i, v);
    forall o
      ensures Earlier(g, o, i, v + 1) <==> Earlier(g, o, i, v) || o == (i, v)
    {
      assert o == (o.0, o.1);
    }
  }

  lemma RowSkipped(g: Board, m: Matrix, choice: Choice, i: int, v: int)
    requires RowsUpTo(g, m, choice, i, v) && !IsOption(g, (i, v))
    ensures RowsUpTo(g, m, choice, i, v + 1)
  {
    forall o
      ensures Earlier(g, o, i, v + 1) <==> Earlier(g, o, i, v)
    {
      assert o == (o.0, o.1);
    }
  }

  lemma CellDone(g: Board, m: Matrix, choice: Choice, i: int)
    requires RowsUpTo(g, m, choice, i, 10)
    ensures RowsUpTo(g, m, choice, i + 1, 1)
  {
    forall o
      ensures Earlier(g, o, i + 1, 1) <==> Earlier(g, o, i, 10)
    {
    }
  }

  lemma CellGiven(g: Board, m: Matrix, choice: Choice, i: int)
    requires RowsUpTo(g, m, choice, i, 1) && IsCell(i) && g[i] != 0
    ensures RowsUpTo(g, m, choice, i + 1, 1)
  {
    forall o
      ensures Earlier(g, o, i + 1, 1) <==> Earlier(g, o, i, 1)
    {
    }
  }

  lemma AllRows(g: Board, m: Matrix, choice: Choice)
    requires RowsUpTo(g, m, choice, 81, 1)
    ensures forall o :: HasRow(m, choice, o) <==> IsOption(g, o)
  {
    forall o
      ensures Earlier(g, o, 81, 1) <==> IsOption(g, o)
    {
    }
  }
}
