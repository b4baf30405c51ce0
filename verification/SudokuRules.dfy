/** Sudoku itself, and its reduction to exact cover as the solver's constructor sets it up:
    one item per empty cell and one per digit missing from a row, column or box; one option
    per empty cell and digit that the givens allow there. */
module SudokuRules {
  import opened Basics

  type Board = b: seq<int> | |b| == 81 witness seq(81, i => 0)

  function RowOf(i: int): (r: int) { i / 9 }
  function ColOf(i: int): (c: int) { i % 9 }
  function BoxOf(i: int): (b: int) { i / 9 / 3 * 3 + i % 9 / 3 }

  predicate IsCell(i: int) { 0 <= i < 81 }
  predicate IsDigit(v: int) { 1 <= v <= 9 }
  predicate IsUnit(u: int) { 0 <= u < 9 }

  ghost predicate Peers(i: int, j: int) {
    RowOf(i) == RowOf(j) || ColOf(i) == ColOf(j) || BoxOf(i) == BoxOf(j)
  }

  /** Every cell filled, no digit twice in a row, column or box. */
  ghost predicate Solved(b: Board) {
    && (forall i :: IsCell(i) ==> IsDigit(b[i]))
    && (forall i, j :: IsCell(i) && IsCell(j) && i != j && Peers(i, j) ==> b[i] != b[j])
  }

  ghost predicate Completes(b: Board, g: Board) {
    Solved(b) && forall i :: IsCell(i) && g[i] != 0 ==> b[i] == g[i]
  }

  ghost predicate HasCompletion(g: Board) {
    exists b: Board :: Completes(b, g)
  }

  /** Givens as the parser hands them over: digits, 0 for an empty cell. */
  ghost predicate Givens(g: Board) {
    forall i :: IsCell(i) ==> 0 <= g[i] <= 9
  }

  // ----- column numbers

  function RowName(r: int, v: int): (n: int) { 100 + r * 10 + v }
  function ColName(c: int, v: int): (n: int) { 200 + c * 10 + v }
  function BoxName(b: int, v: int): (n: int) { 300 + b * 10 + v }

  /** The four kinds of column numbers never collide, and each determines what it stands for. */
  lemma NamesApart(i: int, u: int, v: int, u': int, v': int)
    requires IsCell(i) && IsUnit(u) && IsUnit(u') && IsDigit(v) && IsDigit(v')
    ensures i < 100 <= RowName(u, v) < 200 <= ColName(u, v) < 300 <= BoxName(u, v) < 400
    ensures RowName(u, v) == RowName(u', v') <==> u == u' && v == v'
    ensures ColName(u, v) == ColName(u', v') <==> u == u' && v == v'
    ensures BoxName(u, v) == BoxName(u', v') <==> u == u' && v == v'
    ensures RowName(u, v) % 10 == v && ColName(u, v) % 10 == v && BoxName(u, v) % 10 == v
  {
  }

  // ----- items and options

  ghost predicate RowUses(g: Board, r: int, v: int) { exists i :: IsCell(i) && RowOf(i) == r && g[i] == v }
  ghost predicate ColUses(g: Board, c: int, v: int) { exists i :: IsCell(i) && ColOf(i) == c && g[i] == v }
  ghost predicate BoxUses(g: Board, b: int, v: int) { exists i :: IsCell(i) && BoxOf(i) == b && g[i] == v }

  /** Column number `n` stands for digit `v`, missing from row, column or box `u`. */
  ghost predicate IsUnitItem(g: Board, n: int, u: int, v: int) {
    || (n == RowName(u, v) && !RowUses(g, u, v))
    || (n == ColName(u, v) && !ColUses(g, u, v))
    || (n == BoxName(u, v) && !BoxUses(g, u, v))
  }

  /** Column number `n` stands for an empty cell, or for a digit missing from a unit. */
  ghost predicate IsItem(g: Board, n: int) {
    if n < 100 then IsCell(n) && g[n] == 0
    else exists u, v :: IsUnit(u) && IsDigit(v) && IsUnitItem(g, n, u, v)
  }

  /** A unit's column number stands for its digit, and for nothing else. */
  lemma UnitItemIs(g: Board, u: int, v: int, u': int, v': int)
    requires IsUnit(u) && IsDigit(v) && IsUnit(u') && IsDigit(v')
    ensures IsUnitItem(g, RowName(u, v), u', v') <==> u == u' && v == v' && !RowUses(g, u, v)
    ensures IsUnitItem(g, ColName(u, v), u', v') <==> u == u' && v == v' && !ColUses(g, u, v)
    ensures IsUnitItem(g, BoxName(u, v), u', v') <==> u == u' && v == v' && !BoxUses(g, u, v)
  {
  }

  lemma UnitItems(g: Board, u: int, v: int)
    requires IsUnit(u) && IsDigit(v)
    ensures IsItem(g, RowName(u, v)) <==> !RowUses(g, u, v)
    ensures IsItem(g, ColName(u, v)) <==> !ColUses(g, u, v)
    ensures IsItem(g, BoxName(u, v)) <==> !BoxUses(g, u, v)
  {
    forall u', v' | IsUnit(u') && IsDigit(v')
      ensures IsUnitItem(g, RowName(u, v), u', v') <==> u == u' && v == v' && !RowUses(g, u, v)
      ensures IsUnitItem(g, ColName(u, v), u', v') <==> u == u' && v == v' && !ColUses(g, u, v)
      ensures IsUnitItem(g, BoxName(u, v), u', v') <==> u == u' && v == v' && !BoxUses(g, u, v)
    {
      UnitItemIs(g, u, v, u', v');
    }
  }

  ghost predicate IsOption(g: Board, o: (int, int)) {
    && IsCell(o.0) && IsDigit(o.1) && g[o.0] == 0
    && !RowUses(g, RowOf(o.0), o.1) && !ColUses(g, ColOf(o.0), o.1) && !BoxUses(g, BoxOf(o.0), o.1)
  }

  function OptionItems(o: (int, int)): (s: set<int>) {
    {o.0, RowName(RowOf(o.0), o.1), ColName(ColOf(o.0), o.1), BoxName(BoxOf(o.0), o.1)}
  }

  /** A set of options that meets every item exactly once. */
  ghost predicate ExactOptions(g: Board, s: set<(int, int)>) {
    && (forall o :: o in s ==> IsOption(g, o))
    && (forall o, o' :: o in s && o' in s && o != o' ==> OptionItems(o) !! OptionItems(o'))
    && (forall n {:trigger Met(s, n)} :: IsItem(g, n) ==> Met(s, n))
  }

  ghost predicate Met(s: set<(int, int)>, n: int) {
    exists o :: o in s && n in OptionItems(o)
  }

  lemma UnitsInRange(i: int)
    requires IsCell(i)
    ensures IsUnit(RowOf(i)) && IsUnit(ColOf(i)) && IsUnit(BoxOf(i))
  {
  }

  /** Which option items a name can be. */
  lemma WhichItem(o: (int, int), u: int, v: int)
    requires IsCell(o.0) && IsDigit(o.1) && IsUnit(u) && IsDigit(v)
    ensures RowName(u, v) in OptionItems(o) <==> RowOf(o.0) == u && o.1 == v
    ensures ColName(u, v) in OptionItems(o) <==> ColOf(o.0) == u && o.1 == v
    ensures BoxName(u, v) in OptionItems(o) <==> BoxOf(o.0) == u && o.1 == v
    ensures forall i :: IsCell(i) ==> (i in OptionItems(o) <==> i == o.0)
  {
    UnitsInRange(o.0);
  }

  // ----- units as nine cells

  function RowCell(r: int, k: int): (i: int) { r * 9 + k }
  function ColCell(c: int, k: int): (i: int) { k * 9 + c }
  function BoxCell(b: int, k: int): (i: int) { (b / 3 * 3 + k / 3) * 9 + (b % 3 * 3 + k % 3) }

  lemma RowCells(r: int, k: int)
    requires IsUnit(r) && IsUnit(k)
    ensures IsCell(RowCell(r, k)) && RowOf(RowCell(r, k)) == r && ColOf(RowCell(r, k)) == k
  {
  }

  lemma ColCells(c: int, k: int)
    requires IsUnit(c) && IsUnit(k)
    ensures IsCell(ColCell(c, k)) && ColOf(ColCell(c, k)) == c && RowOf(ColCell(c, k)) == k
  {
  }

  function InBox(i: int): (k: int) { i / 9 % 3 * 3 + i % 9 % 3 }

  lemma CellParts(row: int, col: int)
    requires IsUnit(row) && IsUnit(col)
    ensures var i := row * 9 + col; IsCell(i) && i / 9 == row && i % 9 == col
  {
  }

  lemma ThirdParts(q: int, r: int)
    requires 0 <= q < 3 && 0 <= r < 3
    ensures IsUnit(q * 3 + r) && (q * 3 + r) / 3 == q && (q * 3 + r) % 3 == r
  {
  }

  lemma BoxCells(b: int, k: int)
    requires IsUnit(b) && IsUnit(k)
    ensures IsCell(BoxCell(b, k)) && BoxOf(BoxCell(b, k)) == b && InBox(BoxCell(b, k)) == k
  {
    var row, col := b / 3 * 3 + k / 3, b % 3 * 3 + k % 3;
    ThirdParts(b / 3, k / 3);
    ThirdParts(b % 3, k % 3);
    CellParts(row, col);
  }

  lemma BoxCellOf(i: int)
    requires IsCell(i)
    ensures IsUnit(BoxOf(i)) && IsUnit(InBox(i)) && BoxCell(BoxOf(i), InBox(i)) == i
  {
    var row, col := i / 9, i % 9;
    assert BoxOf(i) / 3 == row / 3 && BoxOf(i) % 3 == col / 3;
    assert InBox(i) / 3 == row % 3 && InBox(i) % 3 == col % 3;
  }

  // ----- the pigeonhole principle, both ways

  function ToSet(s: seq<int>): (r: set<int>) {
    set x | x in s
  }

  lemma {:induction false} ToSetSize(s: seq<int>)
    ensures |ToSet(s)| <= |s|
  {
    if s != [] {
      ToSetSize(s[1..]);
      assert ToSet(s) == ToSet(s[1..]) + {s[0]};
    }
  }

  lemma {:induction false} DistinctSize(s: seq<int>)
    requires forall i, j :: 0 <= i < j < |s| ==> s[i] != s[j]
    ensures |ToSet(s)| == |s|
  {
    if s != [] {
      DistinctSize(s[1..]);
      assert ToSet(s) == ToSet(s[1..]) + {s[0]};
      assert s[0] !in s[1..];
    }
  }

  function Digits(): (r: set<int>)
    ensures |r| == 9 && forall v :: v in r <==> IsDigit(v)
  {
    {1, 2, 3, 4, 5, 6, 7, 8, 9}
  }

  /** Nine cells that show all nine digits show none of them twice. */
  lemma OntoIsDistinct(s: seq<int>)
    requires |s| == 9 && forall v :: IsDigit(v) ==> v in s
    ensures forall i, j :: 0 <= i < j < 9 ==> s[i] != s[j]
  {
    forall i, j | 0 <= i < j < 9
      ensures s[i] != s[j]
    {
      if s[i] == s[j] {
        var t := s[..j] + s[j + 1..];
        forall v | IsDigit(v)
          ensures v in t
        {
          var k :| 0 <= k < |s| && s[k] == v;
          var k' := if k == j then i else k;
          assert t[if k' < j then k' else k' - 1] == v;
        }
        ToSetSize(t);
        SubsetSize(Digits(), ToSet(t));
        assert false;
      }
    }
  }

  /** Nine different digits are all nine digits. */
  lemma DistinctIsOnto(s: seq<int>, v: int)
    requires |s| == 9 && IsDigit(v) && forall i :: 0 <= i < 9 ==> IsDigit(s[i])
    requires forall i, j :: 0 <= i < j < 9 ==> s[i] != s[j]
    ensures v in s
  {
    DistinctSize(s);
    SubsetSize(ToSet(s), Digits());
    assert v in ToSet(s);
  }

  // ----- covers are completions

  /** The board a set of options describes. */
  ghost function BoardOf(g: Board, s: set<(int, int)>): (b: Board) {
    seq(81, i requires 0 <= i < 81 => if g[i] == 0 && (exists v :: (i, v) in s) then (var v :| (i, v) in s; v) else g[i])
  }

  ghost function OptionsOf(g: Board, b: Board): (s: set<(int, int)>) {
    set i | 0 <= i < 81 && g[i] == 0 :: (i, b[i])
  }

  lemma OneDigitPerCell(g: Board, s: set<(int, int)>, o: (int, int))
    requires ExactOptions(g, s) && o in s
    ensures IsCell(o.0) && g[o.0] == 0 && BoardOf(g, s)[o.0] == o.1
  {
    assert (o.0, o.1) in s;
    var v :| (o.0, v) in s && BoardOf(g, s)[o.0] == v;
    assert o.0 in OptionItems(o) && o.0 in OptionItems((o.0, v));
  }

  lemma RowShows(g: Board, s: set<(int, int)>, r: int, v: int) returns (i: int)
    requires ExactOptions(g, s) && IsUnit(r) && IsDigit(v)
    ensures IsCell(i) && RowOf(i) == r && BoardOf(g, s)[i] == v
  {
    if RowUses(g, r, v) {
      i :| IsCell(i) && RowOf(i) == r && g[i] == v;
    } else {
      UnitItems(g, r, v);
      assert Met(s, RowName(r, v));
      var o :| o in s && RowName(r, v) in OptionItems(o);
      WhichItem(o, r, v);
      OneDigitPerCell(g, s, o);
      i := o.0;
    }
  }

  lemma ColShows(g: Board, s: set<(int, int)>, c: int, v: int) returns (i: int)
    requires ExactOptions(g, s) && IsUnit(c) && IsDigit(v)
    ensures IsCell(i) && ColOf(i) == c && BoardOf(g, s)[i] == v
  {
    if ColUses(g, c, v) {
      i :| IsCell(i) && ColOf(i) == c && g[i] == v;
    } else {
      UnitItems(g, c, v);
      assert Met(s, ColName(c, v));
      var o :| o in s && ColName(c, v) in OptionItems(o);
      WhichItem(o, c, v);
      OneDigitPerCell(g, s, o);
      i := o.0;
    }
  }

  lemma BoxShows(g: Board, s: set<(int, int)>, b: int, v: int) returns (i: int)
    requires ExactOptions(g, s) && IsUnit(b) && IsDigit(v)
    ensures IsCell(i) && BoxOf(i) == b && BoardOf(g, s)[i] == v
  {
    if BoxUses(g, b, v) {
      i :| IsCell(i) && BoxOf(i) == b && g[i] == v;
    } else {
      UnitItems(g, b, v);
      assert Met(s, BoxName(b, v));
      var o :| o in s && BoxName(b, v) in OptionItems(o);
      WhichItem(o, b, v);
      OneDigitPerCell(g, s, o);
      i := o.0;
    }
  }

  function RowSeq(b: Board, r: int): (t: seq<int>)
    requires IsUnit(r)
    ensures |t| == 9 && forall k :: IsUnit(k) ==> IsCell(RowCell(r, k)) && t[k] == b[RowCell(r, k)]
  {
    seq(9, k requires 0 <= k < 9 => b[RowCell(r, k)])
  }

  function ColSeq(b: Board, c: int): (t: seq<int>)
    requires IsUnit(c)
    ensures |t| == 9 && forall k :: IsUnit(k) ==> IsCell(ColCell(c, k)) && t[k] == b[ColCell(c, k)]
  {
    seq(9, k requires 0 <= k < 9 => b[ColCell(c, k)])
  }

  lemma RowSeqAt(b: Board, i: int)
    requires IsCell(i)
    ensures IsUnit(RowOf(i)) && IsUnit(ColOf(i)) && RowSeq(b, RowOf(i))[ColOf(i)] == b[i]
  {
    assert RowCell(RowOf(i), ColOf(i)) == i;
  }

  lemma ColSeqAt(b: Board, i: int)
    requires IsCell(i)
    ensures IsUnit(RowOf(i)) && IsUnit(ColOf(i)) && ColSeq(b, ColOf(i))[RowOf(i)] == b[i]
  {
    assert ColCell(ColOf(i), RowOf(i)) == i;
  }

  lemma RowSeqOnto(g: Board, s: set<(int, int)>, r: int)
    requires ExactOptions(g, s) && IsUnit(r)
    ensures forall v :: IsDigit(v) ==> v in RowSeq(BoardOf(g, s), r)
  {
    forall v | IsDigit(v)
      ensures v in RowSeq(BoardOf(g, s), r)
    {
      var x := RowShows(g, s, r, v);
      RowSeqAt(BoardOf(g, s), x);
    }
  }

  lemma ColSeqOnto(g: Board, s: set<(int, int)>, c: int)
    requires ExactOptions(g, s) && IsUnit(c)
    ensures forall v :: IsDigit(v) ==> v in ColSeq(BoardOf(g, s), c)
  {
    forall v | IsDigit(v)
      ensures v in ColSeq(BoardOf(g, s), c)
    {
      var x := ColShows(g, s, c, v);
      ColSeqAt(BoardOf(g, s), x);
    }
  }

  lemma RowOfCoverDistinct(g: Board, s: set<(int, int)>, i: int, j: int)
    requires ExactOptions(g, s) && IsCell(i) && IsCell(j) && i != j && RowOf(i) == RowOf(j)
    ensures BoardOf(g, s)[i] != BoardOf(g, s)[j]
  {
    var b := BoardOf(g, s);
    RowSeqAt(b, i);
    RowSeqAt(b, j);
    RowSeqOnto(g, s, RowOf(i));
    OntoIsDistinct(RowSeq(b, RowOf(i)));
    assert ColOf(i) != ColOf(j);
  }

  lemma ColOfCoverDistinct(g: Board, s: set<(int, int)>, i: int, j: int)
    requires ExactOptions(g, s) && IsCell(i) && IsCell(j) && i != j && ColOf(i) == ColOf(j)
    ensures BoardOf(g, s)[i] != BoardOf(g, s)[j]
  {
    var b := BoardOf(g, s);
    ColSeqAt(b, i);
    ColSeqAt(b, j);
    ColSeqOnto(g, s, ColOf(i));
    OntoIsDistinct(ColSeq(b, ColOf(i)));
    assert RowOf(i) != RowOf(j);
  }

  function BoxSeq(b: Board, u: int): (t: seq<int>)
    requires IsUnit(u)
    ensures |t| == 9 && forall k :: IsUnit(k) ==> IsCell(BoxCell(u, k)) && t[k] == b[BoxCell(u, k)]
  {
    BoxCellsAll(u);
    seq(9, k requires 0 <= k < 9 && IsCell(BoxCell(u, k)) => b[BoxCell(u, k)])
  }

  lemma BoxCellsAll(u: int)
    requires IsUnit(u)
    ensures forall k :: 0 <= k < 9 ==> IsCell(BoxCell(u, k))
  {
    forall k | 0 <= k < 9
      ensures IsCell(BoxCell(u, k))
    {
      BoxCells(u, k);
    }
  }

  lemma BoxSeqAt(b: Board, i: int)
    requires IsCell(i)
    ensures IsUnit(BoxOf(i)) && IsUnit(InBox(i)) && BoxSeq(b, BoxOf(i))[InBox(i)] == b[i]
  {
    BoxCellOf(i);
  }

  lemma BoxOfCoverDistinct(g: Board, s: set<(int, int)>, i: int, j: int)
    requires ExactOptions(g, s) && IsCell(i) && IsCell(j) && i != j && BoxOf(i) == BoxOf(j)
    ensures BoardOf(g, s)[i] != BoardOf(g, s)[j]
  {
    var b := BoardOf(g, s);
    BoxSeqAt(b, i);
    BoxSeqAt(b, j);
    BoxSeqOnto(g, s, BoxOf(i));
    OntoIsDistinct(BoxSeq(b, BoxOf(i)));
    assert InBox(i) != InBox(j) by {
      BoxCellOf(i);
      BoxCellOf(j);
    }
  }

  lemma BoxSeqOnto(g: Board, s: set<(int, int)>, u: int)
    requires ExactOptions(g, s) && IsUnit(u)
    ensures forall v :: IsDigit(v) ==> v in BoxSeq(BoardOf(g, s), u)
  {
    forall v | IsDigit(v)
      ensures v in BoxSeq(BoardOf(g, s), u)
    {
      var x := BoxShows(g, s, u, v);
      BoxSeqAt(BoardOf(g, s), x);
    }
  }

  /** An exact cover describes a completion of the givens; in particular contradictory givens have none. */
  lemma CoverIsCompletion(g: Board, s: set<(int, int)>)
    requires Givens(g) && ExactOptions(g, s)
    ensures Completes(BoardOf(g, s), g)
  {
    var b := BoardOf(g, s);
    forall i | IsCell(i)
      ensures IsDigit(b[i])
    {
      if g[i] == 0 {
        assert IsItem(g, i) && Met(s, i);
        var o :| o in s && i in OptionItems(o);
        WhichItem(o, 0, 1);
        OneDigitPerCell(g, s, o);
      }
    }
    forall i, j | IsCell(i) && IsCell(j) && i != j && Peers(i, j)
      ensures b[i] != b[j]
    {
      if RowOf(i) == RowOf(j) {
        RowOfCoverDistinct(g, s, i, j);
      } else if ColOf(i) == ColOf(j) {
        ColOfCoverDistinct(g, s, i, j);
      } else {
        BoxOfCoverDistinct(g, s, i, j);
      }
    }
  }

  // ----- completions are covers

  lemma RowOfCompletionOnto(b: Board, r: int, v: int) returns (i: int)
    requires Solved(b) && IsUnit(r) && IsDigit(v)
    ensures IsCell(i) && RowOf(i) == r && b[i] == v
  {
    var t := RowSeq(b, r);
    forall k | 0 <= k < 9
      ensures IsDigit(t[k])
    {
      assert IsUnit(k);
    }
    forall k, l | 0 <= k < l < 9
      ensures t[k] != t[l]
    {
      assert IsUnit(k) && IsUnit(l);
      RowCells(r, k);
      RowCells(r, l);
      assert Peers(RowCell(r, k), RowCell(r, l));
    }
    DistinctIsOnto(t, v);
    var k :| 0 <= k < |t| && t[k] == v;
    assert IsUnit(k);
    RowCells(r, k);
    i := RowCell(r, k);
  }

  lemma ColOfCompletionOnto(b: Board, c: int, v: int) returns (i: int)
    requires Solved(b) && IsUnit(c) && IsDigit(v)
    ensures IsCell(i) && ColOf(i) == c && b[i] == v
  {
    var t := ColSeq(b, c);
    forall k | 0 <= k < 9
      ensures IsDigit(t[k])
    {
      assert IsUnit(k);
    }
    forall k, l | 0 <= k < l < 9
      ensures t[k] != t[l]
    {
      assert IsUnit(k) && IsUnit(l);
      ColCells(c, k);
      ColCells(c, l);
      assert Peers(ColCell(c, k), ColCell(c, l));
    }
    DistinctIsOnto(t, v);
    var k :| 0 <= k < |t| && t[k] == v;
    assert IsUnit(k);
    ColCells(c, k);
    i := ColCell(c, k);
  }

  lemma BoxOfCompletionOnto(b: Board, u: int, v: int) returns (i: int)
    requires Solved(b) && IsUnit(u) && IsDigit(v)
    ensures IsCell(i) && BoxOf(i) == u && b[i] == v
  {
    var t := BoxSeq(b, u);
    forall k | 0 <= k < 9
      ensures IsDigit(t[k])
    {
      assert IsUnit(k);
      BoxCells(u, k);
    }
    forall k, l | 0 <= k < l < 9
      ensures t[k] != t[l]
    {
      assert IsUnit(k) && IsUnit(l);
      BoxCells(u, k);
      BoxCells(u, l);
      assert Peers(BoxCell(u, k), BoxCell(u, l));
    }
    DistinctIsOnto(t, v);
    var k :| 0 <= k < |t| && t[k] == v;
    assert IsUnit(k);
    BoxCells(u, k);
    i := BoxCell(u, k);
  }

  lemma CompletionOptionAllowed(g: Board, b: Board, i: int)
    requires Completes(b, g) && IsCell(i) && g[i] == 0
    ensures IsOption(g, (i, b[i])) && (i, b[i]) in OptionsOf(g, b)
  {
    assert forall j :: IsCell(j) && j != i && g[j] == b[i] ==> b[j] == b[i] || g[j] == 0;
    assert forall j :: IsCell(j) && Peers(i, j) && g[j] == b[i] ==> false;
  }

  /** Reading the unit and the digit off a column number. */
  lemma NameParts(g: Board, n: int) returns (u: int, v: int)
    requires IsItem(g, n) && n >= 100
    ensures IsUnit(u) && IsDigit(v)
    ensures || (n == RowName(u, v) && !RowUses(g, u, v))
            || (n == ColName(u, v) && !ColUses(g, u, v))
            || (n == BoxName(u, v) && !BoxUses(g, u, v))
  {
    u, v :| IsUnit(u) && IsDigit(v) && IsUnitItem(g, n, u, v);
  }

  /** The cell where a completion takes care of an item. */
  lemma ItemCell(g: Board, b: Board, n: int) returns (i: int)
    requires Completes(b, g) && IsItem(g, n)
    ensures IsCell(i) && g[i] == 0 && n in OptionItems((i, b[i]))
  {
    if n < 100 {
      i := n;
    } else {
      var u, v := NameParts(g, n);
      if n == RowName(u, v) && !RowUses(g, u, v) {
        i := RowOfCompletionOnto(b, u, v);
      } else if n == ColName(u, v) && !ColUses(g, u, v) {
        i := ColOfCompletionOnto(b, u, v);
      } else {
        i := BoxOfCompletionOnto(b, u, v);
      }
    }
  }

  lemma CompletionMeets(g: Board, b: Board, n: int)
    requires Completes(b, g) && IsItem(g, n)
    ensures Met(OptionsOf(g, b), n)
  {
    var i := ItemCell(g, b, n);
    CompletionOptionAllowed(g, b, i);
  }

  lemma SharedItem(o: (int, int), o': (int, int), n: int)
    requires IsCell(o.0) && IsDigit(o.1) && IsCell(o'.0) && IsDigit(o'.1)
    requires n in OptionItems(o) && n in OptionItems(o')
    ensures o.0 == o'.0 || (o.1 == o'.1 && Peers(o.0, o'.0))
  {
    UnitsInRange(o.0);
    if n == RowName(RowOf(o.0), o.1) {
      WhichItem(o', RowOf(o.0), o.1);
    } else if n == ColName(ColOf(o.0), o.1) {
      WhichItem(o', ColOf(o.0), o.1);
    } else if n == BoxName(BoxOf(o.0), o.1) {
      WhichItem(o', BoxOf(o.0), o.1);
    } else {
      WhichItem(o', 0, 1);
    }
  }

  /** Conversely a completion's choices for the empty cells are an exact cover. */
  lemma CompletionIsCover(g: Board, b: Board)
    requires Completes(b, g)
    ensures ExactOptions(g, OptionsOf(g, b))
  {
    var s := OptionsOf(g, b);
    forall o | o in s
      ensures IsOption(g, o) && IsCell(o.0) && o.1 == b[o.0]
    {
      CompletionOptionAllowed(g, b, o.0);
    }
    forall o, o' | o in s && o' in s && o != o'
      ensures OptionItems(o) !! OptionItems(o')
    {
      forall n | n in OptionItems(o) && n in OptionItems(o')
        ensures false
      {
        SharedItem(o, o', n);
      }
    }
    forall n | IsItem(g, n)
      ensures Met(s, n)
    {
      CompletionMeets(g, b, n);
    }
  }

  /** Exact covers and completions correspond one to one. */
  lemma CoversAreCompletions(g: Board, s: set<(int, int)>, b: Board)
    requires Givens(g)
    ensures ExactOptions(g, s) ==> OptionsOf(g, BoardOf(g, s)) == s
    ensures Completes(b, g) ==> BoardOf(g, OptionsOf(g, b)) == b
  {
    if ExactOptions(g, s) {
      forall i, v
        ensures (i, v) in OptionsOf(g, BoardOf(g, s)) <==> (i, v) in s
      {
        if (i, v) in s {
          OneDigitPerCell(g, s, (i, v));
        }
        if (i, v) in OptionsOf(g, BoardOf(g, s)) {
          assert IsItem(g, i) && Met(s, i);
          var o :| o in s && i in OptionItems(o);
          WhichItem(o, 0, 1);
          OneDigitPerCell(g, s, o);
          assert o == (i, v);
        }
      }
    }
    if Completes(b, g) {
      CompletionIsCover(g, b);
      var c := BoardOf(g, OptionsOf(g, b));
      forall i | 0 <= i < 81
        ensures c[i] == b[i]
      {
        if g[i] == 0 {
          CompletionOptionAllowed(g, b, i);
          OneDigitPerCell(g, OptionsOf(g, b), (i, b[i]));
        } else {
          assert IsCell(i);
        }
      }
    }
  }
}
