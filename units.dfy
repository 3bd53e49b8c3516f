/**
 The constraint graph of diagonal Sudoku: 81 boxes, the 29 units (9 rows,
 9 columns, 9 squares and the two diagonals) and the peer relation.

 A box is its position 0..80 in the key order A1, A2, ..., A9, B1, ..., I9:
 box `9 * r + c` is named by row letter `Rows[r]` and column digit `Cols[c]`.
 */
module Units {

  const Rows := "ABCDEFGHI"
  const Cols := "123456789"

  type Box = b: int | 0 <= b < 81

  function BoxAt(r: int, c: int): (b: Box)
    requires 0 <= r < 9 && 0 <= c < 9
    ensures b / 9 == r && b % 9 == c
  {
    9 * r + c
  }

  function Row(b: Box): int { b / 9 }
  function Col(b: Box): int { b % 9 }

  /** The box's name, such as "A1" or "I9". */
  function Name(b: Box): string
  {
    [Rows[Row(b)], Cols[Col(b)]]
  }

  ghost predicate Distinct<T>(s: seq<T>)
  {
    forall i, j :: 0 <= i < j < |s| ==> s[i] != s[j]
  }

  predicate InRange(s: seq<int>)
  {
    forall i :: 0 <= i < |s| ==> 0 <= s[i] < 9
  }

  /** Every box of each row in `rs` with each column of `cs`, row by row. */
  function Cross(rs: seq<int>, cs: seq<int>): seq<Box>
    requires InRange(rs) && InRange(cs)
  {
    if rs == [] then []
    else seq(|cs|, j requires 0 <= j < |cs| => BoxAt(rs[0], cs[j])) + Cross(rs[1..], cs)
  }

  function AllIndices(): seq<int> { [0, 1, 2, 3, 4, 5, 6, 7, 8] }

  function Band(t: int): seq<int>
    requires 0 <= t < 3
  {
    [3 * t, 3 * t + 1, 3 * t + 2]
  }

  function RowUnits(): seq<seq<Box>>
  {
    seq(9, r requires 0 <= r < 9 => Cross([r], AllIndices()))
  }

  function ColumnUnits(): seq<seq<Box>>
  {
    seq(9, c requires 0 <= c < 9 => Cross(AllIndices(), [c]))
  }

  /** Squares in the order (ABC,123), (ABC,456), (ABC,789), (DEF,123), ... */
  function SquareUnits(): seq<seq<Box>>
  {
    seq(9, k requires 0 <= k < 9 => Cross(Band(k / 3), Band(k % 3)))
  }

  /** A1, B2, ..., I9: rows zipped with the columns. */
  function Diagonal(): seq<Box>
  {
    seq(9, i requires 0 <= i < 9 => BoxAt(i, i))
  }

  /** A9, B8, ..., I1: rows zipped with the reversed columns. */
  function AntiDiagonal(): seq<Box>
  {
    seq(9, i requires 0 <= i < 9 => BoxAt(i, 8 - i))
  }

  function UnitList(): seq<seq<Box>>
  {
    RowUnits() + ColumnUnits() + SquareUnits() + [Diagonal()] + [AntiDiagonal()]
  }

  /** Two different boxes that share a unit. */
  predicate IsPeer(a: Box, b: Box)
  {
    a != b && exists u :: u in UnitList() && a in u && b in u
  }

  lemma {:induction false} CrossMember(rs: seq<int>, cs: seq<int>, x: Box)
    requires InRange(rs) && InRange(cs)
    ensures x in Cross(rs, cs) <==> Row(x) in rs && Col(x) in cs
  {
    if rs != [] {
      CrossMember(rs[1..], cs, x);
      var head := seq(|cs|, j requires 0 <= j < |cs| => BoxAt(rs[0], cs[j]));
      assert Cross(rs, cs) == head + Cross(rs[1..], cs);
      if Row(x) == rs[0] && Col(x) in cs {
        var j :| 0 <= j < |cs| && cs[j] == Col(x);
        assert head[j] == x;
      }
      assert x in head ==> Row(x) == rs[0] && Col(x) in cs;
      assert rs == [rs[0]] + rs[1..];
    }
  }

  lemma {:induction false} CrossLength(rs: seq<int>, cs: seq<int>)
    requires InRange(rs) && InRange(cs)
    ensures |Cross(rs, cs)| == |rs| * |cs|
  {
    if rs != [] {
      CrossLength(rs[1..], cs);
      assert |rs| * |cs| == |cs| + (|rs| - 1) * |cs|;
    }
  }

  lemma {:induction false} CrossDistinct(rs: seq<int>, cs: seq<int>)
    requires InRange(rs) && InRange(cs)
    requires Distinct(rs) && Distinct(cs)
    ensures Distinct(Cross(rs, cs))
  {
    if rs != [] {
      var head := seq(|cs|, j requires 0 <= j < |cs| => BoxAt(rs[0], cs[j]));
      var tail := Cross(rs[1..], cs);
      CrossDistinct(rs[1..], cs);
      assert Cross(rs, cs) == head + tail;
      forall i, j | 0 <= i < |head| && 0 <= j < |tail|
        ensures head[i] != tail[j]
      {
        CrossMember(rs[1..], cs, tail[j]);
        assert Row(head[i]) == rs[0];
        assert rs[0] !in rs[1..];
      }
    }
  }

  /** Row `r`, column `c` and square `k` hold exactly the boxes of that row, column
      or 3x3 block; the diagonals hold the boxes with r == c and r + c == 8. */
  lemma RowMember(x: Box, r: int)
    requires 0 <= r < 9
    ensures x in RowUnits()[r] <==> Row(x) == r
  {
    CrossMember([r], AllIndices(), x);
  }

  lemma ColumnMember(x: Box, c: int)
    requires 0 <= c < 9
    ensures x in ColumnUnits()[c] <==> Col(x) == c
  {
    CrossMember(AllIndices(), [c], x);
  }

  lemma BandMember(i: int, t: int)
    requires 0 <= i < 9 && 0 <= t < 3
    ensures i in Band(t) <==> i / 3 == t
  {
  }

  lemma SquareMember(x: Box, k: int)
    requires 0 <= k < 9
    ensures x in SquareUnits()[k] <==> Row(x) / 3 == k / 3 && Col(x) / 3 == k % 3
  {
    assert SquareUnits()[k] == Cross(Band(k / 3), Band(k % 3));
    CrossMember(Band(k / 3), Band(k % 3), x);
    BandMember(Row(x), k / 3);
    BandMember(Col(x), k % 3);
  }

  lemma DiagonalMember(x: Box)
    ensures x in Diagonal() <==> Row(x) == Col(x)
    ensures x in AntiDiagonal() <==> Row(x) + Col(x) == 8
  {
    if Row(x) == Col(x) {
      assert Diagonal()[Row(x)] == x;
    }
    if Row(x) + Col(x) == 8 {
      assert AntiDiagonal()[Row(x)] == x;
    }
  }

  /** Where each kind of unit sits in the unit table. */
  lemma UnitListIndex()
    ensures |UnitList()| == 29
    ensures forall u :: 0 <= u < 9 ==> UnitList()[u] == RowUnits()[u]
    ensures forall u :: 9 <= u < 18 ==> UnitList()[u] == ColumnUnits()[u - 9]
    ensures forall u :: 18 <= u < 27 ==> UnitList()[u] == SquareUnits()[u - 18]
    ensures UnitList()[27] == Diagonal() && UnitList()[28] == AntiDiagonal()
  {
  }

  lemma RowUnitsShape()
    ensures forall r :: 0 <= r < 9 ==> |RowUnits()[r]| == 9 && Distinct(RowUnits()[r])
  {
    var all := AllIndices();
    forall r | 0 <= r < 9
      ensures |RowUnits()[r]| == 9 && Distinct(RowUnits()[r])
    {
      CrossLength([r], all);
      CrossDistinct([r], all);
    }
  }

  lemma ColumnUnitsShape()
    ensures forall c :: 0 <= c < 9 ==> |ColumnUnits()[c]| == 9 && Distinct(ColumnUnits()[c])
  {
    var all := AllIndices();
    forall c | 0 <= c < 9
      ensures |ColumnUnits()[c]| == 9 && Distinct(ColumnUnits()[c])
    {
      CrossLength(all, [c]);
      CrossDistinct(all, [c]);
    }
  }

  lemma SquareUnitsShape()
    ensures forall k :: 0 <= k < 9 ==> |SquareUnits()[k]| == 9 && Distinct(SquareUnits()[k])
  {
    forall k | 0 <= k < 9
      ensures |SquareUnits()[k]| == 9 && Distinct(SquareUnits()[k])
    {
      CrossLength(Band(k / 3), Band(k % 3));
      CrossDistinct(Band(k / 3), Band(k % 3));
    }
  }

  lemma DiagonalAt(i: int)
    requires 0 <= i < 9
    ensures Row(Diagonal()[i]) == i && Col(Diagonal()[i]) == i
    ensures Row(AntiDiagonal()[i]) == i && Col(AntiDiagonal()[i]) == 8 - i
  {
    assert Diagonal()[i] == BoxAt(i, i);
    assert AntiDiagonal()[i] == BoxAt(i, 8 - i);
  }

  lemma DiagonalsShape()
    ensures Distinct(Diagonal()) && Distinct(AntiDiagonal())
  {
    forall i, j | 0 <= i < j < 9 ensures Diagonal()[i] != Diagonal()[j] {
      DiagonalAt(i);
      DiagonalAt(j);
    }
    forall i, j | 0 <= i < j < 9 ensures AntiDiagonal()[i] != AntiDiagonal()[j] {
      DiagonalAt(i);
      DiagonalAt(j);
    }
  }

  /** The diagonals zip the row letters with the column digits, forwards and reversed. */
  lemma DiagonalNames()
    ensures forall i :: 0 <= i < 9 ==> Name(Diagonal()[i]) == [Rows[i], Cols[i]]
    ensures forall i :: 0 <= i < 9 ==> Name(AntiDiagonal()[i]) == [Rows[i], Cols[8 - i]]
  {
    forall i | 0 <= i < 9 ensures Name(Diagonal()[i]) == [Rows[i], Cols[i]] {
      DiagonalAt(i);
    }
    forall i | 0 <= i < 9 ensures Name(AntiDiagonal()[i]) == [Rows[i], Cols[8 - i]] {
      DiagonalAt(i);
    }
  }

  /** The unit table: 29 units of 9 distinct boxes each. */
  lemma UnitListShape()
    ensures |UnitList()| == 29
    ensures forall u :: 0 <= u < 29 ==> |UnitList()[u]| == 9 && Distinct(UnitList()[u])
    ensures UnitList()[..9] == RowUnits() && UnitList()[9..18] == ColumnUnits()
    ensures UnitList()[18..27] == SquareUnits()
    ensures forall i :: 0 <= i < 9 ==> Name(UnitList()[27][i]) == [Rows[i], Cols[i]]
    ensures forall i :: 0 <= i < 9 ==> Name(UnitList()[28][i]) == [Rows[i], Cols[8 - i]]
  {
    UnitListIndex();
    RowUnitsShape();
    ColumnUnitsShape();
    SquareUnitsShape();
    DiagonalsShape();
    DiagonalNames();
    forall u | 0 <= u < 29
      ensures |UnitList()[u]| == 9 && Distinct(UnitList()[u])
    {
      if u < 9 {
      } else if u < 18 {
        assert UnitList()[u] == ColumnUnits()[u - 9];
      } else if u < 27 {
        assert UnitList()[u] == SquareUnits()[u - 18];
      }
    }
  }

  /** The coordinate test: same row, column, 3x3 square or diagonal. */
  ghost predicate ShareUnit(a: Box, b: Box)
  {
    || Row(a) == Row(b)
    || Col(a) == Col(b)
    || (Row(a) / 3 == Row(b) / 3 && Col(a) / 3 == Col(b) / 3)
    || (Row(a) == Col(a) && Row(b) == Col(b))
    || (Row(a) + Col(a) == 8 && Row(b) + Col(b) == 8)
  }

  lemma SquareShare(a: Box, b: Box, k: int)
    requires 0 <= k < 9 && a in SquareUnits()[k] && b in SquareUnits()[k]
    ensures Row(a) / 3 == Row(b) / 3 && Col(a) / 3 == Col(b) / 3
  {
    SquareMember(a, k);
    SquareMember(b, k);
  }

  lemma InUnitShare(a: Box, b: Box, i: int)
    requires 0 <= i < |UnitList()| && a in UnitList()[i] && b in UnitList()[i]
    ensures ShareUnit(a, b)
  {
    UnitListIndex();
    if i < 9 {
      RowMember(a, i);
      RowMember(b, i);
    } else if i < 18 {
      ColumnMember(a, i - 9);
      ColumnMember(b, i - 9);
    } else if i < 27 {
      SquareShare(a, b, i - 18);
    } else {
      DiagonalMember(a);
      DiagonalMember(b);
    }
  }

  lemma ShareInUnit(a: Box, b: Box) returns (i: int)
    requires ShareUnit(a, b)
    ensures 0 <= i < |UnitList()| && a in UnitList()[i] && b in UnitList()[i]
  {
    UnitListIndex();
    if Row(a) == Row(b) {
      i := Row(a);
      RowMember(a, i);
      RowMember(b, i);
    } else if Col(a) == Col(b) {
      i := 9 + Col(a);
      ColumnMember(a, Col(a));
      ColumnMember(b, Col(a));
    } else if Row(a) / 3 == Row(b) / 3 && Col(a) / 3 == Col(b) / 3 {
      var k := 3 * (Row(a) / 3) + Col(a) / 3;
      i := 18 + k;
      SquareMember(a, k);
      SquareMember(b, k);
    } else if Row(a) == Col(a) && Row(b) == Col(b) {
      i := 27;
      DiagonalMember(a);
      DiagonalMember(b);
    } else {
      i := 28;
      DiagonalMember(a);
      DiagonalMember(b);
    }
  }

  /** A unit has nine boxes, none of them twice. */
  lemma UnitSize(u: nat)
    requires u < |UnitList()|
    ensures |UnitList()[u]| == 9 && Distinct(UnitList()[u])
  {
    UnitListShape();
  }

  /** Two different positions of a unit hold two peers. */
  lemma UnitPeers(u: nat, j1: nat, j2: nat)
    requires u < |UnitList()| && j1 < j2 < |UnitList()[u]|
    ensures IsPeer(UnitList()[u][j1], UnitList()[u][j2])
  {
    UnitListShape();
    assert UnitList()[u] in UnitList();
  }

  /** Peers share a row, a column, a square, or one of the two diagonals. */
  lemma PeerCharacterisation(a: Box, b: Box)
    ensures IsPeer(a, b) <==> a != b && ShareUnit(a, b)
  {
    var ul := UnitList();
    if IsPeer(a, b) {
      var u :| u in ul && a in u && b in u;
      var i :| 0 <= i < |ul| && ul[i] == u;
      InUnitShare(a, b, i);
    }
    if a != b && ShareUnit(a, b) {
      var i := ShareInUnit(a, b);
      assert ul[i] in ul;
    }
  }
}
