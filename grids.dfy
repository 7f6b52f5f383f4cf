/** The layouts of the tables the quality-control loops build: one cell per batch
    and compound, batch by batch (a grid), or a run of rows per compound and
    batch, compound by compound (blocks). */
module Grids {
  import opened Seqs
  import opened Order

  /** The cells of one batch, one per compound in the given order. */
  function GridRow<T>(b: int, cs: seq<string>, cell: (int, string) -> T): (r: seq<T>)
    ensures |r| == |cs|
    ensures forall j :: 0 <= j < |cs| ==> r[j] == cell(b, cs[j])
  {
    seq(|cs|, j requires 0 <= j < |cs| => cell(b, cs[j]))
  }

  lemma GridRowSnoc<T>(b: int, cs: seq<string>, cell: (int, string) -> T, i: nat)
    requires i < |cs|
    ensures GridRow(b, cs[..i + 1], cell) == GridRow(b, cs[..i], cell) + [cell(b, cs[i])]
  {
  }

  /** One cell per batch and compound, batch by batch. */
  function Grid<T>(bs: seq<int>, cs: seq<string>, cell: (int, string) -> T): seq<T>
    decreases |bs|
  {
    if |bs| == 0 then []
    else Grid(bs[..|bs| - 1], cs, cell) + GridRow(bs[|bs| - 1], cs, cell)
  }

  lemma GridSnoc<T>(bs: seq<int>, cs: seq<string>, cell: (int, string) -> T, i: nat)
    requires i < |bs|
    ensures Grid(bs[..i + 1], cs, cell) == Grid(bs[..i], cs, cell) + GridRow(bs[i], cs, cell)
  {
    assert bs[..i + 1][..i] == bs[..i];
  }

  lemma IntMulMonotone(a: int, b: int, m: int)
    requires 0 <= a <= b && 0 <= m
    ensures 0 <= a * m <= b * m
  {
    assert b * m - a * m == (b - a) * m;
  }

  lemma RowMajorBound(i: int, j: int, n: int, m: int)
    requires 0 <= i < n && 0 <= j < m
    ensures 0 <= i * m + j
    ensures i < n - 1 ==> i * m + j < (n - 1) * m
    ensures i == n - 1 ==> i * m + j == (n - 1) * m + j
  {
    IntMulMonotone(0, i, m);
    if i < n - 1 {
      IntMulMonotone(i + 1, n - 1, m);
      assert (i + 1) * m == i * m + m;
    }
  }

  lemma RowsOfOneMore(n: int, m: int)
    ensures (n - 1) * m + m == n * m
  {
  }

  /** Position `i * m + j` of `n - 1` rows of width `m` followed by one more row. */
  lemma AppendRowAt<T>(a: seq<T>, b: seq<T>, i: int, j: int, n: int, m: int)
    requires 0 <= i < n && 0 <= j < m && |a| == (n - 1) * m && |b| == m
    ensures 0 <= i * m + j < |a + b|
    ensures i < n - 1 ==> i * m + j < |a| && (a + b)[i * m + j] == a[i * m + j]
    ensures i == n - 1 ==> (a + b)[i * m + j] == b[j]
  {
    RowMajorBound(i, j, n, m);
  }

  /** The grid is batch-major: cell `i * |cs| + j` is that of batch `bs[i]` and
      compound `cs[j]`. */
  lemma {:induction false} GridLayout<T>(bs: seq<int>, cs: seq<string>, cell: (int, string) -> T)
    ensures |Grid(bs, cs, cell)| == |bs| * |cs|
    ensures forall i, j :: 0 <= i < |bs| && 0 <= j < |cs| ==> Grid(bs, cs, cell)[i * |cs| + j] == cell(bs[i], cs[j])
    decreases |bs|
  {
    if |bs| > 0 {
      var n, m := |bs|, |cs|;
      var bs' := bs[..n - 1];
      GridLayout(bs', cs, cell);
      var r' := Grid(bs', cs, cell);
      var last := GridRow(bs[n - 1], cs, cell);
      assert Grid(bs, cs, cell) == r' + last;
      RowsOfOneMore(n, m);
      forall i, j | 0 <= i < n && 0 <= j < m ensures (r' + last)[i * m + j] == cell(bs[i], cs[j]) {
        AppendRowAt(r', last, i, j, n, m);
        if i < n - 1 {
          assert bs'[i] == bs[i];
        }
      }
    }
  }

  /** Cell `k = i * |cs| + j` of the grid is that of batch `bs[i]` and compound `cs[j]`. */
  lemma GridStep<T>(bs: seq<int>, cs: seq<string>, cell: (int, string) -> T, i: nat, j: nat, k: nat)
    requires i < |bs| && j < |cs| && k == i * |cs| + j
    ensures k < |Grid(bs, cs, cell)| && Grid(bs, cs, cell)[k] == cell(bs[i], cs[j])
  {
    GridLayout(bs, cs, cell);
    RowMajorBound(i, j, |bs|, |cs|);
    RowsOfOneMore(|bs|, |cs|);
  }

  // ---------------------------------------------------------------------------
  // Blocks

  /** The rows of compound `c` for the batches `bs`, batch after batch. */
  function BlockRow<T>(c: string, bs: seq<int>, cell: (string, int) -> seq<T>): seq<T>
    decreases |bs|
  {
    if |bs| == 0 then []
    else BlockRow(c, bs[..|bs| - 1], cell) + cell(c, bs[|bs| - 1])
  }

  /** The rows of every compound of `cs` and every batch of `bs`, compound after
      compound. */
  function Blocks<T>(cs: seq<string>, bs: seq<int>, cell: (string, int) -> seq<T>): seq<T>
    decreases |cs|
  {
    if |cs| == 0 then []
    else Blocks(cs[..|cs| - 1], bs, cell) + BlockRow(cs[|cs| - 1], bs, cell)
  }

  lemma BlockRowSnoc<T>(c: string, bs: seq<int>, cell: (string, int) -> seq<T>, i: nat)
    requires i < |bs|
    ensures BlockRow(c, bs[..i + 1], cell) == BlockRow(c, bs[..i], cell) + cell(c, bs[i])
  {
    assert bs[..i + 1][..i] == bs[..i];
  }

  lemma BlocksSnoc<T>(cs: seq<string>, bs: seq<int>, cell: (string, int) -> seq<T>, i: nat)
    requires i < |cs|
    ensures Blocks(cs[..i + 1], bs, cell) == Blocks(cs[..i], bs, cell) + BlockRow(cs[i], bs, cell)
  {
    assert cs[..i + 1][..i] == cs[..i];
  }

  lemma {:induction false} BlockRowMembers<T(!new)>(c: string, bs: seq<int>, cell: (string, int) -> seq<T>)
    ensures forall x :: x in BlockRow(c, bs, cell) <==> exists b :: b in bs && x in cell(c, b)
    decreases |bs|
  {
    if |bs| > 0 {
      var bs', last := bs[..|bs| - 1], bs[|bs| - 1];
      assert bs == bs' + [last];
      BlockRowMembers(c, bs', cell);
      forall x ensures x in BlockRow(c, bs, cell) <==> exists b :: b in bs && x in cell(c, b) {
        if x in cell(c, last) {
          assert last in bs;
        }
        if exists b :: b in bs && x in cell(c, b) {
          var b :| b in bs && x in cell(c, b);
          if b != last {
            assert b in bs';
          }
        }
      }
    }
  }

  /** A row is in the blocks exactly when it is a row of one of their cells. */
  lemma {:induction false} BlocksMembers<T(!new)>(cs: seq<string>, bs: seq<int>, cell: (string, int) -> seq<T>)
    ensures forall x :: x in Blocks(cs, bs, cell) <==> exists c, b :: c in cs && b in bs && x in cell(c, b)
    decreases |cs|
  {
    if |cs| > 0 {
      var cs' := cs[..|cs| - 1];
      assert cs == cs' + [cs[|cs| - 1]];
      BlocksMembers(cs', bs, cell);
      BlockRowMembers(cs[|cs| - 1], bs, cell);
    }
  }

  /** Selects the rows of compound `c` in batch `b`. */
  function AtKey<T>(compoundOf: T -> string, batchOf: T -> int, c: string, b: int): T -> bool {
    (x: T) => compoundOf(x) == c && batchOf(x) == b
  }

  /** Selecting one cell's key from a cell, for keyed cells. */
  lemma SelectCell<T(!new)>(cell: (string, int) -> seq<T>, compoundOf: T -> string, batchOf: T -> int,
                            c': string, b': int, c: string, b: int)
    requires KeyedBy(cell, compoundOf, batchOf)
    ensures Filter(cell(c', b'), AtKey(compoundOf, batchOf, c, b)) ==
            if c' == c && b' == b then cell(c', b') else []
  {
    if c' == c && b' == b {
      FilterAll(cell(c', b'), AtKey(compoundOf, batchOf, c, b));
    } else {
      FilterNone(cell(c', b'), AtKey(compoundOf, batchOf, c, b));
    }
  }

  /** For keyed cells and distinct batches, selecting one key from a compound's
      run gives that key's cell, or nothing. */
  lemma {:induction false} BlockRowSelect<T(!new)>(c': string, bs: seq<int>, cell: (string, int) -> seq<T>,
                                                   compoundOf: T -> string, batchOf: T -> int, c: string, b: int)
    requires KeyedBy(cell, compoundOf, batchOf) && Distinct(bs)
    ensures Filter(BlockRow(c', bs, cell), AtKey(compoundOf, batchOf, c, b)) ==
            if c' == c && b in bs then cell(c, b) else []
    decreases |bs|
  {
    if |bs| > 0 {
      var bs', last := bs[..|bs| - 1], bs[|bs| - 1];
      assert bs == bs' + [last];
      var p := AtKey(compoundOf, batchOf, c, b);
      assert Distinct(bs') && last !in bs';
      BlockRowSelect(c', bs', cell, compoundOf, batchOf, c, b);
      FilterAppend(BlockRow(c', bs', cell), cell(c', last), p);
      SelectCell(cell, compoundOf, batchOf, c', last, c, b);
      assert BlockRow(c', bs, cell) == BlockRow(c', bs', cell) + cell(c', last);
      if b == last {
        assert Filter(BlockRow(c', bs', cell), p) == [];
      } else {
        assert Filter(cell(c', last), p) == [];
        assert b in bs <==> b in bs';
      }
    }
  }

  /** For keyed cells and distinct compounds and batches, selecting one key from
      the blocks gives that key's cell, or nothing when the key is not listed. */
  lemma {:induction false} BlocksSelect<T(!new)>(cs: seq<string>, bs: seq<int>, cell: (string, int) -> seq<T>,
                                                 compoundOf: T -> string, batchOf: T -> int, c: string, b: int)
    requires KeyedBy(cell, compoundOf, batchOf) && Distinct(cs) && Distinct(bs)
    ensures Filter(Blocks(cs, bs, cell), AtKey(compoundOf, batchOf, c, b)) ==
            if c in cs && b in bs then cell(c, b) else []
    decreases |cs|
  {
    if |cs| > 0 {
      var cs', last := cs[..|cs| - 1], cs[|cs| - 1];
      assert cs == cs' + [last];
      var p := AtKey(compoundOf, batchOf, c, b);
      assert Distinct(cs') && last !in cs';
      BlocksSelect(cs', bs, cell, compoundOf, batchOf, c, b);
      FilterAppend(Blocks(cs', bs, cell), BlockRow(last, bs, cell), p);
      BlockRowSelect(last, bs, cell, compoundOf, batchOf, c, b);
      assert Blocks(cs, bs, cell) == Blocks(cs', bs, cell) + BlockRow(last, bs, cell);
      if c == last {
        assert Filter(Blocks(cs', bs, cell), p) == [];
      } else {
        assert Filter(BlockRow(last, bs, cell), p) == [];
        assert c in cs <==> c in cs';
      }
    }
  }

  lemma CellInBlocks<T(!new)>(cs: seq<string>, bs: seq<int>, cell: (string, int) -> seq<T>, c: string, b: int, y: T)
    requires c in cs && b in bs && y in cell(c, b)
    ensures y in Blocks(cs, bs, cell)
  {
    BlocksMembers(cs, bs, cell);
  }

  /** Blocks whose every cell is one row or none hold exactly the rows of the
      cells that are present. */
  lemma OptionalCells<T(!new)>(cs: seq<string>, bs: seq<int>, cell: (string, int) -> seq<T>,
                              present: (string, int) -> bool, row: (string, int) -> T)
    requires forall c, b :: cell(c, b) == if present(c, b) then [row(c, b)] else []
    ensures forall x :: x in Blocks(cs, bs, cell) ==> exists c, b :: c in cs && b in bs && present(c, b) && x == row(c, b)
    ensures forall c, b :: c in cs && b in bs && present(c, b) ==> row(c, b) in Blocks(cs, bs, cell)
  {
    BlocksMembers(cs, bs, cell);
    forall x | x in Blocks(cs, bs, cell)
      ensures exists c, b :: c in cs && b in bs && present(c, b) && x == row(c, b)
    {
      var c, b :| c in cs && b in bs && x in cell(c, b);
      assert present(c, b) && x == row(c, b);
    }
    forall c, b | c in cs && b in bs && present(c, b) ensures row(c, b) in Blocks(cs, bs, cell) {
      assert row(c, b) in cell(c, b);
    }
  }

  /** Cells of one row or none, each row keyed by its own compound and batch, are
      keyed and each in order. */
  lemma OptionalCellsKeyed<T(!new)>(cell: (string, int) -> seq<T>, present: (string, int) -> bool,
                                    row: (string, int) -> T, lt: (T, T) -> bool,
                                    compoundOf: T -> string, batchOf: T -> int)
    requires forall c, b :: cell(c, b) == if present(c, b) then [row(c, b)] else []
    requires forall c, b :: compoundOf(row(c, b)) == c && batchOf(row(c, b)) == b
    ensures KeyedBy(cell, compoundOf, batchOf)
    ensures forall c, b :: Ascending(cell(c, b), lt)
  {
    forall c, b, x | x in cell(c, b) ensures compoundOf(x) == c && batchOf(x) == b {
      assert x == row(c, b);
    }
    forall c, b ensures Ascending(cell(c, b), lt) {
      assert |cell(c, b)| <= 1;
    }
  }

  /** A row of one compound's batches with a non-empty cell is not empty. */
  lemma NonEmptyCell<T(!new)>(c: string, bs: seq<int>, cell: (string, int) -> seq<T>, b: int)
    requires b in bs && |cell(c, b)| > 0
    ensures BlockRow(c, bs, cell) != []
  {
    BlockRowMembers(c, bs, cell);
    assert cell(c, b)[0] in cell(c, b);
    assert cell(c, b)[0] in BlockRow(c, bs, cell);
  }

  /** Blocks with a non-empty compound row are not empty. */
  lemma NonEmptyBlockRow<T(!new)>(cs: seq<string>, bs: seq<int>, cell: (string, int) -> seq<T>, i: nat)
    requires i < |cs| && BlockRow(cs[i], bs, cell) != []
    ensures Blocks(cs, bs, cell) != []
  {
    var x := BlockRow(cs[i], bs, cell)[0];
    BlockRowMembers(cs[i], bs, cell);
    BlocksMembers(cs, bs, cell);
    assert x in BlockRow(cs[i], bs, cell);
    var b :| b in bs && x in cell(cs[i], b);
    assert cs[i] in cs;
  }

  /** Every row of cell `(c, b)` has compound `c` and batch `b`. */
  ghost predicate KeyedBy<T(!new)>(cell: (string, int) -> seq<T>, compoundOf: T -> string, batchOf: T -> int) {
    forall c, b, x :: x in cell(c, b) ==> compoundOf(x) == c && batchOf(x) == b
  }

  /** `lt` puts a row of a smaller compound, or of the same compound and a smaller
      batch, first. */
  ghost predicate CompoundMajor<T(!new)>(lt: (T, T) -> bool, compoundOf: T -> string, batchOf: T -> int) {
    && (forall x, y :: StrLess(compoundOf(x), compoundOf(y)) ==> lt(x, y))
    && (forall x, y :: compoundOf(x) == compoundOf(y) && batchOf(x) < batchOf(y) ==> lt(x, y))
  }

  lemma BlockRowBatchesBelow<T(!new)>(c: string, bs: seq<int>, cell: (string, int) -> seq<T>,
                                      compoundOf: T -> string, batchOf: T -> int, b: int)
    requires KeyedBy(cell, compoundOf, batchOf)
    requires forall i :: 0 <= i < |bs| ==> bs[i] < b
    ensures forall x :: x in BlockRow(c, bs, cell) ==> compoundOf(x) == c && batchOf(x) < b
  {
    BlockRowMembers(c, bs, cell);
    forall x | x in BlockRow(c, bs, cell) ensures compoundOf(x) == c && batchOf(x) < b {
      var b0 :| b0 in bs && x in cell(c, b0);
      var j :| 0 <= j < |bs| && bs[j] == b0;
    }
  }

  lemma {:induction false} BlockRowAscending<T(!new)>(c: string, bs: seq<int>, cell: (string, int) -> seq<T>,
                                                      lt: (T, T) -> bool, compoundOf: T -> string, batchOf: T -> int)
    requires Ascending(bs, IntLess)
    requires KeyedBy(cell, compoundOf, batchOf) && CompoundMajor(lt, compoundOf, batchOf)
    requires forall b :: b in bs ==> Ascending(cell(c, b), lt)
    ensures Ascending(BlockRow(c, bs, cell), lt)
    decreases |bs|
  {
    if |bs| > 0 {
      var bs', b := bs[..|bs| - 1], bs[|bs| - 1];
      assert bs == bs' + [b];
      BlockRowAscending(c, bs', cell, lt, compoundOf, batchOf);
      assert forall i :: 0 <= i < |bs'| ==> bs'[i] < b;
      BlockRowBatchesBelow(c, bs', cell, compoundOf, batchOf, b);
      AscendingAppend(BlockRow(c, bs', cell), cell(c, b), lt);
    }
  }

  lemma BlocksCompoundsBelow<T(!new)>(cs: seq<string>, bs: seq<int>, cell: (string, int) -> seq<T>,
                                      compoundOf: T -> string, batchOf: T -> int, c: string)
    requires KeyedBy(cell, compoundOf, batchOf)
    requires forall i :: 0 <= i < |cs| ==> StrLess(cs[i], c)
    ensures forall x :: x in Blocks(cs, bs, cell) ==> StrLess(compoundOf(x), c)
  {
    BlocksMembers(cs, bs, cell);
    forall x | x in Blocks(cs, bs, cell) ensures StrLess(compoundOf(x), c) {
      var c0, b0 :| c0 in cs && b0 in bs && x in cell(c0, b0);
      var j :| 0 <= j < |cs| && cs[j] == c0;
    }
  }

  lemma BlockRowCompound<T(!new)>(c: string, bs: seq<int>, cell: (string, int) -> seq<T>,
                                  compoundOf: T -> string, batchOf: T -> int)
    requires KeyedBy(cell, compoundOf, batchOf)
    ensures forall y :: y in BlockRow(c, bs, cell) ==> compoundOf(y) == c
  {
    BlockRowMembers(c, bs, cell);
  }

  lemma BlocksBeforeRow<T(!new)>(cs: seq<string>, bs: seq<int>, cell: (string, int) -> seq<T>,
                                 lt: (T, T) -> bool, compoundOf: T -> string, batchOf: T -> int)
    requires |cs| > 0 && Ascending(cs, StrLess)
    requires KeyedBy(cell, compoundOf, batchOf) && CompoundMajor(lt, compoundOf, batchOf)
    ensures forall x, y :: x in Blocks(cs[..|cs| - 1], bs, cell) && y in BlockRow(cs[|cs| - 1], bs, cell) ==> lt(x, y)
  {
    var cs', c := cs[..|cs| - 1], cs[|cs| - 1];
    assert forall i :: 0 <= i < |cs'| ==> StrLess(cs'[i], c);
    BlocksCompoundsBelow(cs', bs, cell, compoundOf, batchOf, c);
    BlockRowCompound(c, bs, cell, compoundOf, batchOf);
  }

  /** With ascending compounds and batches, and cells whose own rows are in
      order, the blocks are ordered by compound, then by batch. */
  lemma {:induction false} BlocksAscending<T(!new)>(cs: seq<string>, bs: seq<int>, cell: (string, int) -> seq<T>,
                                                    lt: (T, T) -> bool, compoundOf: T -> string, batchOf: T -> int)
    requires Ascending(cs, StrLess) && Ascending(bs, IntLess)
    requires KeyedBy(cell, compoundOf, batchOf) && CompoundMajor(lt, compoundOf, batchOf)
    requires forall c, b :: c in cs && b in bs ==> Ascending(cell(c, b), lt)
    ensures Ascending(Blocks(cs, bs, cell), lt)
    decreases |cs|
  {
    if |cs| > 0 {
      var cs', c := cs[..|cs| - 1], cs[|cs| - 1];
      assert cs == cs' + [c];
      BlocksAscending(cs', bs, cell, lt, compoundOf, batchOf);
      BlockRowAscending(c, bs, cell, lt, compoundOf, batchOf);
      BlocksBeforeRow(cs, bs, cell, lt, compoundOf, batchOf);
      AscendingAppend(Blocks(cs', bs, cell), BlockRow(c, bs, cell), lt);
    }
  }

  /** The rows of compound `c` for the batches `bs` number as many as the
      elements of `s` of that compound in those batches, when every cell has
      as many rows as its group of `s`. */
  lemma {:induction false} BlockRowSize<T, U(!new)>(c: string, bs: seq<int>, cell: (string, int) -> seq<T>,
                                                    s: seq<U>, compoundOf: U -> string, batchOf: U -> int)
    requires forall b :: b in bs ==> |cell(c, b)| == |Filter(Filter(s, KeyIs(compoundOf, c)), KeyIs(batchOf, b))|
    ensures |BlockRow(c, bs, cell)| == GroupSizes(Filter(s, KeyIs(compoundOf, c)), batchOf, bs)
    decreases |bs|
  {
    if |bs| > 0 {
      var bs', b := bs[..|bs| - 1], bs[|bs| - 1];
      var group := Filter(s, KeyIs(compoundOf, c));
      assert b in bs;
      BlockRowSize(c, bs', cell, s, compoundOf, batchOf);
      assert BlockRow(c, bs, cell) == BlockRow(c, bs', cell) + cell(c, b);
      assert GroupSizes(group, batchOf, bs) == GroupSizes(group, batchOf, bs') + |Filter(group, KeyIs(batchOf, b))|;
    }
  }

  lemma {:induction false} BlocksGroupSizes<T, U(!new)>(cs: seq<string>, bs: seq<int>, cell: (string, int) -> seq<T>,
                                                       s: seq<U>, compoundOf: U -> string, batchOf: U -> int)
    requires Distinct(bs)
    requires forall x :: x in s ==> batchOf(x) in bs
    requires forall c, b :: |cell(c, b)| == |Filter(Filter(s, KeyIs(compoundOf, c)), KeyIs(batchOf, b))|
    ensures |Blocks(cs, bs, cell)| == GroupSizes(s, compoundOf, cs)
    decreases |cs|
  {
    if |cs| > 0 {
      var c := cs[|cs| - 1];
      BlocksGroupSizes(cs[..|cs| - 1], bs, cell, s, compoundOf, batchOf);
      BlockRowSize(c, bs, cell, s, compoundOf, batchOf);
      PartitionSizes(Filter(s, KeyIs(compoundOf, c)), batchOf, bs);
    }
  }

  /** When the compounds and the batches each list every value of `s` once and
      every cell has as many rows as its group of `s`, the blocks have one row
      per element of `s`. */
  lemma BlocksSize<T, U(!new)>(cs: seq<string>, bs: seq<int>, cell: (string, int) -> seq<T>,
                               s: seq<U>, compoundOf: U -> string, batchOf: U -> int)
    requires Distinct(cs) && Distinct(bs)
    requires forall x :: x in s ==> compoundOf(x) in cs && batchOf(x) in bs
    requires forall c, b :: |cell(c, b)| == |Filter(Filter(s, KeyIs(compoundOf, c)), KeyIs(batchOf, b))|
    ensures |Blocks(cs, bs, cell)| == |s|
  {
    BlocksGroupSizes(cs, bs, cell, s, compoundOf, batchOf);
    PartitionSizes(s, compoundOf, cs);
  }
}
