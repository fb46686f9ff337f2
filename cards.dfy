/** Bingo-90 cards (game_logic.py): generation of a 3x9 card, and the
    row-complete ("cinquina") and full-card ("bingo") checks. */
module Cards {
  import opened Common

  /** A card as stored: a list of rows of cells; 0 marks an empty cell. */
  type Card = seq<seq<int>>

  /** The nine shuffled column pools that generation pops numbers from. */
  type Pools = seq<seq<int>>

  /** Number of non-empty (non-zero) cells of a row. */
  function CountNonZero(row: seq<int>): nat
  {
    if row == [] then 0
    else CountNonZero(row[..|row| - 1]) + (if row[|row| - 1] != 0 then 1 else 0)
  }

  /** Column c (0-based) holds numbers 10c+1..10c+10. */
  predicate InColumnRange(v: int, c: int) {
    10 * c + 1 <= v <= 10 * c + 10
  }

  /** A well-formed card: 3 rows of 9 cells, 5 numbers per row, every number in
      its column's range, and no number twice on the card. */
  predicate ValidCard(card: Card)
  {
    && |card| == 3
    && (forall r :: 0 <= r < 3 ==> |card[r]| == 9 && CountNonZero(card[r]) == 5)
    && (forall r, c :: 0 <= r < 3 && 0 <= c < 9 && card[r][c] != 0 ==> InColumnRange(card[r][c], c))
    && (forall r1, c1, r2, c2 ::
          0 <= r1 < 3 && 0 <= c1 < 9 && 0 <= r2 < 3 && 0 <= c2 < 9 &&
          (r1 != r2 || c1 != c2) && card[r1][c1] != 0
          ==> card[r1][c1] != card[r2][c2])
  }

  /** The outcome of shuffling every column's pool: pool c is an ordering of
      10c+1..10c+10 (ten distinct numbers of that range). */
  predicate ValidPools(pools: Pools)
  {
    && |pools| == 9
    && (forall c :: 0 <= c < 9 ==> |pools[c]| == 10 && NoDup(pools[c]))
    && (forall c, i :: 0 <= c < 9 && 0 <= i < 10 ==> InColumnRange(pools[c][i], c))
  }

  /** Fewer than nine filled columns leave a free one. */
  lemma FreeColumn(cols: set<int>)
    requires forall c :: c in cols ==> 0 <= c < 9
    requires |cols| < 9
    ensures exists c :: 0 <= c < 9 && c !in cols
  {
    if forall c :: 0 <= c < 9 ==> c in cols {
      RangeSize(0, 9);
      assert Range(0, 9) <= cols;
      SubsetSize(Range(0, 9), cols);
      assert false;
    }
  }

  lemma {:induction false} CountNonZeroIsSetSize(row: seq<int>)
    ensures CountNonZero(row) == |set c | 0 <= c < |row| && row[c] != 0|
  {
    if row != [] {
      var n := |row| - 1;
      CountNonZeroIsSetSize(row[..n]);
      var prev := set c | 0 <= c < n && row[..n][c] != 0;
      var all := set c | 0 <= c < |row| && row[c] != 0;
      if row[n] != 0 {
        assert all == prev + {n};
      } else {
        assert all == prev;
      }
    }
  }

  /** Bookkeeping of card generation part-way through row `row`: `filled`
      holds the filled (row, column) positions, `rowCols` the columns filled
      in the current row and `rowSets` those of every finished row. */
  ghost predicate FillPositions(filled: set<(int, int)>, row: int, rowCols: set<int>, rowSets: seq<set<int>>)
  {
    && 0 <= row <= 3
    && |filled| == 5 * row + |rowCols| <= 5 * (row + 1)
    && (forall c :: c in rowCols ==> 0 <= c < 9 && (row, c) in filled)
    && (forall p :: p in filled ==> 0 <= p.0 <= row && 0 <= p.1 < 9 && (p.0 == row ==> p.1 in rowCols))
    && |rowSets| == row
    && (forall r, c :: 0 <= r < row && c in rowSets[r] ==> 0 <= c < 9 && (r, c) in filled)
    && (forall r, c :: 0 <= r < row && (r, c) in filled ==> c in rowSets[r])
    && (forall r :: 0 <= r < row ==> |rowSets[r]| == 5)
  }

  /** The grid's values `g` are 3x9 and non-zero exactly at the filled positions. */
  ghost predicate FillGrid(g: seq<seq<int>>, filled: set<(int, int)>)
  {
    && |g| == 3 && (forall r :: 0 <= r < 3 ==> |g[r]| == 9)
    && (forall r, c :: 0 <= r < 3 && 0 <= c < 9 ==> (g[r][c] != 0 <==> (r, c) in filled))
  }

  /** `columns` are what is left of the shuffled pools: each is a prefix of
      its pool, long enough for the remaining rows, and every placed number
      lies in its column's range and has already left that column's pool. */
  ghost predicate FillPools(pools: Pools, g: seq<seq<int>>, columns: Pools, row: int, rowCols: set<int>)
    requires ValidPools(pools) && |g| == 3 && (forall r :: 0 <= r < 3 ==> |g[r]| == 9)
  {
    && |columns| == 9
    && (forall c :: 0 <= c < 9 ==>
          10 - row - (if c in rowCols then 1 else 0) <= |columns[c]| <= 10 &&
          columns[c] == pools[c][..|columns[c]|])
    && (forall r, c :: 0 <= r < 3 && 0 <= c < 9 && g[r][c] != 0 ==> InColumnRange(g[r][c], c))
    && (forall r, c :: 0 <= r < 3 && 0 <= c < 9 && g[r][c] != 0 ==> g[r][c] !in columns[c])
    && (forall r1, r2, c :: 0 <= r1 < 3 && 0 <= r2 < 3 && r1 != r2 && 0 <= c < 9 && g[r1][c] != 0 ==>
          g[r1][c] != g[r2][c])
  }

  /** The whole state of card generation. */
  ghost predicate FillInv(pools: Pools, g: seq<seq<int>>, columns: Pools, filled: set<(int, int)>,
                          row: int, rowCols: set<int>, rowSets: seq<set<int>>)
  {
    && ValidPools(pools)
    && FillPositions(filled, row, rowCols, rowSets)
    && FillGrid(g, filled)
    && FillPools(pools, g, columns, row, rowCols)
  }

  /** The all-zero grid and the untouched pools start generation. */
  lemma FillStart(pools: Pools)
    requires ValidPools(pools)
    ensures FillInv(pools, seq(3, r => seq(9, c => 0)), pools, {}, 0, {}, [])
  {
  }

  /** A row that is not yet full has a free column. */
  lemma FillHasFreeColumn(filled: set<(int, int)>, row: int, rowCols: set<int>, rowSets: seq<set<int>>)
    requires FillPositions(filled, row, rowCols, rowSets)
    requires |filled| < 5 * (row + 1)
    ensures exists col :: 0 <= col < 9 && (row, col) !in filled
  {
    FreeColumn(rowCols);
    var free :| 0 <= free < 9 && free !in rowCols;
    assert (row, free) !in filled;
  }

  lemma PlacePositions(filled: set<(int, int)>, row: int, rowCols: set<int>, rowSets: seq<set<int>>, col: int)
    requires FillPositions(filled, row, rowCols, rowSets)
    requires row < 3 && |filled| < 5 * (row + 1)
    requires 0 <= col < 9 && (row, col) !in filled
    ensures col !in rowCols
    ensures FillPositions(filled + {(row, col)}, row, rowCols + {col}, rowSets)
  {
  }

  lemma PlaceGrid(g: seq<seq<int>>, filled: set<(int, int)>, row: int, col: int, v: int)
    requires FillGrid(g, filled)
    requires 0 <= row < 3 && 0 <= col < 9 && v != 0
    ensures FillGrid(g[row := g[row][col := v]], filled + {(row, col)})
  {
  }

  lemma PlacePools(pools: Pools, g: seq<seq<int>>, columns: Pools, filled: set<(int, int)>,
                   row: int, rowCols: set<int>, col: int)
    requires ValidPools(pools)
    requires FillGrid(g, filled)
    requires FillPools(pools, g, columns, row, rowCols)
    requires 0 <= row < 3 && 0 <= col < 9 && (row, col) !in filled && col !in rowCols
    ensures |columns[col]| > 0
    ensures var n := |columns[col]|;
            var g' := g[row := g[row][col := columns[col][n - 1]]];
            FillGrid(g', filled + {(row, col)}) &&
            FillPools(pools, g', columns[col := columns[col][..n - 1]], row, rowCols + {col})
  {
    var n := |columns[col]|;
    var v := columns[col][n - 1];
    assert v == pools[col][n - 1];
    assert InColumnRange(v, col);
    assert v !in pools[col][..n - 1] by {
      forall k | 0 <= k < n - 1 ensures pools[col][k] != v { }
    }
    PlaceGrid(g, filled, row, col, v);
    var g' := g[row := g[row][col := v]];
    var columns' := columns[col := columns[col][..n - 1]];
    var rowCols' := rowCols + {col};
    forall c | 0 <= c < 9
      ensures 10 - row - (if c in rowCols' then 1 else 0) <= |columns'[c]| <= 10
      ensures columns'[c] == pools[c][..|columns'[c]|]
    {
    }
    forall r, c | 0 <= r < 3 && 0 <= c < 9 && g'[r][c] != 0
      ensures InColumnRange(g'[r][c], c)
      ensures g'[r][c] !in columns'[c]
    {
      if r != row || c != col {
        assert g'[r][c] == g[r][c];
      }
    }
    forall r1, r2, c | 0 <= r1 < 3 && 0 <= r2 < 3 && r1 != r2 && 0 <= c < 9 && g'[r1][c] != 0
      ensures g'[r1][c] != g'[r2][c]
    {
      if c == col && r1 == row {
        assert g'[r2][c] == g[r2][c];
      } else if c == col && r2 == row {
        assert g'[r1][c] == g[r1][c];
      }
    }
  }

  /** Popping the last number of a free column's pool into the grid keeps
      the generation state consistent. */
  lemma FillPlace(pools: Pools, g: seq<seq<int>>, columns: Pools, filled: set<(int, int)>,
                  row: int, rowCols: set<int>, rowSets: seq<set<int>>, col: int)
    requires FillInv(pools, g, columns, filled, row, rowCols, rowSets)
    requires row < 3 && |filled| < 5 * (row + 1)
    requires 0 <= col < 9 && (row, col) !in filled
    ensures |columns[col]| > 0
    ensures var n := |columns[col]|;
            FillInv(pools, g[row := g[row][col := columns[col][n - 1]]],
                    columns[col := columns[col][..n - 1]], filled + {(row, col)},
                    row, rowCols + {col}, rowSets)
  {
    PlacePositions(filled, row, rowCols, rowSets, col);
    PlacePools(pools, g, columns, filled, row, rowCols, col);
  }

  /** A full row moves generation on to the next row. */
  lemma FillNextRow(pools: Pools, g: seq<seq<int>>, columns: Pools, filled: set<(int, int)>,
                    row: int, rowCols: set<int>, rowSets: seq<set<int>>)
    requires FillInv(pools, g, columns, filled, row, rowCols, rowSets)
    requires row < 3 && |filled| >= 5 * (row + 1)
    ensures FillInv(pools, g, columns, filled, row + 1, {}, rowSets + [rowCols])
  {
    var rowSets' := rowSets + [rowCols];
    assert forall r :: 0 <= r < row ==> rowSets'[r] == rowSets[r];
  }

  /** Once all three rows are full, the grid is a well-formed card. */
  lemma FillDone(pools: Pools, g: seq<seq<int>>, columns: Pools, filled: set<(int, int)>,
                 rowSets: seq<set<int>>)
    requires FillInv(pools, g, columns, filled, 3, {}, rowSets)
    ensures ValidCard(g)
  {
    forall r | 0 <= r < 3
      ensures CountNonZero(g[r]) == 5
    {
      CountNonZeroIsSetSize(g[r]);
      assert (set c | 0 <= c < 9 && g[r][c] != 0) == rowSets[r];
    }
    assert forall r, c :: 0 <= r < 3 && 0 <= c < 9 && g[r][c] != 0 ==> InColumnRange(g[r][c], c);
  }

  /** Filling row `row` so far took `g` to `g'` and the pools `columns` to
      `columns'`: only that row changed, each column of `rowCols` got the last
      number of its pool and lost it, and the other pools are untouched. */
  ghost predicate PopLog(columns: Pools, columns': Pools, g: seq<seq<int>>, g': seq<seq<int>>,
                         row: int, rowCols: set<int>)
  {
    && |columns| == 9 && |columns'| == 9
    && |g| == 3 && |g'| == 3
    && (forall r :: 0 <= r < 3 ==> |g[r]| == 9 && |g'[r]| == 9)
    && 0 <= row < 3
    && (forall r, c :: 0 <= r < 3 && r != row && 0 <= c < 9 ==> g'[r][c] == g[r][c])
    && (forall c :: 0 <= c < 9 && c in rowCols ==>
          |columns[c]| > 0 && g'[row][c] == columns[c][|columns[c]| - 1] &&
          columns'[c] == columns[c][..|columns[c]| - 1])
    && (forall c :: 0 <= c < 9 && c !in rowCols ==> columns'[c] == columns[c])
  }

  lemma PopStep(columns: Pools, columns': Pools, g: seq<seq<int>>, g': seq<seq<int>>,
                row: int, rowCols: set<int>, col: int)
    requires PopLog(columns, columns', g, g', row, rowCols)
    requires 0 <= col < 9 && col !in rowCols && |columns'[col]| > 0
    ensures var n := |columns'[col]|;
            PopLog(columns, columns'[col := columns'[col][..n - 1]],
                   g, g'[row := g'[row][col := columns'[col][n - 1]]], row, rowCols + {col})
  {
  }

  /** The grid holds the values `g`. */
  ghost predicate Mirrors(grid: array2<int>, g: seq<seq<int>>)
    reads grid
  {
    && grid.Length0 == 3 && grid.Length1 == 9
    && |g| == 3 && (forall r :: 0 <= r < 3 ==> |g[r]| == 9)
    && (forall r, c :: 0 <= r < 3 && 0 <= c < 9 ==> grid[r, c] == g[r][c])
  }

  /** The inner loop of generate_bingo_card for one row: keep choosing an
      unfilled column of the row (the source retries `randint(0, 8)` until
      it hits one) and pop the last number of that column's pool into the
      cell, until 5 * (row + 1) positions are filled. */
  method FillRow(grid: array2<int>, pools: Pools, columns: Pools, filled: set<(int, int)>, row: int,
                 ghost g: seq<seq<int>>, ghost rowSets: seq<set<int>>)
    returns (columns': Pools, filled': set<(int, int)>, ghost g': seq<seq<int>>, ghost rowCols: set<int>)
    requires 0 <= row < 3
    requires FillInv(pools, g, columns, filled, row, {}, rowSets)
    requires Mirrors(grid, g)
    modifies grid
    ensures FillInv(pools, g', columns', filled', row, rowCols, rowSets)
    ensures |filled'| >= 5 * (row + 1)
    ensures Mirrors(grid, g')
    // the other rows of the grid are untouched
    ensures forall r, c :: 0 <= r < 3 && r != row && 0 <= c < 9 ==> grid[r, c] == old(grid[r, c])
    // each filled column of the row received the last number of its pool,
    // which was popped; the other pools are unchanged
    ensures |columns'| == 9
    ensures forall c :: 0 <= c < 9 && c in rowCols ==>
              |columns[c]| > 0 && grid[row, c] == columns[c][|columns[c]| - 1] &&
              columns'[c] == columns[c][..|columns[c]| - 1]
    ensures forall c :: 0 <= c < 9 && c !in rowCols ==> columns'[c] == columns[c]
  {
    columns', filled', g', rowCols := columns, filled, g, {};
    while |filled'| < 5 * (row + 1)
      invariant FillInv(pools, g', columns', filled', row, rowCols, rowSets)
      invariant Mirrors(grid, g')
      invariant PopLog(columns, columns', g, g', row, rowCols)
      decreases 5 * (row + 1) - |filled'|
    {
      FillHasFreeColumn(filled', row, rowCols, rowSets);
      var col :| 0 <= col < 9 && (row, col) !in filled';
      PlacePositions(filled', row, rowCols, rowSets, col);
      FillPlace(pools, g', columns', filled', row, rowCols, rowSets, col);
      PopStep(columns, columns', g, g', row, rowCols, col);
      var n := |columns'[col]|;
      grid[row, col] := columns'[col][n - 1];
      g' := g'[row := g'[row][col := columns'[col][n - 1]]];
      columns' := columns'[col := columns'[col][..n - 1]];
      filled' := filled' + {(row, col)};
      rowCols := rowCols + {col};
    }
    assert forall r, c :: 0 <= r < 3 && 0 <= c < 9 ==> grid[r, c] == g'[r][c];
  }

  /** generate_bingo_card: start from an all-zero 3x9 grid and fill the
      three rows in turn, popping numbers from the supplied shuffled column
      pools (`random.shuffle` is the caller's choice of `pools`). */
  method GenerateCard(pools: Pools) returns (card: Card)
    requires ValidPools(pools)
    ensures ValidCard(card)
  {
    var grid := new int[3, 9]((r, c) => 0);
    var columns := pools;
    var filled: set<(int, int)> := {};
    ghost var g: seq<seq<int>> := seq(3, r => seq(9, c => 0));
    ghost var rowSets: seq<set<int>> := [];
    FillStart(pools);
    for row := 0 to 3
      invariant FillInv(pools, g, columns, filled, row, {}, rowSets)
      invariant Mirrors(grid, g)
    {
      ghost var rowCols;
      columns, filled, g, rowCols := FillRow(grid, pools, columns, filled, row, g, rowSets);
      FillNextRow(pools, g, columns, filled, row, rowCols, rowSets);
      rowSets := rowSets + [rowCols];
    }
    card := seq(3, r requires 0 <= r < 3 reads grid =>
                  seq(9, c requires 0 <= c < 9 reads grid => grid[r, c]));
    forall r | 0 <= r < 3
      ensures card[r] == g[r]
    {
      assert forall c :: 0 <= c < 9 ==> card[r][c] == g[r][c];
    }
    assert card == g;
    FillDone(pools, g, columns, filled, rowSets);
  }

  /** One card per supplied shuffle (`[generate_bingo_card() for _ in range(n)]`). */
  method GenerateCards(shuffles: seq<Pools>) returns (cards: seq<Card>)
    requires forall i :: 0 <= i < |shuffles| ==> ValidPools(shuffles[i])
    ensures |cards| == |shuffles|
    ensures forall i :: 0 <= i < |cards| ==> ValidCard(cards[i])
  {
    cards := [];
    for i := 0 to |shuffles|
      invariant |cards| == i
      invariant forall k :: 0 <= k < i ==> ValidCard(cards[k])
    {
      var card := GenerateCard(shuffles[i]);
      cards := cards + [card];
    }
  }

  /** `sum(1 for num in row if num in drawn_numbers)`: the cells of a row
      whose value has been drawn. */
  function CountDrawn(row: seq<int>, drawn: seq<int>): nat
  {
    if row == [] then 0
    else CountDrawn(row[..|row| - 1], drawn) + (if row[|row| - 1] in drawn then 1 else 0)
  }

  /** The same count over every row of a card. */
  function CountDrawnCard(card: Card, drawn: seq<int>): nat
  {
    if card == [] then 0 else CountDrawn(card[0], drawn) + CountDrawnCard(card[1..], drawn)
  }

  /** check_cinquina: some row has exactly 5 of its cells drawn. */
  predicate CheckCinquina(card: Card, drawn: seq<int>)
  {
    exists r :: 0 <= r < |card| && CountDrawn(card[r], drawn) == 5
  }

  /** check_bingo: exactly 15 cells of the card are drawn. */
  predicate CheckBingo(card: Card, drawn: seq<int>)
  {
    CountDrawnCard(card, drawn) == 15
  }

  /** Every number of the row has been drawn. */
  predicate RowComplete(row: seq<int>, drawn: seq<int>)
  {
    forall c :: 0 <= c < |row| && row[c] != 0 ==> row[c] in drawn
  }

  /** When 0 is never drawn, at most the non-empty cells of a row count as
      drawn, and all of them do exactly when every number of the row is drawn. */
  lemma {:induction false} CountDrawnBound(row: seq<int>, drawn: seq<int>)
    requires 0 !in drawn
    ensures CountDrawn(row, drawn) <= CountNonZero(row)
    ensures CountDrawn(row, drawn) == CountNonZero(row) <==> RowComplete(row, drawn)
  {
    if row != [] {
      var n := |row| - 1;
      var prefix := row[..n];
      CountDrawnBound(prefix, drawn);
      assert forall c :: 0 <= c < n ==> prefix[c] == row[c];
      if RowComplete(prefix, drawn) && (row[n] != 0 ==> row[n] in drawn) {
        assert RowComplete(row, drawn);
      }
    }
  }

  lemma CountDrawnCardOfThree(card: Card, drawn: seq<int>)
    requires |card| == 3
    ensures CountDrawnCard(card, drawn) ==
            CountDrawn(card[0], drawn) + CountDrawn(card[1], drawn) + CountDrawn(card[2], drawn)
  {
    var rest := card[1..];
    assert rest[0] == card[1];
    var last := rest[1..];
    assert last[0] == card[2];
    assert last[1..] == [];
    assert CountDrawnCard(last, drawn) == CountDrawn(card[2], drawn) + CountDrawnCard(last[1..], drawn);
  }

  /** On a well-formed card, cinquina means some row has all 5 numbers drawn. */
  lemma CinquinaIffRowComplete(card: Card, drawn: seq<int>)
    requires ValidCard(card)
    requires 0 !in drawn
    ensures CheckCinquina(card, drawn) <==> exists r :: 0 <= r < 3 && RowComplete(card[r], drawn)
  {
    forall r | 0 <= r < 3
      ensures CountDrawn(card[r], drawn) == 5 <==> RowComplete(card[r], drawn)
    {
      CountDrawnBound(card[r], drawn);
    }
  }

  /** On a well-formed card, bingo means all 15 numbers are drawn. */
  lemma BingoIffAllDrawn(card: Card, drawn: seq<int>)
    requires ValidCard(card)
    requires 0 !in drawn
    ensures CheckBingo(card, drawn) <==>
            forall r, c :: 0 <= r < 3 && 0 <= c < 9 && card[r][c] != 0 ==> card[r][c] in drawn
  {
    CountDrawnCardOfThree(card, drawn);
    forall r | 0 <= r < 3
      ensures CountDrawn(card[r], drawn) <= 5
      ensures CountDrawn(card[r], drawn) == 5 <==> RowComplete(card[r], drawn)
    {
      CountDrawnBound(card[r], drawn);
    }
  }

  /** On a well-formed card, a bingo is also a cinquina. */
  lemma BingoImpliesCinquina(card: Card, drawn: seq<int>)
    requires ValidCard(card)
    requires 0 !in drawn
    requires CheckBingo(card, drawn)
    ensures CheckCinquina(card, drawn)
  {
    BingoIffAllDrawn(card, drawn);
    CinquinaIffRowComplete(card, drawn);
    assert RowComplete(card[0], drawn);
  }
}
