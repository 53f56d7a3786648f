/** The `Statistics` component: archetype keys, the sorted archetype lists
    that label the matrix, the sparse win matrix, the overall win rate and
    the colour of each cell. */
module Statistics {
  import opened Wrappers
  import opened Lists
  import opened Strings
  import opened Types
  import opened Rates

  // ---------- archetypes ----------

  /** `team.sort().join('|')`: a team's names in order, separated by `|`. */
  function ArchetypeKey(team: seq<string>): string {
    Join(SortStrings(team), "|")
  }

  /** The same names in any order give the same key. */
  lemma ArchetypeKeyIgnoresOrder(a: seq<string>, b: seq<string>)
    requires multiset(a) == multiset(b)
    ensures ArchetypeKey(a) == ArchetypeKey(b)
  {
    SortStringsPermutation(a, b);
  }

  /** `renderArchetype` splits a key on `|`: for a non-empty team whose names
      have no `|`, that gives back the team's names in sorted order. */
  lemma ArchetypeKeySplitsIntoTeam(team: seq<string>)
    requires |team| >= 1
    requires forall i :: 0 <= i < |team| ==> '|' !in team[i]
    ensures Split(ArchetypeKey(team), '|') == SortStrings(team)
  {
    var sorted := SortStrings(team);
    forall i | 0 <= i < |sorted| ensures '|' !in sorted[i] {
      assert sorted[i] in multiset(team);
    }
    assert |sorted| == |multiset(team)| == |team|;
    SplitJoin(sorted, '|');
  }

  function MyKey(m: Matchup): string {
    ArchetypeKey(m.myPokemon)
  }

  function EnemyKey(m: Matchup): string {
    ArchetypeKey(m.enemyPokemon)
  }

  /** `Array.from(new Set(keys)).sort()`. */
  function DistinctSorted(keys: seq<string>): (r: seq<string>)
    ensures StrictlyAscending(r)
    ensures NoDup(r)
    ensures forall k :: k in r <==> k in keys
  {
    var d := Distinct(keys);
    var r := SortStrings(d);
    SortDistinctStrictlyAscending(d);
    NoDupPermutation(d, r);
    assert forall k :: k in r <==> k in multiset(d);
    r
  }

  /** The matrix's row labels: each own-team key once, ascending. */
  function MyArchetypes(ms: seq<Matchup>): (r: seq<string>)
    ensures StrictlyAscending(r) && NoDup(r)
    ensures forall k :: k in r <==> exists i :: 0 <= i < |ms| && MyKey(ms[i]) == k
  {
    var keys := MapSeq(ms, MyKey);
    assert forall k :: k in keys <==> exists i :: 0 <= i < |ms| && MyKey(ms[i]) == k by {
      forall k | k in keys ensures exists i :: 0 <= i < |ms| && MyKey(ms[i]) == k {
        var i :| 0 <= i < |keys| && keys[i] == k;
      }
    }
    DistinctSorted(keys)
  }

  /** The matrix's column labels: each enemy-team key once, ascending. */
  function EnemyArchetypes(ms: seq<Matchup>): (r: seq<string>)
    ensures StrictlyAscending(r) && NoDup(r)
    ensures forall k :: k in r <==> exists i :: 0 <= i < |ms| && EnemyKey(ms[i]) == k
  {
    var keys := MapSeq(ms, EnemyKey);
    assert forall k :: k in keys <==> exists i :: 0 <= i < |ms| && EnemyKey(ms[i]) == k by {
      forall k | k in keys ensures exists i :: 0 <= i < |ms| && EnemyKey(ms[i]) == k {
        var i :| 0 <= i < |keys| && keys[i] == k;
      }
    }
    DistinctSorted(keys)
  }

  // ---------- the win matrix ----------

  /** A cell of the matrix: matches played and won by the row team against
      the column team. */
  datatype Cell = Cell(wins: nat, total: nat)

  predicate IsWin(m: Matchup) {
    m.result == Some(WinText)
  }

  predicate InCell(m: Matchup, row: string, col: string) {
    MyKey(m) == row && EnemyKey(m) == col
  }

  /** What the cell (`row`, `col`) should hold after the matches `ms`: the
      number of them with that key pair, and how many of those were won. */
  function CellOf(ms: seq<Matchup>, row: string, col: string): (c: Cell)
    ensures c.wins <= c.total <= |ms|
  {
    if |ms| == 0 then Cell(0, 0)
    else
      var m := ms[|ms| - 1];
      var prev := CellOf(ms[..|ms| - 1], row, col);
      if InCell(m, row, col) then
        Cell(prev.wins + (if IsWin(m) then 1 else 0), prev.total + 1)
      else
        prev
  }

  /** A cell with data was filled by some match with its key pair. */
  lemma {:induction false} CellWithDataHasMatch(ms: seq<Matchup>, row: string, col: string)
    requires CellOf(ms, row, col).total > 0
    ensures exists i :: 0 <= i < |ms| && InCell(ms[i], row, col)
  {
    var last := |ms| - 1;
    if InCell(ms[last], row, col) {
      assert 0 <= last < |ms| && InCell(ms[last], row, col);
    } else {
      var prefix := ms[..last];
      assert CellOf(ms, row, col) == CellOf(prefix, row, col);
      CellWithDataHasMatch(prefix, row, col);
      var i :| 0 <= i < last && InCell(prefix[i], row, col);
      assert ms[i] == prefix[i];
    }
  }

  /** The cell of a list is the cell of its prefix plus the last match. */
  lemma CellOfAppend(ms: seq<Matchup>, m: Matchup, row: string, col: string)
    ensures CellOf(ms + [m], row, col)
         == if InCell(m, row, col)
            then Cell(CellOf(ms, row, col).wins + (if IsWin(m) then 1 else 0), CellOf(ms, row, col).total + 1)
            else CellOf(ms, row, col)
  {
    assert (ms + [m])[..|ms|] == ms;
  }

  /** `winMatrix[row]?.[col] || { wins: 0, total: 0 }`. */
  function Lookup(matrix: map<string, map<string, Cell>>, row: string, col: string): Cell {
    if row in matrix && col in matrix[row] then matrix[row][col] else Cell(0, 0)
  }

  /** The `forEach` that fills `winMatrix`. The result holds the cell of
      every key pair, stores only cells that have data, and uses only keys of
      the matches as row and column labels. */
  method BuildWinMatrix(ms: seq<Matchup>) returns (matrix: map<string, map<string, Cell>>)
    ensures forall row, col :: Lookup(matrix, row, col) == CellOf(ms, row, col)
    ensures forall row, col :: row in matrix && col in matrix[row] ==> matrix[row][col].total > 0
    ensures forall row :: row in matrix ==> row in MyArchetypes(ms)
    ensures forall row, col :: row in matrix && col in matrix[row] ==> col in EnemyArchetypes(ms)
  {
    matrix := map[];
    var i := 0;
    while i < |ms|
      invariant 0 <= i <= |ms|
      invariant forall row, col :: Lookup(matrix, row, col) == CellOf(ms[..i], row, col)
      invariant forall row, col :: row in matrix && col in matrix[row] ==> matrix[row][col].total > 0
      invariant forall row :: row in matrix ==> exists j :: 0 <= j < i && MyKey(ms[j]) == row
    {
      var m := ms[i];
      var rowKey := ArchetypeKey(m.myPokemon);
      var colKey := ArchetypeKey(m.enemyPokemon);
      ghost var before := matrix;
      matrix := CountMatch(matrix, rowKey, colKey, m.result == Some(WinText));
      CountMatchTracksCells(before, matrix, ms, i);
      i := i + 1;
    }
    assert ms[..i] == ms;
    forall row | row in matrix ensures row in MyArchetypes(ms) {
      var j :| 0 <= j < i && MyKey(ms[j]) == row;
    }
    forall row, col | row in matrix && col in matrix[row] ensures col in EnemyArchetypes(ms) {
      assert Lookup(matrix, row, col).total > 0;
      CellWithDataHasMatch(ms, row, col);
      var j :| 0 <= j < |ms| && InCell(ms[j], row, col);
      assert EnemyKey(ms[j]) == col;
    }
  }

  /** A cell after counting one more match of its key pair. */
  function Counted(c: Cell, won: bool): Cell {
    Cell(c.wins + (if won then 1 else 0), c.total + 1)
  }

  /** The body of the `forEach` once the keys are known: creates the row and
      the cell on first use, then counts the match in its cell; nothing else
      changes. */
  method CountMatch(matrix: map<string, map<string, Cell>>, rowKey: string, colKey: string, won: bool)
    returns (updated: map<string, map<string, Cell>>)
    ensures updated == matrix[rowKey := RowOf(matrix, rowKey)[colKey := Counted(Lookup(matrix, rowKey, colKey), won)]]
  {
    updated := EnsureCell(matrix, rowKey, colKey);
    var cell := updated[rowKey][colKey];
    cell := cell.(total := cell.total + 1);
    if won {
      cell := cell.(wins := cell.wins + 1);
    }
    ghost var row := RowOf(matrix, rowKey);
    assert row[colKey := Lookup(matrix, rowKey, colKey)][colKey := cell] == row[colKey := cell];
    updated := updated[rowKey := updated[rowKey][colKey := cell]];
  }

  /** `if (!winMatrix[rowKey]) ...; if (!winMatrix[rowKey][colKey]) ...`:
      the row and the cell exist afterwards; what was there is kept. */
  method EnsureCell(matrix: map<string, map<string, Cell>>, rowKey: string, colKey: string) returns (updated: map<string, map<string, Cell>>)
    ensures updated == matrix[rowKey := RowOf(matrix, rowKey)[colKey := Lookup(matrix, rowKey, colKey)]]
  {
    updated := matrix;
    if rowKey !in updated {
      updated := updated[rowKey := map[]];
    }
    assert updated == matrix[rowKey := RowOf(matrix, rowKey)];
    if colKey !in updated[rowKey] {
      updated := updated[rowKey := updated[rowKey][colKey := Cell(0, 0)]];
    }
    assert updated[rowKey] == RowOf(matrix, rowKey)[colKey := Lookup(matrix, rowKey, colKey)];
  }

  /** One step of the loop keeps every cell equal to the cell of the matches
      seen so far, and every stored cell non-empty. */
  lemma CountMatchTracksCells(before: map<string, map<string, Cell>>, after: map<string, map<string, Cell>>, ms: seq<Matchup>, i: nat)
    requires i < |ms|
    requires after == before[MyKey(ms[i]) := RowOf(before, MyKey(ms[i]))[EnemyKey(ms[i]) := Counted(Lookup(before, MyKey(ms[i]), EnemyKey(ms[i])), IsWin(ms[i]))]]
    requires forall row, col :: Lookup(before, row, col) == CellOf(ms[..i], row, col)
    requires forall row, col :: row in before && col in before[row] ==> before[row][col].total > 0
    ensures forall row, col :: Lookup(after, row, col) == CellOf(ms[..i + 1], row, col)
    ensures forall row, col :: row in after && col in after[row] ==> after[row][col].total > 0
    ensures forall row :: row in after ==> row in before || row == MyKey(ms[i])
  {
    var rowKey, colKey := MyKey(ms[i]), EnemyKey(ms[i]);
    var cell := Counted(Lookup(before, rowKey, colKey), IsWin(ms[i]));
    forall row, col ensures Lookup(after, row, col) == CellOf(ms[..i + 1], row, col) {
      LookupAfterStore(before, rowKey, colKey, cell, row, col);
      CountedInItsCell(ms, i, row, col);
    }
  }

  function RowOf(matrix: map<string, map<string, Cell>>, row: string): map<string, Cell> {
    if row in matrix then matrix[row] else map[]
  }

  /** Storing a cell changes what that one key pair looks up to. */
  lemma LookupAfterStore(matrix: map<string, map<string, Cell>>, rowKey: string, colKey: string, cell: Cell, row: string, col: string)
    ensures Lookup(matrix[rowKey := RowOf(matrix, rowKey)[colKey := cell]], row, col)
         == if row == rowKey && col == colKey then cell else Lookup(matrix, row, col)
  {
  }

  /** Counting the match at `i` changes exactly its own cell. */
  lemma CountedInItsCell(ms: seq<Matchup>, i: nat, row: string, col: string)
    requires i < |ms|
    ensures CellOf(ms[..i + 1], row, col)
         == if InCell(ms[i], row, col)
            then Cell(CellOf(ms[..i], row, col).wins + (if IsWin(ms[i]) then 1 else 0), CellOf(ms[..i], row, col).total + 1)
            else CellOf(ms[..i], row, col)
  {
    assert ms[..i + 1] == ms[..i] + [ms[i]];
    CellOfAppend(ms[..i], ms[i], row, col);
  }

  // ---------- every match is counted once ----------

  /** The totals of one row, over the given columns. */
  function RowTotal(ms: seq<Matchup>, row: string, cols: seq<string>): nat {
    if |cols| == 0 then 0 else CellOf(ms, row, cols[0]).total + RowTotal(ms, row, cols[1..])
  }

  /** The totals of the whole grid. */
  function GridTotal(ms: seq<Matchup>, rows: seq<string>, cols: seq<string>): nat {
    if |rows| == 0 then 0 else RowTotal(ms, rows[0], cols) + GridTotal(ms, rows[1..], cols)
  }

  lemma {:induction false} RowTotalStep(ms: seq<Matchup>, m: Matchup, row: string, cols: seq<string>)
    requires NoDup(cols)
    ensures RowTotal(ms + [m], row, cols)
         == RowTotal(ms, row, cols) + (if MyKey(m) == row && EnemyKey(m) in cols then 1 else 0)
  {
    if |cols| > 0 {
      NoDupHeadTail(cols, EnemyKey(m));
      RowTotalStep(ms, m, row, cols[1..]);
      CellOfAppend(ms, m, row, cols[0]);
    }
  }

  lemma {:induction false} GridTotalStep(ms: seq<Matchup>, m: Matchup, rows: seq<string>, cols: seq<string>)
    requires NoDup(rows) && NoDup(cols)
    ensures GridTotal(ms + [m], rows, cols)
         == GridTotal(ms, rows, cols) + (if MyKey(m) in rows && EnemyKey(m) in cols then 1 else 0)
  {
    if |rows| > 0 {
      NoDupHeadTail(rows, MyKey(m));
      GridTotalStep(ms, m, rows[1..], cols);
      RowTotalStep(ms, m, rows[0], cols);
    }
  }

  /** Over duplicate-free labels that cover every match's keys, the cell
      totals add up to the number of matches. */
  lemma {:induction false} GridTotalCountsEveryMatch(ms: seq<Matchup>, rows: seq<string>, cols: seq<string>)
    requires NoDup(rows) && NoDup(cols)
    requires forall i :: 0 <= i < |ms| ==> MyKey(ms[i]) in rows && EnemyKey(ms[i]) in cols
    ensures GridTotal(ms, rows, cols) == |ms|
  {
    if |ms| == 0 {
      GridTotalEmpty(rows, cols);
    } else {
      var init := ms[..|ms| - 1];
      assert ms == init + [ms[|ms| - 1]];
      assert forall i :: 0 <= i < |init| ==> init[i] == ms[i];
      GridTotalCountsEveryMatch(init, rows, cols);
      GridTotalStep(init, ms[|ms| - 1], rows, cols);
    }
  }

  lemma {:induction false} GridTotalEmpty(rows: seq<string>, cols: seq<string>)
    ensures GridTotal([], rows, cols) == 0
  {
    if |rows| > 0 {
      GridTotalEmpty(rows[1..], cols);
      RowTotalEmpty(rows[0], cols);
    }
  }

  lemma {:induction false} RowTotalEmpty(row: string, cols: seq<string>)
    ensures RowTotal([], row, cols) == 0
  {
    if |cols| > 0 {
      RowTotalEmpty(row, cols[1..]);
    }
  }

  /** Each match increments exactly one cell of the rendered matrix, so the
      totals of all its cells add up to the number of matches. */
  lemma MatrixTotalIsMatchCount(ms: seq<Matchup>)
    ensures GridTotal(ms, MyArchetypes(ms), EnemyArchetypes(ms)) == |ms|
  {
    GridTotalCountsEveryMatch(ms, MyArchetypes(ms), EnemyArchetypes(ms));
  }

  // ---------- win rates and colours ----------

  /** The header's overall win rate: 0 for no matches, otherwise the share of
      matches whose result is `win`. */
  function OverallWinRate(ms: seq<Matchup>): (rate: real)
    ensures 0.0 <= rate <= 100.0
    ensures |ms| == 0 ==> rate == 0.0
    ensures |ms| > 0 ==> rate * |ms| as real == 100.0 * Count(ms, IsWin) as real
  {
    WinRate(Count(ms, IsWin), |ms|)
  }

  const NoDataClass: string := "bg-black text-gray-700"

  /** The ten colour classes, from the lowest bucket (under 10%) to the
      highest (90% and above). */
  const Palette: seq<string> := [
    "bg-red-500 text-white", "bg-red-400 text-white",
    "bg-orange-300 text-white", "bg-orange-400 text-white",
    "bg-yellow-300 text-black", "bg-yellow-400 text-black",
    "bg-lime-300 text-black", "bg-lime-400 text-black",
    "bg-green-400 text-white", "bg-green-500 text-white"]

  /** `getCellColor`. */
  function CellColor(percentage: real, hasData: bool): (r: string)
    ensures !hasData ==> r == NoDataClass
    ensures hasData ==> r in Palette && r != NoDataClass
  {
    if !hasData then NoDataClass
    else if percentage >= 90.0 then "bg-green-500 text-white"
    else if percentage >= 80.0 then "bg-green-400 text-white"
    else if percentage >= 70.0 then "bg-lime-400 text-black"
    else if percentage >= 60.0 then "bg-lime-300 text-black"
    else if percentage >= 50.0 then "bg-yellow-400 text-black"
    else if percentage >= 40.0 then "bg-yellow-300 text-black"
    else if percentage >= 30.0 then "bg-orange-400 text-white"
    else if percentage >= 20.0 then "bg-orange-300 text-white"
    else if percentage >= 10.0 then "bg-red-400 text-white"
    else "bg-red-500 text-white"
  }

  /** The bucket of a percentage: its tens digit, with 100% and above in the
      top bucket and anything below 10% in the bottom one. */
  function Bucket(percentage: real): (b: nat)
    ensures b < 10
  {
    if percentage < 0.0 then 0
    else
      var tens := (percentage / 10.0).Floor;
      if tens >= 9 then 9 else tens
  }

  /** With data, a cell's class is the palette entry of its ten-point bucket. */
  lemma CellColorIsBucket(percentage: real)
    ensures CellColor(percentage, true) == Palette[Bucket(percentage)]
  {
  }

  /** How a cell is drawn: a dash in the no-data colour, or its figures in
      the colour of its percentage. A cell with data at 0% is drawn as
      figures, not as a dash. */
  datatype CellView = Dash(colorClass: string) | Figures(wins: nat, total: nat, percentage: real, colorClass: string)

  function RenderCell(c: Cell): (v: CellView)
    requires c.wins <= c.total
    ensures v.Dash? <==> c.total == 0
    ensures v.Dash? ==> v.colorClass == NoDataClass
    ensures v.Figures? ==> v.wins == c.wins && v.total == c.total && 0.0 <= v.percentage <= 100.0
    ensures v.Figures? ==> v.percentage == WinRate(c.wins, c.total)
    ensures v.Figures? ==> v.colorClass == Palette[Bucket(v.percentage)] && v.colorClass != NoDataClass
  {
    var percentage := WinRate(c.wins, c.total);
    CellColorIsBucket(percentage);
    if c.total > 0 then Figures(c.wins, c.total, percentage, CellColor(percentage, true))
    else Dash(CellColor(percentage, false))
  }

  // ---------- the `.sort()` side effect ----------

  /** What the component leaves behind in the matches it reads: `.sort()`
      orders each team's names in place. */
  function WithSortedTeams(ms: seq<Matchup>): (r: seq<Matchup>)
    ensures |r| == |ms|
    ensures forall i :: 0 <= i < |ms| ==>
      r[i] == ms[i].(myPokemon := SortStrings(ms[i].myPokemon), enemyPokemon := SortStrings(ms[i].enemyPokemon))
  {
    MapSeq(ms, (m: Matchup) => m.(myPokemon := SortStrings(m.myPokemon), enemyPokemon := SortStrings(m.enemyPokemon)))
  }

  /** Two lists of matches with the same keys and results, position by
      position, give the same cells. */
  lemma {:induction false} CellOfDependsOnKeysAndResults(a: seq<Matchup>, b: seq<Matchup>, row: string, col: string)
    requires |a| == |b|
    requires forall i :: 0 <= i < |a| ==> MyKey(a[i]) == MyKey(b[i]) && EnemyKey(a[i]) == EnemyKey(b[i]) && a[i].result == b[i].result
    ensures CellOf(a, row, col) == CellOf(b, row, col)
  {
    if |a| > 0 {
      CellOfDependsOnKeysAndResults(a[..|a| - 1], b[..|b| - 1], row, col);
    }
  }

  /** Sorting the teams in place changes no key, so a second rendering over
      the mutated matches shows the same matrix. */
  lemma SortingTeamsKeepsMatrix(ms: seq<Matchup>, row: string, col: string)
    ensures forall i :: 0 <= i < |ms| ==> MyKey(WithSortedTeams(ms)[i]) == MyKey(ms[i])
    ensures forall i :: 0 <= i < |ms| ==> EnemyKey(WithSortedTeams(ms)[i]) == EnemyKey(ms[i])
    ensures CellOf(WithSortedTeams(ms), row, col) == CellOf(ms, row, col)
  {
    var r := WithSortedTeams(ms);
    forall i | 0 <= i < |ms|
      ensures MyKey(r[i]) == MyKey(ms[i]) && EnemyKey(r[i]) == EnemyKey(ms[i])
    {
      ArchetypeKeyIgnoresOrder(SortStrings(ms[i].myPokemon), ms[i].myPokemon);
      ArchetypeKeyIgnoresOrder(SortStrings(ms[i].enemyPokemon), ms[i].enemyPokemon);
    }
    CellOfDependsOnKeysAndResults(r, ms, row, col);
  }
}
