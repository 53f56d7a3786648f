/** The CSV file the history page exports and the parser its import uses.
    The writer quotes every cell; the reader strips every quote and splits on
    commas, so quoting protects nothing, and the reader takes the timestamps
    from columns the writer never fills. */
module Csv {
  import opened Wrappers
  import opened Strings
  import opened Types

  /** The header row's cells. */
  const Header: seq<string> :=
    ["ID", "My Pokemon", "Enemy Pokemon", "Notes", "Result", "Turn Order", "Created At", "Updated At"]

  /** A template-literal `${x}` of an optional field. */
  function Show(o: Option<string>): string {
    o.GetOr("undefined")
  }

  /** `m.notes || ''`. */
  function NotesCell(notes: Option<string>): string {
    if IsSet(notes) then notes.value else ""
  }

  /** The eight cells of a match's row. */
  function ExportCells(m: Matchup): (cells: seq<string>)
    ensures |cells| == |Header|
  {
    [m.id, Join(m.myPokemon, ";"), Join(m.enemyPokemon, ";"), NotesCell(m.notes),
     Show(m.result), Show(m.turnOrder), Show(m.createdAt), Show(m.updatedAt)]
  }

  function Quote(cell: string): string {
    "\"" + cell + "\""
  }

  function QuoteCells(cells: seq<string>): (r: seq<string>)
    ensures |r| == |cells|
    ensures forall i :: 0 <= i < |cells| ==> r[i] == Quote(cells[i])
  {
    seq(|cells|, i requires 0 <= i < |cells| => Quote(cells[i]))
  }

  /** A row: every cell wrapped in double quotes, cells joined by commas. */
  function CsvRow(cells: seq<string>): string {
    Join(QuoteCells(cells), ",")
  }

  function ExportRows(ms: seq<Matchup>): (rows: seq<string>)
    ensures |rows| == |ms|
    ensures forall i :: 0 <= i < |ms| ==> rows[i] == CsvRow(ExportCells(ms[i]))
  {
    seq(|ms|, i requires 0 <= i < |ms| => CsvRow(ExportCells(ms[i])))
  }

  /** The exported file: the header row and one row per match, joined by
      newlines. */
  function ExportCsv(ms: seq<Matchup>): string {
    Join([CsvRow(Header)] + ExportRows(ms), "\n")
  }

  // ---------- import ----------

  /** `values[k]`, which is `undefined` past the end of the row. */
  function At(values: seq<string>, k: nat): (v: Option<string>)
    ensures v.Some? <==> k < |values|
    ensures v.Some? ==> v.value == values[k]
  {
    if k < |values| then Some(values[k]) else None
  }

  /** `values[3] || null`. */
  function NotesOf(v: Option<string>): (notes: Option<string>)
    ensures notes.None? <==> !IsSet(v)
    ensures notes.Some? ==> notes == v
  {
    if IsSet(v) then v else None
  }

  /** Every cell with all its double quotes removed. */
  function Unquoted(values: seq<string>): (r: seq<string>)
    ensures |r| == |values|
    ensures forall i :: 0 <= i < |values| ==> r[i] == RemoveAll(values[i], '"')
  {
    seq(|values|, i requires 0 <= i < |values| => RemoveAll(values[i], '"'))
  }

  /** One data line: `None` when it has fewer than three cells, where
      `values[1].split(';')` or `values[2].split(';')` throws. */
  function ParseLine(line: string): (r: Option<Matchup>)
    ensures r.None? <==> |Split(line, ',')| < 3
  {
    var values := Unquoted(Split(line, ','));
    if |values| < 3 then None
    else
      Some(Matchup(values[0], Split(values[1], ';'), Split(values[2], ';'),
        NotesOf(At(values, 3)), At(values, 4), At(values, 5), At(values, 8), At(values, 9)))
  }

  /** All data lines, or `None` as soon as one line throws: the whole import
      is then rejected. */
  function ParseLines(lines: seq<string>): (r: Option<seq<Matchup>>)
    ensures r.Some? <==> forall i :: 0 <= i < |lines| ==> ParseLine(lines[i]).Some?
    ensures r.Some? ==> |r.value| == |lines|
    ensures r.Some? ==> forall i :: 0 <= i < |lines| ==> ParseLine(lines[i]) == Some(r.value[i])
  {
    if |lines| == 0 then Some([])
    else
      match ParseLine(lines[0])
      case None => None
      case Some(m) =>
        match ParseLines(lines[1..])
        case None => None
        case Some(rest) => Some([m] + rest)
  }

  /** The CSV branch of `handleImport`: the first line is skipped, every
      other line must parse. */
  function ImportCsv(text: string): Option<seq<Matchup>> {
    ParseLines(Split(text, '\n')[1..])
  }

  /** A blank line has a single cell, so it is rejected. */
  lemma BlankLineRejected()
    ensures ParseLine("") == None
  {
  }

  /** A file ending in a newline has a blank last line, so the import of
      such a file is always rejected. */
  lemma TrailingNewlineRejected(text: string)
    ensures ImportCsv(text + "\n") == None
  {
    SplitTrailingSeparator(text, '\n');
    var lines := Split(text + "\n", '\n');
    assert lines[|lines| - 1] == "";
    assert lines[1..][|lines| - 2] == "";
    BlankLineRejected();
  }

  // ---------- the round trip ----------

  /** A cell the reader can recover: no comma, double quote or newline. */
  predicate SafeText(s: string) {
    ',' !in s && '"' !in s && '\n' !in s
  }

  predicate SafeOption(o: Option<string>) {
    o.None? || SafeText(o.value)
  }

  predicate SafeTeam(team: seq<string>) {
    |team| >= 1 && forall i :: 0 <= i < |team| ==> SafeText(team[i]) && ';' !in team[i]
  }

  /** A match whose export the import reads back field by field. */
  predicate Exportable(m: Matchup) {
    SafeText(m.id) && SafeTeam(m.myPokemon) && SafeTeam(m.enemyPokemon)
    && SafeOption(m.notes) && SafeOption(m.result) && SafeOption(m.turnOrder)
    && SafeOption(m.createdAt) && SafeOption(m.updatedAt)
  }

  /** What the import makes of an exported match: empty notes become `null`,
      an absent result or turn order comes back as the text `undefined`, and
      both timestamps are lost. */
  function Reimported(m: Matchup): Matchup {
    Matchup(m.id, m.myPokemon, m.enemyPokemon, NotesOf(m.notes),
      Some(Show(m.result)), Some(Show(m.turnOrder)), None, None)
  }

  lemma QuoteRemoved(cell: string)
    requires '"' !in cell
    ensures RemoveAll(Quote(cell), '"') == cell
  {
    RemoveAllAppend("\"" + cell, "\"", '"');
    RemoveAllAppend("\"", cell, '"');
    RemoveAllAbsent(cell, '"');
  }

  /** A row of safe cells splits back into its cells, quotes removed. */
  lemma RowReadsBack(cells: seq<string>)
    requires |cells| >= 1
    requires forall i :: 0 <= i < |cells| ==> SafeText(cells[i])
    ensures Unquoted(Split(CsvRow(cells), ',')) == cells
    ensures '\n' !in CsvRow(cells)
  {
    var quoted := QuoteCells(cells);
    forall i | 0 <= i < |quoted| ensures ',' !in quoted[i] && '\n' !in quoted[i] {
      assert quoted[i] == "\"" + cells[i] + "\"";
    }
    assert "," == [','];
    SplitJoin(quoted, ',');
    JoinHasNoSeparatorChar(quoted, ',', '\n');
    forall i | 0 <= i < |cells| ensures RemoveAll(quoted[i], '"') == cells[i] {
      QuoteRemoved(cells[i]);
    }
  }

  /** A safe team joined by `;` has no character the row format needs. */
  lemma TeamCellSafe(team: seq<string>)
    requires SafeTeam(team)
    ensures SafeText(Join(team, ";"))
    ensures Split(Join(team, ";"), ';') == team
  {
    assert ";" == [';'];
    JoinHasNoSeparatorChar(team, ';', ',');
    JoinHasNoSeparatorChar(team, ';', '"');
    JoinHasNoSeparatorChar(team, ';', '\n');
    SplitJoin(team, ';');
  }

  lemma ExportCellsSafe(m: Matchup)
    requires Exportable(m)
    ensures forall i :: 0 <= i < |ExportCells(m)| ==> SafeText(ExportCells(m)[i])
  {
    TeamCellSafe(m.myPokemon);
    TeamCellSafe(m.enemyPokemon);
    assert SafeText("undefined");
  }

  /** The row of an exportable match parses back into its reimported form. */
  lemma RowRoundTrip(m: Matchup)
    requires Exportable(m)
    ensures ParseLine(CsvRow(ExportCells(m))) == Some(Reimported(m))
    ensures '\n' !in CsvRow(ExportCells(m))
  {
    var cells := ExportCells(m);
    ExportCellsSafe(m);
    RowReadsBack(cells);
    TeamCellSafe(m.myPokemon);
    TeamCellSafe(m.enemyPokemon);
    var values := Unquoted(Split(CsvRow(cells), ','));
    assert values == cells;
    assert |Split(CsvRow(cells), ',')| == 8;
    assert NotesOf(At(values, 3)) == NotesOf(m.notes);
  }

  lemma HeaderSafe()
    ensures forall i :: 0 <= i < |Header| ==> SafeText(Header[i])
  {
  }

  /** The exported file splits back into its header row and its data rows. */
  lemma ExportLines(ms: seq<Matchup>)
    requires forall i :: 0 <= i < |ms| ==> Exportable(ms[i])
    ensures Split(ExportCsv(ms), '\n') == [CsvRow(Header)] + ExportRows(ms)
  {
    var rows := [CsvRow(Header)] + ExportRows(ms);
    HeaderSafe();
    RowReadsBack(Header);
    forall i | 0 <= i < |rows| ensures '\n' !in rows[i] {
      if i > 0 {
        RowRoundTrip(ms[i - 1]);
      }
    }
    assert "\n" == ['\n'];
    SplitJoin(rows, '\n');
  }

  /** Export followed by import gives back every exportable match, in order,
      with its notes normalised, its result and turn order as text, and
      without its timestamps: the reader looks for them in columns 8 and 9,
      which the writer never fills. */
  lemma ExportImportRoundTrip(ms: seq<Matchup>)
    requires forall i :: 0 <= i < |ms| ==> Exportable(ms[i])
    ensures ImportCsv(ExportCsv(ms)).Some?
    ensures |ImportCsv(ExportCsv(ms)).value| == |ms|
    ensures forall i :: 0 <= i < |ms| ==> ImportCsv(ExportCsv(ms)).value[i] == Reimported(ms[i])
  {
    ExportLines(ms);
    var lines := Split(ExportCsv(ms), '\n')[1..];
    assert lines == ExportRows(ms);
    forall i | 0 <= i < |lines| ensures ParseLine(lines[i]) == Some(Reimported(ms[i])) {
      RowRoundTrip(ms[i]);
    }
  }

  /** The import never recovers a timestamp from an exported file. */
  lemma TimestampsLost(ms: seq<Matchup>, i: int)
    requires forall k :: 0 <= k < |ms| ==> Exportable(ms[k])
    requires 0 <= i < |ms|
    ensures ImportCsv(ExportCsv(ms)).Some? && |ImportCsv(ExportCsv(ms)).value| == |ms|
    ensures ImportCsv(ExportCsv(ms)).value[i].createdAt.None?
    ensures ImportCsv(ExportCsv(ms)).value[i].updatedAt.None?
  {
    ExportImportRoundTrip(ms);
  }

  /** A quoted cell `"a,b"` is, in the joined row, the two pieces `"a` and
      `b"` joined by a comma. */
  lemma SplitCellInRow(q: seq<string>, k: int, a: string, b: string)
    requires 0 < k < |q| - 1
    requires q[k] == "\"" + a + "," + b + "\""
    ensures Join(q, ",") == Join(q[..k] + ["\"" + a, b + "\""] + q[k + 1..], ",")
  {
    var left := q[..k];
    var right := q[k + 1..];
    var pair := ["\"" + a, b + "\""];
    assert q == left + [q[k]] + right;
    JoinThree(left, [q[k]], right, ",");
    JoinThree(left, pair, right, ",");
    assert Join(pair, ",") == q[k];
  }

  /** The pieces a row splits into when cell `k` holds `a,b`. */
  function ShiftedPieces(cells: seq<string>, k: int, a: string, b: string): seq<string>
    requires 0 < k < |cells| - 1
  {
    QuoteCells(cells)[..k] + ["\"" + a, b + "\""] + QuoteCells(cells)[k + 1..]
  }

  lemma ShiftedPieceAt(cells: seq<string>, k: int, a: string, b: string, i: int)
    requires 0 < k < |cells| - 1 && 0 <= i < |cells| + 1
    ensures |ShiftedPieces(cells, k, a, b)| == |cells| + 1
    ensures i < k ==> ShiftedPieces(cells, k, a, b)[i] == Quote(cells[i])
    ensures i == k ==> ShiftedPieces(cells, k, a, b)[i] == "\"" + a
    ensures i == k + 1 ==> ShiftedPieces(cells, k, a, b)[i] == b + "\""
    ensures i > k + 1 ==> ShiftedPieces(cells, k, a, b)[i] == Quote(cells[i - 1])
  {
  }

  lemma ShiftedPiecesHaveNoComma(cells: seq<string>, k: int, a: string, b: string)
    requires 0 < k < |cells| - 1
    requires forall i :: 0 <= i < |cells| && i != k ==> SafeText(cells[i])
    requires SafeText(a) && SafeText(b)
    ensures forall i :: 0 <= i < |ShiftedPieces(cells, k, a, b)| ==> ',' !in ShiftedPieces(cells, k, a, b)[i]
  {
    var pieces := ShiftedPieces(cells, k, a, b);
    forall i | 0 <= i < |pieces| ensures ',' !in pieces[i] {
      ShiftedPieceAt(cells, k, a, b, i);
    }
  }

  lemma ShiftedPiecesUnquote(cells: seq<string>, k: int, a: string, b: string)
    requires 0 < k < |cells| - 1
    requires forall i :: 0 <= i < |cells| && i != k ==> SafeText(cells[i])
    requires SafeText(a) && SafeText(b)
    ensures Unquoted(ShiftedPieces(cells, k, a, b)) == cells[..k] + [a, b] + cells[k + 1..]
  {
    var pieces := ShiftedPieces(cells, k, a, b);
    var expected := cells[..k] + [a, b] + cells[k + 1..];
    forall i | 0 <= i < |pieces| ensures RemoveAll(pieces[i], '"') == expected[i] {
      ShiftedPieceAt(cells, k, a, b, i);
      if i < k {
        QuoteRemoved(cells[i]);
      } else if i == k {
        RemoveAllAppend("\"", a, '"');
        RemoveAllAbsent(a, '"');
      } else if i == k + 1 {
        RemoveAllAppend(b, "\"", '"');
        RemoveAllAbsent(b, '"');
      } else {
        QuoteRemoved(cells[i - 1]);
      }
    }
  }

  /** Where each cell lands once cell `k` has become the two cells `a`, `b`. */
  lemma ShiftedAt(cells: seq<string>, k: int, a: string, b: string, i: int)
    requires 0 < k < |cells| - 1 && 0 <= i < |cells| + 1
    ensures |cells[..k] + [a, b] + cells[k + 1..]| == |cells| + 1
    ensures i < k ==> (cells[..k] + [a, b] + cells[k + 1..])[i] == cells[i]
    ensures i == k ==> (cells[..k] + [a, b] + cells[k + 1..])[i] == a
    ensures i == k + 1 ==> (cells[..k] + [a, b] + cells[k + 1..])[i] == b
    ensures i > k + 1 ==> (cells[..k] + [a, b] + cells[k + 1..])[i] == cells[i - 1]
  {
  }

  /** Quoting protects nothing: a comma inside a middle cell splits it in
      two, and every later column shifts one place to the right. */
  lemma CommaInCellShiftsColumns(cells: seq<string>, k: int, a: string, b: string)
    requires 0 < k < |cells| - 1
    requires forall i :: 0 <= i < |cells| && i != k ==> SafeText(cells[i])
    requires SafeText(a) && SafeText(b)
    requires cells[k] == a + "," + b
    ensures Unquoted(Split(CsvRow(cells), ',')) == cells[..k] + [a, b] + cells[k + 1..]
  {
    var q := QuoteCells(cells);
    var pieces := ShiftedPieces(cells, k, a, b);
    assert q[k] == "\"" + a + "," + b + "\"";
    SplitCellInRow(q, k, a, b);
    ShiftedPiecesHaveNoComma(cells, k, a, b);
    assert "," == [','];
    SplitJoin(pieces, ',');
    ShiftedPiecesUnquote(cells, k, a, b);
  }

  /** The values the reader sees in the exported row of a match. */
  function RowValues(m: Matchup): seq<string> {
    Unquoted(Split(CsvRow(ExportCells(m)), ','))
  }

  /** Every cell of a row but the notes is safe when every field but the
      notes is. */
  lemma CellsBesideNotesSafe(m: Matchup)
    requires SafeText(m.id) && SafeTeam(m.myPokemon) && SafeTeam(m.enemyPokemon)
    requires SafeOption(m.result) && SafeOption(m.turnOrder)
    requires SafeOption(m.createdAt) && SafeOption(m.updatedAt)
    ensures forall i :: 0 <= i < |ExportCells(m)| && i != 3 ==> SafeText(ExportCells(m)[i])
  {
    var cells := ExportCells(m);
    TeamCellSafe(m.myPokemon);
    TeamCellSafe(m.enemyPokemon);
    ShowSafe(m.result);
    ShowSafe(m.turnOrder);
    ShowSafe(m.createdAt);
    ShowSafe(m.updatedAt);
    assert cells[0] == m.id && cells[1] == Join(m.myPokemon, ";") && cells[2] == Join(m.enemyPokemon, ";");
    assert cells[4] == Show(m.result) && cells[5] == Show(m.turnOrder);
    assert cells[6] == Show(m.createdAt) && cells[7] == Show(m.updatedAt);
  }

  lemma ShowSafe(o: Option<string>)
    requires SafeOption(o)
    ensures SafeText(Show(o))
  {
    assert SafeText("undefined");
  }

  /** The values the reader sees in the row of a match whose notes hold a
      comma. */
  lemma CommaInNotesValues(m: Matchup, a: string, b: string)
    requires SafeText(m.id) && SafeTeam(m.myPokemon) && SafeTeam(m.enemyPokemon)
    requires SafeOption(m.result) && SafeOption(m.turnOrder)
    requires SafeOption(m.createdAt) && SafeOption(m.updatedAt)
    requires SafeText(a) && SafeText(b)
    requires m.notes == Some(a + "," + b)
    ensures |RowValues(m)| == 9
    ensures RowValues(m)[0] == m.id
    ensures RowValues(m)[1] == Join(m.myPokemon, ";")
    ensures RowValues(m)[2] == Join(m.enemyPokemon, ";")
    ensures RowValues(m)[3] == a && RowValues(m)[4] == b
    ensures RowValues(m)[5] == Show(m.result)
    ensures RowValues(m)[8] == Show(m.updatedAt)
  {
    var cells := ExportCells(m);
    CellsBesideNotesSafe(m);
    CommaInCellShiftsColumns(cells, 3, a, b);
    ShiftedAt(cells, 3, a, b, 0);
    ShiftedAt(cells, 3, a, b, 1);
    ShiftedAt(cells, 3, a, b, 2);
    ShiftedAt(cells, 3, a, b, 3);
    ShiftedAt(cells, 3, a, b, 4);
    ShiftedAt(cells, 3, a, b, 5);
    ShiftedAt(cells, 3, a, b, 8);
  }

  /** A comma in the notes of an exported match: the import keeps only the
      text before it as notes, reads the text after it as the result, the
      result as the turn order and the update time as the creation time. */
  lemma CommaInNotesShiftsFields(m: Matchup, a: string, b: string)
    requires SafeText(m.id) && SafeTeam(m.myPokemon) && SafeTeam(m.enemyPokemon)
    requires SafeOption(m.result) && SafeOption(m.turnOrder)
    requires SafeOption(m.createdAt) && SafeOption(m.updatedAt)
    requires SafeText(a) && SafeText(b) && a != ""
    requires m.notes == Some(a + "," + b)
    ensures ParseLine(CsvRow(ExportCells(m))) == Some(Matchup(m.id, m.myPokemon, m.enemyPokemon,
      Some(a), Some(b), Some(Show(m.result)), Some(Show(m.updatedAt)), None))
  {
    CommaInNotesValues(m, a, b);
    assert |Split(CsvRow(ExportCells(m)), ',')| == |RowValues(m)|;
    TeamCellSafe(m.myPokemon);
    TeamCellSafe(m.enemyPokemon);
  }
}
