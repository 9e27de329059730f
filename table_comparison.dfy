/**
 * Cell-by-cell comparison of two workbooks (excel_tables_comparison.py):
 * padding the smaller sheet to the larger one's shape, the match mask, the
 * correct/incorrect counts per sheet and the range of the per-sheet scores.
 */
module TableComparison {
  import opened Wrappers
  import opened Sorting

  /** A spreadsheet cell as pandas reads it: empty (NaN), text or a number. */
  datatype Cell = Empty | Text(text: string) | Num(n: real)

  /**
   * A sheet read with `header=None`: `rows` x `cols` cells with the default
   * labels 0.. on both axes. The column count is kept apart from the cells so
   * that a sheet with no rows still has a width.
   */
  datatype Frame = Frame(rows: nat, cols: nat, cells: seq<seq<Cell>>) {
    predicate Valid() {
      |cells| == rows && forall i :: 0 <= i < rows ==> |cells[i]| == cols
    }

    /** `DataFrame.size`. */
    function Size(): nat {
      rows * cols
    }
  }

  /** Every label of `small` is also a label of `large`, so `.loc` can write `small` into it. */
  predicate Fits(small: Frame, large: Frame) {
    small.rows <= large.rows && small.cols <= large.cols
  }

  predicate SameShape(a: Frame, b: Frame) {
    a.rows == b.rows && a.cols == b.cols
  }

  // ---------------------------------------------------------------------
  // smaller_df_to_larger_df
  // ---------------------------------------------------------------------

  /** The value `smaller_df_to_larger_df` produces: `large`'s shape, `small` in the top-left block, empty elsewhere. */
  function Padded(large: Frame, small: Frame): (p: Frame)
    requires small.Valid() && Fits(small, large)
    ensures p.Valid() && SameShape(p, large)
  {
    Frame(large.rows, large.cols,
      seq(large.rows, i requires 0 <= i < large.rows =>
        seq(large.cols, j requires 0 <= j < large.cols =>
          if i < small.rows && j < small.cols then small.cells[i][j] else Empty)))
  }

  /** The contents of a 2-D grid, row by row. */
  function GridCells(g: array2<Cell>): (s: seq<seq<Cell>>)
    reads g
    ensures |s| == g.Length0 && forall i :: 0 <= i < g.Length0 ==> |s[i]| == g.Length1
  {
    seq(g.Length0, i requires 0 <= i < g.Length0 reads g =>
      seq(g.Length1, j requires 0 <= j < g.Length1 reads g => g[i, j]))
  }

  /**
   * `smaller_df_to_larger_df`: allocates an all-empty grid of the larger
   * frame's shape and writes the smaller frame's cells into its top-left block.
   * The smaller frame's labels must all exist in the larger one: a missing
   * row label makes the `.loc` write raise, and a missing column label is added
   * by `.loc`, which leaves frames the comparison at line 55 refuses.
   */
  method SmallerToLarger(larger: Frame, smaller: Frame) returns (grid: array2<Cell>)
    requires smaller.Valid() && Fits(smaller, larger)
    ensures fresh(grid)
    ensures grid.Length0 == larger.rows && grid.Length1 == larger.cols
    ensures forall i, j :: 0 <= i < larger.rows && 0 <= j < larger.cols ==>
      grid[i, j] == if i < smaller.rows && j < smaller.cols then smaller.cells[i][j] else Empty
    ensures GridCells(grid) == Padded(larger, smaller).cells
  {
    grid := new Cell[larger.rows, larger.cols]((i, j) => Empty);
    for i := 0 to smaller.rows
      invariant forall r, c :: 0 <= r < larger.rows && 0 <= c < larger.cols ==>
        grid[r, c] == if r < i && c < smaller.cols then smaller.cells[r][c] else Empty
    {
      for j := 0 to smaller.cols
        invariant forall r, c :: 0 <= r < larger.rows && 0 <= c < larger.cols ==>
          grid[r, c] == if (r < i || (r == i && c < j)) && c < smaller.cols then smaller.cells[r][c] else Empty
      {
        grid[i, j] := smaller.cells[i][j];
      }
    }
    ghost var cells, padded := GridCells(grid), Padded(larger, smaller).cells;
    forall i | 0 <= i < larger.rows ensures cells[i] == padded[i] {
      assert forall j :: 0 <= j < larger.cols ==> cells[i][j] == padded[i][j];
    }
  }

  // ---------------------------------------------------------------------
  // The match mask
  // ---------------------------------------------------------------------

  /** `fillna('blank')`: an empty cell becomes the text "blank". */
  function Filled(c: Cell): Cell {
    if c == Empty then Text("blank") else c
  }

  /**
   * Whether two cells at the same position count as equal. On equal shapes the
   * raw values are compared and an empty cell (NaN) equals nothing; on
   * different shapes both grids are filled with "blank" first.
   */
  function CellMatch(sameShape: bool, x: Cell, y: Cell): bool {
    if sameShape then x != Empty && x == y else Filled(x) == Filled(y)
  }

  /** The position-by-position comparison of two frames of one shape. */
  function MaskOf(a: Frame, b: Frame, sameShape: bool): (m: seq<seq<bool>>)
    requires a.Valid() && b.Valid() && SameShape(a, b)
    ensures |m| == a.rows && forall i :: 0 <= i < a.rows ==> |m[i]| == a.cols
  {
    seq(a.rows, i requires 0 <= i < a.rows =>
      seq(a.cols, j requires 0 <= j < a.cols => CellMatch(sameShape, a.cells[i][j], b.cells[i][j])))
  }

  /**
   * The two ways the run stops: the smaller frame has a label the larger one
   * lacks (the `.loc` write at line 137 raises for a row label; for a column
   * label `.loc` adds the column and the `==` at line 55 raises on the
   * differently labelled frames), and `np.min` of no scores.
   */
  datatype CompareError = LabelNotInLarger | NoSheetsCompared

  /** What one sheet comparison yields: the match mask and the table written out. */
  datatype SheetComparison = SheetComparison(mask: seq<seq<bool>>, written: Frame)

  /**
   * One iteration of the sheet loop of `compare_tables`: the match mask and
   * the comparison table as it is written out.
   */
  function CompareSheet(original: Frame, comparison: Frame): (r: Result<SheetComparison, CompareError>)
    requires original.Valid() && comparison.Valid()
    ensures SameShape(original, comparison) ==> r.Ok?
    ensures r.Ok? ==> r.value.written.Valid() && |r.value.mask| == r.value.written.rows
    ensures r.Ok? ==> forall i :: 0 <= i < |r.value.mask| ==> |r.value.mask[i]| == r.value.written.cols
    ensures r.Ok? ==> r.value.written.Size() == if original.Size() > comparison.Size() then original.Size() else comparison.Size()
  {
    if SameShape(original, comparison) then
      Ok(SheetComparison(MaskOf(comparison, original, true), comparison))
    else
      // the larger frame is chosen by cell count; on a tie the comparison frame is taken
      var originalLarger := original.Size() > comparison.Size();
      var larger := if originalLarger then original else comparison;
      var smaller := if originalLarger then comparison else original;
      if !Fits(smaller, larger) then Err(LabelNotInLarger)
      else
        var mask := MaskOf(larger, Padded(larger, smaller), false);
        Ok(SheetComparison(mask, if originalLarger then Padded(original, comparison) else comparison))
  }

  /** Equal shapes: a position matches exactly when both cells hold the same value, so two empty cells never match. */
  lemma SameShapeMask(original: Frame, comparison: Frame, i: nat, j: nat)
    requires original.Valid() && comparison.Valid() && SameShape(original, comparison)
    requires i < original.rows && j < original.cols
    ensures CompareSheet(original, comparison).Ok?
    ensures CompareSheet(original, comparison).value.mask[i][j]
        <==> comparison.cells[i][j] != Empty && comparison.cells[i][j] == original.cells[i][j]
  {
  }

  /**
   * Different shapes: the mask has the larger frame's shape. Inside the
   * smaller frame's block cells are compared after filling, so two empty cells
   * match; outside it a cell of the larger frame matches the padding exactly
   * when it is empty or holds the text "blank".
   */
  lemma DifferentShapeMask(original: Frame, comparison: Frame, i: nat, j: nat)
    requires original.Valid() && comparison.Valid() && !SameShape(original, comparison)
    requires CompareSheet(original, comparison).Ok?
    ensures var larger := if original.Size() > comparison.Size() then original else comparison;
      var smaller := if original.Size() > comparison.Size() then comparison else original;
      var mask := CompareSheet(original, comparison).value.mask;
      && Fits(smaller, larger)
      && |mask| == larger.rows && (forall r :: 0 <= r < |mask| ==> |mask[r]| == larger.cols)
      && (i < smaller.rows && j < smaller.cols ==>
            (mask[i][j] <==> Filled(larger.cells[i][j]) == Filled(smaller.cells[i][j])))
      && (i < larger.rows && j < larger.cols && !(i < smaller.rows && j < smaller.cols) ==>
            (mask[i][j] <==> larger.cells[i][j] in {Empty, Text("blank")}))
  {
  }

  /** A frame of equal size on both sides is taken from the comparison workbook as the larger one. */
  lemma TieTakesComparison(original: Frame, comparison: Frame)
    requires original.Valid() && comparison.Valid() && !SameShape(original, comparison)
    requires original.Size() == comparison.Size()
    ensures CompareSheet(original, comparison).Ok? <==> Fits(original, comparison)
    ensures CompareSheet(original, comparison).Ok? ==> CompareSheet(original, comparison).value.written == comparison
  {
  }

  /** Comparing fails exactly when the shapes differ and the smaller frame has a row or column the larger lacks. */
  lemma CompareSheetFails(original: Frame, comparison: Frame)
    requires original.Valid() && comparison.Valid()
    ensures CompareSheet(original, comparison).Err? <==>
      !SameShape(original, comparison) &&
      (if original.Size() > comparison.Size() then !Fits(comparison, original) else !Fits(original, comparison))
  {
  }

  /**
   * The table written out is the comparison frame, padded to the original's
   * shape only when the original has more cells; the mask has its shape.
   */
  lemma WrittenTable(original: Frame, comparison: Frame)
    requires original.Valid() && comparison.Valid()
    requires CompareSheet(original, comparison).Ok?
    ensures var r := CompareSheet(original, comparison).value;
      && r.written.Valid()
      && r.written == (if original.Size() > comparison.Size() then Padded(original, comparison) else comparison)
      && |r.mask| == r.written.rows
      && forall i :: 0 <= i < |r.mask| ==> |r.mask[i]| == r.written.cols
  {
  }

  // ---------------------------------------------------------------------
  // Cell statistics
  // ---------------------------------------------------------------------

  function CountRow(row: seq<bool>): (n: nat)
    ensures n <= |row|
  {
    if row == [] then 0 else CountRow(row[..|row| - 1]) + (if row[|row| - 1] then 1 else 0)
  }

  /** `differences_df.sum().sum()`: the number of true entries of the mask. */
  function CountTrue(mask: seq<seq<bool>>): nat {
    if mask == [] then 0 else CountTrue(mask[..|mask| - 1]) + CountRow(mask[|mask| - 1])
  }

  /** A rows x cols mask has at most rows x cols true entries. */
  lemma {:induction false} CountTrueBound(mask: seq<seq<bool>>, cols: nat)
    requires forall i :: 0 <= i < |mask| ==> |mask[i]| == cols
    ensures CountTrue(mask) <= |mask| * cols
  {
    if mask != [] {
      var n := |mask|;
      CountTrueBound(mask[..n - 1], cols);
      assert (n - 1) * cols + cols == n * cols;
    }
  }

  /** The correct and incorrect cell counts of one sheet (lines 77-86). */
  datatype SheetReport = SheetReport(name: string, numCorrect: nat, numCells: nat) {
    function NumIncorrect(): int {
      numCells - numCorrect
    }
  }

  /** The statistics of one compared sheet: correct cells out of the written table's cells. */
  function ReportOf(name: string, r: SheetComparison): (rep: SheetReport)
    requires r.written.Valid() && |r.mask| == r.written.rows
    requires forall i :: 0 <= i < |r.mask| ==> |r.mask[i]| == r.written.cols
    ensures rep.name == name && rep.numCells == r.written.Size()
    ensures rep.numCorrect <= rep.numCells
    ensures rep.numCorrect + rep.NumIncorrect() == rep.numCells && rep.NumIncorrect() >= 0
  {
    CountTrueBound(r.mask, r.written.cols);
    SheetReport(name, CountTrue(r.mask), r.written.Size())
  }

  /** Comparing a sheet with itself: exactly the non-empty cells count as correct. */
  lemma {:induction false} SelfComparison(f: Frame)
    requires f.Valid()
    ensures CompareSheet(f, f).Ok?
    ensures CountTrue(CompareSheet(f, f).value.mask) == NonEmptyCount(f.cells)
  {
    var mask := CompareSheet(f, f).value.mask;
    forall i | 0 <= i < f.rows ensures CountRow(mask[i]) == NonEmptyInRow(f.cells[i]) {
      CountRowNonEmpty(mask[i], f.cells[i]);
    }
    CountTrueNonEmpty(mask, f.cells);
  }

  function NonEmptyInRow(row: seq<Cell>): nat {
    if row == [] then 0 else NonEmptyInRow(row[..|row| - 1]) + (if row[|row| - 1] != Empty then 1 else 0)
  }

  function NonEmptyCount(cells: seq<seq<Cell>>): nat {
    if cells == [] then 0 else NonEmptyCount(cells[..|cells| - 1]) + NonEmptyInRow(cells[|cells| - 1])
  }

  lemma {:induction false} CountRowNonEmpty(m: seq<bool>, row: seq<Cell>)
    requires |m| == |row| && forall j :: 0 <= j < |m| ==> (m[j] <==> row[j] != Empty)
    ensures CountRow(m) == NonEmptyInRow(row)
  {
    if m != [] {
      CountRowNonEmpty(m[..|m| - 1], row[..|row| - 1]);
    }
  }

  lemma {:induction false} CountTrueNonEmpty(mask: seq<seq<bool>>, cells: seq<seq<Cell>>)
    requires |mask| == |cells| && forall i :: 0 <= i < |mask| ==> CountRow(mask[i]) == NonEmptyInRow(cells[i])
    ensures CountTrue(mask) == NonEmptyCount(cells)
  {
    if mask != [] {
      CountTrueNonEmpty(mask[..|mask| - 1], cells[..|cells| - 1]);
    }
  }

  // ---------------------------------------------------------------------
  // Scores
  // ---------------------------------------------------------------------

  /**
   * `differences_df.mean().mean() * 100`: the share of matching cells in
   * percent. The mean of equally long column means is the overall mean, so
   * this is correct cells over all cells; an empty table gives NaN (None).
   */
  function PercentCorrect(rep: SheetReport): (p: Option<real>)
    ensures p.None? <==> rep.numCells == 0
    ensures p.Some? && rep.numCorrect <= rep.numCells ==> 0.0 <= p.value <= 100.0
    ensures p.Some? ==> (p.value == 100.0 <==> rep.numCorrect == rep.numCells)
  {
    if rep.numCells == 0 then None
    else Some(100.0 * (rep.numCorrect as real) / (rep.numCells as real))
  }

  /** `100 - num_true / num_cells * 100`, NaN (None) for an empty table. */
  function PercentDifferent(rep: SheetReport): (p: Option<real>)
    ensures p.None? <==> rep.numCells == 0
    ensures p.Some? ==> p.value == 100.0 * (rep.NumIncorrect() as real) / (rep.numCells as real)
  {
    if rep.numCells == 0 then None
    else Some(100.0 - (rep.numCorrect as real) / (rep.numCells as real) * 100.0)
  }

  /** The two percentages of a sheet add up to 100. */
  lemma PercentagesComplement(rep: SheetReport)
    requires rep.numCells > 0
    ensures PercentCorrect(rep).value + PercentDifferent(rep).value == 100.0
  {
  }

  // ---------------------------------------------------------------------
  // The sheet loop of compare_tables
  // ---------------------------------------------------------------------

  datatype Sheet = Sheet(name: string, frame: Frame)

  predicate ValidBook(book: seq<Sheet>) {
    forall k :: 0 <= k < |book| ==> book[k].frame.Valid()
  }

  /** `sheet_name in original_wb.sheetnames`, and the sheet `read_excel` then loads. */
  function Lookup(book: seq<Sheet>, name: string): (r: Option<Frame>)
    ensures r.Some? <==> exists k :: 0 <= k < |book| && book[k].name == name
    ensures r.Some? ==> exists k :: 0 <= k < |book| && book[k].name == name && book[k].frame == r.value
  {
    if book == [] then None
    else if book[0].name == name then Some(book[0].frame)
    else
      var r := Lookup(book[1..], name);
      assert r.Some? ==> exists k :: 0 <= k < |book[1..]| && book[1..][k].name == name && book[1..][k].frame == r.value;
      r
  }

  /**
   * The per-sheet statistics, in the comparison workbook's sheet order, of
   * every comparison sheet whose name the original workbook also has; the
   * first sheet whose comparison raises ends the run.
   */
  function CompareAll(original: seq<Sheet>, comparison: seq<Sheet>): (r: Result<seq<SheetReport>, CompareError>)
    requires ValidBook(original) && ValidBook(comparison)
    ensures r.Ok? ==> |r.value| <= |comparison|
  {
    if comparison == [] then Ok([])
    else
      var last := comparison[|comparison| - 1];
      match CompareAll(original, comparison[..|comparison| - 1])
      case Err(e) => Err(e)
      case Ok(reports) =>
        match Lookup(original, last.name)
        case None => Ok(reports)
        case Some(f) =>
          match CompareSheet(f, last.frame)
          case Err(e) => Err(e)
          case Ok(c) =>
            WrittenTable(f, last.frame);
            Ok(reports + [ReportOf(last.name, c)])
  }

  /** The loop over `comparison_wb.sheetnames` (lines 32-106). */
  method CompareWorkbooks(original: seq<Sheet>, comparison: seq<Sheet>) returns (r: Result<seq<SheetReport>, CompareError>)
    requires ValidBook(original) && ValidBook(comparison)
    ensures r == CompareAll(original, comparison)
  {
    var reports: seq<SheetReport> := [];
    for i := 0 to |comparison|
      invariant CompareAll(original, comparison[..i]) == Ok(reports)
    {
      assert comparison[..i + 1][..i] == comparison[..i];
      var sheet := comparison[i];
      var found := Lookup(original, sheet.name);
      if found.Some? {
        var result := CompareSheet(found.value, sheet.frame);
        if result.Err? {
          FailurePersists(original, comparison, i + 1);
          return Err(result.error);
        }
        WrittenTable(found.value, sheet.frame);
        reports := reports + [ReportOf(sheet.name, result.value)];
      }
    }
    assert comparison[..|comparison|] == comparison;
    return Ok(reports);
  }

  /** Once a prefix of the sheets fails, the whole run fails with the same error. */
  lemma {:induction false} FailurePersists(original: seq<Sheet>, comparison: seq<Sheet>, i: nat)
    requires ValidBook(original) && ValidBook(comparison) && i <= |comparison|
    requires CompareAll(original, comparison[..i]).Err?
    ensures CompareAll(original, comparison) == CompareAll(original, comparison[..i])
    decreases |comparison| - i
  {
    if i == |comparison| {
      assert comparison[..i] == comparison;
    } else {
      var n := |comparison|;
      assert comparison[..n - 1][..i] == comparison[..i];
      FailurePersists(original, comparison[..n - 1], i);
    }
  }

  /** The names, in order, of the comparison sheets the original workbook also has. */
  function SharedNames(original: seq<Sheet>, comparison: seq<Sheet>): seq<string> {
    if comparison == [] then []
    else
      var last := comparison[|comparison| - 1];
      SharedNames(original, comparison[..|comparison| - 1])
        + (if Lookup(original, last.name).Some? then [last.name] else [])
  }

  function Names(reports: seq<SheetReport>): (names: seq<string>)
    ensures |names| == |reports|
  {
    if reports == [] then [] else Names(reports[..|reports| - 1]) + [reports[|reports| - 1].name]
  }

  /**
   * A run that completes reports exactly the shared sheets, in the comparison
   * workbook's order; sheets missing from the original are skipped.
   */
  lemma {:induction false} CompareAllNames(original: seq<Sheet>, comparison: seq<Sheet>)
    requires ValidBook(original) && ValidBook(comparison)
    requires CompareAll(original, comparison).Ok?
    ensures Names(CompareAll(original, comparison).value) == SharedNames(original, comparison)
  {
    if comparison != [] {
      var prefix := comparison[..|comparison| - 1];
      CompareAllNames(original, prefix);
      var reports := CompareAll(original, prefix).value;
      var last := comparison[|comparison| - 1];
      if Lookup(original, last.name).Some? {
        var f := Lookup(original, last.name).value;
        WrittenTable(f, last.frame);
        var rs := reports + [ReportOf(last.name, CompareSheet(f, last.frame).value)];
        assert rs[..|rs| - 1] == reports;
      }
    }
  }

  /** A shared sheet whose comparison raises. */
  predicate FailsAt(original: seq<Sheet>, comparison: seq<Sheet>, k: int)
    requires ValidBook(original) && ValidBook(comparison)
  {
    0 <= k < |comparison|
    && Lookup(original, comparison[k].name).Some?
    && CompareSheet(Lookup(original, comparison[k].name).value, comparison[k].frame).Err?
  }

  /** The run fails exactly when some shared sheet fails to compare. */
  lemma {:induction false} CompareAllFails(original: seq<Sheet>, comparison: seq<Sheet>)
    requires ValidBook(original) && ValidBook(comparison)
    ensures CompareAll(original, comparison).Err? <==> exists k :: FailsAt(original, comparison, k)
  {
    if comparison != [] {
      var n := |comparison|;
      var prefix := comparison[..n - 1];
      CompareAllFails(original, prefix);
      // a failure in the prefix is a failure of the whole book, and conversely
      // a failure of the whole book is in the prefix or at the last sheet
      assert forall k :: FailsAt(original, prefix, k) ==> FailsAt(original, comparison, k);
      assert forall k :: FailsAt(original, comparison, k) ==> k == n - 1 || FailsAt(original, prefix, k);
      if CompareAll(original, prefix).Err? {
        assert CompareAll(original, comparison).Err?;
      } else if FailsAt(original, comparison, n - 1) {
        assert CompareAll(original, comparison).Err?;
      } else {
        assert CompareAll(original, comparison).Ok?;
      }
    }
  }

  /** No sheet of a completed run has more correct cells than cells. */
  lemma {:induction false} CompareAllBounded(original: seq<Sheet>, comparison: seq<Sheet>)
    requires ValidBook(original) && ValidBook(comparison)
    requires CompareAll(original, comparison).Ok?
    ensures forall rep <- CompareAll(original, comparison).value :: rep.numCorrect <= rep.numCells
  {
    if comparison != [] {
      CompareAllBounded(original, comparison[..|comparison| - 1]);
    }
  }

  // ---------------------------------------------------------------------
  // Summary statistics over all sheets (lines 108-113)
  // ---------------------------------------------------------------------

  /** The mean, median, minimum, maximum and range of the per-sheet scores. */
  datatype Stats = Stats(mean: real, median: real, min: real, max: real, range: real)

  /** `np.min`: a score of the list that no score is below. */
  function MinOf(vs: seq<real>): (m: real)
    requires vs != []
    ensures m in vs && forall k :: 0 <= k < |vs| ==> m <= vs[k]
  {
    if |vs| == 1 then vs[0]
    else
      var m := MinOf(vs[..|vs| - 1]);
      if vs[|vs| - 1] < m then vs[|vs| - 1] else m
  }

  /** `np.max`: a score of the list that no score is above. */
  function MaxOf(vs: seq<real>): (m: real)
    requires vs != []
    ensures m in vs && forall k :: 0 <= k < |vs| ==> vs[k] <= m
  {
    if |vs| == 1 then vs[0]
    else
      var m := MaxOf(vs[..|vs| - 1]);
      if vs[|vs| - 1] > m then vs[|vs| - 1] else m
  }

  function Sum(vs: seq<real>): real {
    if vs == [] then 0.0 else Sum(vs[..|vs| - 1]) + vs[|vs| - 1]
  }

  /** Every value lies in [lo, hi], so the sum lies in [n lo, n hi]. */
  lemma {:induction false} SumBounds(vs: seq<real>, lo: real, hi: real)
    requires forall k :: 0 <= k < |vs| ==> lo <= vs[k] <= hi
    ensures (|vs| as real) * lo <= Sum(vs) <= (|vs| as real) * hi
  {
    if vs != [] {
      SumBounds(vs[..|vs| - 1], lo, hi);
    }
  }

  function Mean(vs: seq<real>): (m: real)
    requires vs != []
    ensures MinOf(vs) <= m <= MaxOf(vs)
  {
    var n, lo, hi := |vs| as real, MinOf(vs), MaxOf(vs);
    SumBounds(vs, lo, hi);
    DivideBounds(Sum(vs), n, lo, hi);
    Sum(vs) / n
  }

  lemma DivideBounds(s: real, n: real, lo: real, hi: real)
    requires n > 0.0 && n * lo <= s <= n * hi
    ensures lo <= s / n <= hi
  {
    assert s / n * n == s;
  }

  /** The middle entry of an ascending list, or the mean of the two middle entries when the length is even. */
  function Middle(s: seq<real>): (m: real)
    requires s != [] && Sorted(s)
    ensures s[0] <= m <= s[|s| - 1]
  {
    var n := |s|;
    assert s[0] <= s[(n - 1) / 2] <= s[n / 2] <= s[n - 1];
    if n % 2 == 1 then s[n / 2] else (s[n / 2 - 1] + s[n / 2]) / 2.0
  }

  /** `np.median`: the middle of the sorted scores, or the mean of the two middle ones. */
  function Median(vs: seq<real>): (m: real)
    requires vs != []
    ensures MinOf(vs) <= m <= MaxOf(vs)
  {
    var s := Sort(vs);
    assert s[0] in multiset(vs) && s[|s| - 1] in multiset(vs);
    Middle(s)
  }

  /** The median does not depend on the order of the sheets. */
  lemma MedianPermutationInvariant(a: seq<real>, b: seq<real>)
    requires a != [] && multiset(a) == multiset(b)
    ensures b != [] && Median(a) == Median(b)
  {
    assert a[0] in multiset(b);
    SortPermutationInvariant(a, b);
  }

  /** The scores of the sheets that were compared, NaN (None) for an empty table. */
  function Percents(reports: seq<SheetReport>): (ps: seq<Option<real>>)
    ensures |ps| == |reports| && forall k :: 0 <= k < |ps| ==> ps[k] == PercentCorrect(reports[k])
  {
    if reports == [] then [] else Percents(reports[..|reports| - 1]) + [PercentCorrect(reports[|reports| - 1])]
  }

  function Values(ps: seq<Option<real>>): (vs: seq<real>)
    requires forall p <- ps :: p.Some?
    ensures |vs| == |ps| && forall k :: 0 <= k < |vs| ==> vs[k] == ps[k].value
  {
    if ps == [] then [] else Values(ps[..|ps| - 1]) + [ps[|ps| - 1].value]
  }

  /**
   * The statistics written to the summary sheet. `np.min` of an empty list
   * raises; any NaN score makes every statistic NaN (None).
   */
  function Summarize(ps: seq<Option<real>>): (r: Result<Option<Stats>, CompareError>)
    ensures r.Err? <==> ps == []
    ensures r.Ok? ==> (r.value.None? <==> exists p <- ps :: p.None?)
    ensures r.Ok? && r.value.Some? ==>
      var st := r.value.value;
      && st.min <= st.median <= st.max
      && st.min <= st.mean <= st.max
      && st.range == st.max - st.min >= 0.0
      && (forall p <- ps :: st.min <= p.value <= st.max)
      && (exists p <- ps :: p.value == st.min)
      && (exists p <- ps :: p.value == st.max)
  {
    if ps == [] then Err(NoSheetsCompared)
    else if exists p <- ps :: p.None? then Ok(None)
    else
      var vs := Values(ps);
      assert forall p <- ps :: p.value in vs by {
        forall p <- ps ensures p.value in vs {
          var k :| 0 <= k < |ps| && ps[k] == p;
          assert vs[k] == p.value;
        }
      }
      var lo := MinOf(vs);
      var hi := MaxOf(vs);
      var k1 :| 0 <= k1 < |vs| && vs[k1] == lo;
      var k2 :| 0 <= k2 < |vs| && vs[k2] == hi;
      assert ps[k1] in ps && ps[k2] in ps;
      Ok(Some(Stats(Mean(vs), Median(vs), lo, hi, hi - lo)))
  }

  /**
   * `compare_tables` without its file and sheet output: the per-sheet
   * statistics and the summary over all of them.
   */
  method CompareTables(original: seq<Sheet>, comparison: seq<Sheet>)
    returns (r: Result<(seq<SheetReport>, Option<Stats>), CompareError>)
    requires ValidBook(original) && ValidBook(comparison)
    ensures r.Ok? <==> CompareAll(original, comparison).Ok? && SharedNames(original, comparison) != []
    ensures r.Ok? ==> r.value.0 == CompareAll(original, comparison).value
    ensures r.Ok? ==> Summarize(Percents(r.value.0)) == Ok(r.value.1)
  {
    var reports := CompareWorkbooks(original, comparison);
    if reports.Err? {
      return Err(reports.error);
    }
    CompareAllNames(original, comparison);
    var summary := Summarize(Percents(reports.value));
    if summary.Err? {
      return Err(summary.error);
    }
    return Ok((reports.value, summary.value));
  }
}
