/**
 * `read_db_file`: reads the lines of an instance file into a board of cell
 * colours.  The first line is the header `params(N,M,K).` giving N columns and
 * M rows; every later line that starts with `red` or `blue` is split at `.`
 * into tile literals, and each literal's colour is written at storage row
 * `M-y-1`, column `x` (logical row 0 is the bottom row, storage row 0 the
 * top).  All other lines, the inventory line `h(...)` among them, are skipped.
 *
 * The functions below state what the reader computes; `ReadDbFile` is the
 * reader itself, filling a two-dimensional array in place, and is proved to
 * agree with them.
 */
module Board {
  import opened PyStr
  import opened Tiles

  /** The board size from the header line: `cols` is N, `rows` is M. */
  datatype Header = Header(cols: int, rows: int)

  /**
   * The header line is split at `,`: N is the text between the first `(` and
   * the first `,`, and M the text between the first and second `,`.  What
   * follows (K and the closing `).`) is never read.  A line without `(`
   * raises IndexError, and a line without `,` never parses.
   */
  function ParseHeader(line: string): (r: Result<Header>)
    ensures '(' !in line ==> r == Err(IndexError)
    ensures r.Ok? ==> ',' in line
  {
    var fields := Split(line, ',');
    SplitFirst(line, ',');
    SplitFirst(fields[0], '(');
    var opening := Split(fields[0], '(');
    if |opening| < 2 then Err(IndexError)
    else
      var n :- PyInt(opening[1]);
      if |fields| < 2 then Err(IndexError)
      else
        var m :- PyInt(Split(fields[1], ',')[0]);
        Ok(Header(n, m))
  }

  /** A board as rows of cell colours, storage row 0 first. */
  type Grid = seq<seq<int>>

  predicate Shaped(g: Grid, rows: nat, cols: nat) {
    |g| == rows && forall i :: 0 <= i < |g| ==> |g[i]| == cols
  }

  /** `np.zeros((rows, cols), dtype=int)`: every cell white. */
  function Zeros(rows: nat, cols: nat): (g: Grid)
    ensures Shaped(g, rows, cols)
    ensures forall i, j :: 0 <= i < rows && 0 <= j < cols ==> g[i][j] == White
  {
    seq(rows, _ => seq(cols, _ => White))
  }

  /**
   * The storage cell `board[rows-y-1][x]` denotes, with numpy's indexing: a
   * negative index counts from the end, anything else out of range raises
   * IndexError.
   */
  function Target(t: Tile, rows: nat, cols: nat): (r: Result<(nat, nat)>)
    ensures r.Ok? ==> r.value.0 < rows && r.value.1 < cols
  {
    var row :- PyIndex(rows - t.y - 1, rows);
    var col :- PyIndex(t.x, cols);
    Ok((row, col))
  }

  /** `board[rows-y-1][x] = colour`. */
  function ApplyTile(g: Grid, rows: nat, cols: nat, t: Tile): (r: Result<Grid>)
    requires Shaped(g, rows, cols)
    ensures r.Ok? ==> Shaped(r.value, rows, cols)
  {
    var (row, col) :- Target(t, rows, cols);
    Ok(g[row := g[row][col := t.colour]])
  }

  /** One piece of a tile line: a piece that is exactly a newline is skipped, any other is read as a tile and written. */
  function PaintSegment(g: Grid, rows: nat, cols: nat, s: string): (r: Result<Grid>)
    requires Shaped(g, rows, cols)
    ensures r.Ok? ==> Shaped(r.value, rows, cols)
  {
    if s == "\n" then Ok(g)
    else
      var t :- ReadTile(s);
      ApplyTile(g, rows, cols, t)
  }

  /** The inner loop over the pieces of one line, in order; the first exception ends the whole read. */
  function PaintSegments(g: Grid, rows: nat, cols: nat, segs: seq<string>): (r: Result<Grid>)
    requires Shaped(g, rows, cols)
    ensures r.Ok? ==> Shaped(r.value, rows, cols)
    decreases |segs|
  {
    if segs == [] then Ok(g)
    else
      var before :- PaintSegments(g, rows, cols, segs[..|segs| - 1]);
      PaintSegment(before, rows, cols, segs[|segs| - 1])
  }

  /** `line.startswith(("red", "blue"))`: a tile line starts with `r` or `b`. */
  predicate IsTileLine(line: string)
    ensures IsTileLine(line) ==> |line| >= 3 && (line[0] == 'r' || line[0] == 'b')
  {
    StartsWith(line, "red") || StartsWith(line, "blue")
  }

  /** One line after the header: a tile line is split at `.` and painted; any other line changes nothing. */
  function PaintLine(g: Grid, rows: nat, cols: nat, line: string): (r: Result<Grid>)
    requires Shaped(g, rows, cols)
    ensures r.Ok? ==> Shaped(r.value, rows, cols)
  {
    if IsTileLine(line) then PaintSegments(g, rows, cols, Split(line, '.')) else Ok(g)
  }

  /** The outer loop over the lines after the header, in order. */
  function PaintLines(g: Grid, rows: nat, cols: nat, lines: seq<string>): (r: Result<Grid>)
    requires Shaped(g, rows, cols)
    ensures r.Ok? ==> Shaped(r.value, rows, cols)
    decreases |lines|
  {
    if lines == [] then Ok(g)
    else
      var before :- PaintLines(g, rows, cols, lines[..|lines| - 1]);
      PaintLine(before, rows, cols, lines[|lines| - 1])
  }

  /**
   * The board `read_db_file` returns for a file with these lines, or the
   * exception it raises: an empty file has no line 0 (IndexError), and
   * `np.zeros` refuses a negative size (ValueError).  A board is returned
   * only for a file whose header parses to non-negative sizes.
   */
  function DbBoard(lines: seq<string>): (r: Result<Grid>)
    ensures r.Ok? ==> |lines| >= 1 && ParseHeader(lines[0]).Ok?
    ensures r.Ok? ==> ParseHeader(lines[0]).value.cols >= 0 && ParseHeader(lines[0]).value.rows >= 0
  {
    if |lines| == 0 then Err(IndexError)
    else
      var header :- ParseHeader(lines[0]);
      if header.cols < 0 || header.rows < 0 then Err(ValueError)
      else PaintLines(Zeros(header.rows, header.cols), header.rows, header.cols, lines[1..])
  }

  /** The contents of a two-dimensional array, row by row. */
  ghost function Cells(a: array2<int>): (g: Grid)
    reads a
    ensures Shaped(g, a.Length0, a.Length1)
    ensures forall i, j :: 0 <= i < a.Length0 && 0 <= j < a.Length1 ==> g[i][j] == a[i, j]
  {
    seq(a.Length0, i requires 0 <= i < a.Length0 reads a =>
      seq(a.Length1, j requires 0 <= j < a.Length1 reads a => a[i, j]))
  }

  lemma SliceExtend<T>(s: seq<T>, i: nat, j: nat)
    requires i <= j < |s|
    ensures s[i..j + 1] == s[i..j] + [s[j]]
    ensures s[i..j + 1][..j - i] == s[i..j]
    ensures s[i..j + 1][j - i] == s[j]
  {
  }

  lemma SliceSplit<T>(s: seq<T>, i: nat, j: nat)
    requires i <= j <= |s|
    ensures s[i..j] + s[j..] == s[i..]
  {
  }

  /** One more piece of the inner loop. */
  lemma SegmentStep(g: Grid, rows: nat, cols: nat, segs: seq<string>, k: nat)
    requires Shaped(g, rows, cols)
    requires k < |segs| && PaintSegments(g, rows, cols, segs[..k]).Ok?
    ensures PaintSegments(g, rows, cols, segs[..k + 1])
              == PaintSegment(PaintSegments(g, rows, cols, segs[..k]).value, rows, cols, segs[k])
  {
    SliceExtend(segs, 0, k);
  }

  /** A piece other than the newline that reads as a tile is painted by writing that tile. */
  lemma PaintReadSegment(g: Grid, rows: nat, cols: nat, s: string, t: Tile)
    requires Shaped(g, rows, cols)
    requires s != "\n" && ReadTile(s) == Ok(t)
    ensures PaintSegment(g, rows, cols, s) == ApplyTile(g, rows, cols, t)
  {
  }

  /** An exception raised by piece `k` is the exception of the whole line. */
  lemma SegmentFails(g0: Grid, rows: nat, cols: nat, segs: seq<string>, k: nat, g: Grid, e: Error)
    requires Shaped(g0, rows, cols)
    requires k < |segs| && PaintSegments(g0, rows, cols, segs[..k]) == Ok(g)
    requires PaintSegment(g, rows, cols, segs[k]) == Err(e)
    ensures PaintSegments(g0, rows, cols, segs) == Err(e)
  {
    SegmentStep(g0, rows, cols, segs, k);
    PaintSegmentsAppend(g0, rows, cols, segs[..k + 1], segs[k + 1..]);
    SliceSplit(segs, 0, k + 1);
  }

  /** An exception raised on line `i` is the exception of the whole loop. */
  lemma LineFails(g0: Grid, rows: nat, cols: nat, body: seq<string>, i: nat, g: Grid, e: Error)
    requires Shaped(g0, rows, cols)
    requires i < |body| && PaintLines(g0, rows, cols, body[..i]) == Ok(g)
    requires PaintLine(g, rows, cols, body[i]) == Err(e)
    ensures PaintLines(g0, rows, cols, body) == Err(e)
  {
    SliceExtend(body, 0, i);
    PaintLinesAppend(g0, rows, cols, body[..i + 1], body[i + 1..]);
    SliceSplit(body, 0, i + 1);
  }

  /** An array holds a grid when it has the grid's shape and the grid's cells. */
  lemma CellsOf(a: array2<int>, g: Grid)
    requires Shaped(g, a.Length0, a.Length1)
    requires forall i, j :: 0 <= i < a.Length0 && 0 <= j < a.Length1 ==> a[i, j] == g[i][j]
    ensures Cells(a) == g
  {
    var c := Cells(a);
    forall i | 0 <= i < a.Length0 ensures c[i] == g[i] {
      assert |c[i]| == |g[i]|;
    }
  }

  /** The inner loop over one more piece: the piece is painted unless an earlier one raised. */
  lemma PaintSegmentsSnoc(g: Grid, rows: nat, cols: nat, segs: seq<string>, last: string)
    requires Shaped(g, rows, cols)
    ensures PaintSegments(g, rows, cols, segs).Err? ==>
              PaintSegments(g, rows, cols, segs + [last]) == PaintSegments(g, rows, cols, segs)
    ensures PaintSegments(g, rows, cols, segs).Ok? ==>
              PaintSegments(g, rows, cols, segs + [last]) == PaintSegment(PaintSegments(g, rows, cols, segs).value, rows, cols, last)
  {
    assert (segs + [last])[..|segs|] == segs && (segs + [last])[|segs|] == last;
  }

  /** The outer loop over one more line: the line is painted unless an earlier one raised. */
  lemma PaintLinesSnoc(g: Grid, rows: nat, cols: nat, lines: seq<string>, last: string)
    requires Shaped(g, rows, cols)
    ensures PaintLines(g, rows, cols, lines).Err? ==>
              PaintLines(g, rows, cols, lines + [last]) == PaintLines(g, rows, cols, lines)
    ensures PaintLines(g, rows, cols, lines).Ok? ==>
              PaintLines(g, rows, cols, lines + [last]) == PaintLine(PaintLines(g, rows, cols, lines).value, rows, cols, last)
  {
    assert (lines + [last])[..|lines|] == lines && (lines + [last])[|lines|] == last;
  }

  /** Error propagation through the inner loop: a prefix that fails makes the whole line fail the same way. */
  lemma {:induction false} PaintSegmentsAppend(g: Grid, rows: nat, cols: nat, a: seq<string>, b: seq<string>)
    requires Shaped(g, rows, cols)
    ensures PaintSegments(g, rows, cols, a).Err? ==>
              PaintSegments(g, rows, cols, a + b) == PaintSegments(g, rows, cols, a)
    ensures PaintSegments(g, rows, cols, a).Ok? ==>
              PaintSegments(g, rows, cols, a + b) == PaintSegments(PaintSegments(g, rows, cols, a).value, rows, cols, b)
    decreases |b|
  {
    if b == [] {
      assert a + b == a;
    } else {
      var init, last := b[..|b| - 1], b[|b| - 1];
      assert b == init + [last] && a + b == (a + init) + [last];
      PaintSegmentsAppend(g, rows, cols, a, init);
      PaintSegmentsSnoc(g, rows, cols, a + init, last);
      if PaintSegments(g, rows, cols, a).Ok? {
        PaintSegmentsSnoc(PaintSegments(g, rows, cols, a).value, rows, cols, init, last);
      }
    }
  }

  /** Error propagation through the outer loop, and painting one block of lines after another. */
  lemma {:induction false} PaintLinesAppend(g: Grid, rows: nat, cols: nat, a: seq<string>, b: seq<string>)
    requires Shaped(g, rows, cols)
    ensures PaintLines(g, rows, cols, a).Err? ==>
              PaintLines(g, rows, cols, a + b) == PaintLines(g, rows, cols, a)
    ensures PaintLines(g, rows, cols, a).Ok? ==>
              PaintLines(g, rows, cols, a + b) == PaintLines(PaintLines(g, rows, cols, a).value, rows, cols, b)
    decreases |b|
  {
    if b == [] {
      assert a + b == a;
    } else {
      var init, last := b[..|b| - 1], b[|b| - 1];
      assert b == init + [last] && a + b == (a + init) + [last];
      PaintLinesAppend(g, rows, cols, a, init);
      PaintLinesSnoc(g, rows, cols, a + init, last);
      if PaintLines(g, rows, cols, a).Ok? {
        PaintLinesSnoc(PaintLines(g, rows, cols, a).value, rows, cols, init, last);
      }
    }
  }

  /**
   * The body of the inner loop of `read_db_file`, on the board in place: a
   * piece other than the newline is read as a tile and written, and reading
   * or writing it may raise an exception.
   */
  method PaintPieceInPlace(board: array2<int>, v: string, ghost g0: Grid) returns (err: Option<Error>, ghost g: Grid)
    requires Shaped(g0, board.Length0, board.Length1)
    requires forall a, b :: 0 <= a < board.Length0 && 0 <= b < board.Length1 ==> board[a, b] == g0[a][b]
    modifies board
    ensures Shaped(g, board.Length0, board.Length1)
    ensures forall a, b :: 0 <= a < board.Length0 && 0 <= b < board.Length1 ==> board[a, b] == g[a][b]
    ensures err.None? ==> PaintSegment(g0, board.Length0, board.Length1, v) == Ok(g)
    ensures err.Some? ==> PaintSegment(g0, board.Length0, board.Length1, v) == Err(err.value)
  {
    var m, n := board.Length0, board.Length1;
    g := g0;
    if v == "\n" {
      return None, g;
    }
    var tile := ReadTile(v);
    if tile.Err? {
      return Some(tile.error), g;
    }
    PaintReadSegment(g0, m, n, v, tile.value);
    var target := Target(tile.value, m, n);
    if target.Err? {
      return Some(target.error), g;
    }
    var (row, col) := target.value;
    board[row, col] := tile.value.colour;
    g := g[row := g[row][col := tile.value.colour]];
    err := None;
  }

  /**
   * The inner loop of `read_db_file` over the pieces of one tile line, on the
   * board in place: returns the exception of the first piece that raises one.
   */
  method PaintLineInPlace(board: array2<int>, line: string, ghost g0: Grid) returns (err: Option<Error>, ghost g: Grid)
    requires Shaped(g0, board.Length0, board.Length1)
    requires forall a, b :: 0 <= a < board.Length0 && 0 <= b < board.Length1 ==> board[a, b] == g0[a][b]
    modifies board
    ensures Shaped(g, board.Length0, board.Length1)
    ensures forall a, b :: 0 <= a < board.Length0 && 0 <= b < board.Length1 ==> board[a, b] == g[a][b]
    ensures err.None? ==> PaintSegments(g0, board.Length0, board.Length1, Split(line, '.')) == Ok(g)
    ensures err.Some? ==> PaintSegments(g0, board.Length0, board.Length1, Split(line, '.')) == Err(err.value)
  {
    var m, n := board.Length0, board.Length1;
    var vals := Split(line, '.');
    g := g0;
    var k := 0;
    while k < |vals|
      invariant 0 <= k <= |vals|
      invariant Shaped(g, m, n)
      invariant PaintSegments(g0, m, n, vals[..k]) == Ok(g)
      invariant forall a, b :: 0 <= a < m && 0 <= b < n ==> board[a, b] == g[a][b]
    {
      var v := vals[k];
      SegmentStep(g0, m, n, vals, k);
      ghost var before := g;
      err, g := PaintPieceInPlace(board, v, before);
      if err.Some? {
        SegmentFails(g0, m, n, vals, k, before, err.value);
        return;
      }
      k := k + 1;
    }
    assert vals[..k] == vals;
    err := None;
  }

  /**
   * The outer loop of `read_db_file` over the lines after the header, on the
   * board in place: tile lines are painted, every other line is passed over.
   * Returns the exception of the first piece that raises one.
   */
  method PaintLinesInPlace(board: array2<int>, body: seq<string>, ghost g0: Grid) returns (err: Option<Error>, ghost g: Grid)
    requires Shaped(g0, board.Length0, board.Length1)
    requires forall a, b :: 0 <= a < board.Length0 && 0 <= b < board.Length1 ==> board[a, b] == g0[a][b]
    modifies board
    ensures Shaped(g, board.Length0, board.Length1)
    ensures forall a, b :: 0 <= a < board.Length0 && 0 <= b < board.Length1 ==> board[a, b] == g[a][b]
    ensures err.None? ==> PaintLines(g0, board.Length0, board.Length1, body) == Ok(g)
    ensures err.Some? ==> PaintLines(g0, board.Length0, board.Length1, body) == Err(err.value)
  {
    var m, n := board.Length0, board.Length1;
    g := g0;
    var i := 0;
    while i < |body|
      invariant 0 <= i <= |body|
      invariant Shaped(g, m, n)
      invariant PaintLines(g0, m, n, body[..i]) == Ok(g)
      invariant forall a, b :: 0 <= a < m && 0 <= b < n ==> board[a, b] == g[a][b]
    {
      var line := body[i];
      SliceExtend(body, 0, i);
      if IsTileLine(line) {
        ghost var before := g;
        err, g := PaintLineInPlace(board, line, before);
        if err.Some? {
          LineFails(g0, m, n, body, i, before, err.value);
          return;
        }
      }
      // A line starting with `h` (the inventory) is passed over like every other non-tile line.
      i := i + 1;
    }
    assert body[..i] == body;
    err := None;
  }

  /** `np.zeros((rows, cols), dtype=int)`: a new array holding `Zeros(rows, cols)`. */
  method NewZeros(rows: nat, cols: nat) returns (board: array2<int>)
    ensures fresh(board) && board.Length0 == rows && board.Length1 == cols
    ensures forall a, b :: 0 <= a < rows && 0 <= b < cols ==> board[a, b] == Zeros(rows, cols)[a][b]
  {
    board := new int[rows, cols]((_, _) => White);
  }

  /**
   * `read_db_file` on the lines of a file: reads the size from line 0,
   * allocates a rows x cols board of zeros and writes every tile of every
   * tile line in scan order.  The result is exactly `DbBoard(lines)`: the
   * same board, or the same exception; the array has the header's M rows and
   * N columns, even when M is 0.
   */
  method ReadDbFile(lines: seq<string>) returns (r: Result<array2<int>>)
    ensures r.Ok? ==> fresh(r.value)
    ensures r.Ok? ==> |lines| >= 1 && ParseHeader(lines[0]).Ok?
    ensures r.Ok? ==> r.value.Length0 == ParseHeader(lines[0]).value.rows
                      && r.value.Length1 == ParseHeader(lines[0]).value.cols
    ensures r.Ok? ==> DbBoard(lines) == Ok(Cells(r.value))
    ensures r.Err? ==> DbBoard(lines) == Err(r.error)
  {
    if |lines| == 0 {
      return Err(IndexError);
    }
    var header := ParseHeader(lines[0]);
    if header.Err? {
      return Err(header.error);
    }
    var n, m := header.value.cols, header.value.rows;
    if m < 0 || n < 0 {
      return Err(ValueError);
    }
    assert DbBoard(lines) == PaintLines(Zeros(m, n), m, n, lines[1..]);
    var board := NewZeros(m, n);
    var err, g := PaintLinesInPlace(board, lines[1..], Zeros(m, n));
    if err.Some? {
      return Err(err.value);
    }
    CellsOf(board, g);
    return Ok(board);
  }
}
