/**
 * What `read_db_file` promises about the board it returns, stated over the
 * reference definitions in module `Board` (which `Board.ReadDbFile` is proved
 * to agree with): the header gives the size, cells no tile reaches stay white,
 * a tile at logical `(x, y)` lands in storage row `rows-1-y`, the last tile
 * written to a cell wins, and lines that are not tile lines change nothing.
 */
module ReaderProperties {
  import opened PyStr
  import opened Tiles
  import opened Board

  // ---------------------------------------------------------------------------
  // The header

  /**
   * The header's fields: N is the text between `(` and the first `,`, M the
   * text between the first and second `,`; whatever follows, K included, is
   * never read.
   */
  lemma ParseHeaderFields(w: string, a: string, b: string, rest: string)
    requires ',' !in w && '(' !in w && ',' !in a && '(' !in a && ',' !in b
    ensures ParseHeader(w + "(" + a + "," + b + "," + rest).Ok? <==> PyInt(a).Ok? && PyInt(b).Ok?
    ensures ParseHeader(w + "(" + a + "," + b + "," + rest).Ok? ==>
              ParseHeader(w + "(" + a + "," + b + "," + rest).value == Header(PyInt(a).value, PyInt(b).value)
  {
    var line := w + "(" + a + "," + b + "," + rest;
    var first := w + "(" + a;
    assert line == first + [','] + (b + [','] + rest);
    SplitConcat(first, b + [','] + rest, ',');
    assert ',' !in first;
    SplitNoSep(first, ',');
    SplitConcat(b, rest, ',');
    SplitNoSep(b, ',');
    var fields := Split(line, ',');
    assert fields[0] == first && fields[1] == b;
    assert first == w + ['('] + a;
    SplitConcat(w, a, '(');
    SplitNoSep(w, '(');
    SplitNoSep(a, '(');
    assert Split(first, '(') == [w, a];
  }

  /** `params(N,M,K)` with N and M written as integers reads back as N columns and M rows, whatever K is. */
  lemma ParseHeaderText(w: string, cols: int, rows: int, rest: string)
    requires ',' !in w && '(' !in w
    ensures ParseHeader(w + "(" + IntText(cols) + "," + IntText(rows) + "," + rest) == Ok(Header(cols, rows))
  {
    IntTextDelimiters(cols);
    IntTextDelimiters(rows);
    ParseHeaderFields(w, IntText(cols), IntText(rows), rest);
    PyIntOfText(cols);
    PyIntOfText(rows);
  }

  // ---------------------------------------------------------------------------
  // Where a tile lands

  /** A tile inside the grid lands at storage row `rows-1-y`, column `x`: logical row 0 is the last storage row. */
  lemma TargetInGrid(t: Tile, rows: nat, cols: nat)
    requires 0 <= t.x < cols && 0 <= t.y < rows
    ensures Target(t, rows, cols) == Ok((rows - 1 - t.y, t.x))
  {
  }

  /**
   * Exactly which coordinates numpy accepts: `y` from 0 to `2*rows-1` and `x`
   * from `-cols` to `cols-1`.  Out-of-grid ones wrap around: `y` in
   * `[rows, 2*rows)` lands in storage row `2*rows-1-y` and a negative `x` in
   * column `cols+x`.
   */
  lemma TargetRange(t: Tile, rows: nat, cols: nat)
    ensures Target(t, rows, cols).Ok? <==> 0 <= t.y < 2 * rows && -(cols as int) <= t.x < cols
    ensures Target(t, rows, cols).Ok? ==>
              Target(t, rows, cols).value
                == ((if t.y < rows then rows - 1 - t.y else 2 * rows - 1 - t.y),
                    (if t.x < 0 then cols + t.x else t.x))
  {
  }

  // ---------------------------------------------------------------------------
  // The tiles in scan order

  /** Every dot-separated piece of every tile line, in scan order: line by line, left to right. */
  function ScannedSegments(lines: seq<string>): seq<string>
    decreases |lines|
  {
    if lines == [] then []
    else
      var last := lines[|lines| - 1];
      ScannedSegments(lines[..|lines| - 1]) + (if IsTileLine(last) then Split(last, '.') else [])
  }

  /** A piece the reader can process: the bare newline it skips, or a tile whose target is on the board. */
  predicate Paintable(s: string, rows: nat, cols: nat) {
    s == "\n" || (ReadTile(s).Ok? && Target(ReadTile(s).value, rows, cols).Ok?)
  }

  /** The colour one piece writes to storage cell `(row, col)`, if it writes there. */
  function HitBy(s: string, rows: nat, cols: nat, row: nat, col: nat): (hs: seq<int>)
    ensures |hs| <= 1 && forall k :: 0 <= k < |hs| ==> White <= hs[k] <= Blue
  {
    var tile := ReadTile(s);
    if s != "\n" && tile.Ok? && Target(tile.value, rows, cols) == Ok((row, col)) then [tile.value.colour] else []
  }

  /** The colours the pieces write to storage cell `(row, col)`, in scan order. */
  function Hits(segs: seq<string>, rows: nat, cols: nat, row: nat, col: nat): (hs: seq<int>)
    ensures forall k :: 0 <= k < |hs| ==> White <= hs[k] <= Blue
    decreases |segs|
  {
    if segs == [] then []
    else Hits(segs[..|segs| - 1], rows, cols, row, col) + HitBy(segs[|segs| - 1], rows, cols, row, col)
  }

  /** The final colour of a cell: the last colour written to it, or `base` when nothing was. */
  function LastWritten(hs: seq<int>, base: int): int {
    if hs == [] then base else hs[|hs| - 1]
  }

  lemma {:induction false} ScannedSegmentsAppend(a: seq<string>, b: seq<string>)
    ensures ScannedSegments(a + b) == ScannedSegments(a) + ScannedSegments(b)
    decreases |b|
  {
    if b == [] {
      assert a + b == a;
    } else {
      var init := b[..|b| - 1];
      ScannedSegmentsAppend(a, init);
      assert (a + b)[..|a + b| - 1] == a + init;
      assert (a + b)[|a + b| - 1] == b[|b| - 1];
    }
  }

  /** The two nested loops are one loop over the scanned pieces. */
  lemma {:induction false} PaintLinesFlat(g: Grid, rows: nat, cols: nat, lines: seq<string>)
    requires Shaped(g, rows, cols)
    ensures PaintLines(g, rows, cols, lines) == PaintSegments(g, rows, cols, ScannedSegments(lines))
    decreases |lines|
  {
    if lines != [] {
      var init, last := lines[..|lines| - 1], lines[|lines| - 1];
      PaintLinesFlat(g, rows, cols, init);
      var lastSegs := if IsTileLine(last) then Split(last, '.') else [];
      PaintSegmentsAppend(g, rows, cols, ScannedSegments(init), lastSegs);
      if !IsTileLine(last) {
        assert ScannedSegments(init) + lastSegs == ScannedSegments(init);
      }
    }
  }

  /** The pieces are all processed without an exception exactly when each one is paintable. */
  lemma {:induction false} PaintSegmentsOk(g: Grid, rows: nat, cols: nat, segs: seq<string>)
    requires Shaped(g, rows, cols)
    ensures PaintSegments(g, rows, cols, segs).Ok? <==> forall k :: 0 <= k < |segs| ==> Paintable(segs[k], rows, cols)
    decreases |segs|
  {
    if segs != [] {
      var init := segs[..|segs| - 1];
      PaintSegmentsOk(g, rows, cols, init);
      assert forall k :: 0 <= k < |init| ==> init[k] == segs[k];
      if PaintSegments(g, rows, cols, init).Ok? {
        assert PaintSegments(g, rows, cols, segs)
                 == PaintSegment(PaintSegments(g, rows, cols, init).value, rows, cols, segs[|segs| - 1]);
      }
    }
  }

  /** One piece recolours the cell it targets and no other. */
  lemma PaintSegmentCell(g: Grid, rows: nat, cols: nat, s: string, row: nat, col: nat)
    requires Shaped(g, rows, cols) && row < rows && col < cols
    requires PaintSegment(g, rows, cols, s).Ok?
    ensures PaintSegment(g, rows, cols, s).value[row][col] == LastWritten(HitBy(s, rows, cols, row, col), g[row][col])
  {
    if s != "\n" {
      var t := ReadTile(s).value;
      var (r, c) := Target(t, rows, cols).value;
      assert PaintSegment(g, rows, cols, s).value == g[r := g[r][c := t.colour]];
    }
  }

  /** Each cell ends as the last colour written to it in scan order, and keeps its colour when no tile reaches it. */
  lemma {:induction false} PaintSegmentsCell(g: Grid, rows: nat, cols: nat, segs: seq<string>, row: nat, col: nat)
    requires Shaped(g, rows, cols) && row < rows && col < cols
    requires PaintSegments(g, rows, cols, segs).Ok?
    ensures PaintSegments(g, rows, cols, segs).value[row][col] == LastWritten(Hits(segs, rows, cols, row, col), g[row][col])
    decreases |segs|
  {
    if segs != [] {
      var init, s := segs[..|segs| - 1], segs[|segs| - 1];
      var before := PaintSegments(g, rows, cols, init);
      assert before.Ok?;
      PaintSegmentsCell(g, rows, cols, init, row, col);
      assert PaintSegments(g, rows, cols, segs) == PaintSegment(before.value, rows, cols, s);
      PaintSegmentCell(before.value, rows, cols, s, row, col);
      var hs, extra := Hits(init, rows, cols, row, col), HitBy(s, rows, cols, row, col);
      assert Hits(segs, rows, cols, row, col) == hs + extra;
      if extra == [] {
        assert hs + extra == hs;
      }
    }
  }

  // ---------------------------------------------------------------------------
  // The board read from a file

  /**
   * When `read_db_file` succeeds: the file has a header whose N and M are not
   * negative, and every piece of every tile line after it is a newline or a
   * tile on the board.  Each of these failing raises an exception.
   */
  lemma DbBoardOk(lines: seq<string>)
    ensures DbBoard(lines).Ok? <==>
              && |lines| >= 1
              && ParseHeader(lines[0]).Ok?
              && ParseHeader(lines[0]).value.cols >= 0
              && ParseHeader(lines[0]).value.rows >= 0
              && var h := ParseHeader(lines[0]).value;
                 forall k :: 0 <= k < |ScannedSegments(lines[1..])| ==>
                   Paintable(ScannedSegments(lines[1..])[k], h.rows, h.cols)
  {
    if |lines| >= 1 && ParseHeader(lines[0]).Ok? {
      var h := ParseHeader(lines[0]).value;
      if h.cols >= 0 && h.rows >= 0 {
        DbBoardPaintable(lines, h.rows, h.cols);
      }
    }
  }

  /** Past a header of M rows and N columns, the read succeeds exactly when every scanned piece can be painted. */
  lemma DbBoardPaintable(lines: seq<string>, rows: nat, cols: nat)
    requires |lines| >= 1 && ParseHeader(lines[0]) == Ok(Header(cols, rows))
    ensures DbBoard(lines).Ok? <==>
              forall k :: 0 <= k < |ScannedSegments(lines[1..])| ==> Paintable(ScannedSegments(lines[1..])[k], rows, cols)
  {
    PaintLinesFlat(Zeros(rows, cols), rows, cols, lines[1..]);
    PaintSegmentsOk(Zeros(rows, cols), rows, cols, ScannedSegments(lines[1..]));
  }

  /**
   * Which exception a bad header raises: an empty file has no line 0
   * (IndexError), a header that does not parse raises its own exception (a
   * header without `(` raises IndexError), and a negative N or M makes
   * `np.zeros` raise ValueError.
   */
  lemma DbBoardHeaderErrors(lines: seq<string>)
    ensures |lines| == 0 ==> DbBoard(lines) == Err(IndexError)
    ensures |lines| >= 1 && ParseHeader(lines[0]).Err? ==> DbBoard(lines) == Err(ParseHeader(lines[0]).error)
    ensures |lines| >= 1 && '(' !in lines[0] ==> DbBoard(lines) == Err(IndexError)
    ensures (&& |lines| >= 1
             && ParseHeader(lines[0]).Ok?
             && (ParseHeader(lines[0]).value.cols < 0 || ParseHeader(lines[0]).value.rows < 0))
            ==> DbBoard(lines) == Err(ValueError)
  {
  }

  /** A board read from a file has the header's M rows of N cells. */
  lemma DbBoardShaped(lines: seq<string>, g: Grid)
    requires DbBoard(lines) == Ok(g)
    ensures |lines| >= 1 && ParseHeader(lines[0]).Ok?
    ensures ParseHeader(lines[0]).value.cols >= 0 && ParseHeader(lines[0]).value.rows >= 0
    ensures Shaped(g, ParseHeader(lines[0]).value.rows, ParseHeader(lines[0]).value.cols)
  {
    DbBoardBody(lines);
  }

  /** Past a good header, the board is the painting of the later lines over an all-white board. */
  lemma DbBoardBody(lines: seq<string>)
    requires |lines| >= 1 && ParseHeader(lines[0]).Ok?
    requires ParseHeader(lines[0]).value.cols >= 0 && ParseHeader(lines[0]).value.rows >= 0
    ensures var h := ParseHeader(lines[0]).value;
            DbBoard(lines) == PaintLines(Zeros(h.rows, h.cols), h.rows, h.cols, lines[1..])
  {
  }

  /**
   * The board `read_db_file` returns has M rows of N cells, and each cell holds
   * the colour of the last tile written to it in scan order (line by line, left
   * to right), or white when no tile reaches it.
   */
  lemma DbBoardCells(lines: seq<string>, g: Grid)
    requires DbBoard(lines) == Ok(g)
    ensures |lines| >= 1 && ParseHeader(lines[0]).Ok?
    ensures var h := ParseHeader(lines[0]).value;
            && h.rows >= 0 && h.cols >= 0
            && Shaped(g, h.rows, h.cols)
            && forall row: nat, col: nat :: row < h.rows && col < h.cols ==>
                 g[row][col] == LastWritten(Hits(ScannedSegments(lines[1..]), h.rows, h.cols, row, col), White)
  {
    var h := ParseHeader(lines[0]).value;
    var zeros := Zeros(h.rows, h.cols);
    PaintLinesFlat(zeros, h.rows, h.cols, lines[1..]);
    forall row: nat, col: nat | row < h.rows && col < h.cols
      ensures g[row][col] == LastWritten(Hits(ScannedSegments(lines[1..]), h.rows, h.cols, row, col), White)
    {
      PaintSegmentsCell(zeros, h.rows, h.cols, ScannedSegments(lines[1..]), row, col);
    }
  }

  /** Every cell of the board holds 0 (white), 1 (red) or 2 (blue). */
  lemma DbBoardColours(lines: seq<string>, g: Grid)
    requires DbBoard(lines) == Ok(g)
    ensures forall i, j :: 0 <= i < |g| && 0 <= j < |g[i]| ==> White <= g[i][j] <= Blue
  {
    DbBoardCells(lines, g);
    var h := ParseHeader(lines[0]).value;
    forall i, j | 0 <= i < |g| && 0 <= j < |g[i]| ensures White <= g[i][j] <= Blue {
      var hs := Hits(ScannedSegments(lines[1..]), h.rows, h.cols, i, j);
      assert g[i][j] == LastWritten(hs, White);
    }
  }

  /** A file holding only its header reads as an all-white board of M rows and N columns. */
  lemma DbBoardHeaderOnly(header: string)
    requires ParseHeader(header).Ok?
    requires ParseHeader(header).value.cols >= 0 && ParseHeader(header).value.rows >= 0
    ensures DbBoard([header]) == Ok(Zeros(ParseHeader(header).value.rows, ParseHeader(header).value.cols))
  {
    assert [header][1..] == [];
  }

  /** Line 0 is read only for its size: two headers with the same N and M give the same result. */
  lemma DbBoardHeaderNotScanned(h1: string, h2: string, rest: seq<string>)
    requires ParseHeader(h1) == ParseHeader(h2)
    ensures DbBoard([h1] + rest) == DbBoard([h2] + rest)
  {
    assert ([h1] + rest)[1..] == rest;
    assert ([h2] + rest)[1..] == rest;
  }

  /** A line after the header that does not start with `red` or `blue` (an `h(...)` line, say) has no effect. */
  lemma DbBoardSkipsLine(a: seq<string>, line: string, b: seq<string>)
    requires |a| >= 1 && !IsTileLine(line)
    ensures DbBoard(a + [line] + b) == DbBoard(a + b)
  {
    var with, without := a + [line] + b, a + b;
    assert with[0] == a[0] && without[0] == a[0];
    assert with[1..] == a[1..] + [line] + b;
    assert without[1..] == a[1..] + b;
    ScannedSegmentsAppend(a[1..] + [line], b);
    ScannedSegmentsAppend(a[1..], [line]);
    ScannedSegmentsAppend(a[1..], b);
    assert ScannedSegments([line]) == [] by {
      assert [line][..0] == [];
    }
    assert ScannedSegments(with[1..]) == ScannedSegments(without[1..]);
    if ParseHeader(a[0]).Ok? {
      var h := ParseHeader(a[0]).value;
      if h.cols >= 0 && h.rows >= 0 {
        PaintLinesFlat(Zeros(h.rows, h.cols), h.rows, h.cols, with[1..]);
        PaintLinesFlat(Zeros(h.rows, h.cols), h.rows, h.cols, without[1..]);
      }
    }
  }

  /** An inventory line `h(...)` is not a tile line. */
  lemma InventoryLine(line: string)
    requires |line| >= 1 && line[0] == 'h'
    ensures !IsTileLine(line)
  {
    if |line| >= 3 {
      assert line[..3][0] == 'h';
    }
    if |line| >= 4 {
      assert line[..4][0] == 'h';
    }
  }

  /** The line holding one tile: its literal, the `.` that ends it, and the newline. */
  function TileLine(t: Tile): string {
    TileLiteral(t) + ".\n"
  }

  /** The line `red(x,y).` or `blue(x,y).` splits into the literal and the newline. */
  lemma SplitTileLine(t: Tile)
    ensures Split(TileLine(t), '.') == [TileLiteral(t), "\n"]
  {
    assert TileLine(t) == TileLiteral(t) + ['.'] + "\n";
    SplitConcat(TileLiteral(t), "\n", '.');
    assert '.' !in TileLiteral(t) by {
      IntTextDelimiters(t.x);
      IntTextDelimiters(t.y);
      ColourWordDelimiters(t.colour);
    }
    SplitNoSep(TileLiteral(t), '.');
    SplitNoSep("\n", '.');
  }

  /** A tile written in storage cell `(rows-1-y, x)` of the grid. */
  lemma ApplyTileInGrid(g: Grid, rows: nat, cols: nat, t: Tile)
    requires Shaped(g, rows, cols)
    requires 0 <= t.x < cols && 0 <= t.y < rows
    ensures ApplyTile(g, rows, cols, t) == Ok(g[rows - 1 - t.y := g[rows - 1 - t.y][t.x := t.colour]])
  {
    TargetInGrid(t, rows, cols);
  }

  /** The literal of a tile is not a newline, and it reads back as that tile. */
  lemma TileLiteralSegment(t: Tile)
    requires White <= t.colour <= Blue
    ensures TileLiteral(t) != "\n" && ReadTile(TileLiteral(t)) == Ok(t)
  {
    var lit := TileLiteral(t);
    ReadTileLiteral("", t);
    assert "" + lit == lit;
    assert lit[0] == ColourWord(t.colour)[0];
  }

  /** The literal `red(x,y)` or `blue(x,y)` recolours storage cell `(rows-1-y, x)`. */
  lemma PaintTileSegment(g: Grid, rows: nat, cols: nat, t: Tile)
    requires Shaped(g, rows, cols)
    requires t.colour == Red || t.colour == Blue
    requires 0 <= t.x < cols && 0 <= t.y < rows
    ensures PaintSegment(g, rows, cols, TileLiteral(t)) == Ok(g[rows - 1 - t.y := g[rows - 1 - t.y][t.x := t.colour]])
  {
    TileLiteralSegment(t);
    PaintReadSegment(g, rows, cols, TileLiteral(t), t);
    ApplyTileInGrid(g, rows, cols, t);
  }

  /** A literal followed by the newline paints what the literal alone paints. */
  lemma PaintSegmentsNewline(g: Grid, rows: nat, cols: nat, lit: string, g': Grid)
    requires Shaped(g, rows, cols)
    requires PaintSegment(g, rows, cols, lit) == Ok(g')
    ensures PaintSegments(g, rows, cols, [lit, "\n"]) == Ok(g')
  {
    var segs := [lit, "\n"];
    assert PaintSegments(g, rows, cols, segs[..1]) == Ok(g') by {
      assert segs[..1] == [lit] && segs[..1][..0] == [];
    }
    assert segs[..|segs| - 1] == segs[..1];
    assert PaintSegment(g', rows, cols, "\n") == Ok(g');
  }

  /** The line `red(x,y).` or `blue(x,y).` is painted, and it is painted segment by segment. */
  lemma TileLineSegments(g: Grid, rows: nat, cols: nat, t: Tile)
    requires Shaped(g, rows, cols)
    requires t.colour == Red || t.colour == Blue
    ensures PaintLine(g, rows, cols, TileLine(t)) == PaintSegments(g, rows, cols, [TileLiteral(t), "\n"])
  {
    var line := TileLine(t);
    assert IsTileLine(line) by {
      assert line[..|ColourWord(t.colour)|] == ColourWord(t.colour);
    }
    SplitTileLine(t);
  }

  /**
   * A tile line with no newline after its final `.` (the last line of a file
   * that does not end in a newline) leaves an empty last piece, and reading
   * that piece as a tile raises IndexError.
   */
  lemma UnterminatedTileLine(g: Grid, rows: nat, cols: nat, t: Tile)
    requires Shaped(g, rows, cols)
    requires t.colour == Red || t.colour == Blue
    requires 0 <= t.x < cols && 0 <= t.y < rows
    ensures PaintLine(g, rows, cols, TileLiteral(t) + ".") == Err(IndexError)
  {
    var lit := TileLiteral(t);
    var line := lit + ".";
    assert IsTileLine(line) by {
      assert line[..|ColourWord(t.colour)|] == ColourWord(t.colour);
    }
    assert Split(line, '.') == [lit, ""] by {
      assert line == lit + ['.'] + "";
      SplitConcat(lit, "", '.');
      assert '.' !in lit by {
        IntTextDelimiters(t.x);
        IntTextDelimiters(t.y);
        ColourWordDelimiters(t.colour);
      }
      SplitNoSep(lit, '.');
    }
    var g' := g[rows - 1 - t.y := g[rows - 1 - t.y][t.x := t.colour]];
    PaintTileSegment(g, rows, cols, t);
    assert PaintSegment(g', rows, cols, "") == Err(IndexError);
    assert PaintSegments(g, rows, cols, [lit]) == Ok(g') by {
      assert [lit][..0] == [];
    }
    assert [lit, ""][..1] == [lit];
  }

  /** Painting the line `red(x,y).` or `blue(x,y).` recolours storage cell `(rows-1-y, x)`. */
  lemma PaintTileLine(g: Grid, rows: nat, cols: nat, t: Tile)
    requires Shaped(g, rows, cols)
    requires t.colour == Red || t.colour == Blue
    requires 0 <= t.x < cols && 0 <= t.y < rows
    ensures PaintLine(g, rows, cols, TileLine(t)) == Ok(g[rows - 1 - t.y := g[rows - 1 - t.y][t.x := t.colour]])
  {
    PaintTileSegment(g, rows, cols, t);
    PaintSegmentsNewline(g, rows, cols, TileLiteral(t), g[rows - 1 - t.y := g[rows - 1 - t.y][t.x := t.colour]]);
    TileLineSegments(g, rows, cols, t);
  }

  /**
   * Appending a line to a file with a good header: an exception raised earlier
   * is raised again, and otherwise the board is the earlier board with the new
   * line painted over it.
   */
  lemma DbBoardAppendLine(lines: seq<string>, line: string)
    requires |lines| >= 1 && ParseHeader(lines[0]).Ok?
    requires ParseHeader(lines[0]).value.cols >= 0 && ParseHeader(lines[0]).value.rows >= 0
    ensures DbBoard(lines).Err? ==> DbBoard(lines + [line]) == DbBoard(lines)
    ensures DbBoard(lines).Ok? ==>
              var h := ParseHeader(lines[0]).value;
              Shaped(DbBoard(lines).value, h.rows, h.cols) &&
              DbBoard(lines + [line]) == PaintLine(DbBoard(lines).value, h.rows, h.cols, line)
  {
    var h := ParseHeader(lines[0]).value;
    var more := lines + [line];
    var zeros := Zeros(h.rows, h.cols);
    assert DbBoard(lines) == PaintLines(zeros, h.rows, h.cols, lines[1..]) by {
      DbBoardBody(lines);
    }
    assert DbBoard(more) == PaintLines(zeros, h.rows, h.cols, lines[1..] + [line]) by {
      assert more[0] == lines[0];
      assert more[1..] == lines[1..] + [line];
      DbBoardBody(more);
    }
    PaintLinesAppend(zeros, h.rows, h.cols, lines[1..], [line]);
    if DbBoard(lines).Ok? {
      assert PaintLines(DbBoard(lines).value, h.rows, h.cols, [line]) == PaintLine(DbBoard(lines).value, h.rows, h.cols, line) by {
        assert [line][..0] == [];
      }
    }
  }

  /** A line that paints the board of a file onto a new board gives the board of the longer file. */
  lemma DbBoardAppendPainted(lines: seq<string>, g: Grid, line: string, g': Grid)
    requires DbBoard(lines) == Ok(g)
    requires |lines| >= 1 && ParseHeader(lines[0]).Ok?
    requires ParseHeader(lines[0]).value.cols >= 0 && ParseHeader(lines[0]).value.rows >= 0
    requires Shaped(g, ParseHeader(lines[0]).value.rows, ParseHeader(lines[0]).value.cols)
    requires PaintLine(g, ParseHeader(lines[0]).value.rows, ParseHeader(lines[0]).value.cols, line) == Ok(g')
    ensures DbBoard(lines + [line]) == Ok(g')
  {
    DbBoardAppendLine(lines, line);
  }

  /**
   * Appending the line `red(x,y).` or `blue(x,y).` for a cell on the board
   * recolours storage cell `(rows-1-y, x)` and nothing else, whatever colour
   * it had before.
   */
  lemma DbBoardAppendTile(lines: seq<string>, g: Grid, t: Tile, cols: int, rows: int)
    requires DbBoard(lines) == Ok(g)
    requires |lines| >= 1 && ParseHeader(lines[0]) == Ok(Header(cols, rows))
    requires t.colour == Red || t.colour == Blue
    requires 0 <= t.x < cols && 0 <= t.y < rows
    ensures DbBoard(lines + [TileLine(t)]) == Ok(g[rows - 1 - t.y := g[rows - 1 - t.y][t.x := t.colour]])
  {
    DbBoardShaped(lines, g);
    PaintTileLine(g, rows, cols, t);
    DbBoardAppendPainted(lines, g, TileLine(t), g[rows - 1 - t.y := g[rows - 1 - t.y][t.x := t.colour]]);
  }
}
