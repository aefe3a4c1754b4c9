# Red-tiling instance reader, modelled in Dafny

Red-tiling stores a board instance as a text file. Line 0 is a header
`params(N,M,K).`, giving N columns and M rows. The lines after it are tile
lines such as `red(0,0). blue(3,2).`, each a run of `.`-terminated tile
literals, plus an inventory line `h(...)`. Two functions read such a file:

- `read_tile` turns one tile literal into a colour code (0 white, 1 red, 2 blue)
  and the logical coordinates `x` (column, from the left) and `y` (row, from
  the bottom).
- `read_db_file` reads the header, allocates an all-zero M x N numpy board,
  and writes every literal of every `red`/`blue` line into storage cell
  `board[M-y-1][x]`, in scan order.

The model has four modules:

- `PyStr` (`pystr.dfy`) holds the Python built-ins these functions rely on:
  `str.split` with one separator, stripping over a given whitespace set,
  `int()` on base-10 text, and numpy's single-axis indexing. `str.strip()`
  strips the `str.isspace` set (`IsSpace`). `int()` skips a smaller set
  (`IntSpace`): it does not skip the information separators 0x1C-0x1F.
- `Tiles` (`tiles.dfy`) is `read_tile`, a pure function.
- `Board` (`board.dfy`) holds two things. First, the reference definitions of
  what `read_db_file` computes, as functions on a grid of rows (`DbBoard`).
  Second, the imperative reader itself: `ReadDbFile` allocates an `array2<int>`
  and fills it with the two nested loops of the source, one method per loop
  and one for the loop body. Each method is proved to agree with the
  reference functions.
- `ReaderProperties` (`board_props.dfy`) proves what the reader promises about
  its result. The main statement is `DbBoardCells`: on success, every cell holds
  the colour of the last tile written to it in scan order, or white.

Python exceptions are values, not preconditions. An `IndexError` or `ValueError`
that the source raises is an `Err` result of the same kind, at the same point
in the order of evaluation. This covers:

- an empty file;
- a header without `(` or `,`;
- non-numeric text where a number is expected;
- a negative N or M (numpy refuses negative dimensions);
- a piece of a tile line that is not a tile literal.

numpy's wrap-around is modelled as it behaves. A `y` in `[M, 2M)` writes
storage row `2M-1-y`, and an `x` in `[-N, 0)` writes column `N+x`. Anything
further out raises `IndexError`.

An unknown colour word gives code 0 (white), as the source does. This model
follows the code.

A tile line whose final `.` is not followed by a newline leaves an empty last
piece. Reading that piece raises `IndexError` (`UnterminatedTileLine`). The same
happens to a piece made of stray whitespace after the last `.`. The model keeps
this behaviour of the code. The file is opened in text mode, which turns `\r\n`
into `\n`, so line endings do not produce such a piece; the model takes the
lines as text mode returns them.

## Model

| member | source | states |
|---|---|---|
| PyStr.StripLeft | src/script.py:17 | stripping on the left drops a prefix made only of whitespace and keeps a suffix that is empty or starts with a non-space |
| PyStr.StripRight | src/script.py:17 | stripping on the right drops a suffix made only of whitespace and keeps a prefix that is empty or ends with a non-space |
| PyStr.Strip | src/script.py:17 | `str.strip()` returns text that neither starts nor ends with whitespace |
| PyStr.StripPadded | src/script.py:17-19 | stripping removes exactly the whitespace around a word that has none at its ends |
| PyStr.Split | src/script.py:15 | `str.split(sep)` always returns at least one piece |
| PyStr.SplitFirst | src/script.py:15-16 | the first piece of `str.split(sep)` is the text before the first separator, ending just before it, or the whole string when there is none; there is more than one piece exactly when the string holds the separator |
| PyStr.JoinSplit | src/script.py:15 | joining the pieces of `str.split(sep)` with `sep` gives the string back, and no piece contains `sep` |
| PyStr.SplitJoin | src/script.py:15 | splitting a `sep`-join of `sep`-free pieces gives exactly those pieces |
| PyStr.SplitConcat | src/script.py:50 | splitting `a + sep + b` gives the pieces of `a` followed by the pieces of `b` |
| PyStr.SplitNoSep | src/script.py:15 | a string without the separator splits into itself alone |
| PyStr.PyInt | src/script.py:24 | `int()` fails only with ValueError |
| PyStr.PyIntIntText | src/script.py:24-25 | `int()` reads back every integer's decimal text, sign included, with any whitespace `int()` skips around it |
| PyStr.PyIntStripped | src/script.py:24-25 | `int()` of any text that strips to an integer's decimal text reads that integer |
| PyStr.PyIntSeparator | src/script.py:24-25 | an information separator 0x1C-0x1F, which `str.isspace` counts as whitespace, in front of a number makes `int()` raise ValueError |
| PyStr.PyIndex | src/script.py:55 | a numpy index is accepted exactly when `-len <= i < len`; it then denotes `i` or `i + len`, and otherwise raises IndexError |
| Tiles.ColourOf | src/script.py:16-23 | the colour code is always 0, 1 or 2 |
| Tiles.ColourOfCases | src/script.py:17-23 | the code is 1 exactly when the stripped word is `red`, 2 exactly when it is `blue`, and 0 for every other word |
| Tiles.ColourOfWord | src/script.py:17-23 | each colour code is read back from its word, with any surrounding whitespace |
| Tiles.ReadTile | src/script.py:6-26 | a tile that is read has a colour code in 0..2 |
| Tiles.ReadTileFields | src/script.py:15-25 | `read_tile` succeeds exactly when both coordinate texts are integers; it then returns the colour of the text before `(`, `x` from the text up to `,`, and `y` from the text up to `)`, ignoring anything after `)` |
| Tiles.ReadTileNoParen | src/script.py:15-24 | a piece without `(` makes `read_tile` raise IndexError |
| Tiles.ReadTileNoComma | src/script.py:15-25 | a piece with no `,` after its `(`, such as `red(3)`, raises ValueError when the text after `(` is not an integer, and IndexError when it is |
| Tiles.ReadTileLiteral | src/script.py:6-26 | every tile is read back from its canonical literal `colour(x,y)`, after any leading whitespace |
| Board.ParseHeader | src/script.py:41-43 | a header line without `(` raises IndexError, and a header parses only when it holds a `,` |
| Board.Zeros | src/script.py:46 | `np.zeros((m, n))` has m rows of n cells, all white |
| Board.Target | src/script.py:55 | `board[m-y-1][x]`, when it does not raise, addresses a cell inside the board |
| Board.ApplyTile | src/script.py:55 | writing `board[m-y-1][x]` keeps the board's m x n shape |
| Board.PaintSegment | src/script.py:52-55 | one iteration of the inner loop keeps the board's shape |
| Board.PaintSegments | src/script.py:51-55 | the inner loop keeps the board's shape |
| Board.IsTileLine | src/script.py:49 | a line taken as a tile line starts with `r` or `b` and is at least three characters long |
| Board.PaintLine | src/script.py:49-59 | one iteration of the outer loop keeps the board's shape |
| Board.PaintLines | src/script.py:48-59 | the outer loop keeps the board's shape |
| Board.DbBoard | src/script.py:29-61 | a board is returned only for a file whose header line parses to non-negative N and M |
| Board.PaintSegmentsAppend | src/script.py:51-55 | in the loop over pieces, an exception ends the loop; otherwise a longer run of pieces continues from the board the shorter one left |
| Board.PaintLinesAppend | src/script.py:48-59 | in the loop over lines, an exception ends the loop; otherwise a longer run of lines continues from the board the shorter one left |
| Board.PaintPieceInPlace | src/script.py:52-55 | one iteration of the inner loop on the array: the newline piece changes nothing, and any other piece is read and written, or its exception is returned |
| Board.PaintLineInPlace | src/script.py:50-55 | the inner loop leaves the array holding the painting of the line's `.`-pieces, or returns the first piece's exception |
| Board.PaintLinesInPlace | src/script.py:48-59 | the outer loop leaves the array holding the painting of every line after the header, or returns the first exception |
| Board.NewZeros | src/script.py:46 | `np.zeros((m, n))` allocates a new m x n array whose cells are those of `Zeros(m, n)`, all white |
| Board.ReadDbFile | src/script.py:29-61 | `read_db_file` returns an array of the header's M rows and N columns (also when M is 0) whose contents are `DbBoard(lines)`, or raises the exception `DbBoard` raises; the array is newly allocated |
| ReaderProperties.ParseHeaderFields | src/script.py:41-43 | the header parses exactly when the text after `(` and the text after the first `,` are integers; N and M are those integers, and what follows (K) is never read |
| ReaderProperties.ParseHeaderText | src/script.py:41-43 | a header `w(N,M,...` written with integer texts reads back as N columns and M rows, whatever K is |
| ReaderProperties.TargetInGrid | src/script.py:55 | a tile with `0 <= x < n` and `0 <= y < m` lands in storage cell `(m-1-y, x)`, so logical row 0 is the last storage row |
| ReaderProperties.TargetRange | src/script.py:55 | writing succeeds exactly for `0 <= y < 2m` and `-n <= x < n`, and names the wrapped cell |
| ReaderProperties.ScannedSegmentsAppend | src/script.py:48-51 | the pieces scanned from two blocks of lines are those of the first block followed by those of the second |
| ReaderProperties.PaintLinesFlat | src/script.py:48-55 | the two nested loops paint the same as one loop over all scanned pieces in scan order |
| ReaderProperties.PaintSegmentsOk | src/script.py:51-55 | the loop over pieces succeeds exactly when every piece is the newline or a tile that lands on the board |
| ReaderProperties.PaintSegmentsCell | src/script.py:51-55 | after the loop over pieces, each cell holds the colour of the last piece that hit it, or its earlier colour if none did |
| ReaderProperties.DbBoardHeaderErrors | src/script.py:40-46 | an empty file raises IndexError, a header that does not parse raises its own exception (IndexError when it has no `(`), and a negative N or M raises ValueError |
| ReaderProperties.DbBoardOk | src/script.py:29-61 | `read_db_file` succeeds exactly when the file has a header with non-negative N and M and every scanned piece is the newline or a tile on the board |
| ReaderProperties.DbBoardPaintable | src/script.py:46-59 | past a header of M rows and N columns, the read succeeds exactly when every scanned piece is the newline or a tile on the board |
| ReaderProperties.DbBoardShaped | src/script.py:46 | the board returned has exactly M rows of N cells |
| ReaderProperties.DbBoardCells | src/script.py:46-59 | each cell of the returned board holds the colour of the last tile written to it in scan order (line by line, left to right), or 0 if none |
| ReaderProperties.DbBoardColours | src/script.py:46-55 | every cell of the returned board is 0, 1 or 2 |
| ReaderProperties.DbBoardHeaderOnly | src/script.py:41-46 | a file with only a header gives the all-white M x N board |
| ReaderProperties.DbBoardHeaderNotScanned | src/script.py:41-48 | line 0 is read only for its sizes: two headers that parse alike give the same result |
| ReaderProperties.DbBoardSkipsLine | src/script.py:48-59 | a line after the header that starts with neither `red` nor `blue` changes neither the board nor the exception |
| ReaderProperties.InventoryLine | src/script.py:57-59 | an `h(...)` inventory line is not a tile line |
| ReaderProperties.SplitTileLine | src/script.py:50 | the line `colour(x,y).` plus a newline splits into the literal and the newline piece |
| ReaderProperties.PaintTileLine | src/script.py:49-55 | painting a one-tile line on the board recolours storage cell `(m-1-y, x)` and nothing else |
| ReaderProperties.UnterminatedTileLine | src/script.py:50-54 | a one-tile line `colour(x,y).` with no newline after its `.` raises IndexError on the empty piece |
| ReaderProperties.DbBoardAppendLine | src/script.py:48-59 | appending a line to a file re-raises an earlier exception, and otherwise paints that line over the earlier board |
| ReaderProperties.DbBoardAppendTile | src/script.py:48-55 | appending a one-tile line for a cell on the board overwrites that one cell, whatever colour it had |

## Left out

- Opening and reading the file (`open`, `readlines`): `ReadDbFile` takes the lines as a parameter. Each line is the text `readlines` returns, with its newline.
- The debug `print` of N and M: terminal output only.
- `print_board` and `display_board` are terminal and matplotlib output and are not modelled.
- The `__main__` command-line handling and the unused `solution` argument are program glue and are not modelled.
- The inventory, solution, serializer, catalogue and augmenter logic is not part of this model: the reader never interprets `h(...)` lines or solutions.
- PyStr.PyInt: its contract states only that failures are ValueError. What it accepts is stated for integer texts through the round trip `PyIntIntText`, not as a characterisation of every accepted string.
- PyStr.PyInt: non-ASCII Unicode digits and Python's limit of 4300 digits on `int()` conversion are not modelled. Only ASCII digits, an optional sign, single underscores between digits, and the surrounding whitespace `int()` skips are.
- PyStr.Split: its own contract gives only that there is at least one piece. The pieces are characterised by `SplitFirst`, `JoinSplit`, `SplitJoin` and `SplitConcat`.
- Board.ParseHeader: its own contract gives only the missing `(` and `,` cases. The values of N and M are stated by `ReaderProperties.ParseHeaderFields`.
- Board.DbBoard: its own contract gives only when a board can be returned. When it succeeds is stated by `ReaderProperties.DbBoardOk`, its shape and cells by `DbBoardShaped` and `DbBoardCells`, and the exceptions of the header stage (empty file, unparsable header, negative size) by `DbBoardHeaderErrors`. Which exception a failing tile piece raises is stated only for a piece without `(`, a piece without `,` after its `(` and the empty last piece of a one-tile line.
- Board.PaintLines, Board.PaintLine, Board.PaintSegments, Board.PaintSegment and Board.ApplyTile: their own contracts give only that the board keeps its shape. What they write is stated by `ReaderProperties.PaintSegmentsCell`, `PaintTileLine` and `DbBoardCells`.
- Tiles.ReadTile: its own contract gives only the colour range. Lemmas state its behaviour for a piece without `(` (`ReadTileNoParen`), a piece without `,` after its `(` (`ReadTileNoComma`) and a piece `w(a,b)rest` whose fields hold no delimiter (`ReadTileFields`, `ReadTileLiteral`). Pieces with a third field or a missing `)`, such as `red(1,2,3)` or `red(1,2`, are handled by the function as the code handles them (`y` is the text up to the next `,` or `)`), but no lemma states that case.
- PyStr.PyIndex: numpy raises a different exception for an index beyond its 64-bit index range. The model reports IndexError for every out-of-range index.
- Board.ReadDbFile: numpy's MemoryError for a board too large to allocate is not modelled, nor the 64-bit integer type of the array. Cells hold only 0, 1 or 2, so no overflow can occur.
- Concurrency and floating point do not arise in these functions.
