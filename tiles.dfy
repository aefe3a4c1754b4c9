/**
 * Tile literals of the instance format, `red(2,1)` or ` blue(3,2)`: a colour
 * word, then the logical coordinates `x` (column, from the left) and `y`
 * (row, from the bottom).  Colour codes: 0 white, 1 red, 2 blue.
 */
module Tiles {
  import opened PyStr

  const White: int := 0
  const Red: int := 1
  const Blue: int := 2

  /** A parsed tile literal: its colour code and its logical coordinates. */
  datatype Tile = Tile(colour: int, x: int, y: int)

  /** The colour code of a colour word: surrounding whitespace is ignored, and any word but `red` or `blue` reads as white. */
  function ColourOf(word: string): (c: int)
    ensures White <= c <= Blue
  {
    var w := Strip(word, IsSpace);
    if w == "red" then Red else if w == "blue" then Blue else White
  }

  /** Code 1 exactly for `red`, code 2 exactly for `blue`, code 0 for every other word, once stripped. */
  lemma ColourOfCases(word: string)
    ensures ColourOf(word) == Red <==> Strip(word, IsSpace) == "red"
    ensures ColourOf(word) == Blue <==> Strip(word, IsSpace) == "blue"
    ensures ColourOf(word) == White <==> Strip(word, IsSpace) != "red" && Strip(word, IsSpace) != "blue"
  {
  }

  /** The word written for a colour code; `white` stands for any word that is neither `red` nor `blue`. */
  function ColourWord(c: int): string {
    if c == Red then "red" else if c == Blue then "blue" else "white"
  }

  /**
   * `read_tile`: the colour word is the text before the first `(`, `x` the
   * text between it and the next `,`, and `y` the text after that `,` up to
   * the next `)` or `,`.  A missing `(` or `,` raises IndexError; a coordinate
   * that is not an integer raises ValueError.
   */
  function ReadTile(s: string): (r: Result<Tile>)
    ensures r.Ok? ==> White <= r.value.colour <= Blue
  {
    var parts := Split(s, '(');
    var colour := ColourOf(parts[0]);
    if |parts| < 2 then Err(IndexError)
    else
      var x :- PyInt(Split(parts[1], ',')[0]);
      var coords := Split(parts[1], ',');
      if |coords| < 2 then Err(IndexError)
      else
        var y :- PyInt(Split(coords[1], ')')[0]);
        Ok(Tile(colour, x, y))
  }

  /** The canonical text of a tile literal, as the instance files write it. */
  function TileLiteral(t: Tile): string {
    ColourWord(t.colour) + "(" + IntText(t.x) + "," + IntText(t.y) + ")"
  }

  /** Each colour code is read back from its word, whatever whitespace surrounds it. */
  lemma ColourOfWord(a: string, c: int, b: string)
    requires AllSpace(a, IsSpace) && AllSpace(b, IsSpace)
    requires White <= c <= Blue
    ensures ColourOf(a + ColourWord(c) + b) == c
  {
    var w := ColourWord(c);
    assert Strip(a + w + b, IsSpace) == w by {
      ColourWordEnds(c);
      StripPadded(a, w, b, IsSpace);
    }
    assert w != "red" ==> w != "blue" ==> c == White;
  }

  /** A colour word neither starts nor ends with whitespace. */
  lemma ColourWordEnds(c: int)
    ensures |ColourWord(c)| >= 3
    ensures !IsSpace(ColourWord(c)[0]) && !IsSpace(ColourWord(c)[|ColourWord(c)| - 1])
  {
  }

  /**
   * Where each field of a tile literal comes from: the colour from the text
   * before `(`, `x` from the text up to `,`, `y` from the text up to `)`;
   * whatever follows the `)` is ignored.
   */
  lemma ReadTileFields(w: string, a: string, b: string, rest: string)
    requires '(' !in w && '(' !in a && '(' !in b
    requires ',' !in a && ',' !in b && ')' !in b
    ensures ReadTile(w + "(" + a + "," + b + ")" + rest).Ok? <==> PyInt(a).Ok? && PyInt(b).Ok?
    ensures ReadTile(w + "(" + a + "," + b + ")" + rest).Ok? ==>
              ReadTile(w + "(" + a + "," + b + ")" + rest).value
                == Tile(ColourOf(w), PyInt(a).value, PyInt(b).value)
  {
    var s := w + "(" + a + "," + b + ")" + rest;
    var inner := a + "," + b + ")" + rest;
    assert s == w + ['('] + inner;
    SplitConcat(w, inner, '(');
    SplitNoSep(w, '(');
    var p := a + "," + b + ")";
    assert inner == p + rest;
    assert '(' !in p;
    SplitPrepend(p, rest, '(');
    var parts := Split(s, '(');
    assert parts[0] == w;
    var one := parts[1];
    assert one == p + Split(rest, '(')[0];
    var tail := b + ")" + Split(rest, '(')[0];
    assert one == a + [','] + tail;
    SplitConcat(a, tail, ',');
    SplitNoSep(a, ',');
    assert ',' !in b + ")";
    assert tail == (b + ")") + Split(rest, '(')[0];
    SplitPrepend(b + ")", Split(rest, '(')[0], ',');
    var coords := Split(one, ',');
    assert coords[0] == a;
    var ytext := coords[1];
    assert ytext == b + ")" + Split(Split(rest, '(')[0], ',')[0];
    assert ytext == b + [')'] + Split(Split(rest, '(')[0], ',')[0];
    SplitConcat(b, Split(Split(rest, '(')[0], ',')[0], ')');
    SplitNoSep(b, ')');
    assert Split(ytext, ')')[0] == b;
  }

  /** A piece without `(` has no coordinates: `read_tile` raises IndexError. */
  lemma ReadTileNoParen(s: string)
    requires '(' !in s
    ensures ReadTile(s) == Err(IndexError)
  {
    SplitFirst(s, '(');
  }

  /**
   * A piece with no `,` after its `(`, such as `red(3)`: the text after `(`
   * is read as `x`, which raises ValueError unless it is an integer, and then
   * the missing `,` raises IndexError.
   */
  lemma ReadTileNoComma(w: string, a: string)
    requires '(' !in w && '(' !in a && ',' !in a
    ensures PyInt(a).Err? ==> ReadTile(w + "(" + a) == Err(ValueError)
    ensures PyInt(a).Ok? ==> ReadTile(w + "(" + a) == Err(IndexError)
  {
    assert w + "(" + a == w + ['('] + a;
    SplitConcat(w, a, '(');
    SplitNoSep(w, '(');
    SplitNoSep(a, '(');
    SplitNoSep(a, ',');
  }

  /** The text of an integer holds none of the format's delimiters. */
  lemma IntTextDelimiters(v: int)
    ensures '(' !in IntText(v) && ',' !in IntText(v) && ')' !in IntText(v) && '.' !in IntText(v)
  {
    var s := IntText(v);
    forall i | 0 <= i < |s| ensures s[i] != '(' && s[i] != ',' && s[i] != ')' && s[i] != '.' {
      assert IsDigit(s[i]) || s[i] == '-';
    }
  }

  /** A colour word holds none of the format's delimiters. */
  lemma ColourWordDelimiters(c: int)
    ensures '(' !in ColourWord(c) && '.' !in ColourWord(c)
  {
  }

  /** Whitespace holds none of the format's delimiters. */
  lemma SpaceDelimiters(s: string)
    requires AllSpace(s, IsSpace)
    ensures '(' !in s && '.' !in s
  {
    forall i | 0 <= i < |s| ensures s[i] != '(' && s[i] != '.' {
      assert IsSpace(s[i]);
    }
  }

  /** `read_tile` reads back every tile from its canonical text, after any leading whitespace. */
  lemma ReadTileLiteral(lead: string, t: Tile)
    requires AllSpace(lead, IsSpace)
    requires White <= t.colour <= Blue
    ensures ReadTile(lead + TileLiteral(t)) == Ok(t)
  {
    var w := lead + ColourWord(t.colour);
    var a, b := IntText(t.x), IntText(t.y);
    var s := w + "(" + a + "," + b + ")" + "";
    assert lead + TileLiteral(t) == s;
    assert ColourOf(w) == t.colour by {
      assert w == lead + ColourWord(t.colour) + "";
      ColourOfWord(lead, t.colour, "");
    }
    assert PyInt(a) == Ok(t.x) && PyInt(b) == Ok(t.y) by {
      PyIntOfText(t.x);
      PyIntOfText(t.y);
    }
    assert ReadTile(s) == Ok(Tile(ColourOf(w), PyInt(a).value, PyInt(b).value)) by {
      SpaceDelimiters(lead);
      ColourWordDelimiters(t.colour);
      IntTextDelimiters(t.x);
      IntTextDelimiters(t.y);
      ReadTileFields(w, a, b, "");
    }
  }
}
