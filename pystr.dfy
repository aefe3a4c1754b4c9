/**
 * The Python built-ins the instance reader leans on, on strings as `seq<char>`:
 * `str.split` with a one-character separator, `str.strip`, `str.startswith`,
 * `int()` applied to a string, and indexing with possibly negative indices.
 * A raised exception becomes an `Err` carrying the exception's class.
 */
module PyStr {

  /** The two exception classes the reader can raise. */
  datatype Error = IndexError | ValueError

  datatype Option<T> = None | Some(value: T)

  datatype Result<T> = Ok(value: T) | Err(error: Error) {
    predicate IsFailure() { Err? }

    function PropagateFailure<U>(): Result<U>
      requires Err?
    {
      Err(error)
    }

    function Extract(): T
      requires Ok?
    {
      value
    }
  }

  // ---------------------------------------------------------------------------
  // str.split(sep)

  /** `s.split(sep)`: the pieces of `s` between occurrences of `sep`, in order. */
  function Split(s: string, sep: char): (parts: seq<string>)
    ensures |parts| >= 1
    decreases |s|
  {
    if s == [] then [""]
    else
      var rest := Split(s[1..], sep);
      if s[0] == sep then [""] + rest
      else [[s[0]] + rest[0]] + rest[1..]
  }

  /** `sep.join(parts)`, the inverse of `Split`. */
  function Join(parts: seq<string>, sep: char): string
    requires |parts| >= 1
    decreases |parts|
  {
    if |parts| == 1 then parts[0] else parts[0] + [sep] + Join(parts[1..], sep)
  }

  /** Joining the pieces back gives the original string, and no piece holds the separator. */
  lemma {:induction false} JoinSplit(s: string, sep: char)
    ensures Join(Split(s, sep), sep) == s
    ensures forall k :: 0 <= k < |Split(s, sep)| ==> sep !in Split(s, sep)[k]
    decreases |s|
  {
    if s != [] {
      JoinSplit(s[1..], sep);
      var rest := Split(s[1..], sep);
      if s[0] == sep {
        assert Split(s, sep) == [""] + rest;
        assert ([""] + rest)[1..] == rest;
        assert s == [sep] + s[1..];
      } else {
        var parts := Split(s, sep);
        assert parts[0] == [s[0]] + rest[0];
        assert parts[1..] == rest[1..];
        if |rest| == 1 {
          assert s == [s[0]] + s[1..];
        } else {
          assert Join(rest, sep) == rest[0] + [sep] + Join(rest[1..], sep);
          assert s == [s[0]] + s[1..];
        }
        forall k | 0 <= k < |parts| ensures sep !in parts[k] {
          if k > 0 { assert parts[k] == rest[k]; }
        }
      }
    }
  }

  /** A string without the separator is a single piece. */
  lemma {:induction false} SplitNoSep(s: string, sep: char)
    requires sep !in s
    ensures Split(s, sep) == [s]
    decreases |s|
  {
    if s != [] {
      SplitNoSep(s[1..], sep);
      assert [s[0]] + s[1..] == s;
    }
  }

  /**
   * The first piece is the text before the first separator (the whole string
   * when there is none), and there is more than one piece exactly when the
   * string holds the separator.
   */
  lemma {:induction false} SplitFirst(s: string, sep: char)
    ensures |Split(s, sep)[0]| <= |s| && Split(s, sep)[0] == s[..|Split(s, sep)[0]|]
    ensures sep !in Split(s, sep)[0]
    ensures |Split(s, sep)| == 1 <==> sep !in s
    ensures |Split(s, sep)| > 1 ==> |Split(s, sep)[0]| < |s| && s[|Split(s, sep)[0]|] == sep
    ensures |Split(s, sep)| == 1 ==> Split(s, sep)[0] == s
    decreases |s|
  {
    if s != [] {
      SplitFirst(s[1..], sep);
      var rest := Split(s[1..], sep);
      if s[0] != sep {
        assert s[..1 + |rest[0]|] == [s[0]] + s[1..][..|rest[0]|];
        assert sep in s <==> sep in s[1..] by {
          assert s == [s[0]] + s[1..];
        }
      }
    }
  }

  /** A prefix free of the separator sticks to the first piece. */
  lemma {:induction false} SplitPrepend(p: string, s: string, sep: char)
    requires sep !in p
    ensures Split(p + s, sep) == [p + Split(s, sep)[0]] + Split(s, sep)[1..]
    decreases |p|
  {
    if p != [] {
      SplitPrepend(p[1..], s, sep);
      assert (p + s)[0] == p[0] && (p + s)[1..] == p[1..] + s;
      var rest := Split(p[1..] + s, sep);
      assert rest[0] == p[1..] + Split(s, sep)[0];
      assert rest[1..] == Split(s, sep)[1..];
      assert Split(p + s, sep) == [[p[0]] + rest[0]] + rest[1..];
      assert [p[0]] + (p[1..] + Split(s, sep)[0]) == p + Split(s, sep)[0];
    } else {
      assert p + s == s && p + Split(s, sep)[0] == Split(s, sep)[0];
      assert [Split(s, sep)[0]] + Split(s, sep)[1..] == Split(s, sep);
    }
  }

  /** Splitting a string that starts with a given character. */
  lemma SplitCons(c: char, s: string, sep: char)
    ensures c == sep ==> Split([c] + s, sep) == [""] + Split(s, sep)
    ensures c != sep ==> Split([c] + s, sep) == [[c] + Split(s, sep)[0]] + Split(s, sep)[1..]
  {
    assert ([c] + s)[0] == c && ([c] + s)[1..] == s;
  }

  /** Two lists of pieces that share their first piece. */
  lemma PiecesConcat(first: string, ra: seq<string>, rb: seq<string>)
    requires |ra| >= 1
    ensures [first + (ra + rb)[0]] + (ra + rb)[1..] == ([first + ra[0]] + ra[1..]) + rb
  {
    assert (ra + rb)[0] == ra[0] && (ra + rb)[1..] == ra[1..] + rb;
  }

  /** One step of `SplitConcat`: a character put in front of both sides. */
  lemma SplitConcatStep(c: char, a: string, b: string, sep: char)
    requires Split(a + [sep] + b, sep) == Split(a, sep) + Split(b, sep)
    ensures Split([c] + a + [sep] + b, sep) == Split([c] + a, sep) + Split(b, sep)
  {
    var ra, rb := Split(a, sep), Split(b, sep);
    assert [c] + a + [sep] + b == [c] + (a + [sep] + b);
    SplitCons(c, a + [sep] + b, sep);
    SplitCons(c, a, sep);
    if c == sep {
      assert [""] + (ra + rb) == ([""] + ra) + rb;
    } else {
      PiecesConcat([c], ra, rb);
    }
  }

  /** Splitting at a separator splits each side independently. */
  lemma {:induction false} SplitConcat(a: string, b: string, sep: char)
    ensures Split(a + [sep] + b, sep) == Split(a, sep) + Split(b, sep)
    decreases |a|
  {
    if a == [] {
      assert a + [sep] + b == [sep] + b;
      SplitCons(sep, b, sep);
    } else {
      SplitConcat(a[1..], b, sep);
      SplitConcatStep(a[0], a[1..], b, sep);
      assert [a[0]] + a[1..] == a;
    }
  }

  /** Splitting a join of separator-free pieces gives the pieces back. */
  lemma {:induction false} SplitJoin(parts: seq<string>, sep: char)
    requires |parts| >= 1
    requires forall k :: 0 <= k < |parts| ==> sep !in parts[k]
    ensures Split(Join(parts, sep), sep) == parts
    decreases |parts|
  {
    if |parts| == 1 {
      SplitNoSep(parts[0], sep);
    } else {
      SplitJoin(parts[1..], sep);
      SplitConcat(parts[0], Join(parts[1..], sep), sep);
      SplitNoSep(parts[0], sep);
      assert [parts[0]] + parts[1..] == parts;
    }
  }

  // ---------------------------------------------------------------------------
  // str.strip() and str.startswith(prefix)

  /**
   * Python's `str.isspace` for one character: the ASCII controls 0x09-0x0D and
   * 0x1C-0x1F, the space, and the Unicode spaces and separators.
   */
  predicate IsSpace(ch: char) {
    var c := ch as int;
    (0x09 <= c <= 0x0D) || (0x1C <= c <= 0x20) || c == 0x85 || c == 0xA0 || c == 0x1680
    || (0x2000 <= c <= 0x200A) || c == 0x2028 || c == 0x2029 || c == 0x202F || c == 0x205F
    || c == 0x3000
  }

  /**
   * The whitespace `int()` skips around a number.  It first maps every
   * non-ASCII space to `' '`, then skips only the C-locale spaces 0x09-0x0D and
   * 0x20, so the information separators 0x1C-0x1F, which `str.isspace`
   * counts, are not skipped.
   */
  predicate IntSpace(ch: char) {
    IsSpace(ch) && !(0x1C <= ch as int <= 0x1F)
  }

  /** Every character of `s` is whitespace in the set `ws`. */
  predicate AllSpace(s: string, ws: char -> bool) {
    forall i :: 0 <= i < |s| ==> ws(s[i])
  }

  /** `s.lstrip()` over the whitespace set `ws`: the suffix left after dropping leading whitespace. */
  function StripLeft(s: string, ws: char -> bool): (r: string)
    ensures |r| <= |s| && r == s[|s| - |r|..]
    ensures AllSpace(s[..|s| - |r|], ws)
    ensures r == [] || !ws(r[0])
    decreases |s|
  {
    if s != [] && ws(s[0]) then
      var r := StripLeft(s[1..], ws);
      assert s[..|s| - |r|] == [s[0]] + s[1..][..|s| - 1 - |r|];
      r
    else s
  }

  /** `s.rstrip()` over the whitespace set `ws`: the prefix left after dropping trailing whitespace. */
  function StripRight(s: string, ws: char -> bool): (r: string)
    ensures |r| <= |s| && r == s[..|r|]
    ensures AllSpace(s[|r|..], ws)
    ensures r == [] || !ws(r[|r| - 1])
    decreases |s|
  {
    if s != [] && ws(s[|s| - 1]) then
      var r := StripRight(s[..|s| - 1], ws);
      assert s[|r|..] == s[..|s| - 1][|r|..] + [s[|s| - 1]];
      r
    else s
  }

  /** `s.strip()` over the whitespace set `ws`; `str.strip()` itself is `Strip(s, IsSpace)`. */
  function Strip(s: string, ws: char -> bool): (r: string)
    ensures |r| <= |s|
    ensures r == [] || (!ws(r[0]) && !ws(r[|r| - 1]))
  {
    var r := StripRight(StripLeft(s, ws), ws);
    assert r != [] ==> r[0] == StripLeft(s, ws)[0];
    r
  }

  lemma {:induction false} StripLeftSpaces(a: string, t: string, ws: char -> bool)
    requires AllSpace(a, ws)
    ensures StripLeft(a + t, ws) == StripLeft(t, ws)
    decreases |a|
  {
    if a != [] {
      assert (a + t)[0] == a[0] && (a + t)[1..] == a[1..] + t;
      assert ws(a[0]);
      StripLeftSpaces(a[1..], t, ws);
    } else {
      assert a + t == t;
    }
  }

  lemma {:induction false} StripRightSpaces(t: string, b: string, ws: char -> bool)
    requires AllSpace(b, ws)
    ensures StripRight(t + b, ws) == StripRight(t, ws)
    decreases |b|
  {
    if b != [] {
      assert (t + b)[|t + b| - 1] == b[|b| - 1] && (t + b)[..|t + b| - 1] == t + b[..|b| - 1];
      assert ws(b[|b| - 1]);
      StripRightSpaces(t, b[..|b| - 1], ws);
    } else {
      assert t + b == t;
    }
  }

  /** Whitespace around a word that neither starts nor ends with whitespace is exactly what `strip` removes. */
  lemma StripPadded(a: string, s: string, b: string, ws: char -> bool)
    requires AllSpace(a, ws) && AllSpace(b, ws)
    requires s == [] || (!ws(s[0]) && !ws(s[|s| - 1]))
    ensures Strip(a + s + b, ws) == s
  {
    assert a + s + b == a + (s + b);
    StripLeftSpaces(a, s + b, ws);
    if s == [] {
      assert s + b == b;
      assert StripLeft(b, ws) == [];
    } else {
      assert StripLeft(s + b, ws) == s + b;
      StripRightSpaces(s, b, ws);
    }
  }

  /** `s.startswith(prefix)`. */
  predicate StartsWith(s: string, prefix: string) {
    |prefix| <= |s| && s[..|prefix|] == prefix
  }

  // ---------------------------------------------------------------------------
  // int(s) for a string s, base 10

  predicate IsDigit(ch: char) {
    '0' <= ch <= '9'
  }

  predicate AllDigits(s: string) {
    forall i :: 0 <= i < |s| ==> IsDigit(s[i])
  }

  /** The digits of a base-10 literal body: digits, with single underscores only between two digits. */
  predicate IsNumeral(s: string) {
    && |s| > 0
    && IsDigit(s[0])
    && IsDigit(s[|s| - 1])
    && forall i :: 0 <= i < |s| ==> IsDigit(s[i]) || (s[i] == '_' && i + 1 < |s| && IsDigit(s[i + 1]))
  }

  /** The digit characters of `s`, in order (underscores dropped). */
  function DigitsOf(s: string): (r: string)
    ensures AllDigits(r) && |r| <= |s|
    decreases |s|
  {
    if s == [] then []
    else DigitsOf(s[..|s| - 1]) + (if IsDigit(s[|s| - 1]) then [s[|s| - 1]] else [])
  }

  lemma {:induction false} DigitsOfDigits(s: string)
    requires AllDigits(s)
    ensures DigitsOf(s) == s
    decreases |s|
  {
    if s != [] {
      DigitsOfDigits(s[..|s| - 1]);
      assert s[..|s| - 1] + [s[|s| - 1]] == s;
    }
  }

  /** The value of a string of decimal digits, most significant first. */
  function DecimalValue(ds: string): nat
    requires AllDigits(ds)
    decreases |ds|
  {
    if ds == [] then 0
    else DecimalValue(ds[..|ds| - 1]) * 10 + (ds[|ds| - 1] as int - '0' as int)
  }

  /**
   * `int(s)`: surrounding `int()` whitespace is ignored, an optional sign is
   * read, and the rest must be a base-10 numeral; anything else raises ValueError.
   */
  function PyInt(s: string): (r: Result<int>)
    ensures r.Err? ==> r.error == ValueError
  {
    var t := Strip(s, IntSpace);
    var signed := |t| > 0 && (t[0] == '+' || t[0] == '-');
    var body := if signed then t[1..] else t;
    if !IsNumeral(body) then Err(ValueError)
    else
      var v: int := DecimalValue(DigitsOf(body));
      Ok(if signed && t[0] == '-' then -v else v)
  }

  /** `str(v)` for a natural number: its decimal digits, without leading zeros. */
  function NatText(v: nat): (s: string)
    ensures |s| >= 1 && AllDigits(s)
    decreases v
  {
    (if v < 10 then "" else NatText(v / 10)) + [('0' as int + v % 10) as char]
  }

  /** `str(v)` for an integer. */
  function IntText(v: int): (s: string)
    ensures |s| >= 1 && !IsSpace(s[0]) && !IsSpace(s[|s| - 1])
    ensures forall i :: 0 <= i < |s| ==> IsDigit(s[i]) || (i == 0 && s[i] == '-')
  {
    if v < 0 then "-" + NatText(-v) else NatText(v)
  }

  lemma {:induction false} DecimalValueNatText(v: nat)
    ensures DecimalValue(NatText(v)) == v
    decreases v
  {
    var s := NatText(v);
    var p := if v < 10 then "" else NatText(v / 10);
    assert s[..|s| - 1] == p;
    if v >= 10 {
      DecimalValueNatText(v / 10);
    }
  }

  /** `int()` of text that strips to an integer's decimal text reads that integer. */
  lemma PyIntStripped(s: string, v: int)
    requires Strip(s, IntSpace) == IntText(v)
    ensures PyInt(s) == Ok(v)
  {
    var t := IntText(v);
    var u: nat := if v < 0 then -v else v;
    var digits := NatText(u);
    assert IsNumeral(digits);
    assert DecimalValue(DigitsOf(digits)) == v || DecimalValue(DigitsOf(digits)) == -v by {
      DigitsOfDigits(digits);
      DecimalValueNatText(u);
    }
    if v < 0 {
      assert t == "-" + digits && t[1..] == digits && t[0] == '-';
    } else {
      assert t == digits && !(t[0] == '+' || t[0] == '-');
    }
  }

  /** `int(str(v)) == v`, with any whitespace `int()` skips around the text. */
  lemma PyIntIntText(a: string, v: int, b: string)
    requires AllSpace(a, IntSpace) && AllSpace(b, IntSpace)
    ensures PyInt(a + IntText(v) + b) == Ok(v)
  {
    StripPadded(a, IntText(v), b, IntSpace);
    PyIntStripped(a + IntText(v) + b, v);
  }

  /**
   * An information separator (0x1C-0x1F) in front of a number makes `int()`
   * raise ValueError, although `str.strip()` would remove it.
   */
  lemma PyIntSeparator(c: char, s: string)
    requires 0x1C <= c as int <= 0x1F
    ensures IsSpace(c) && PyInt([c] + s) == Err(ValueError)
  {
    var l := StripLeft([c] + s, IntSpace);
    assert l == [c] + s;
    var t := StripRight(l, IntSpace);
    assert !IntSpace(l[0]);
    assert t != [] && t[0] == c;
  }

  /** `int(str(v)) == v`. */
  lemma PyIntOfText(v: int)
    ensures PyInt(IntText(v)) == Ok(v)
  {
    var s, none := IntText(v), [];
    assert AllSpace(none, IntSpace);
    assert none + s + none == s;
    PyIntIntText(none, v, none);
  }

  // ---------------------------------------------------------------------------
  // seq[i] with Python's negative indices

  /** The position `seq[i]` reads in a sequence of length `len`: a negative `i` counts from the end. */
  function PyIndex(i: int, len: nat): (r: Result<nat>)
    ensures r.Ok? <==> -(len as int) <= i < len
    ensures r.Ok? ==> r.value < len && (r.value == i || r.value == i + len)
    ensures r.Err? ==> r.error == IndexError
  {
    if -(len as int) <= i < len then Ok(if i < 0 then i + len else i) else Err(IndexError)
  }
}
