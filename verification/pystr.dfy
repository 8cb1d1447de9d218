/** The pieces of Python's `str` behaviour that the archive index and the
    traversal rely on: `startswith`/`endswith` (also with a tuple of
    affixes), `str.split(', ')`, `str.split()[0]`, and the decimal text of
    a non-negative `int` inside an f-string. */
module PyStr {
  import opened Results

  /** `s.startswith(prefix)` */
  predicate StartsWith(s: string, prefix: string) {
    prefix <= s
  }

  /** `s.endswith(suffix)` */
  predicate EndsWith(s: string, suffix: string) {
    |suffix| <= |s| && s[|s| - |suffix|..] == suffix
  }

  /** `s.startswith(prefixes)` with a tuple: any of them matches */
  predicate StartsWithAny(s: string, prefixes: seq<string>) {
    exists p | p in prefixes :: StartsWith(s, p)
  }

  /** `s.endswith(suffixes)` with a tuple: any of them matches */
  predicate EndsWithAny(s: string, suffixes: seq<string>) {
    exists x | x in suffixes :: EndsWith(s, x)
  }

  // ---------------------------------------------------------------------
  // str.split(', ')

  /** The separator the archive code splits relation and binary fields on. */
  const Sep: string := ", "

  /** `s` holds the separator at position `i` */
  ghost predicate SepAt(s: string, i: int) {
    0 <= i && i + 2 <= |s| && s[i] == ',' && s[i + 1] == ' '
  }

  ghost predicate ContainsSep(s: string) {
    exists i :: SepAt(s, i)
  }

  /** `", ".join(pieces)`; Python never joins an empty list here, but "" is its value. */
  function Join(pieces: seq<string>): string
  {
    if |pieces| == 0 then ""
    else if |pieces| == 1 then pieces[0]
    else pieces[0] + Sep + Join(pieces[1..])
  }

  /** Python's `s.split(', ')`: the text between the non-overlapping
      occurrences of ", ", found from the left. The result is never empty:
      `"".split(', ') == [""]`. Other whitespace, including newlines, is
      kept inside the pieces. */
  function Split(s: string): (r: seq<string>)
    ensures |r| >= 1
    decreases |s|
  {
    if |s| < 2 then [s]
    else if s[0] == ',' && s[1] == ' ' then [""] + Split(s[2..])
    else
      var rest := Split(s[1..]);
      [[s[0]] + rest[0]] + rest[1..]
  }

  /** The pieces `Split` returns join back to `s` and hold no separator; the
      first one is a prefix of `s`. */
  lemma {:induction false} SplitJoins(s: string)
    ensures Join(Split(s)) == s
    ensures forall i | 0 <= i < |Split(s)| :: !ContainsSep(Split(s)[i])
    ensures Split(s)[0] <= s
    decreases |s|
  {
    if |s| < 2 {
      assert forall i :: !SepAt(s, i);
    } else if s[0] == ',' && s[1] == ' ' {
      var rest := Split(s[2..]);
      SplitJoins(s[2..]);
      assert !ContainsSep("");
      JoinCons("", rest);
      assert Sep + s[2..] == s;
      assert Split(s) == [""] + rest;
      assert forall i | 1 <= i < |Split(s)| :: Split(s)[i] == rest[i - 1];
    } else {
      var rest := Split(s[1..]);
      SplitJoins(s[1..]);
      var first := [s[0]] + rest[0];
      ConsKeepsSepFree(s[0], rest[0], s[1..]);
      assert Join([first] + rest[1..]) == [s[0]] + Join(rest) by {
        JoinConsFirst(s[0], rest);
      }
      assert [s[0]] + s[1..] == s;
      assert Split(s) == [first] + rest[1..];
      assert forall i | 1 <= i < |Split(s)| :: Split(s)[i] == rest[i];
    }
  }

  /** Putting a character in front of the first piece puts it in front of the join. */
  lemma {:induction false} JoinConsFirst(c: char, pieces: seq<string>)
    requires |pieces| >= 1
    ensures Join([[c] + pieces[0]] + pieces[1..]) == [c] + Join(pieces)
  {
    var p0, rest := pieces[0], pieces[1..];
    assert [p0] + rest == pieces;
    if |rest| > 0 {
      JoinConsFirstOfMany(c, p0, rest);
    }
  }

  lemma {:induction false} JoinConsFirstOfMany(c: char, p0: string, rest: seq<string>)
    requires |rest| > 0
    ensures Join([[c] + p0] + rest) == [c] + Join([p0] + rest)
  {
    var j := Join(rest);
    calc {
      Join([[c] + p0] + rest);
      { JoinCons([c] + p0, rest); }
      ([c] + p0) + Sep + j;
      { ConcatAssoc([c] + p0, Sep, j); }
      ([c] + p0) + (Sep + j);
      { ConcatAssoc([c], p0, Sep + j); }
      [c] + (p0 + (Sep + j));
      { ConcatAssoc(p0, Sep, j); JoinCons(p0, rest); }
      [c] + Join([p0] + rest);
    }
  }

  lemma {:induction false} ConcatAssoc(a: string, b: string, d: string)
    ensures (a + b) + d == a + (b + d)
  {
  }

  /** Joining a non-empty tail after a first piece. */
  lemma {:induction false} JoinCons(first: string, rest: seq<string>)
    requires |rest| >= 1
    ensures Join([first] + rest) == first + Sep + Join(rest)
  {
    assert ([first] + rest)[1..] == rest;
  }

  /** A separator-free piece stays separator-free when one character is put
      in front of it, unless that character and the first one of the text the
      piece was taken from form ", ". */
  lemma {:induction false} ConsKeepsSepFree(c: char, piece: string, rest: string)
    requires piece <= rest
    requires !ContainsSep(piece)
    requires !(c == ',' && |rest| > 0 && rest[0] == ' ')
    ensures !ContainsSep([c] + piece)
  {
    var p := [c] + piece;
    forall i
      ensures !SepAt(p, i)
    {
      if i > 0 {
        assert !SepAt(piece, i - 1);
      }
    }
  }

  /** Dropping the first character keeps a piece separator-free. */
  lemma {:induction false} TailKeepsSepFree(s: string)
    requires |s| > 0
    requires !ContainsSep(s)
    ensures !ContainsSep(s[1..])
  {
    forall i
      ensures !SepAt(s[1..], i)
    {
      assert !SepAt(s, i + 1);
    }
  }

  /** Splitting is the unique way of cutting `s` into separator-free pieces
      that join back to `s`; this pins Python's result down without
      reference to how it is computed. */
  lemma {:induction false} SplitUnique(s: string, pieces: seq<string>)
    requires |pieces| >= 1
    requires Join(pieces) == s
    requires forall i | 0 <= i < |pieces| :: !ContainsSep(pieces[i])
    ensures pieces == Split(s)
    decreases |s|
  {
    if |pieces| == 1 {
      SplitSepFree(s);
    } else if |pieces[0]| == 0 {
      assert s == Sep + Join(pieces[1..]);
      assert s[2..] == Join(pieces[1..]);
      SplitUnique(s[2..], pieces[1..]);
      assert pieces == [""] + pieces[1..];
    } else {
      var c := pieces[0][0];
      var tail := [pieces[0][1..]] + pieces[1..];
      assert Join(pieces) == pieces[0] + Sep + Join(pieces[1..]);
      assert pieces[0] == [c] + pieces[0][1..];
      assert s == [c] + Join(tail) by {
        JoinConsFirst(c, tail);
        assert [[c] + tail[0]] + tail[1..] == pieces;
      }
      TailKeepsSepFree(pieces[0]);
      assert forall i | 0 <= i < |tail| :: !ContainsSep(tail[i]) by {
        forall i | 0 <= i < |tail| ensures !ContainsSep(tail[i]) {
          if i > 0 { assert tail[i] == pieces[i]; }
        }
      }
      assert s[1..] == Join(tail);
      SplitUnique(s[1..], tail);
      assert |s| >= 2;
      assert !(s[0] == ',' && s[1] == ' ') by {
        if |pieces[0]| >= 2 {
          assert !SepAt(pieces[0], 0);
          assert s[..2] == pieces[0][..2];
        } else {
          assert s[1] == ',';
        }
      }
      assert pieces == [[c] + tail[0]] + tail[1..];
    }
  }

  /** Text without the separator splits into itself. */
  lemma {:induction false} SplitSepFree(s: string)
    requires !ContainsSep(s)
    ensures Split(s) == [s]
    decreases |s|
  {
    if |s| >= 2 {
      assert !SepAt(s, 0);
      TailKeepsSepFree(s);
      SplitSepFree(s[1..]);
      assert [s[0]] + s[1..] == s;
    }
  }

  // ---------------------------------------------------------------------
  // str.split()[0]

  /** The characters Python's `str.split()` without arguments splits on
      (`str.isspace`): the ASCII controls \t \n \v \f \r and \x1c-\x1f, the
      space, and the Unicode spaces and separators. */
  predicate IsSpace(c: char) {
    || ('\U{0009}' <= c <= '\U{000D}')
    || ('\U{001C}' <= c <= '\U{0020}')
    || c == '\U{0085}' || c == '\U{00A0}' || c == '\U{1680}'
    || ('\U{2000}' <= c <= '\U{200A}')
    || c == '\U{2028}' || c == '\U{2029}' || c == '\U{202F}'
    || c == '\U{205F}' || c == '\U{3000}'
  }

  predicate AllSpace(s: string) {
    forall i | 0 <= i < |s| :: IsSpace(s[i])
  }

  predicate NoSpace(s: string) {
    forall i | 0 <= i < |s| :: !IsSpace(s[i])
  }

  /** The longest prefix of `s` without whitespace. */
  function Word(s: string): (r: string)
    ensures r <= s
    ensures NoSpace(r)
    ensures |r| == |s| || IsSpace(s[|r|])
  {
    if |s| == 0 || IsSpace(s[0]) then ""
    else [s[0]] + Word(s[1..])
  }

  /** `s.split()[0]`: the first maximal run of non-whitespace characters, or
      `None` where Python raises IndexError because `s` is blank. */
  function FirstToken(s: string): (r: Option<string>)
    ensures r.None? <==> AllSpace(s)
    ensures r.Some? ==> |r.value| > 0 && NoSpace(r.value)
    ensures r.Some? ==> exists i :: TokenAt(s, i, r.value)
  {
    if |s| == 0 then None
    else if IsSpace(s[0]) then
      var r := FirstToken(s[1..]);
      TokenAfterSpace(s, r);
      r
    else
      var w := Word(s);
      assert TokenAt(s, 0, w);
      Some(w)
  }

  lemma {:induction false} TokenAfterSpace(s: string, r: Option<string>)
    requires |s| > 0 && IsSpace(s[0])
    requires r.Some? ==> exists i :: TokenAt(s[1..], i, r.value)
    ensures r.Some? ==> exists i :: TokenAt(s, i, r.value)
  {
    if r.Some? {
      var i :| TokenAt(s[1..], i, r.value);
      assert s[..i + 1] == [s[0]] + s[1..][..i];
      assert TokenAt(s, i + 1, r.value);
    }
  }

  /** `w` is a maximal word of `s` starting at `i` with only whitespace before it. */
  ghost predicate TokenAt(s: string, i: int, w: string) {
    && 0 <= i && i + |w| <= |s|
    && AllSpace(s[..i])
    && s[i..i + |w|] == w
    && (i + |w| == |s| || IsSpace(s[i + |w|]))
  }

  // ---------------------------------------------------------------------
  // f"{n}" for a non-negative int

  function DigitChar(d: nat): char
    requires d < 10
  {
    "0123456789"[d]
  }

  function DigitValue(c: char): nat
  {
    if '0' <= c <= '9' then (c - '0') as nat else 0
  }

  predicate IsDigits(s: string) {
    forall i | 0 <= i < |s| :: '0' <= s[i] <= '9'
  }

  /** The decimal text of `n`, without sign or leading zeros. */
  function Decimal(n: nat): (r: string)
    ensures |r| > 0 && IsDigits(r)
    ensures |r| > 1 ==> r[0] != '0'
  {
    if n < 10 then [DigitChar(n)]
    else Decimal(n / 10) + [DigitChar(n % 10)]
  }

  /** Reads a string of decimal digits back as a number. */
  function DecimalValue(s: string): nat
  {
    if |s| == 0 then 0
    else DecimalValue(s[..|s| - 1]) * 10 + DigitValue(s[|s| - 1])
  }

  lemma {:induction false} DecimalRoundTrip(n: nat)
    ensures DecimalValue(Decimal(n)) == n
  {
    if n < 10 {
      DigitRoundTrip(n);
      assert Decimal(n)[..0] == [];
    } else {
      var s := Decimal(n);
      assert s[..|s| - 1] == Decimal(n / 10);
      DecimalRoundTrip(n / 10);
      DigitRoundTrip(n % 10);
    }
  }

  lemma {:induction false} DigitRoundTrip(d: nat)
    requires d < 10
    ensures DigitValue(DigitChar(d)) == d
  {
    assert DigitChar(d) == '0' + d as char;
  }

  predicate IsDigit(c: char) {
    '0' <= c <= '9'
  }

  /** The length of the longest run of digits that ends `s`. */
  function TrailingDigits(s: string): (n: nat)
    ensures n <= |s|
    ensures IsDigits(s[|s| - n..])
    ensures n < |s| ==> !IsDigit(s[|s| - n - 1])
  {
    if |s| == 0 || !IsDigit(s[|s| - 1]) then 0
    else
      var k := TrailingDigits(s[..|s| - 1]);
      TrailingStep(s, k);
      k + 1
  }

  /** A digit at the end extends the run of the text before it. */
  lemma {:induction false} TrailingStep(s: string, k: nat)
    requires |s| > 0 && IsDigit(s[|s| - 1])
    requires k <= |s| - 1 && IsDigits(s[..|s| - 1][|s| - 1 - k..])
    requires k < |s| - 1 ==> !IsDigit(s[..|s| - 1][|s| - 1 - k - 1])
    ensures IsDigits(s[|s| - (k + 1)..])
    ensures k + 1 < |s| ==> !IsDigit(s[|s| - (k + 1) - 1])
  {
    var p := s[..|s| - 1];
    var run := s[|s| - (k + 1)..];
    forall i | 0 <= i < |run| ensures '0' <= run[i] <= '9' {
      if i < k {
        assert run[i] == p[|p| - k..][i];
      } else {
        assert run[i] == s[|s| - 1];
      }
    }
    if k + 1 < |s| {
      assert p[|p| - k - 1] == s[|s| - (k + 1) - 1];
    }
  }

  /** Digits appended after a non-digit are exactly the trailing run. */
  lemma {:induction false} TrailingDigitsOfAppend(a: string, d: string)
    requires |a| > 0 && !IsDigit(a[|a| - 1])
    requires IsDigits(d)
    ensures TrailingDigits(a + d) == |d|
    decreases |d|
  {
    if |d| == 0 {
      assert a + d == a;
    } else {
      var init := d[..|d| - 1];
      assert (a + d)[..|a + d| - 1] == a + init;
      TrailingDigitsOfAppend(a, init);
    }
  }
}
