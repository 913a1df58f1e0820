/**
 * The Go standard-library string operations the core is built from
 * (`strings.HasPrefix`, `Contains`, `Split`, `Join`, `Fields`, `Trim`
 * and `strconv.FormatUint`), defined over `string` = seq<char>, with the
 * facts about them that the rest of the model needs.
 */
module GoStrings {

  /** `strings.HasPrefix(s, p)`. */
  predicate HasPrefix(s: string, p: string) {
    |p| <= |s| && s[..|p|] == p
  }

  /** `sub` occurs in `s` starting at index `i`. */
  predicate OccursAt(s: string, sub: string, i: int) {
    0 <= i && i + |sub| <= |s| && s[i..i + |sub|] == sub
  }

  /** `strings.Contains(s, sub)`; the empty string is contained in every string. */
  predicate Contains(s: string, sub: string) {
    exists i | 0 <= i <= |s| - |sub| :: OccursAt(s, sub, i)
  }

  /**
   * `strings.Split(s, sep)` for a non-empty separator: the pieces between the
   * leftmost non-overlapping occurrences of `sep`. There is always at least
   * one piece; `Split("", sep) == [""]`.
   */
  function Split(s: string, sep: string): (parts: seq<string>)
    requires sep != []
    ensures |parts| >= 1
    decreases |s|
  {
    if |s| < |sep| then [s]
    else if s[..|sep|] == sep then [[]] + Split(s[|sep|..], sep)
    else
      var rest := Split(s[1..], sep);
      [[s[0]] + rest[0]] + rest[1..]
  }

  /** `strings.Join(parts, sep)`. */
  function Join(parts: seq<string>, sep: string): string
    decreases |parts|
  {
    if |parts| == 0 then []
    else if |parts| == 1 then parts[0]
    else parts[0] + sep + Join(parts[1..], sep)
  }

  /** Joining the pieces of a split with the same separator gives the input back. */
  lemma {:induction false} JoinSplit(s: string, sep: string)
    requires sep != []
    ensures Join(Split(s, sep), sep) == s
    decreases |s|
  {
    var parts := Split(s, sep);
    if |s| < |sep| {
    } else if s[..|sep|] == sep {
      var tail := Split(s[|sep|..], sep);
      JoinSplit(s[|sep|..], sep);
      assert parts == [[]] + tail && parts[1..] == tail;
      calc {
        Join(parts, sep);
        parts[0] + sep + Join(parts[1..], sep);
        sep + s[|sep|..];
        s;
      }
    } else {
      var rest := Split(s[1..], sep);
      JoinSplit(s[1..], sep);
      assert parts == [[s[0]] + rest[0]] + rest[1..];
      if |rest| == 1 {
        assert Join(parts, sep) == [s[0]] + rest[0] == [s[0]] + s[1..];
      } else {
        assert parts[1..] == rest[1..];
        assert Join(rest, sep) == rest[0] + sep + Join(rest[1..], sep);
        assert Join(parts, sep) == [s[0]] + rest[0] + sep + Join(rest[1..], sep);
        assert Join(parts, sep) == [s[0]] + Join(rest, sep);
      }
      assert s == [s[0]] + s[1..];
    }
  }

  /** A string without the separator character splits into itself alone. */
  lemma {:induction false} SplitWithout(x: string, c: char)
    requires c !in x
    ensures Split(x, [c]) == [x]
    decreases |x|
  {
    if |x| >= 1 {
      SplitWithout(x[1..], c);
      assert [x[0]] + x[1..] == x;
    }
  }

  /** Splitting at the first separator character peels off the text before it. */
  lemma {:induction false} SplitAfter(x: string, c: char, rest: string)
    requires c !in x
    ensures Split(x + [c] + rest, [c]) == [x] + Split(rest, [c])
    decreases |x|
  {
    var s := x + [c] + rest;
    if x == [] {
      assert s[..1] == [c] && s[1..] == rest;
    } else {
      assert s[..1] != [c] by { assert s[0] == x[0]; }
      assert s[1..] == x[1..] + [c] + rest;
      SplitAfter(x[1..], c, rest);
      assert [x[0]] + x[1..] == x;
    }
  }

  /** No piece of a split on a character contains that character. */
  lemma {:induction false} SplitPiecesWithout(s: string, c: char)
    ensures forall p | p in Split(s, [c]) :: c !in p
    decreases |s|
  {
    if |s| >= 1 {
      SplitPiecesWithout(s[1..], c);
    }
  }

  /** No piece of a split contains a character the input does not contain. */
  lemma {:induction false} SplitPiecesFrom(s: string, sep: string, d: char)
    requires sep != [] && d !in s
    ensures forall p | p in Split(s, sep) :: d !in p
    decreases |s|
  {
    if |s| >= |sep| {
      if s[..|sep|] == sep {
        SplitPiecesFrom(s[|sep|..], sep, d);
      } else {
        SplitPiecesFrom(s[1..], sep, d);
        var rest := Split(s[1..], sep);
        assert rest[0] in rest;
      }
    }
  }

  /**
   * Splitting the join of pieces that do not contain the separator character
   * gives the pieces back, in order.
   */
  lemma {:induction false} SplitJoin(parts: seq<string>, c: char)
    requires |parts| >= 1
    requires forall p | p in parts :: c !in p
    ensures Split(Join(parts, [c]), [c]) == parts
    decreases |parts|
  {
    if |parts| == 1 {
      SplitWithout(parts[0], c);
    } else {
      SplitJoin(parts[1..], c);
      SplitAfter(parts[0], c, Join(parts[1..], [c]));
      assert parts == [parts[0]] + parts[1..];
    }
  }

  /** A join introduces no character that is neither in a piece nor in the separator. */
  lemma {:induction false} JoinWithout(parts: seq<string>, sep: string, d: char)
    requires d !in sep
    requires forall p | p in parts :: d !in p
    ensures d !in Join(parts, sep)
    decreases |parts|
  {
    if |parts| > 1 {
      JoinWithout(parts[1..], sep, d);
      assert parts[0] in parts;
    }
  }

  /** The first piece of a split on a character is the text before its first occurrence. */
  lemma {:induction false} SplitFirst(s: string, c: char)
    ensures var first := Split(s, [c])[0];
      && |first| <= |s| && first == s[..|first|]
      && c !in first
      && (|first| < |s| ==> s[|first|] == c)
    decreases |s|
  {
    if |s| >= 1 && s[0] != c {
      SplitFirst(s[1..], c);
    }
  }

  /** `unicode.IsSpace`, the separator test of `strings.Fields`. */
  predicate IsSpace(ch: char) {
    || ch == ' '
    || ('\t' <= ch <= '\r')
    || ch == '\U{85}' || ch == '\U{A0}' || ch == '\U{1680}'
    || ('\U{2000}' <= ch <= '\U{200A}')
    || ch == '\U{2028}' || ch == '\U{2029}' || ch == '\U{202F}' || ch == '\U{205F}' || ch == '\U{3000}'
  }

  /** Visible ASCII characters ('!' to '~') are not white space. */
  lemma VisibleNotSpace(s: string)
    requires forall i | 0 <= i < |s| :: '!' <= s[i] <= '~'
    ensures forall i | 0 <= i < |s| :: !IsSpace(s[i])
  {
  }

  /** The longest prefix of `s` that holds no white space. */
  function Word(s: string): (w: string)
    ensures |w| <= |s| && w == s[..|w|]
    ensures forall i | 0 <= i < |w| :: !IsSpace(w[i])
    ensures |w| < |s| ==> IsSpace(s[|w|])
  {
    if s == [] || IsSpace(s[0]) then [] else [s[0]] + Word(s[1..])
  }

  /**
   * `strings.Fields(s)`: the maximal runs of non-space characters, in order.
   * Every field is non-empty and holds no white space.
   */
  function Fields(s: string): (fs: seq<string>)
    ensures forall f | f in fs :: |f| > 0 && forall i | 0 <= i < |f| :: !IsSpace(f[i])
    decreases |s|
  {
    if s == [] then []
    else if IsSpace(s[0]) then Fields(s[1..])
    else
      var w := Word(s);
      [w] + Fields(s[|w|..])
  }

  /** There is no field exactly when the input is all white space. */
  lemma {:induction false} FieldsEmpty(s: string)
    ensures Fields(s) == [] <==> forall i | 0 <= i < |s| :: IsSpace(s[i])
    decreases |s|
  {
    if s != [] && IsSpace(s[0]) {
      FieldsEmpty(s[1..]);
      assert forall i | 1 <= i < |s| :: s[i] == s[1..][i - 1];
    }
  }

  /** Leading white space contributes no field. */
  lemma {:induction false} FieldsAfterSpace(w: string, t: string)
    requires forall i | 0 <= i < |w| :: IsSpace(w[i])
    ensures Fields(w + t) == Fields(t)
    decreases |w|
  {
    if w != [] {
      var u := w + t;
      assert u[0] == w[0] && IsSpace(u[0]);
      assert u[1..] == w[1..] + t;
      assert Fields(u) == Fields(u[1..]);
      FieldsAfterSpace(w[1..], t);
    } else {
      assert w + t == t;
    }
  }

  /** A run of non-space characters followed by white space or the end is one field. */
  lemma {:induction false} FieldsWord(a: string, t: string)
    requires |a| > 0 && forall i | 0 <= i < |a| :: !IsSpace(a[i])
    requires t == [] || IsSpace(t[0])
    ensures Fields(a + t) == [a] + Fields(t)
  {
    WordOf(a, t);
    assert (a + t)[|a|..] == t;
  }

  lemma {:induction false} WordOf(a: string, t: string)
    requires forall i | 0 <= i < |a| :: !IsSpace(a[i])
    requires t == [] || IsSpace(t[0])
    ensures Word(a + t) == a
    decreases |a|
  {
    if a != [] {
      assert (a + t)[1..] == a[1..] + t;
      WordOf(a[1..], t);
    }
  }

  /** White space, then a run of non-space characters ending at white space or the end: one field. */
  lemma FieldsSpaceWord(w: string, a: string, t: string)
    requires forall i | 0 <= i < |w| :: IsSpace(w[i])
    requires |a| > 0 && forall i | 0 <= i < |a| :: !IsSpace(a[i])
    requires t == [] || IsSpace(t[0])
    ensures Fields(w + a + t) == [a] + Fields(t)
  {
    assert w + a + t == w + (a + t);
    FieldsAfterSpace(w, a + t);
    FieldsWord(a, t);
  }

  /**
   * The first two fields of a line made of optional white space, a word,
   * white space, a second word and then white space or the end.
   */
  lemma FieldsFirstTwo(w0: string, a: string, w1: string, b: string, rest: string)
    requires forall i | 0 <= i < |w0| :: IsSpace(w0[i])
    requires |w1| > 0 && forall i | 0 <= i < |w1| :: IsSpace(w1[i])
    requires |a| > 0 && forall i | 0 <= i < |a| :: !IsSpace(a[i])
    requires |b| > 0 && forall i | 0 <= i < |b| :: !IsSpace(b[i])
    requires rest == [] || IsSpace(rest[0])
    ensures Fields(w0 + a + (w1 + b + rest)) == [a, b] + Fields(rest)
  {
    var t := w1 + b + rest;
    assert t[0] == w1[0];
    FieldsSpaceWord(w0, a, t);
    FieldsSpaceWord(w1, b, rest);
  }

  /** `strings.TrimLeft(s, string(c))`: drop every leading `c`. */
  function TrimLeft(s: string, c: char): (r: string)
    ensures |r| <= |s| && r == s[|s| - |r|..]
    ensures forall i | 0 <= i < |s| - |r| :: s[i] == c
    ensures r == [] || r[0] != c
  {
    if s != [] && s[0] == c then TrimLeft(s[1..], c) else s
  }

  /** `strings.TrimRight(s, string(c))`: drop every trailing `c`. */
  function TrimRight(s: string, c: char): (r: string)
    ensures |r| <= |s| && r == s[..|r|]
    ensures forall i | |r| <= i < |s| :: s[i] == c
    ensures r == [] || r[|r| - 1] != c
  {
    if s != [] && s[|s| - 1] == c then TrimRight(s[..|s| - 1], c) else s
  }

  /**
   * `strings.Trim(s, string(c))`: `s` with every leading and trailing `c`
   * removed; what is left neither starts nor ends with `c`, and everything
   * removed from either end is `c`.
   */
  function Trim(s: string, c: char): (r: string)
    ensures r == [] || (r[0] != c && r[|r| - 1] != c)
    ensures exists i | 0 <= i <= |s| - |r| ::
      && OccursAt(s, r, i)
      && (forall j | 0 <= j < i :: s[j] == c)
      && (forall j | i + |r| <= j < |s| :: s[j] == c)
  {
    var l := TrimLeft(s, c);
    var r := TrimRight(l, c);
    var i := |s| - |l|;
    assert s[i..i + |r|] == l[..|r|] == r;
    assert forall j | 0 <= j < i :: s[j] == c;
    assert forall j | i + |r| <= j < |s| :: s[j] == c by {
      forall j | i + |r| <= j < |s| ensures s[j] == c {
        assert s[j] == l[j - i];
      }
    }
    assert 0 <= i <= |s| - |r| && OccursAt(s, r, i);
    r
  }

  /** A string that neither starts nor ends with `c`, wrapped in one `c` each side, trims back to itself. */
  lemma TrimWrapped(x: string, c: char)
    requires x != [] && x[0] != c && x[|x| - 1] != c
    ensures Trim([c] + x + [c], c) == x
    ensures Trim(x, c) == x
  {
    assert ([c] + x + [c])[1..] == x + [c];
    assert (x + [c])[..|x|] == x;
  }

  /** The decimal digit character for `d`. */
  function DigitChar(d: nat): (ch: char)
    requires d < 10
    ensures '0' <= ch <= '9'
  {
    ('0' as int + d) as char
  }

  predicate IsDigits(s: string) {
    forall i | 0 <= i < |s| :: '0' <= s[i] <= '9'
  }

  /** `strconv.FormatUint(n, 10)`: decimal digits, no sign, no leading zero. */
  function FormatUint(n: nat): (s: string)
    ensures |s| >= 1 && IsDigits(s)
    ensures |s| > 1 ==> s[0] != '0'
  {
    if n < 10 then [DigitChar(n)] else FormatUint(n / 10) + [DigitChar(n % 10)]
  }

  /** The value of a string of decimal digits (the inverse of FormatUint). */
  function ParseUint(s: string): nat
    requires IsDigits(s)
  {
    if s == [] then 0
    else ParseUint(s[..|s| - 1]) * 10 + (s[|s| - 1] as int - '0' as int)
  }

  lemma {:induction false} ParseFormatUint(n: nat)
    ensures ParseUint(FormatUint(n)) == n
  {
    if n >= 10 {
      ParseFormatUint(n / 10);
      var s := FormatUint(n);
      assert s[..|s| - 1] == FormatUint(n / 10);
    }
  }
}
