/**
 * The three JavaScript string operations both halves of the extension use on
 * the text a `docker ps` run prints: `String.prototype.trim`,
 * `String.prototype.split` with a one-character separator, and the
 * `filter(l => l.length > 0)` that drops empty lines.
 */
module Text {

  /** The characters `trim` removes: ECMAScript WhiteSpace and LineTerminator. */
  predicate IsJsSpace(c: char) {
    || c == '\t' || c == '\n' || c == '\U{000B}' || c == '\U{000C}' || c == '\r'
    || c == ' ' || c == '\U{00A0}' || c == '\U{1680}' || ('\U{2000}' <= c <= '\U{200A}')
    || c == '\U{2028}' || c == '\U{2029}' || c == '\U{202F}' || c == '\U{205F}'
    || c == '\U{3000}' || c == '\U{FEFF}'
  }

  ghost predicate AllSpace(s: string) {
    forall k :: 0 <= k < |s| ==> IsJsSpace(s[k])
  }

  /** `r` is what `s.trim()` gives: a slice of `s` with only spaces cut off either end,
      and no space left at either end of it. */
  ghost predicate IsTrimOf(r: string, s: string) {
    exists i, j :: 0 <= i <= j <= |s| && r == s[i..j] && AllSpace(s[..i]) && AllSpace(s[j..])
      && (r == [] || (!IsJsSpace(r[0]) && !IsJsSpace(r[|r| - 1])))
  }

  /** The index of the first non-space at or after `i` (or `|s|`). */
  function ContentStart(s: string, i: nat): (k: nat)
    requires i <= |s|
    ensures i <= k <= |s|
    ensures forall m :: i <= m < k ==> IsJsSpace(s[m])
    ensures k == |s| || !IsJsSpace(s[k])
    decreases |s| - i
  {
    if i < |s| && IsJsSpace(s[i]) then ContentStart(s, i + 1) else i
  }

  /** The index just past the last non-space before `j` and at or after `lo` (or `lo`). */
  function ContentEnd(s: string, lo: nat, j: nat): (k: nat)
    requires lo <= j <= |s|
    ensures lo <= k <= j
    ensures forall m :: k <= m < j ==> IsJsSpace(s[m])
    ensures k == lo || !IsJsSpace(s[k - 1])
  {
    if j > lo && IsJsSpace(s[j - 1]) then ContentEnd(s, lo, j - 1) else j
  }

  /** `s.trim()`. */
  function Trim(s: string): string
  {
    var i := ContentStart(s, 0);
    s[i..ContentEnd(s, i, |s|)]
  }

  /** What `trim` leaves: the slice of `s` with the spaces at either end cut off. */
  lemma TrimMeaning(s: string)
    ensures IsTrimOf(Trim(s), s)
  {
    var i := ContentStart(s, 0);
    var j := ContentEnd(s, i, |s|);
    assert Trim(s) == s[i..j];
    assert AllSpace(s[..i]);
    assert AllSpace(s[j..]);
  }

  /** A string with no space at either end is its own trim. */
  lemma TrimOfTrimmed(s: string)
    requires s == [] || (!IsJsSpace(s[0]) && !IsJsSpace(s[|s| - 1]))
    ensures Trim(s) == s
  {
    assert ContentStart(s, 0) == 0;
  }

  /** The line break that ends the output is trimmed away. */
  lemma TrimFinalBreak(s: string)
    requires s != [] && !IsJsSpace(s[0]) && !IsJsSpace(s[|s| - 1])
    ensures Trim(s + "\n") == s
  {
    var t := s + "\n";
    assert ContentStart(t, 0) == 0;
    assert ContentEnd(t, 0, |s|) == |s|;
    assert t[..|s|] == s;
  }

  /** Trimming twice is trimming once. */
  lemma TrimIdempotent(s: string)
    ensures Trim(Trim(s)) == Trim(s)
  {
    TrimMeaning(s);
    TrimOfTrimmed(Trim(s));
  }

  /** The pieces joined back with the separator between them: the inverse of `Split`. */
  function Join(parts: seq<string>, sep: char): string
    requires |parts| >= 1
  {
    if |parts| == 1 then parts[0] else parts[0] + [sep] + Join(parts[1..], sep)
  }

  /** `s.split(sep)` for a one-character separator: never empty, no piece holds the
      separator, and joining the pieces gives back `s`. */
  function Split(s: string, sep: char): (r: seq<string>)
    ensures |r| >= 1
    ensures forall k :: 0 <= k < |r| ==> sep !in r[k]
    ensures Join(r, sep) == s
  {
    if s == [] then [[]]
    else
      var rest := Split(s[1..], sep);
      if s[0] == sep then
        assert ([[]] + rest)[1..] == rest;
        [[]] + rest
      else
        var r := [[s[0]] + rest[0]] + rest[1..];
        assert r[1..] == rest[1..];
        r
  }

  /** Splitting a joined list of separator-free pieces gives the pieces back, so
      `Split` is the only split whose pieces join back to the input. */
  lemma {:induction false} SplitJoin(parts: seq<string>, sep: char)
    requires |parts| >= 1
    requires forall k :: 0 <= k < |parts| ==> sep !in parts[k]
    ensures Split(Join(parts, sep), sep) == parts
    decreases |Join(parts, sep)|
  {
    var s := Join(parts, sep);
    if parts[0] == [] {
      if |parts| > 1 {
        assert s == [sep] + Join(parts[1..], sep);
        assert s[1..] == Join(parts[1..], sep);
        SplitJoin(parts[1..], sep);
      }
    } else {
      var c, t := parts[0][0], parts[0][1..];
      var next := [t] + parts[1..];
      assert next[1..] == parts[1..];
      assert parts[0] == [c] + t;
      assert c != sep by { assert c == parts[0][0]; }
      assert s == [c] + Join(next, sep);
      assert s[1..] == Join(next, sep);
      SplitJoin(next, sep);
      assert [[c] + t] + parts[1..] == parts;
    }
  }

  /** `lines.filter(l => l.length > 0)`. */
  function NonEmpty(lines: seq<string>): (r: seq<string>)
    ensures |r| <= |lines|
    ensures forall k :: 0 <= k < |r| ==> r[k] != []
    ensures forall x :: x in r <==> x in lines && x != []
  {
    if lines == [] then []
    else (if lines[0] == [] then [] else [lines[0]]) + NonEmpty(lines[1..])
  }

  /** The filter keeps the order of what it keeps. */
  lemma {:induction false} NonEmptyConcat(a: seq<string>, b: seq<string>)
    ensures NonEmpty(a + b) == NonEmpty(a) + NonEmpty(b)
  {
    if a == [] {
      assert a + b == b;
    } else {
      assert (a + b)[0] == a[0];
      assert (a + b)[1..] == a[1..] + b;
      NonEmptyConcat(a[1..], b);
    }
  }

  /** `text.trim().split('\n').filter(l => l.length > 0)`: the lines of the output. */
  function NonEmptyLines(text: string): seq<string>
  {
    NonEmpty(Split(Trim(text), '\n'))
  }

  /** Every line is non-empty and holds no line break. */
  lemma NonEmptyLinesShape(text: string)
    ensures forall k :: 0 <= k < |NonEmptyLines(text)| ==>
      NonEmptyLines(text)[k] != [] && '\n' !in NonEmptyLines(text)[k]
  {
    var pieces := Split(Trim(text), '\n');
    var r := NonEmpty(pieces);
    forall k | 0 <= k < |r| ensures '\n' !in r[k] {
      assert r[k] in pieces;
    }
  }

  /** Only empty lines are dropped: a line of spaces between two others is kept. */
  lemma BlankLineKept()
    ensures NonEmptyLines("a\n \nb") == ["a", " ", "b"]
  {
    var text := "a\n \nb";
    TrimOfTrimmed(text);
    assert text == Join(["a", " ", "b"], '\n');
    SplitJoin(["a", " ", "b"], '\n');
  }
}
