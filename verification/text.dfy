/** The string operations the control relies on: Swift's `split(separator:)`,
    `trimmingCharacters(in: .whitespaces)`, `dropLast()`, `lowercased()`, and the
    white-space skipping that C's `atof` does before it reads a number. */
module Text {

  /** Characters C's `isspace` accepts in the "C" locale. */
  predicate IsCSpace(c: char) {
    c == ' ' || c == '\t' || c == '\n' || c == '\r' || c == '\U{000B}' || c == '\U{000C}'
  }

  /** Members of Foundation's `CharacterSet.whitespaces`: the horizontal tab and the
      Unicode space separators (general category Zs). Line breaks are not members. */
  predicate IsWhitespace(c: char) {
    || c == '\t'
    || c == ' '
    || c == '\U{00A0}'
    || c == '\U{1680}'
    || ('\U{2000}' <= c <= '\U{200A}')
    || c == '\U{202F}'
    || c == '\U{205F}'
    || c == '\U{3000}'
  }

  /** `s` without its longest prefix of characters satisfying `p`. */
  function DropLeading(s: string, p: char -> bool): (r: string)
    ensures |r| <= |s|
    ensures r == [] || !p(r[0])
    ensures forall i :: 0 <= i < |s| - |r| ==> p(s[i])
    decreases |s|
  {
    if |s| > 0 && p(s[0]) then DropLeading(s[1..], p) else s
  }

  /** What `DropLeading` keeps is a suffix of `s`. */
  lemma {:induction false} DropLeadingSuffix(s: string, p: char -> bool)
    ensures DropLeading(s, p) == s[|s| - |DropLeading(s, p)|..]
    decreases |s|
  {
    if |s| > 0 && p(s[0]) {
      DropLeadingSuffix(s[1..], p);
    }
  }

  /** `s` without its longest suffix of characters satisfying `p`. */
  function DropTrailing(s: string, p: char -> bool): (r: string)
    ensures |r| <= |s| && r == s[..|r|]
    ensures r == [] || !p(r[|r| - 1])
    ensures forall i :: |r| <= i < |s| ==> p(s[i])
    decreases |s|
  {
    if |s| > 0 && p(s[|s| - 1]) then DropTrailing(s[..|s| - 1], p) else s
  }

  /** `s.trimmingCharacters(in: .whitespaces)`: the infix of `s` left once its longest
      white-space prefix and its longest white-space suffix are removed. A string whose
      ends are not white space is left as it is. */
  function Trim(s: string): (r: string)
    ensures r == [] || (!IsWhitespace(r[0]) && !IsWhitespace(r[|r| - 1]))
    ensures exists i, j ::
              && 0 <= i <= j <= |s| && r == s[i..j]
              && (forall k :: 0 <= k < i ==> IsWhitespace(s[k]))
              && (forall k :: j <= k < |s| ==> IsWhitespace(s[k]))
    ensures s == [] || (!IsWhitespace(s[0]) && !IsWhitespace(s[|s| - 1])) ==> r == s
  {
    var d := DropLeading(s, IsWhitespace);
    DropLeadingSuffix(s, IsWhitespace);
    var r := DropTrailing(d, IsWhitespace);
    var i := |s| - |d|;
    assert r == s[i..i + |r|];
    r
  }

  /** The number of scalars in the last `Character` (extended grapheme cluster) of a
      non-empty `s`. Where the clusters end is Unicode text segmentation, a parameter
      `lastCluster` of the model; a length outside 1 to `|s|`, which segmentation never
      gives, counts as one scalar. */
  function LastCharacterLength(lastCluster: string -> nat, s: string): (n: nat)
    requires s != []
    ensures 1 <= n <= |s|
    ensures 1 <= lastCluster(s) <= |s| ==> n == lastCluster(s)
  {
    if 1 <= lastCluster(s) <= |s| then lastCluster(s) else 1
  }

  /** `String(s.dropLast())`: `s` without its last `Character`, which may span several
      scalars (a flag, a letter with combining marks); empty when `s` is. */
  function DropLast(lastCluster: string -> nat, s: string): (r: string)
    ensures s == [] ==> r == []
    ensures s != [] ==> r < s && |r| == |s| - LastCharacterLength(lastCluster, s)
  {
    if s == [] then s else s[..|s| - LastCharacterLength(lastCluster, s)]
  }

  function LowerChar(c: char): char {
    if 'A' <= c <= 'Z' then (c as int + 32) as char else c
  }

  /** `s.lowercased()`, restricted to the ASCII letters. */
  function LowerAscii(s: string): (r: string)
    ensures |r| == |s|
    ensures forall i :: 0 <= i < |s| ==> r[i] == LowerChar(s[i])
  {
    seq(|s|, i requires 0 <= i < |s| => LowerChar(s[i]))
  }

  /** Lower-casing a lower-cased string changes nothing. */
  lemma LowerAsciiIdempotent(s: string)
    ensures LowerAscii(LowerAscii(s)) == LowerAscii(s)
  {
  }

  /** A piece of a split: non-empty and free of the separator. */
  predicate IsPiece(p: string, sep: char) {
    p != [] && sep !in p
  }

  predicate ArePieces(pieces: seq<string>, sep: char) {
    forall k :: 0 <= k < |pieces| ==> IsPiece(pieces[k], sep)
  }

  function Flush(cur: string): seq<string> {
    if cur == [] then [] else [cur]
  }

  /** Splits `s` at every `sep`, having already collected `cur` of the current piece. */
  function SplitFrom(s: string, sep: char, cur: string): (r: seq<string>)
    requires sep !in cur
    ensures ArePieces(r, sep)
    ensures r == [] <==> cur == [] && forall i :: 0 <= i < |s| ==> s[i] == sep
    decreases |s|
  {
    if |s| == 0 then Flush(cur)
    else if s[0] == sep then Flush(cur) + SplitFrom(s[1..], sep, [])
    else SplitFrom(s[1..], sep, cur + [s[0]])
  }

  /** Swift's `s.split(separator: sep)`: the maximal runs of non-separator characters,
      in order. Empty runs are omitted, so a string made only of separators (or the
      empty string) has no pieces at all. */
  function Split(s: string, sep: char): (r: seq<string>)
    ensures ArePieces(r, sep)
    ensures r == [] <==> forall i :: 0 <= i < |s| ==> s[i] == sep
  {
    SplitFrom(s, sep, [])
  }

  /** The pieces separated by single `sep` characters. */
  function Join(pieces: seq<string>, sep: char): string {
    if |pieces| == 0 then []
    else if |pieces| == 1 then pieces[0]
    else pieces[0] + [sep] + Join(pieces[1..], sep)
  }

  /** Collecting a separator-free stretch `p` continues the current piece. */
  lemma {:induction false} SplitFromPiece(p: string, rest: string, sep: char, cur: string)
    requires sep !in p && sep !in cur
    ensures SplitFrom(p + rest, sep, cur) == SplitFrom(rest, sep, cur + p)
    decreases |p|
  {
    if p == [] {
      assert p + rest == rest;
      assert cur + p == cur;
    } else {
      assert (p + rest)[0] == p[0];
      assert (p + rest)[1..] == p[1..] + rest;
      SplitFromPiece(p[1..], rest, sep, cur + [p[0]]);
      assert cur + [p[0]] + p[1..] == cur + p;
    }
  }

  /** Splitting the joined pieces gives the pieces back. */
  lemma {:induction false} SplitJoin(pieces: seq<string>, sep: char)
    requires ArePieces(pieces, sep)
    ensures Split(Join(pieces, sep), sep) == pieces
    decreases |pieces|
  {
    if |pieces| == 0 {
    } else if |pieces| == 1 {
      SplitFromPiece(pieces[0], [], sep, []);
      assert pieces[0] + [] == pieces[0];
      assert [] + pieces[0] == pieces[0];
    } else {
      var p := pieces[0];
      var rest := [sep] + Join(pieces[1..], sep);
      assert Join(pieces, sep) == p + rest;
      SplitFromPiece(p, rest, sep, []);
      assert [] + p == p;
      assert rest[0] == sep && rest[1..] == Join(pieces[1..], sep);
      SplitJoin(pieces[1..], sep);
      assert pieces == [p] + pieces[1..];
    }
  }

  /** Splitting across a separator: either side of it is split on its own. */
  lemma {:induction false} SplitFromSep(x: string, y: string, sep: char, cur: string)
    requires sep !in cur
    ensures SplitFrom(x + [sep] + y, sep, cur) == SplitFrom(x, sep, cur) + SplitFrom(y, sep, [])
    decreases |x|
  {
    if x == [] {
      assert x + [sep] + y == [sep] + y;
      assert ([sep] + y)[1..] == y;
    } else {
      assert (x + [sep] + y)[0] == x[0];
      assert (x + [sep] + y)[1..] == x[1..] + [sep] + y;
      if x[0] == sep {
        SplitFromSep(x[1..], y, sep, []);
      } else {
        SplitFromSep(x[1..], y, sep, cur + [x[0]]);
      }
    }
  }

  /** A separator is a boundary between the pieces of what precedes it and the pieces of
      what follows it. With `SplitSingle` and `Split("") == []` this determines `Split`
      on every string: ",a,,b," splits into "a" and "b". */
  lemma SplitAtSeparator(x: string, y: string, sep: char)
    ensures Split(x + [sep] + y, sep) == Split(x, sep) + Split(y, sep)
  {
    SplitFromSep(x, y, sep, []);
  }

  /** A string without separators is one piece. */
  lemma SplitSingle(s: string, sep: char)
    ensures IsPiece(s, sep) ==> Split(s, sep) == [s]
  {
    if IsPiece(s, sep) {
      SplitJoin([s], sep);
    }
  }
}
