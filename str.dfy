/**
 * The Rust `str` operations the parser relies on, stated over `seq<char>`:
 * `lines`, `split(' ')`, `split("//").nth(0)`, `trim` and `starts_with`.
 */
module Str {

  /** Index of the first `c` in `s`, or `|s|` when there is none. */
  function IndexOf(s: string, c: char): (i: nat)
    ensures i <= |s|
    ensures i < |s| ==> s[i] == c
    ensures forall j :: 0 <= j < i ==> s[j] != c
  {
    if s == [] then 0
    else if s[0] == c then 0
    else 1 + IndexOf(s[1..], c)
  }

  /** Drops one `\r` at the end of a line that was ended by `\n`. */
  function StripCR(l: string): string
  {
    if |l| > 0 && l[|l| - 1] == '\r' then l[..|l| - 1] else l
  }

  /**
   * Rust's `str::lines`: a line ends at `\n` (a `\r` just before it is
   * dropped too); the last line needs no terminator, and an input that ends
   * with `\n` has no empty line after it.
   */
  function Lines(s: string): (ls: seq<string>)
    ensures forall k :: 0 <= k < |ls| ==> '\n' !in ls[k]
    decreases |s|
  {
    if s == [] then []
    else
      var i := IndexOf(s, '\n');
      assert '\n' !in s[..i] by {
        forall j | 0 <= j < i ensures s[..i][j] != '\n' { }
      }
      if i == |s| then [s] else [StripCR(s[..i])] + Lines(s[i + 1..])
  }

  /** A line with its `\n` terminator comes back as that line. */
  lemma LinesCons(l: string, rest: string)
    requires '\n' !in l
    requires |l| == 0 || l[|l| - 1] != '\r'
    ensures Lines(l + "\n" + rest) == [l] + Lines(rest)
  {
    var s := l + "\n" + rest;
    assert IndexOf(s, '\n') == |l| by {
      assert s[|l|] == '\n';
      forall j | 0 <= j < |l| ensures s[j] != '\n' {
        assert s[j] == l[j];
      }
      IndexOfIs(s, '\n', |l|);
    }
    assert s[..|l|] == l;
    assert s[|l| + 1..] == rest;
  }

  /** A line ended by `\r\n` comes back without either. */
  lemma LinesCRLF(l: string, rest: string)
    requires '\n' !in l
    ensures Lines(l + "\r\n" + rest) == [l] + Lines(rest)
  {
    var s := l + "\r\n" + rest;
    var i := |l| + 1;
    assert IndexOf(s, '\n') == i by {
      assert s[i] == '\n' && s[|l|] == '\r';
      forall j | 0 <= j < i ensures s[j] != '\n' {
        if j < |l| { assert s[j] == l[j]; }
      }
      IndexOfIs(s, '\n', i);
    }
    assert s[..i] == l + "\r";
    assert StripCR(l + "\r") == l;
    assert s[i + 1..] == rest;
  }

  /** A last line without a terminator is kept, whatever it ends in. */
  lemma LinesLast(l: string)
    requires '\n' !in l && l != []
    ensures Lines(l) == [l]
  {
  }

  lemma IndexOfIs(s: string, c: char, i: nat)
    requires i < |s| && s[i] == c
    requires forall j :: 0 <= j < i ==> s[j] != c
    ensures IndexOf(s, c) == i
  {
  }

  /** Rust's `str::split` on one character: the pieces between the separators. */
  function Split(s: string, sep: char): (pieces: seq<string>)
    ensures |pieces| >= 1
    ensures forall k :: 0 <= k < |pieces| ==> sep !in pieces[k]
    decreases |s|
  {
    var i := IndexOf(s, sep);
    assert sep !in s[..i] by {
      forall j | 0 <= j < i ensures s[..i][j] != sep { }
    }
    if i == |s| then [s] else [s[..i]] + Split(s[i + 1..], sep)
  }

  /** The pieces put back together with the separator between them. */
  function Join(pieces: seq<string>, sep: char): string
    requires |pieces| >= 1
  {
    if |pieces| == 1 then pieces[0] else pieces[0] + [sep] + Join(pieces[1..], sep)
  }

  /** Splitting loses nothing: joining the pieces gives the input back. */
  lemma {:induction false} JoinSplit(s: string, sep: char)
    ensures Join(Split(s, sep), sep) == s
    decreases |s|
  {
    var i := IndexOf(s, sep);
    if i < |s| {
      var rest := s[i + 1..];
      var p := Split(s, sep);
      assert p == [s[..i]] + Split(rest, sep);
      assert p[0] == s[..i] && p[1..] == Split(rest, sep);
      JoinSplit(rest, sep);
      assert Join(p, sep) == s[..i] + [sep] + rest;
      assert s == s[..i] + [sep] + rest;
    }
  }

  /** A piece free of the separator, then the separator, splits off as the first piece. */
  lemma SplitCons(a: string, sep: char, rest: string)
    requires sep !in a
    ensures Split(a + [sep] + rest, sep) == [a] + Split(rest, sep)
  {
    var s := a + [sep] + rest;
    forall j | 0 <= j < |a| ensures s[j] != sep {
      assert s[j] == a[j];
    }
    IndexOfIs(s, sep, |a|);
    assert s[..|a|] == a;
    assert s[|a| + 1..] == rest;
  }

  /** A string without the separator is one piece. */
  lemma SplitNone(s: string, sep: char)
    requires sep !in s
    ensures Split(s, sep) == [s]
  {
  }

  /** Rust's `str::starts_with` for a string pattern. */
  predicate StartsWith(s: string, prefix: string) {
    prefix <= s
  }

  /** `s` starts with `prefix` exactly when it holds `prefix`'s characters at its first positions. */
  lemma StartsWithChars(s: string, prefix: string)
    ensures StartsWith(s, prefix) <==> |prefix| <= |s| && forall i :: 0 <= i < |prefix| ==> s[i] == prefix[i]
  {
    if |prefix| <= |s| && forall i :: 0 <= i < |prefix| ==> s[i] == prefix[i] {
      assert s[..|prefix|] == prefix;
    }
  }

  /** `//` starts at position `i` of `s`. */
  predicate CommentAt(s: string, i: int) {
    0 <= i && i + 1 < |s| && s[i] == '/' && s[i + 1] == '/'
  }

  /** Position of the first `//` in `s`, or `|s|` when there is none. */
  function CommentStart(s: string): (i: nat)
    ensures i <= |s|
    ensures i < |s| ==> CommentAt(s, i)
    ensures forall j :: 0 <= j < i ==> !CommentAt(s, j)
  {
    if |s| < 2 then |s|
    else if s[0] == '/' && s[1] == '/' then 0
    else
      var k := CommentStart(s[1..]);
      assert forall j :: 1 <= j < k + 1 ==> (CommentAt(s, j) <==> CommentAt(s[1..], j - 1));
      1 + k
  }

  /**
   * `l.split("//").nth(0).unwrap()`: the part of the line before its first
   * `//` (the whole line when there is none).
   */
  function StripComment(l: string): (code: string)
    ensures code <= l
    ensures forall j :: 0 <= j < |code| ==> !CommentAt(l, j)
    ensures |code| < |l| ==> CommentAt(l, |code|)
  {
    l[..CommentStart(l)]
  }

  /** Those three facts pin the result down: no other prefix of the line has them. */
  lemma StripCommentUnique(l: string, code: string)
    requires code <= l
    requires forall j :: 0 <= j < |code| ==> !CommentAt(l, j)
    requires |code| < |l| ==> CommentAt(l, |code|)
    ensures code == StripComment(l)
  {
  }

  /** Text without `//` that does not end in `/` keeps all of itself and loses any comment after it. */
  lemma StripCommentDiscardsComment(code: string, comment: string)
    requires forall j :: 0 <= j < |code| ==> !CommentAt(code + "/", j)
    ensures StripComment(code + "//" + comment) == code
  {
    var l := code + "//" + comment;
    var i := CommentStart(l);
    assert CommentAt(l, |code|);
    if i < |code| {
      assert l[i] == (code + "/")[i] && l[i + 1] == (code + "/")[i + 1];
      assert CommentAt(code + "/", i);
    }
  }

  /** A line without `/` has no comment to strip. */
  lemma StripCommentNoSlash(l: string)
    requires '/' !in l
    ensures StripComment(l) == l
  {
  }

  /** The 25 code points Unicode gives the White_Space property, one by one. */
  const WhiteSpace: set<char> := {
    '\U{0009}', '\U{000A}', '\U{000B}', '\U{000C}', '\U{000D}', '\U{0020}', '\U{0085}', '\U{00A0}',
    '\U{1680}', '\U{2000}', '\U{2001}', '\U{2002}', '\U{2003}', '\U{2004}', '\U{2005}', '\U{2006}',
    '\U{2007}', '\U{2008}', '\U{2009}', '\U{200A}', '\U{2028}', '\U{2029}', '\U{202F}', '\U{205F}',
    '\U{3000}'
  }

  /** Rust's `char::is_whitespace`: the Unicode White_Space property, written as ranges. */
  predicate IsWhitespace(c: char) {
    ('\U{0009}' <= c <= '\U{000D}') || c == ' ' || c == '\U{0085}' || c == '\U{00A0}' ||
    c == '\U{1680}' || ('\U{2000}' <= c <= '\U{200A}') || c == '\U{2028}' || c == '\U{2029}' ||
    c == '\U{202F}' || c == '\U{205F}' || c == '\U{3000}'
  }

  /** The ranges of `IsWhitespace` hold exactly the 25 White_Space code points. */
  lemma IsWhitespaceTable(c: char)
    ensures IsWhitespace(c) <==> c in WhiteSpace
  {
  }

  predicate AllWhitespace(s: string) {
    forall i :: 0 <= i < |s| ==> IsWhitespace(s[i])
  }

  /** The number of whitespace characters `s` starts with. */
  function LeadingSpace(s: string): (k: nat)
    ensures k <= |s|
    ensures forall j :: 0 <= j < k ==> IsWhitespace(s[j])
    ensures k < |s| ==> !IsWhitespace(s[k])
  {
    if s == [] || !IsWhitespace(s[0]) then 0
    else
      var k := LeadingSpace(s[1..]);
      assert forall j :: 1 <= j < 1 + k ==> s[j] == s[1..][j - 1];
      1 + k
  }

  /** The number of whitespace characters `s` ends with. */
  function TrailingSpace(s: string): (k: nat)
    ensures k <= |s|
    ensures forall j :: |s| - k <= j < |s| ==> IsWhitespace(s[j])
    ensures k < |s| ==> !IsWhitespace(s[|s| - 1 - k])
  {
    if s == [] || !IsWhitespace(s[|s| - 1]) then 0
    else
      var k := TrailingSpace(s[..|s| - 1]);
      assert forall j :: |s| - 1 - k <= j < |s| - 1 ==> s[j] == s[..|s| - 1][j];
      1 + k
  }

  /**
   * Rust's `str::trim`: what is left once the leading and trailing
   * whitespace is gone; empty exactly when the line is all whitespace.
   */
  function Trim(s: string): (r: string)
    ensures exists i {:trigger s[i..]} :: 0 <= i <= |s| - |r| && r <= s[i..] &&
                                          AllWhitespace(s[..i]) && AllWhitespace(s[i + |r|..])
    ensures r == [] || (!IsWhitespace(r[0]) && !IsWhitespace(r[|r| - 1]))
    ensures r == [] <==> AllWhitespace(s)
  {
    var a := LeadingSpace(s);
    var b := TrailingSpace(s[a..]);
    TrimPlace(s, a, b);
    TrimEmpty(s, a, b);
    s[a..|s| - b]
  }

  lemma TrimPlace(s: string, a: nat, b: nat)
    requires a == LeadingSpace(s) && b == TrailingSpace(s[a..])
    ensures a + b <= |s|
    ensures var r := s[a..|s| - b];
            a <= |s| - |r| && r <= s[a..] && AllWhitespace(s[..a]) && AllWhitespace(s[a + |r|..]) &&
            (r == [] || (!IsWhitespace(r[0]) && !IsWhitespace(r[|r| - 1])))
  {
    var t := s[a..];
    var u := s[a + |t| - b..];
    forall j | 0 <= j < |u| ensures IsWhitespace(u[j]) {
      assert u[j] == t[|t| - b + j];
    }
  }

  lemma TrimEmpty(s: string, a: nat, b: nat)
    requires a == LeadingSpace(s) && b == TrailingSpace(s[a..])
    ensures a + b <= |s|
    ensures s[a..|s| - b] == [] <==> AllWhitespace(s)
  {
    var t := s[a..];
    if a < |s| {
      assert t[0] == s[a];
    }
  }

  /** A line without whitespace at either end is its own trim. */
  lemma TrimNoEdges(s: string)
    requires s != [] && !IsWhitespace(s[0]) && !IsWhitespace(s[|s| - 1])
    ensures Trim(s) == s
  {
  }
}
