/**
 * The JavaScript string and array built-ins the input handling relies on:
 * `String.prototype.split` with a one-character separator,
 * `Array.prototype.join`, `String.prototype.trim` and the
 * `filter(Boolean)` / `filter(each => each !== '')` idiom on strings.
 */
module JsString {

  /**
   * The code points `String.prototype.trim` removes: ECMAScript's
   * WhiteSpace (section 12.2 of ECMA-262: TAB, VT, FF, SP, NBSP, ZWNBSP and
   * the other space separators of Unicode category Zs) and LineTerminator
   * (section 12.3: LF, CR, LS, PS).
   */
  const WhitespaceChars: seq<char> := [
    '\t', '\n', '\U{000B}', '\U{000C}', '\r', ' ', '\U{00A0}', '\U{1680}',
    '\U{2000}', '\U{2001}', '\U{2002}', '\U{2003}', '\U{2004}', '\U{2005}',
    '\U{2006}', '\U{2007}', '\U{2008}', '\U{2009}', '\U{200A}',
    '\U{2028}', '\U{2029}', '\U{202F}', '\U{205F}', '\U{3000}', '\U{FEFF}'
  ]

  predicate IsWhitespace(c: char) {
    c in WhitespaceChars
  }

  predicate IsAlphanumeric(c: char) {
    '0' <= c <= '9' || 'A' <= c <= 'Z' || 'a' <= c <= 'z'
  }

  /** ASCII letters and digits are not whitespace. */
  lemma AlphanumericNotWhitespace(c: char)
    requires IsAlphanumeric(c)
    ensures !IsWhitespace(c)
  {
    forall i | 0 <= i < |WhitespaceChars| ensures WhitespaceChars[i] != c {
    }
  }

  /*
   * The trimming functions below take the whitespace test as a parameter
   * `ws`; the input handling passes IsWhitespace, the set `trim()` uses.
   */

  predicate AllWhitespace(s: string, ws: char -> bool) {
    forall i :: 0 <= i < |s| ==> ws(s[i])
  }

  /** Neither end of `s` is whitespace. */
  predicate IsTrimmed(s: string, ws: char -> bool) {
    s == [] || (!ws(s[0]) && !ws(s[|s| - 1]))
  }

  /** `pieces.join(sep)`: the pieces with one separator between neighbours. */
  function Join(pieces: seq<string>, sep: char): string {
    if |pieces| == 0 then ""
    else if |pieces| == 1 then pieces[0]
    else pieces[0] + [sep] + Join(pieces[1..], sep)
  }

  /**
   * A joined list starts with its first piece, followed by the separator
   * when there is a second one, and ends with its last piece.
   */
  lemma {:induction false} JoinEnds(pieces: seq<string>, sep: char)
    requires |pieces| >= 1
    ensures |pieces[0]| <= |Join(pieces, sep)| && Join(pieces, sep)[..|pieces[0]|] == pieces[0]
    ensures |pieces| >= 2 ==> |pieces[0]| < |Join(pieces, sep)| && Join(pieces, sep)[|pieces[0]|] == sep
    ensures var r, last := Join(pieces, sep), pieces[|pieces| - 1];
      |last| <= |r| && r[|r| - |last|..] == last
  {
    if |pieces| >= 2 {
      JoinEnds(pieces[1..], sep);
      assert pieces[1..][|pieces| - 2] == pieces[|pieces| - 1];
      var rest := Join(pieces[1..], sep);
      assert Join(pieces, sep) == pieces[0] + [sep] + rest;
    }
  }

  /**
   * `s.split(sep)`: the maximal separator-free runs of `s`, in order. Like
   * JavaScript it never returns an empty array: `''.split(',')` is `['']`.
   */
  function Split(s: string, sep: char): (pieces: seq<string>)
    ensures |pieces| >= 1
    ensures forall p :: p in pieces ==> sep !in p
    ensures Join(pieces, sep) == s
  {
    if s == [] then [""]
    else
      var rest := Split(s[1..], sep);
      if s[0] == sep then
        assert ([""] + rest)[1..] == rest;
        [""] + rest
      else
        var first := [s[0]] + rest[0];
        assert first[1..] == rest[0];
        assert sep !in rest[0];
        assert ([first] + rest[1..])[1..] == rest[1..];
        assert |rest| >= 2 ==> Join(rest, sep) == rest[0] + [sep] + Join(rest[1..], sep);
        assert s == [s[0]] + s[1..];
        [first] + rest[1..]
  }

  /** Splitting at a separator splits the two sides independently. */
  lemma {:induction false} SplitAppend(a: string, b: string, sep: char)
    ensures Split(a + [sep] + b, sep) == Split(a, sep) + Split(b, sep)
  {
    if a == [] {
      assert a + [sep] + b == [sep] + b;
      assert ([sep] + b)[1..] == b;
    } else {
      assert (a + [sep] + b)[0] == a[0];
      assert (a + [sep] + b)[1..] == a[1..] + [sep] + b;
      SplitAppend(a[1..], b, sep);
    }
  }

  /** A string without the separator splits into itself alone. */
  lemma {:induction false} SplitWithoutSeparator(s: string, sep: char)
    requires sep !in s
    ensures Split(s, sep) == [s]
  {
    if s != [] {
      assert sep !in s[1..];
      SplitWithoutSeparator(s[1..], sep);
      assert [s[0]] + s[1..] == s;
    }
  }

  /**
   * Split undoes Join when no piece holds the separator; with the ensures
   * of Split (Join undoes Split) the two are inverse bijections.
   */
  lemma {:induction false} SplitJoin(pieces: seq<string>, sep: char)
    requires |pieces| >= 1
    requires forall p :: p in pieces ==> sep !in p
    ensures Split(Join(pieces, sep), sep) == pieces
  {
    if |pieces| == 1 {
      SplitWithoutSeparator(pieces[0], sep);
    } else {
      assert pieces[0] in pieces;
      assert forall p :: p in pieces[1..] ==> p in pieces;
      SplitWithoutSeparator(pieces[0], sep);
      SplitJoin(pieces[1..], sep);
      SplitAppend(pieces[0], Join(pieces[1..], sep), sep);
      assert pieces == [pieces[0]] + pieces[1..];
    }
  }

  /** Join peeled from the right end. */
  lemma {:induction false} JoinLast(pieces: seq<string>, sep: char)
    requires |pieces| >= 2
    ensures Join(pieces, sep) == Join(pieces[..|pieces| - 1], sep) + [sep] + pieces[|pieces| - 1]
  {
    if |pieces| > 2 {
      JoinLast(pieces[1..], sep);
      assert pieces[1..][..|pieces| - 2] == pieces[..|pieces| - 1][1..];
    }
  }

  /** `s.trimStart()`: `s` without its leading whitespace. */
  function TrimStart(s: string, ws: char -> bool): (r: string)
    ensures |r| <= |s| && r == s[|s| - |r|..]
    ensures AllWhitespace(s[..|s| - |r|], ws)
    ensures r == [] || !ws(r[0])
  {
    if s != [] && ws(s[0]) then
      var r := TrimStart(s[1..], ws);
      assert s[..|s| - |r|] == [s[0]] + s[1..][..|s| - 1 - |r|];
      r
    else s
  }

  /** `s.trimEnd()`: `s` without its trailing whitespace. */
  function TrimEnd(s: string, ws: char -> bool): (r: string)
    ensures |r| <= |s| && r == s[..|r|]
    ensures AllWhitespace(s[|r|..], ws)
    ensures r == [] || !ws(r[|r| - 1])
  {
    if s != [] && ws(s[|s| - 1]) then
      var r := TrimEnd(s[..|s| - 1], ws);
      assert s[|r|..] == s[..|s| - 1][|r|..] + [s[|s| - 1]];
      r
    else s
  }

  /** `s.trim()`: the part of `s` between its leading and its trailing whitespace. */
  function Trim(s: string, ws: char -> bool): (r: string)
    ensures IsTrimmed(r, ws)
    ensures multiset(r) <= multiset(s)
    ensures r == [] <==> AllWhitespace(s, ws)
  {
    TrimKeeps(s, ws);
    TrimEmpty(s, ws);
    TrimEnd(TrimStart(s, ws), ws)
  }

  /**
   * Trim keeps an infix of its input and cuts only whitespace: the result
   * starts at some position `i`, and everything before `i` and after the
   * result is whitespace.
   */
  lemma TrimInfix(s: string, ws: char -> bool) returns (i: nat)
    ensures i + |Trim(s, ws)| <= |s| && Trim(s, ws) == s[i..i + |Trim(s, ws)|]
    ensures AllWhitespace(s[..i], ws) && AllWhitespace(s[i + |Trim(s, ws)|..], ws)
  {
    var t := TrimStart(s, ws);
    var r := TrimEnd(t, ws);
    i := |s| - |t|;
    assert t == s[i..];
    SliceOfSuffix(s, i, |r|);
    assert r == Trim(s, ws);
  }

  lemma SliceOfSuffix(s: string, i: nat, k: nat)
    requires i + k <= |s|
    ensures s[i..][..k] == s[i..i + k] && s[i..][k..] == s[i + k..]
  {
  }

  /** Trimming only removes characters. */
  lemma TrimKeeps(s: string, ws: char -> bool)
    ensures multiset(TrimEnd(TrimStart(s, ws), ws)) <= multiset(s)
  {
    var t := TrimStart(s, ws);
    SuffixKeeps(s, |s| - |t|);
    PrefixKeeps(t, |TrimEnd(t, ws)|);
  }

  lemma SuffixKeeps(s: string, k: nat)
    requires k <= |s|
    ensures multiset(s[k..]) <= multiset(s)
  {
    assert s == s[..k] + s[k..];
  }

  lemma PrefixKeeps(s: string, k: nat)
    requires k <= |s|
    ensures multiset(s[..k]) <= multiset(s)
  {
    assert s == s[..k] + s[k..];
  }

  /** Trimming leaves nothing exactly when everything is whitespace. */
  lemma TrimEmpty(s: string, ws: char -> bool)
    ensures TrimEnd(TrimStart(s, ws), ws) == [] <==> AllWhitespace(s, ws)
  {
    var t := TrimStart(s, ws);
    var r := TrimEnd(t, ws);
    if r == [] {
      assert t[|r|..] == t;
      assert AllWhitespace(t, ws);
      assert t == [];
      assert s[..|s| - |t|] == s;
    } else {
      assert t[0] == s[|s| - |t|];
      assert !ws(s[|s| - |t|]);
    }
  }

  /**
   * Trim removes exactly the whitespace around a trimmed core: whatever
   * whitespace surrounds `core`, trimming gives `core` back.
   */
  lemma {:induction false} TrimSurrounded(pre: string, core: string, post: string, ws: char -> bool)
    requires AllWhitespace(pre, ws) && AllWhitespace(post, ws)
    requires IsTrimmed(core, ws) && core != []
    ensures Trim(pre + core + post, ws) == core
  {
    var s := pre + core + post;
    assert s == pre + (core + post);
    TrimStartPrefix(pre, core + post, ws);
    TrimEndSuffix(core, post, ws);
    assert TrimEnd(TrimStart(s, ws), ws) == core;
  }

  lemma {:induction false} TrimStartPrefix(pre: string, rest: string, ws: char -> bool)
    requires AllWhitespace(pre, ws)
    requires rest != [] && !ws(rest[0])
    ensures TrimStart(pre + rest, ws) == rest
  {
    if pre != [] {
      assert (pre + rest)[1..] == pre[1..] + rest;
      TrimStartPrefix(pre[1..], rest, ws);
    }
  }

  lemma {:induction false} TrimEndSuffix(rest: string, post: string, ws: char -> bool)
    requires AllWhitespace(post, ws)
    requires rest != [] && !ws(rest[|rest| - 1])
    ensures TrimEnd(rest + post, ws) == rest
  {
    if post != [] {
      assert (rest + post)[..|rest + post| - 1] == rest + post[..|post| - 1];
      TrimEndSuffix(rest, post[..|post| - 1], ws);
    }
  }

  /** One leading space is trimmed away whenever the space counts as whitespace. */
  lemma TrimLeadingSpace(core: string, ws: char -> bool)
    requires ws(' ')
    requires IsTrimmed(core, ws) && core != []
    ensures Trim(" " + core, ws) == core
  {
    TrimSurrounded(" ", core, "", ws);
    assert " " + core + "" == " " + core;
  }

  /** The space is one of the characters `trim()` removes. */
  lemma SpaceIsWhitespace()
    ensures IsWhitespace(' ')
  {
    assert WhitespaceChars[5] == ' ';
  }

  /**
   * `trim()` also removes tabs, line breaks, the no-break space, the
   * ideographic space and the byte order mark; the comma is not whitespace.
   */
  lemma WhitespaceExamples()
    ensures IsWhitespace('\t') && IsWhitespace('\n') && IsWhitespace('\r')
    ensures IsWhitespace('\U{00A0}') && IsWhitespace('\U{3000}') && IsWhitespace('\U{FEFF}')
    ensures !IsWhitespace(',')
  {
    assert WhitespaceChars[0] == '\t' && WhitespaceChars[1] == '\n' && WhitespaceChars[4] == '\r';
    assert WhitespaceChars[6] == '\U{00A0}' && WhitespaceChars[23] == '\U{3000}' && WhitespaceChars[24] == '\U{FEFF}';
    forall i | 0 <= i < |WhitespaceChars| ensures WhitespaceChars[i] != ',' {
    }
  }

  /** Trimming an already trimmed string changes nothing. */
  lemma TrimTrimmed(s: string, ws: char -> bool)
    requires IsTrimmed(s, ws)
    ensures Trim(s, ws) == s
  {
    assert TrimStart(s, ws) == s;
    assert TrimEnd(s, ws) == s;
  }

  /**
   * `xs.filter(Boolean)` (equivalently `filter(each => each !== '')` or
   * `filter(each => !!each)`) on strings: drop the empty strings, keep the
   * others in order.
   */
  function DropEmpty(xs: seq<string>): (r: seq<string>)
    ensures forall x :: x in r ==> x != ""
    ensures forall x :: multiset(r)[x] == if x == "" then 0 else multiset(xs)[x]
    ensures (forall x :: x in xs ==> x != "") ==> r == xs
  {
    if xs == [] then []
    else
      assert xs == [xs[0]] + xs[1..];
      var rest := DropEmpty(xs[1..]);
      assert (forall x :: x in xs ==> x != "") ==> xs[0] != "" && rest == xs[1..] by {
        if forall x :: x in xs ==> x != "" {
          assert xs[0] in xs;
          assert forall x :: x in xs[1..] ==> x in xs;
        }
      }
      (if xs[0] == "" then [] else [xs[0]]) + rest
  }

  /** DropEmpty keeps order: it distributes over concatenation. */
  lemma {:induction false} DropEmptyAppend(a: seq<string>, b: seq<string>)
    ensures DropEmpty(a + b) == DropEmpty(a) + DropEmpty(b)
  {
    if a == [] {
      assert a + b == b;
    } else {
      assert (a + b)[0] == a[0];
      assert (a + b)[1..] == a[1..] + b;
      DropEmptyAppend(a[1..], b);
      assert (if a[0] == "" then [] else [a[0]]) + DropEmpty(a[1..]) + DropEmpty(b)
          == (if a[0] == "" then [] else [a[0]]) + (DropEmpty(a[1..]) + DropEmpty(b));
    }
  }

  /** `xs.map(each => each.trim())`. */
  function TrimAll(xs: seq<string>, ws: char -> bool): (r: seq<string>)
    ensures |r| == |xs|
    ensures forall i :: 0 <= i < |xs| ==> r[i] == Trim(xs[i], ws)
  {
    seq(|xs|, i requires 0 <= i < |xs| => Trim(xs[i], ws))
  }

  /**
   * `s.split(sep).map(each => each.trim()).filter(...)`: the pieces of a
   * separated list, trimmed, without the empty ones. Every result is
   * non-empty, trimmed and free of the separator.
   */
  function SplitTrimmed(s: string, sep: char, ws: char -> bool): (r: seq<string>)
    ensures forall x :: x in r ==> x != "" && IsTrimmed(x, ws) && sep !in x
  {
    var pieces := Split(s, sep);
    var trimmed := TrimAll(pieces, ws);
    forall x | x in trimmed ensures IsTrimmed(x, ws) && sep !in x {
      var i :| 0 <= i < |trimmed| && trimmed[i] == x;
      assert pieces[i] in pieces;
      assert multiset(x) <= multiset(pieces[i]);
      assert multiset(pieces[i])[sep] == 0;
      assert multiset(x)[sep] == 0;
    }
    var r := DropEmpty(trimmed);
    forall x | x in r ensures x in trimmed {
      assert multiset(r)[x] > 0;
    }
    r
  }

  /**
   * What SplitTrimmed keeps of a joined list: the trimmed items, the empty
   * ones left out, in their order.
   */
  lemma {:induction false} SplitTrimmedJoin(items: seq<string>, sep: char, ws: char -> bool)
    requires |items| >= 1
    requires forall x :: x in items ==> sep !in x
    ensures SplitTrimmed(Join(items, sep), sep, ws) == DropEmpty(TrimAll(items, ws))
  {
    SplitJoin(items, sep);
  }

  /**
   * A list of non-empty trimmed separator-free items survives a trip through
   * join and SplitTrimmed unchanged.
   */
  lemma {:induction false} SplitTrimmedRoundTrip(items: seq<string>, sep: char, ws: char -> bool)
    requires forall x :: x in items ==> x != "" && IsTrimmed(x, ws) && sep !in x
    ensures SplitTrimmed(Join(items, sep), sep, ws) == items
  {
    if items == [] {
      SplitTrimmedEmpty(sep, ws);
    } else {
      SplitTrimmedJoin(items, sep, ws);
      TrimAllTrimmed(items, ws);
    }
  }

  /** An empty input gives an empty list: `''.split(sep)` is `['']`, and that one piece is dropped. */
  lemma SplitTrimmedEmpty(sep: char, ws: char -> bool)
    ensures SplitTrimmed("", sep, ws) == []
  {
    assert Split("", sep) == [""];
    assert TrimAll([""], ws) == [""];
    assert DropEmpty([""]) == [];
  }

  lemma TrimAllTrimmed(items: seq<string>, ws: char -> bool)
    requires forall x :: x in items ==> IsTrimmed(x, ws)
    ensures TrimAll(items, ws) == items
  {
    forall i | 0 <= i < |items| ensures TrimAll(items, ws)[i] == items[i] {
      assert items[i] in items;
      TrimTrimmed(items[i], ws);
    }
  }
}
