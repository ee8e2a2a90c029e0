/**
 * The Python `str` operations the library relies on, with Python's semantics:
 * `startswith`/`in`, `replace`, `split(sep)`, `split()`, `strip`/`rstrip`,
 * `lower`, `find`, `join`, together with the standard-library encoders
 * `html.escape` and `urllib.parse.quote` that the components call.
 */
module Text {

  /** `s.startswith(w)` */
  predicate IsPrefix(w: string, s: string) {
    |w| <= |s| && s[..|w|] == w
  }

  /** `s.endswith(w)` */
  predicate IsSuffix(w: string, s: string) {
    |w| <= |s| && s[|s| - |w|..] == w
  }

  /** Concatenation is associative. */
  lemma Assoc<T>(a: seq<T>, b: seq<T>, c: seq<T>)
    ensures (a + b) + c == a + (b + c)
  {
  }

  /** `w in s`: some suffix of `s` starts with `w`. */
  predicate Contains(s: string, w: string)
    decreases |s|
  {
    IsPrefix(w, s) || (s != [] && Contains(s[1..], w))
  }

  lemma {:induction false} ContainsLength(s: string, w: string)
    requires Contains(s, w)
    ensures |w| <= |s|
    decreases |s|
  {
    if !IsPrefix(w, s) {
      ContainsLength(s[1..], w);
    }
  }

  /** An occurrence of `w` in `a + x` that cannot start inside `a` lies in `x`. */
  lemma {:induction false} ContainsAfter(a: string, x: string, w: string)
    requires w != [] && w[0] !in a
    ensures Contains(a + x, w) <==> Contains(x, w)
    decreases |a|
  {
    if a != [] {
      assert (a + x)[1..] == a[1..] + x;
      assert !IsPrefix(w, a + x) by { assert (a + x)[0] == a[0]; }
      ContainsAfter(a[1..], x, w);
    } else {
      assert a + x == x;
    }
  }

  // ---------------------------------------------------------------------
  // str.replace

  /**
   * `s.replace(pat, rep)` for a non-empty pattern: occurrences are found left
   * to right and do not overlap.
   */
  function Replace(s: string, pat: string, rep: string): string
    requires pat != []
    decreases |s|
  {
    if |s| < |pat| then s
    else if s[..|pat|] == pat then rep + Replace(s[|pat|..], pat, rep)
    else [s[0]] + Replace(s[1..], pat, rep)
  }

  /** A text that does not contain the pattern comes back unchanged. */
  lemma {:induction false} ReplaceAbsent(s: string, pat: string, rep: string)
    requires pat != []
    requires !Contains(s, pat)
    ensures Replace(s, pat, rep) == s
    decreases |s|
  {
    if |s| >= |pat| {
      assert s != [] && !IsPrefix(pat, s);
      ReplaceAbsent(s[1..], pat, rep);
    }
  }

  /** Replacing in a concatenation whose left part cannot start a match that straddles the seam. */
  lemma {:induction false} ReplaceConcat(a: string, b: string, pat: string, rep: string)
    requires |pat| == 2
    requires a == [] || a[|a| - 1] != pat[0]
    ensures Replace(a + b, pat, rep) == Replace(a, pat, rep) + Replace(b, pat, rep)
    decreases |a|
  {
    if a == [] {
      assert a + b == b;
    } else if |a| >= 2 && a[..2] == pat {
      assert (a + b)[..2] == pat;
      assert (a + b)[2..] == a[2..] + b;
      ReplaceConcat(a[2..], b, pat, rep);
    } else if |a| == 1 {
      if |a + b| >= 2 {
        assert (a + b)[0] == a[0] && (a + b)[1..] == b;
        assert (a + b)[..2] != pat;
      }
    } else {
      assert (a + b)[..2] == a[..2];
      assert (a + b)[1..] == a[1..] + b;
      ReplaceConcat(a[1..], b, pat, rep);
    }
  }

  /**
   * When the replacement cannot continue a partial match, the output starts with
   * a tail of the pattern only where the input did.
   */
  lemma {:induction false} ReplaceTailPrefix(t: string, pat: string, rep: string, j: nat)
    requires pat != [] && rep != [] && 1 <= j <= |pat|
    requires rep[0] !in pat[1..]
    requires IsPrefix(pat[j..], Replace(t, pat, rep))
    ensures IsPrefix(pat[j..], t)
    decreases |t|
  {
    if j < |pat| && |t| >= |pat| {
      var whole := Replace(t, pat, rep);
      assert whole[0] == pat[j];
      assert pat[j] in pat[1..];
      assert t[..|pat|] == pat ==> IsPrefix(rep, whole);
      assert t[..|pat|] != pat;
      {
        var r := Replace(t[1..], pat, rep);
        assert Replace(t, pat, rep) == [t[0]] + r;
        assert t[0] == pat[j];
        assert IsPrefix(pat[j + 1..], r) by {
          assert pat[j + 1..] == pat[j..][1..];
          assert ([t[0]] + r)[1..] == r;
        }
        ReplaceTailPrefix(t[1..], pat, rep, j + 1);
        assert t[..|pat[j..]|] == [t[0]] + t[1..][..|pat[j + 1..]|];
      }
    }
  }

  /**
   * The neutralisation used for `</script` and `</style`: when the replacement
   * neither contains the pattern's first character nor starts with one of the
   * pattern's later characters, no occurrence of the pattern survives.
   */
  lemma {:induction false} ReplaceRemoves(s: string, pat: string, rep: string)
    requires pat != [] && rep != []
    requires pat[0] !in rep && rep[0] !in pat[1..]
    ensures !Contains(Replace(s, pat, rep), pat)
    decreases |s|
  {
    if |s| < |pat| {
      if Contains(s, pat) { ContainsLength(s, pat); }
    } else if s[..|pat|] == pat {
      ReplaceRemoves(s[|pat|..], pat, rep);
      ContainsAfter(rep, Replace(s[|pat|..], pat, rep), pat);
    } else {
      var r1 := Replace(s[1..], pat, rep);
      var r := [s[0]] + r1;
      assert Replace(s, pat, rep) == r;
      ReplaceRemoves(s[1..], pat, rep);
      assert r[1..] == r1;
      if IsPrefix(pat, r) {
        assert r[0] == pat[0];
        assert IsPrefix(pat[1..], r1) by {
          assert r1[..|pat| - 1] == r[..|pat|][1..];
        }
        ReplaceTailPrefix(s[1..], pat, rep, 1);
        assert false;
      }
    }
  }

  // ---------------------------------------------------------------------
  // str.split / sep.join

  /** `s.split(sep)`: the pieces between consecutive separators; never empty. */
  function Split(s: string, sep: char): (r: seq<string>)
    ensures |r| >= 1
    decreases |s|
  {
    if s == [] then [""]
    else if s[0] == sep then [""] + Split(s[1..], sep)
    else
      var rest := Split(s[1..], sep);
      [[s[0]] + rest[0]] + rest[1..]
  }

  /** `sep.join(parts)` */
  function Join(parts: seq<string>, sep: char): string
    decreases |parts|
  {
    if parts == [] then ""
    else if |parts| == 1 then parts[0]
    else parts[0] + [sep] + Join(parts[1..], sep)
  }

  /** The last piece of `s.split(sep)` (`s.split(sep)[-1]`). */
  function LastPiece(s: string, sep: char): string {
    var pieces := Split(s, sep);
    pieces[|pieces| - 1]
  }

  /** No piece contains the separator, and joining the pieces gives back the text. */
  lemma {:induction false} SplitJoin(s: string, sep: char)
    ensures Join(Split(s, sep), sep) == s
    ensures forall i :: 0 <= i < |Split(s, sep)| ==> sep !in Split(s, sep)[i]
    decreases |s|
  {
    if s != [] {
      SplitJoin(s[1..], sep);
      var rest := Split(s[1..], sep);
      if s[0] != sep {
        var r := Split(s, sep);
        assert r[0] == [s[0]] + rest[0];
        assert forall i :: 1 <= i < |r| ==> r[i] == rest[i];
        if |rest| > 1 {
          assert r[1..] == rest[1..];
          assert Join(r, sep) == r[0] + [sep] + Join(rest[1..], sep);
          assert Join(rest, sep) == rest[0] + [sep] + Join(rest[1..], sep);
        }
      } else {
        assert Split(s, sep)[1..] == rest;
      }
    }
  }

  /** Splitting a text at one of its separators splits both halves independently. */
  lemma {:induction false} SplitAround(a: string, b: string, sep: char)
    ensures Split(a + [sep] + b, sep) == Split(a, sep) + Split(b, sep)
    decreases |a|
  {
    var s := a + [sep] + b;
    if a == [] {
      assert s == [sep] + b;
      assert s[1..] == b;
    } else {
      var t := a[1..] + [sep] + b;
      assert s[0] == a[0] && s[1..] == t;
      SplitAround(a[1..], b, sep);
      var rest := Split(a[1..], sep);
      var whole := Split(t, sep);
      var tail := Split(b, sep);
      if a[0] == sep {
        assert Split(s, sep) == [""] + whole;
        assert Split(a, sep) == [""] + rest;
        Assoc([""], rest, tail);
      } else {
        assert whole == rest + tail;
        assert whole[0] == rest[0];
        assert whole[1..] == rest[1..] + tail;
        assert Split(s, sep) == [[a[0]] + rest[0]] + (rest[1..] + tail);
        assert Split(a, sep) == [[a[0]] + rest[0]] + rest[1..];
        Assoc([[a[0]] + rest[0]], rest[1..], tail);
      }
    }
  }

  /** Joining separator-free pieces and splitting again gives the pieces back. */
  lemma {:induction false} JoinSplit(parts: seq<string>, sep: char)
    requires parts != []
    requires forall i :: 0 <= i < |parts| ==> sep !in parts[i]
    ensures Split(Join(parts, sep), sep) == parts
    decreases |parts|
  {
    if |parts| == 1 {
      SplitFree(parts[0], sep);
    } else {
      JoinSplit(parts[1..], sep);
      SplitFree(parts[0], sep);
      SplitAround(parts[0], Join(parts[1..], sep), sep);
    }
  }

  /** A text without the separator is a single piece. */
  lemma {:induction false} SplitFree(s: string, sep: char)
    requires sep !in s
    ensures Split(s, sep) == [s]
    decreases |s|
  {
    if s != [] {
      SplitFree(s[1..], sep);
      assert [s[0]] + s[1..] == s;
    }
  }

  /** `LastPiece` is the text after the last separator. */
  lemma LastPieceAfter(a: string, e: string, sep: char)
    requires sep !in e
    ensures LastPiece(a + [sep] + e, sep) == e
  {
    SplitAround(a, e, sep);
    SplitFree(e, sep);
  }

  // ---------------------------------------------------------------------
  // Whitespace, strip, split()

  /** `c.isspace()` */
  predicate IsSpace(c: char) {
    c == ' ' || ('\t' <= c <= '\r') || ('\U{1C}' <= c <= '\U{1F}') || c == '\U{85}' || c == '\U{A0}'
    || c == '\U{1680}' || ('\U{2000}' <= c <= '\U{200A}') || c == '\U{2028}' || c == '\U{2029}'
    || c == '\U{202F}' || c == '\U{205F}' || c == '\U{3000}'
  }

  /** `s.rstrip()` */
  function RStripSpace(s: string): (r: string)
    ensures IsPrefix(r, s)
    ensures r == [] || !IsSpace(r[|r| - 1])
    ensures forall i :: |r| <= i < |s| ==> IsSpace(s[i])
    decreases |s|
  {
    if s != [] && IsSpace(s[|s| - 1]) then RStripSpace(s[..|s| - 1]) else s
  }

  /** `s.lstrip()` */
  function LStripSpace(s: string): (r: string)
    ensures IsSuffix(r, s)
    ensures r == [] || !IsSpace(r[0])
    ensures forall i :: 0 <= i < |s| - |r| ==> IsSpace(s[i])
    decreases |s|
  {
    if s != [] && IsSpace(s[0]) then LStripSpace(s[1..]) else s
  }

  /** `s.strip()` */
  function Strip(s: string): string {
    LStripSpace(RStripSpace(s))
  }

  /** `[s.strip() for s in xs]` */
  function StripEach(xs: seq<string>): (r: seq<string>)
    ensures |r| == |xs|
    decreases |xs|
  {
    if xs == [] then [] else StripEach(xs[..|xs| - 1]) + [Strip(xs[|xs| - 1])]
  }

  /** Stripping one more item. */
  lemma StripEachSnoc(xs: seq<string>, i: nat)
    requires i < |xs|
    ensures StripEach(xs[..i + 1]) == StripEach(xs[..i]) + [Strip(xs[i])]
  {
    assert xs[..i + 1][..i] == xs[..i];
  }

  /** Each item of `StripEach(xs)` is the matching item of `xs`, stripped. */
  lemma {:induction false} StripEachAt(xs: seq<string>, i: nat)
    requires i < |xs|
    ensures StripEach(xs)[i] == Strip(xs[i])
    decreases |xs|
  {
    var init := xs[..|xs| - 1];
    if i < |init| {
      StripEachAt(init, i);
      assert init[i] == xs[i];
    }
  }

  /** `s.rstrip(c)` */
  function RStripChar(s: string, c: char): (r: string)
    ensures IsPrefix(r, s)
    ensures r == [] || r[|r| - 1] != c
    ensures forall i :: |r| <= i < |s| ==> s[i] == c
    decreases |s|
  {
    if s != [] && s[|s| - 1] == c then RStripChar(s[..|s| - 1], c) else s
  }

  /** `s.lstrip(c)` */
  function LStripChar(s: string, c: char): (r: string)
    ensures IsSuffix(r, s)
    ensures r == [] || r[0] != c
    ensures forall i :: 0 <= i < |s| - |r| ==> s[i] == c
    decreases |s|
  {
    if s != [] && s[0] == c then LStripChar(s[1..], c) else s
  }

  /** `s.strip(c)` */
  function StripChar(s: string, c: char): string {
    LStripChar(RStripChar(s, c), c)
  }

  /** Stripping twice is stripping once. */
  lemma StripIdempotent(s: string)
    ensures Strip(Strip(s)) == Strip(s)
  {
    var t := Strip(s);
    StripEnds(s);
    RStripSpaceNoop(t);
    LStripSpaceNoop(t);
  }

  /** A stripped text neither starts nor ends with whitespace. */
  lemma StripEnds(s: string)
    ensures var t := Strip(s); t == [] || (!IsSpace(t[0]) && !IsSpace(t[|t| - 1]))
  {
    var r := RStripSpace(s);
    var t := LStripSpace(r);
    if t != [] {
      assert IsSuffix(t, r);
      var k := |r| - |t|;
      assert r[k..] == t;
      assert t[|t| - 1] == r[k..][|t| - 1] == r[|r| - 1];
    }
  }

  lemma RStripSpaceNoop(t: string)
    requires t == [] || !IsSpace(t[|t| - 1])
    ensures RStripSpace(t) == t
  {
  }

  lemma LStripSpaceNoop(t: string)
    requires t == [] || !IsSpace(t[0])
    ensures LStripSpace(t) == t
  {
  }

  /** Trailing whitespace after a text that does not end in whitespace is what `rstrip()` removes. */
  lemma {:induction false} RStripSpaceTrail(x: string, ws: string)
    requires x == [] || !IsSpace(x[|x| - 1])
    requires forall i :: 0 <= i < |ws| ==> IsSpace(ws[i])
    ensures RStripSpace(x + ws) == x
    decreases |ws|
  {
    if ws == [] {
      assert x + ws == x;
    } else {
      var shorter := ws[..|ws| - 1];
      assert (x + ws)[..|x + ws| - 1] == x + shorter;
      RStripSpaceTrail(x, shorter);
    }
  }

  /** A trailing separator makes no difference to `rstrip(c)`. */
  lemma RStripCharAppend(s: string, c: char)
    ensures RStripChar(s + [c], c) == RStripChar(s, c)
  {
    assert (s + [c])[..|s|] == s;
  }

  /** A non-empty text without whitespace: one item of `s.split()`. */
  predicate IsWord(w: string) {
    w != [] && forall k :: 0 <= k < |w| ==> !IsSpace(w[k])
  }

  /** `s.split()`: the maximal runs of non-whitespace characters, in order. */
  function SplitSpace(s: string): seq<string>
    decreases |s|
  {
    var t := LStripSpace(s);
    if t == [] then []
    else
      var w := Word(t);
      WordOf(t);
      [w] + SplitSpace(t[|w|..])
  }

  /** The first word of a text that starts with a non-whitespace character. */
  lemma WordOf(t: string)
    requires t != [] && !IsSpace(t[0])
    ensures IsWord(Word(t)) && |Word(t)| <= |t|
  {
  }

  /** Every item of `s.split()` is a word. */
  lemma {:induction false} SplitSpaceWords(s: string)
    ensures forall i :: 0 <= i < |SplitSpace(s)| ==> IsWord(SplitSpace(s)[i])
    decreases |s|
  {
    var t := LStripSpace(s);
    if t != [] {
      var w := Word(t);
      WordOf(t);
      var rest := SplitSpace(t[|w|..]);
      SplitSpaceWords(t[|w|..]);
      assert SplitSpace(s) == [w] + rest;
      forall i | 1 <= i < |rest| + 1
        ensures IsWord(([w] + rest)[i])
      {
        assert ([w] + rest)[i] == rest[i - 1];
      }
    }
  }

  /** The longest whitespace-free prefix of `s`. */
  function Word(s: string): (w: string)
    ensures IsPrefix(w, s)
    ensures forall k :: 0 <= k < |w| ==> !IsSpace(w[k])
    ensures |w| == |s| || IsSpace(s[|w|])
    decreases |s|
  {
    if s == [] || IsSpace(s[0]) then "" else [s[0]] + Word(s[1..])
  }

  // ---------------------------------------------------------------------
  // lower, find

  /** `c.lower()` for ASCII letters. */
  function LowerChar(c: char): char {
    if 'A' <= c <= 'Z' then (c as int + 32) as char else c
  }

  /** `s.lower()` on the ASCII range. */
  function Lower(s: string): (r: string)
    ensures |r| == |s|
    ensures forall i :: 0 <= i < |s| ==> r[i] == LowerChar(s[i])
  {
    seq(|s|, i requires 0 <= i < |s| => LowerChar(s[i]))
  }

  /** Lower-casing leaves no upper-case letter, so it is idempotent, and it leaves text without one alone. */
  lemma LowerFolds(s: string)
    ensures forall i :: 0 <= i < |Lower(s)| ==> !('A' <= Lower(s)[i] <= 'Z')
    ensures Lower(Lower(s)) == Lower(s)
    ensures (forall i :: 0 <= i < |s| ==> !('A' <= s[i] <= 'Z')) ==> Lower(s) == s
  {
  }

  /** `s.startswith(w)`, one character at a time (the scan `find` makes). */
  predicate Begins(w: string, s: string)
    decreases |w|
  {
    w == [] || (s != [] && w[0] == s[0] && Begins(w[1..], s[1..]))
  }

  /** The scan agrees with the slice comparison. */
  lemma {:induction false} BeginsIsPrefix(w: string, s: string)
    ensures Begins(w, s) <==> IsPrefix(w, s)
    decreases |w|
  {
    if w != [] && s != [] {
      BeginsIsPrefix(w[1..], s[1..]);
      if IsPrefix(w, s) {
        assert s[1..][..|w| - 1] == s[..|w|][1..];
      } else if w[0] == s[0] && |w| <= |s| {
        assert s[..|w|] == [s[0]] + s[1..][..|w| - 1];
        assert w == [w[0]] + w[1..];
      }
    }
  }

  /** `s.find(w)`: the first index at which `w` occurs, or -1. */
  function Find(s: string, w: string): (r: int)
    ensures -1 <= r <= |s|
    decreases |s|
  {
    if Begins(w, s) then 0
    else if s == [] then -1
    else
      var k := Find(s[1..], w);
      if k < 0 then -1 else k + 1
  }

  /** `find` answers -1 exactly when `w` does not occur, and otherwise the first place it does. */
  lemma {:induction false} FindFirst(s: string, w: string)
    ensures var r := Find(s, w);
      (r == -1 <==> !Contains(s, w)) &&
      (r >= 0 ==> IsPrefix(w, s[r..]) && forall i :: 0 <= i < r ==> !IsPrefix(w, s[i..]))
    decreases |s|
  {
    BeginsIsPrefix(w, s);
    if !IsPrefix(w, s) && s != [] {
      FindFirst(s[1..], w);
      var k := Find(s[1..], w);
      if k >= 0 {
        assert s[1..][k..] == s[k + 1..];
        assert forall i :: 1 <= i < k + 1 ==> s[i..] == s[1..][i - 1..];
      }
    }
  }

  /** Python's `s[start:]` for a start in -1 .. |s|. */
  function SliceFrom(s: string, start: int): string
    requires -1 <= start <= |s|
  {
    if start >= 0 then s[start..]
    else if s == [] then s
    else s[|s| - 1..]
  }

  // ---------------------------------------------------------------------
  // html.escape(s, quote=True)

  /** The entity `html.escape` writes for one character. */
  function EscapeChar(c: char): string {
    if c == '&' then "&amp;"
    else if c == '<' then "&lt;"
    else if c == '>' then "&gt;"
    else if c == '\"' then "&quot;"
    else if c == '\'' then "&#x27;"
    else [c]
  }

  /** `html.escape(s)`: every markup-significant character replaced by its entity. */
  function HtmlEscape(s: string): (r: string)
    ensures forall i :: 0 <= i < |r| ==> r[i] !in "<>\"'"
    ensures (forall i :: 0 <= i < |s| ==> s[i] !in "&<>\"'") ==> r == s
    decreases |s|
  {
    if s == [] then ""
    else
      var rest := HtmlEscape(s[1..]);
      EscapePrepend(s[0], rest);
      EscapeChar(s[0]) + rest
  }

  /** An escaped character in front of markup-free text leaves it markup-free. */
  lemma EscapePrepend(c: char, rest: string)
    requires forall i :: 0 <= i < |rest| ==> rest[i] !in "<>\"'"
    ensures forall i :: 0 <= i < |EscapeChar(c) + rest| ==> (EscapeChar(c) + rest)[i] !in "<>\"'"
  {
    var e := EscapeChar(c);
    assert forall i :: 0 <= i < |e| ==> e[i] !in "<>\"'";
    forall i | |e| <= i < |e + rest|
      ensures (e + rest)[i] !in "<>\"'"
    {
      assert (e + rest)[i] == rest[i - |e|];
    }
  }

  /** The inverse of `HtmlEscape` (the five entities it produces). */
  function HtmlUnescape(r: string): string
    decreases |r|
  {
    if r == [] then ""
    else if IsPrefix("&amp;", r) then "&" + HtmlUnescape(r[5..])
    else if IsPrefix("&lt;", r) then "<" + HtmlUnescape(r[4..])
    else if IsPrefix("&gt;", r) then ">" + HtmlUnescape(r[4..])
    else if IsPrefix("&quot;", r) then "\"" + HtmlUnescape(r[6..])
    else if IsPrefix("&#x27;", r) then "'" + HtmlUnescape(r[6..])
    else [r[0]] + HtmlUnescape(r[1..])
  }

  /** Unescaping undoes the entity of one character. */
  lemma UnescapeStep(c: char, rest: string)
    ensures HtmlUnescape(EscapeChar(c) + rest) == [c] + HtmlUnescape(rest)
  {
    var r := EscapeChar(c) + rest;
    if c == '&' {
      assert r[..5] == "&amp;" && r[5..] == rest;
    } else if c == '<' {
      assert r[..4] == "&lt;" && r[4..] == rest;
      assert !IsPrefix("&amp;", r) by { assert r[1] == 'l'; }
    } else if c == '>' {
      assert r[..4] == "&gt;" && r[4..] == rest;
      assert !IsPrefix("&amp;", r) && !IsPrefix("&lt;", r) by { assert r[1] == 'g'; }
    } else if c == '\"' {
      assert r[..6] == "&quot;" && r[6..] == rest;
      assert !IsPrefix("&amp;", r) && !IsPrefix("&lt;", r) && !IsPrefix("&gt;", r) by { assert r[1] == 'q'; }
    } else if c == '\'' {
      assert r[..6] == "&#x27;" && r[6..] == rest;
      assert !IsPrefix("&amp;", r) && !IsPrefix("&lt;", r) && !IsPrefix("&gt;", r) && !IsPrefix("&quot;", r) by { assert r[1] == '#'; }
    } else {
      assert r[0] == c && r[1..] == rest;
      assert !IsPrefix("&amp;", r) && !IsPrefix("&lt;", r) && !IsPrefix("&gt;", r) && !IsPrefix("&quot;", r) && !IsPrefix("&#x27;", r);
    }
  }

  /** Escaping loses nothing: unescaping gives the original text back. */
  lemma {:induction false} HtmlEscapeRoundTrip(s: string)
    ensures HtmlUnescape(HtmlEscape(s)) == s
    decreases |s|
  {
    if s != [] {
      HtmlEscapeRoundTrip(s[1..]);
      UnescapeStep(s[0], HtmlEscape(s[1..]));
      assert [s[0]] + s[1..] == s;
    }
  }

  // ---------------------------------------------------------------------
  // urllib.parse.quote(s) with the default safe="/"

  /** Characters `quote` never encodes: ASCII letters, digits, `_.-~` and `/`. */
  predicate QuoteSafe(c: char) {
    ('A' <= c <= 'Z') || ('a' <= c <= 'z') || ('0' <= c <= '9') || c in "_.-~/"
  }

  function HexDigit(n: nat): char
    requires n < 16
  {
    if n < 10 then ('0' as int + n) as char else ('A' as int + n - 10) as char
  }

  predicate IsHexDigit(c: char) {
    ('0' <= c <= '9') || ('A' <= c <= 'F')
  }

  /** The UTF-8 encoding of one Unicode scalar value. */
  function Utf8(c: char): (bs: seq<nat>)
    ensures 1 <= |bs| <= 4
    ensures forall i :: 0 <= i < |bs| ==> bs[i] < 256
  {
    var n := c as int;
    if n < 0x80 then [n]
    else if n < 0x800 then [0xC0 + n / 64, 0x80 + n % 64]
    else if n < 0x10000 then [0xE0 + n / 4096, 0x80 + (n / 64) % 64, 0x80 + n % 64]
    else [0xF0 + n / 262144, 0x80 + (n / 4096) % 64, 0x80 + (n / 64) % 64, 0x80 + n % 64]
  }

  /** `%XX` for every byte. */
  function PercentBytes(bs: seq<nat>): (r: string)
    requires forall i :: 0 <= i < |bs| ==> bs[i] < 256
    ensures |r| == 3 * |bs|
    ensures forall i :: 0 <= i < |r| ==> r[i] == '%' || IsHexDigit(r[i])
    decreases |bs|
  {
    if bs == [] then ""
    else ['%', HexDigit(bs[0] / 16), HexDigit(bs[0] % 16)] + PercentBytes(bs[1..])
  }

  /** `urllib.parse.quote(s)` */
  function Quote(s: string): (r: string)
    ensures forall i :: 0 <= i < |r| ==> QuoteSafe(r[i]) || r[i] == '%' || IsHexDigit(r[i])
    ensures (forall i :: 0 <= i < |s| ==> QuoteSafe(s[i])) ==> r == s
    decreases |s|
  {
    if s == [] then ""
    else (if QuoteSafe(s[0]) then [s[0]] else PercentBytes(Utf8(s[0]))) + Quote(s[1..])
  }
}
