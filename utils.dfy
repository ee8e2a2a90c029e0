/**
 * The helpers of `panel_components/utils.py`: Jinja escaping, folder names,
 * the sanitising and resolution of asset paths, inlining of scripts and
 * styles, copying of assets, and `data:` URIs (RFC 2397) with their memo.
 *
 * The filesystem is a map from existing file paths to their contents; `os.sep`
 * is `/`.
 */
module Utils {
  import opened Outcomes
  import opened Text
  import Base64

  // ---------------------------------------------------------------------
  // template_escape

  /** The three Jinja openers, in the order `template_escape` rewrites them. */
  const Openers: seq<string> := ["{{", "{%", "{#"]

  /** The Jinja string literal expression that prints `o`: `{{'` o `'}}`. */
  function Literal(o: string): string {
    "{{'" + o + "'}}"
  }

  /** `template_escape(text)`: three chained `str.replace` calls. */
  function TemplateEscape(text: string): string {
    Replace(Replace(Replace(text, "{{", "{{'{{'}}"), "{%", "{{'{%'}}"), "{#", "{{'{#'}}")
  }

  /** Which of the first `n` openers starts `s` (they exclude each other), or -1. */
  function Opening(s: string, n: nat): (i: int)
    requires n <= 3
    ensures -1 <= i < n
    ensures i >= 0 ==> IsPrefix(Openers[i], s)
  {
    if n > 0 && IsPrefix("{{", s) then 0
    else if n > 1 && IsPrefix("{%", s) then 1
    else if n > 2 && IsPrefix("{#", s) then 2
    else -1
  }

  /**
   * One left-to-right pass that rewrites the first `n` openers into their
   * literals; with `n == 3` this is what `template_escape` does.
   */
  function EscapeUpTo(s: string, n: nat): (r: string)
    requires n <= 3
    ensures s != [] ==> r != [] && r[0] == s[0]
    decreases |s|
  {
    if s == [] then []
    else
      var i := Opening(s, n);
      if i >= 0 then Literal(Openers[i]) + EscapeUpTo(s[2..], n)
      else [s[0]] + EscapeUpTo(s[1..], n)
  }

  /** What Jinja prints for an escaped text: each opener literal becomes its opener again. */
  function RenderLiterals(r: string): string
    decreases |r|
  {
    if r == [] then []
    else if IsPrefix(Literal("{{"), r) then "{{" + RenderLiterals(r[8..])
    else if IsPrefix(Literal("{%"), r) then "{%" + RenderLiterals(r[8..])
    else if IsPrefix(Literal("{#"), r) then "{#" + RenderLiterals(r[8..])
    else [r[0]] + RenderLiterals(r[1..])
  }

  lemma {:induction false} EscapeNone(s: string)
    ensures EscapeUpTo(s, 0) == s
    decreases |s|
  {
    if s != [] {
      EscapeNone(s[1..]);
      assert [s[0]] + s[1..] == s;
    }
  }

  /** The pattern `pat` of two characters stands at position `k` of `s`. */
  predicate PairAt(s: string, k: int, pat: string)
    requires |pat| == 2
  {
    0 <= k < |s| - 1 && s[k] == pat[0] && s[k + 1] == pat[1]
  }

  /** The literal of an earlier opener does not contain a later opener. */
  lemma LiteralFree(i: nat, n: nat)
    requires i < n < 3
    ensures !Contains(Literal(Openers[i]), Openers[n])
  {
    var l := Literal(Openers[i]);
    var pat := Openers[n];
    assert l == ['{', '{', '\'', '{', Openers[i][1], '\'', '}', '}'];
    forall k | 0 <= k < |l| - 1 ensures !PairAt(l, k, pat) {
      if k == 3 {
        assert l[4] != pat[1];
      }
    }
    NotContainsPair(l, pat);
  }

  /** A two-character pattern occurs only where its two characters stand side by side. */
  lemma {:induction false} NotContainsPair(s: string, pat: string)
    requires |pat| == 2
    requires forall k :: 0 <= k < |s| - 1 ==> !PairAt(s, k, pat)
    ensures !Contains(s, pat)
    decreases |s|
  {
    if s != [] {
      if |s| >= 2 {
        assert !PairAt(s, 0, pat);
        assert s[..2] == [s[0], s[1]];
      }
      forall k | 0 <= k < |s[1..]| - 1 ensures !PairAt(s[1..], k, pat) {
        assert !PairAt(s, k + 1, pat);
      }
      NotContainsPair(s[1..], pat);
    }
  }

  /** Each `str.replace` of the chain extends the single pass by one more opener. */
  lemma {:induction false} EscapeStep(s: string, n: nat)
    requires n < 3
    ensures Replace(EscapeUpTo(s, n), Openers[n], Literal(Openers[n])) == EscapeUpTo(s, n + 1)
    decreases |s|
  {
    if s != [] {
      var i := Opening(s, n);
      if i >= 0 {
        EscapeStep(s[2..], n);
        EscapeStepOpener(s, n, i);
      } else if IsPrefix(Openers[n], s) {
        EscapeStep(s[2..], n);
        EscapeStepPattern(s, n);
      } else {
        EscapeStep(s[1..], n);
        EscapeStepPlain(s, n);
      }
    }
  }

  /** An earlier opener is rewritten by both passes, and its literal holds no later opener. */
  lemma EscapeStepOpener(s: string, n: nat, i: int)
    requires n < 3 && i == Opening(s, n) && i >= 0
    requires Replace(EscapeUpTo(s[2..], n), Openers[n], Literal(Openers[n])) == EscapeUpTo(s[2..], n + 1)
    ensures Replace(EscapeUpTo(s, n), Openers[n], Literal(Openers[n])) == EscapeUpTo(s, n + 1)
  {
    var pat, rep := Openers[n], Literal(Openers[n]);
    var tail := EscapeUpTo(s[2..], n);
    var lit := Literal(Openers[i]);
    assert EscapeUpTo(s, n) == lit + tail;
    ReplaceConcat(lit, tail, pat, rep);
    LiteralFree(i, n);
    ReplaceAbsent(lit, pat, rep);
    assert Opening(s, n + 1) == i;
  }

  /** The opener the step adds is left alone by the pass and rewritten by the replacement. */
  lemma EscapeStepPattern(s: string, n: nat)
    requires n < 3 && Opening(s, n) < 0 && IsPrefix(Openers[n], s)
    requires Replace(EscapeUpTo(s[2..], n), Openers[n], Literal(Openers[n])) == EscapeUpTo(s[2..], n + 1)
    ensures Replace(EscapeUpTo(s, n), Openers[n], Literal(Openers[n])) == EscapeUpTo(s, n + 1)
  {
    var pat := Openers[n];
    assert Opening(s, n + 1) == n;
    var tail := EscapeUpTo(s[2..], n);
    assert Opening(s[1..], n) == -1;
    assert EscapeUpTo(s[1..], n) == [s[1]] + tail by {
      assert s[1..][1..] == s[2..];
    }
    var e := EscapeUpTo(s, n);
    assert e == pat + tail;
    assert e[..2] == pat && e[2..] == tail;
  }

  /** A character that starts no opener is copied by the pass and skipped by the replacement. */
  lemma EscapeStepPlain(s: string, n: nat)
    requires n < 3 && s != [] && Opening(s, n) < 0 && !IsPrefix(Openers[n], s)
    requires Replace(EscapeUpTo(s[1..], n), Openers[n], Literal(Openers[n])) == EscapeUpTo(s[1..], n + 1)
    ensures Replace(EscapeUpTo(s, n), Openers[n], Literal(Openers[n])) == EscapeUpTo(s, n + 1)
  {
    assert Opening(s, n + 1) == -1;
    var tail := EscapeUpTo(s[1..], n);
    var e := EscapeUpTo(s, n);
    assert e == [s[0]] + tail;
    if |e| >= 2 {
      assert e[..2] == s[..2];
      assert e[1..] == tail;
    }
  }

  /** `template_escape` is the single pass that rewrites every opener into its literal. */
  lemma TemplateEscapeOnePass(text: string)
    ensures TemplateEscape(text) == EscapeUpTo(text, 3)
  {
    assert Openers[0] == "{{" && Literal(Openers[0]) == "{{'{{'}}";
    assert Openers[1] == "{%" && Literal(Openers[1]) == "{{'{%'}}";
    assert Openers[2] == "{#" && Literal(Openers[2]) == "{{'{#'}}";
    EscapeNone(text);
    EscapeStep(text, 0);
    EscapeStep(text, 1);
    EscapeStep(text, 2);
  }

  /** Jinja prints the escaped text as the original text. */
  lemma {:induction false} TemplateEscapeRoundTrip(text: string)
    ensures RenderLiterals(TemplateEscape(text)) == text
  {
    TemplateEscapeOnePass(text);
    RenderEscaped(text);
  }

  lemma RenderLiteral(i: nat, tail: string)
    requires i < 3
    ensures RenderLiterals(Literal(Openers[i]) + tail) == Openers[i] + RenderLiterals(tail)
  {
    var r := Literal(Openers[i]) + tail;
    assert r[..8] == Literal(Openers[i]) && r[8..] == tail;
    assert r[4] == Openers[i][1];
  }

  lemma RenderPlain(c: char, tail: string)
    requires c != '{' || tail == [] || tail[0] != '{'
    ensures RenderLiterals([c] + tail) == [c] + RenderLiterals(tail)
  {
    var r := [c] + tail;
    assert r[1..] == tail;
    assert r[0] == c && (|r| >= 2 ==> r[1] == tail[0]);
    NotLiteralAt("{{", r);
    NotLiteralAt("{%", r);
    NotLiteralAt("{#", r);
  }

  /** A text that does not start with `{{` does not start with a literal. */
  lemma NotLiteralAt(o: string, r: string)
    requires |o| == 2
    requires |r| >= 2 ==> r[0] != '{' || r[1] != '{'
    ensures !IsPrefix(Literal(o), r)
  {
    var l := Literal(o);
    assert |l| == 8 && l[0] == '{' && l[1] == '{';
    assert |r| >= 8 ==> r[..8][0] == r[0] && r[..8][1] == r[1];
  }

  lemma {:induction false} RenderEscaped(s: string)
    ensures RenderLiterals(EscapeUpTo(s, 3)) == s
    decreases |s|
  {
    if s != [] {
      var i := Opening(s, 3);
      if i >= 0 {
        RenderLiteral(i, EscapeUpTo(s[2..], 3));
        RenderEscaped(s[2..]);
        assert s[..2] + s[2..] == s;
      } else {
        var tail := EscapeUpTo(s[1..], 3);
        if s[0] == '{' && |s| >= 2 {
          assert s[1] != '{';
        }
        RenderPlain(s[0], tail);
        RenderEscaped(s[1..]);
        assert [s[0]] + s[1..] == s;
      }
    }
  }

  /** Text without any opener is left as it is. */
  lemma TemplateEscapeIdentity(text: string)
    requires !Contains(text, "{{") && !Contains(text, "{%") && !Contains(text, "{#")
    ensures TemplateEscape(text) == text
  {
    ReplaceAbsent(text, "{{", "{{'{{'}}");
    ReplaceAbsent(text, "{%", "{{'{%'}}");
    ReplaceAbsent(text, "{#", "{{'{#'}}");
  }

  // ---------------------------------------------------------------------
  // get_dir_name

  /**
   * `get_dir_name(folder)`: the last name of the folder after trailing
   * separators are dropped; an empty or missing folder stands for the
   * working folder `cwd`.
   */
  function GetDirName(folder: string, cwd: string): (r: string)
    ensures '/' !in r
  {
    var f := if folder == "" then cwd else folder;
    var pieces := Split(RStripChar(f, '/'), '/');
    SplitJoin(RStripChar(f, '/'), '/');
    pieces[|pieces| - 1]
  }

  /** The name after the last separator is the folder name. */
  lemma GetDirNameLast(parent: string, name: string, cwd: string)
    requires name != "" && '/' !in name
    ensures GetDirName(parent + "/" + name, cwd) == name
  {
    var f := parent + "/" + name;
    assert f[|f| - 1] == name[|name| - 1];
    assert RStripChar(f, '/') == f;
    LastPieceAfter(parent, name, '/');
  }

  /** A trailing separator does not change the folder name. */
  lemma GetDirNameTrailing(folder: string, cwd: string)
    requires folder != ""
    ensures GetDirName(folder + "/", cwd) == GetDirName(folder, cwd)
  {
    RStripCharAppend(folder, '/');
  }

  // ---------------------------------------------------------------------
  // Path elements and os.path.join

  /** A path element survives sanitising when it is non-empty and does not start with a dot. */
  predicate Kept(e: string) {
    |e| > 0 && e[0] != '.'
  }

  /** `[e for e in parts if len(e) > 0 and e[0] != "."]` */
  function KeepElements(parts: seq<string>): (r: seq<string>)
    ensures forall i :: 0 <= i < |r| ==> Kept(r[i]) && r[i] in parts
    ensures forall e :: e in parts && Kept(e) ==> e in r
    decreases |parts|
  {
    if parts == [] then []
    else if Kept(parts[0]) then [parts[0]] + KeepElements(parts[1..])
    else KeepElements(parts[1..])
  }

  /** The filter keeps a single element exactly when it survives sanitising. */
  lemma KeepElementsOne(e: string)
    ensures KeepElements([e]) == if Kept(e) then [e] else []
  {
    assert [e][1..] == [];
  }

  /**
   * The filter distributes over concatenation: the kept elements stay in
   * their order, each as often as it occurs.
   */
  lemma {:induction false} KeepElementsAppend(a: seq<string>, b: seq<string>)
    ensures KeepElements(a + b) == KeepElements(a) + KeepElements(b)
    decreases |a|
  {
    if a != [] {
      assert (a + b)[1..] == a[1..] + b;
      KeepElementsAppend(a[1..], b);
    } else {
      assert a + b == b;
    }
  }

  /** The sanitised elements of a file name or folder: `s.rstrip("/").split("/")`, filtered. */
  function PathElements(s: string): seq<string> {
    KeepElements(Split(RStripChar(s, '/'), '/'))
  }

  /** No element is empty, starts with a dot (so none is `.` or `..`) or holds a separator. */
  lemma PathElementsClean(s: string)
    ensures forall i :: 0 <= i < |PathElements(s)| ==>
      Kept(PathElements(s)[i]) && '/' !in PathElements(s)[i]
  {
    SplitJoin(RStripChar(s, '/'), '/');
  }

  lemma {:induction false} LeadingSeparators(s: string)
    ensures KeepElements(Split(LStripChar(s, '/'), '/')) == KeepElements(Split(s, '/'))
    decreases |s|
  {
    if s != [] && s[0] == '/' {
      LeadingSeparators(s[1..]);
      assert Split(s, '/') == [""] + Split(s[1..], '/');
    }
  }

  /** `s.strip("/")` and `s.rstrip("/")` give the same elements. */
  lemma PathElementsStrip(s: string)
    ensures KeepElements(Split(StripChar(s, '/'), '/')) == PathElements(s)
  {
    LeadingSeparators(RStripChar(s, '/'));
  }

  /** `os.path.join(a, b)` (posixpath): an absolute `b` replaces `a`. */
  function JoinPath(a: string, b: string): string {
    if IsPrefix("/", b) then b
    else if a == "" || a[|a| - 1] == '/' then a + b
    else a + "/" + b
  }

  /** `os.path.join(a, *ps)` */
  function JoinAll(a: string, ps: seq<string>): string
    decreases |ps|
  {
    if ps == [] then a else JoinAll(JoinPath(a, ps[0]), ps[1..])
  }

  /**
   * Joining sanitised elements to a folder puts a single separator between
   * parts, so the segments after the folder are exactly the elements.
   */
  lemma {:induction false} JoinElements(base: string, elems: seq<string>)
    requires base != "" && base[|base| - 1] != '/'
    requires elems != []
    requires forall i :: 0 <= i < |elems| ==> Kept(elems[i]) && '/' !in elems[i]
    ensures JoinAll(base, elems) == base + "/" + Join(elems, '/')
    ensures Split(Join(elems, '/'), '/') == elems
    decreases |elems|
  {
    JoinSplit(elems, '/');
    var next := JoinPath(base, elems[0]);
    assert next == base + "/" + elems[0] by {
      assert !IsPrefix("/", elems[0]) by { assert elems[0][0] != '/'; }
    }
    var rest := elems[1..];
    if |elems| == 1 {
      assert JoinAll(base, elems) == JoinAll(next, rest);
    } else {
      assert next[|next| - 1] == elems[0][|elems[0]| - 1];
      JoinElements(next, rest);
      var tail := Join(rest, '/');
      assert JoinAll(base, elems) == next + "/" + tail;
      assert Join(elems, '/') == elems[0] + "/" + tail;
      Assoc(base + "/", elems[0], "/");
      Assoc(base + "/", elems[0] + "/", tail);
    }
  }

  // ---------------------------------------------------------------------
  // The filesystem and the search for a source file

  /** A file as `open(p).read()` (text) and `open(p, "rb").read()` (bytes) see it. */
  datatype File = File(text: string, bytes: seq<Base64.Byte>)

  /** The existing files, by path. Folders are not modelled. */
  type FileSystem = map<string, File>

  /** `p and os.path.isfile(p)` */
  predicate IsFile(fs: FileSystem, p: string) {
    p != "" && p in fs
  }

  /**
   * The candidate path of the file inside one asset folder: the folder's own
   * elements (the first one made absolute again for an absolute folder)
   * followed by the file's elements, as `os.path.join(*folder_elements, *elements)`.
   */
  function FolderCandidate(folder: string, elems: seq<string>): Result<string> {
    CandidateFrom(IsPrefix("/", folder), PathElements(folder), elems)
  }

  /** The candidate from a folder's elements, and whether the folder is absolute. */
  function CandidateFrom(absolute: bool, fe: seq<string>, elems: seq<string>): Result<string> {
    if absolute && fe == [] then Err(IndexError)
    else
      var parts := (if absolute then ["/" + fe[0]] + fe[1..] else fe) + elems;
      if parts == [] then Err(TypeError) else Ok(JoinAll(parts[0], parts[1..]))
  }

  /** Elements that a sanitised path can hold. */
  predicate CleanElements(elems: seq<string>) {
    forall i :: 0 <= i < |elems| ==> Kept(elems[i]) && '/' !in elems[i]
  }

  /** Clean elements stay clean when put together or cut short at the front. */
  lemma CleanConcat(a: seq<string>, b: seq<string>)
    requires CleanElements(a) && CleanElements(b)
    ensures CleanElements(a + b) && (a + b != [] ==> CleanElements((a + b)[1..]))
  {
    assert forall i :: 0 <= i < |a + b| ==> (a + b)[i] == if i < |a| then a[i] else b[i - |a|];
  }

  /** A prefix glued to the first part of a join is a prefix of the join. */
  lemma JoinFirst(pre: string, parts: seq<string>)
    requires parts != []
    ensures Join([pre + parts[0]] + parts[1..], '/') == pre + Join(parts, '/')
  {
    var q := [pre + parts[0]] + parts[1..];
    assert q[0] == pre + parts[0] && q[1..] == parts[1..];
    if |parts| > 1 {
      var tail := Join(parts[1..], '/');
      Assoc(pre, parts[0], ['/']);
      Assoc(pre, parts[0] + ['/'], tail);
    }
  }

  /** Joining clean parts with `os.path.join` puts one separator between each. */
  lemma JoinAllClean(first: string, rest: seq<string>)
    requires first != "" && first[|first| - 1] != '/'
    requires CleanElements(rest)
    ensures JoinAll(first, rest) == Join([first] + rest, '/')
  {
    if rest != [] {
      JoinElements(first, rest);
      assert ([first] + rest)[1..] == rest;
    }
  }

  /**
   * A candidate is the folder's elements and then the file's elements, one
   * separator between each, with a leading separator for an absolute folder;
   * the errors are an absolute folder without elements (IndexError) and
   * nothing at all to join (TypeError).
   */
  lemma CandidatePath(absolute: bool, fe: seq<string>, elems: seq<string>)
    requires CleanElements(fe) && CleanElements(elems)
    ensures CandidateFrom(absolute, fe, elems) ==
      if absolute && fe == [] then Err(IndexError)
      else if fe + elems == [] then Err(TypeError)
      else Ok((if absolute then "/" else "") + Join(fe + elems, '/'))
  {
    var all := fe + elems;
    if all != [] && !(absolute && fe == []) {
      var pre := if absolute then "/" else "";
      var first := pre + all[0];
      CleanConcat(fe, elems);
      assert (if absolute then ["/" + fe[0]] + fe[1..] else fe) + elems == [first] + all[1..] by {
        if absolute {
          assert all[0] == fe[0] && all[1..] == fe[1..] + elems;
        } else {
          assert first == all[0];
          assert [first] + all[1..] == all;
        }
      }
      assert first[|first| - 1] == all[0][|all[0]| - 1];
      JoinAllClean(first, all[1..]);
      JoinFirst(pre, all);
    }
  }

  /** `FolderCandidate` in those terms, for an actual folder. */
  lemma FolderCandidatePath(folder: string, elems: seq<string>)
    requires CleanElements(elems)
    ensures var fe := PathElements(folder);
      FolderCandidate(folder, elems) ==
        if IsPrefix("/", folder) && fe == [] then Err(IndexError)
        else if fe + elems == [] then Err(TypeError)
        else Ok((if IsPrefix("/", folder) then "/" else "") + Join(fe + elems, '/'))
  {
    PathElementsClean(folder);
    CandidatePath(IsPrefix("/", folder), PathElements(folder), elems);
  }

  /** The candidate path of every asset folder, in the folders' order. */
  function Candidates(assets: seq<string>, elems: seq<string>): (cs: seq<Result<string>>)
    ensures |cs| == |assets|
    ensures forall i :: 0 <= i < |assets| ==> cs[i] == FolderCandidate(assets[i], elems)
  {
    seq(|assets|, i requires 0 <= i < |assets| => FolderCandidate(assets[i], elems))
  }

  /** A candidate that is a valid path where no file exists. */
  predicate Misses(c: Result<string>, fs: FileSystem) {
    c.Ok? && !IsFile(fs, c.value)
  }

  /** The loop over `reversed(asset_folders)`: the first candidate, from the last, that exists. */
  function ScanFolders(cands: seq<Result<string>>, fs: FileSystem): (r: Result<Option<string>>)
    ensures r.Ok? && r.value.Some? ==> IsFile(fs, r.value.value)
    decreases |cands|
  {
    if cands == [] then Ok(None)
    else
      match cands[|cands| - 1]
      case Err(e) => Err(e)
      case Ok(p) =>
        if IsFile(fs, p) then Ok(Some(p)) else ScanFolders(cands[..|cands| - 1], fs)
  }

  /** The scan finds the last candidate that exists when every candidate after it misses. */
  lemma {:induction false} ScanFinds(cands: seq<Result<string>>, fs: FileSystem, j: nat)
    requires j < |cands| && cands[j].Ok? && IsFile(fs, cands[j].value)
    requires forall k :: j < k < |cands| ==> Misses(cands[k], fs)
    ensures ScanFolders(cands, fs) == Ok(Some(cands[j].value))
    decreases |cands|
  {
    var last := |cands| - 1;
    if j < last {
      assert Misses(cands[last], fs);
      var init := cands[..last];
      assert forall k :: j <= k < |init| ==> init[k] == cands[k];
      ScanFinds(init, fs, j);
    }
  }

  /** The scan finds nothing exactly when every candidate misses. */
  lemma {:induction false} ScanNone(cands: seq<Result<string>>, fs: FileSystem)
    ensures ScanFolders(cands, fs) == Ok(None) <==> forall k :: 0 <= k < |cands| ==> Misses(cands[k], fs)
    decreases |cands|
  {
    if cands != [] {
      var last := |cands| - 1;
      var init := cands[..last];
      ScanNone(init, fs);
      assert forall k :: 0 <= k < last ==> init[k] == cands[k];
    }
  }

  /** Scanning `a + b` tries all of `b` (from its end) before any of `a`. */
  lemma {:induction false} ScanAppend(a: seq<Result<string>>, b: seq<Result<string>>, fs: FileSystem)
    ensures ScanFolders(a + b, fs) == if ScanFolders(b, fs) == Ok(None) then ScanFolders(a, fs) else ScanFolders(b, fs)
    decreases |b|
  {
    if b == [] {
      assert a + b == a;
    } else {
      var last := |b| - 1;
      assert (a + b)[..|a + b| - 1] == a + b[..last];
      assert (a + b)[|a + b| - 1] == b[last];
      ScanAppend(a, b[..last], fs);
    }
  }

  /** The candidates of two lists of folders, one after the other. */
  lemma CandidatesAppend(x: seq<string>, y: seq<string>, elems: seq<string>)
    ensures Candidates(x + y, elems) == Candidates(x, elems) + Candidates(y, elems)
  {
    var l, cx, cy := Candidates(x + y, elems), Candidates(x, elems), Candidates(y, elems);
    forall i | 0 <= i < |x + y|
      ensures l[i] == (cx + cy)[i]
    {
      if i < |x| {
        assert (x + y)[i] == x[i];
      } else {
        assert (x + y)[i] == y[i - |x|];
      }
    }
  }

  /** `find_src_file`'s search: the source folder first, then the asset folders from the last one. */
  function Locate(srcFolder: string, elems: seq<string>, assets: seq<string>, fs: FileSystem): (r: Result<Option<string>>)
    ensures r.Ok? && r.value.Some? ==> IsFile(fs, r.value.value)
  {
    var primary := JoinAll(srcFolder, elems);
    if IsFile(fs, primary) then Ok(Some(primary)) else ScanFolders(Candidates(assets, elems), fs)
  }

  /** The search loop itself, with its `src_exists` flag and `break`. */
  method LocateSource(srcFolder: string, elems: seq<string>, assets: seq<string>, fs: FileSystem)
    returns (r: Result<Option<string>>)
    ensures r == Locate(srcFolder, elems, assets, fs)
  {
    var srcFile := JoinAll(srcFolder, elems);
    var srcExists := false;
    if IsFile(fs, srcFile) {
      srcExists := true;
    } else if assets != [] {
      ghost var cands := Candidates(assets, elems);
      var i := |assets|;
      assert cands[..i] == cands;
      while i > 0
        invariant 0 <= i <= |assets|
        invariant !srcExists
        invariant ScanFolders(cands, fs) == ScanFolders(cands[..i], fs)
      {
        var folder := assets[i - 1];
        assert cands[..i][..i - 1] == cands[..i - 1];
        var candidate := FolderCandidate(folder, elems);
        assert candidate == cands[i - 1];
        if candidate.Err? {
          return Err(candidate.error);
        }
        srcFile := candidate.value;
        if IsFile(fs, srcFile) {
          srcExists := true;
          break;
        }
        i := i - 1;
      }
    }
    if srcExists {
      r := Ok(Some(srcFile));
    } else {
      r := Ok(None);
    }
  }

  // ---------------------------------------------------------------------
  // find_src_file

  /** The source file found (if any) and the destination path (when a destination folder is given). */
  datatype Resolved = Resolved(src: Option<string>, dst: Option<string>)

  /** `find_src_file(filename, src_folder, dst_folder, asset_folders)` */
  function Resolution(filename: string, srcFolder: string, dstFolder: Option<string>, assets: seq<string>, fs: FileSystem)
    : (r: Result<Resolved>)
    ensures r.Ok? ==> (r.value.dst.None? <==> dstFolder.None?)
    ensures r.Ok? && r.value.src.Some? ==> IsFile(fs, r.value.src.value)
    ensures dstFolder.Some? && PathElements(Strip(filename)) == [] ==> r == Err(IndexError)
  {
    var elems := PathElements(Strip(filename));
    if dstFolder.Some? && elems == [] then Err(IndexError)
    else
      var dst := if dstFolder.None? then None else Some(DstPath(dstFolder.value, elems));
      match Locate(srcFolder, elems, assets, fs)
      case Err(e) => Err(e)
      case Ok(src) => Ok(Resolved(src, dst))
  }

  /** The destination path `find_src_file` builds from a folder and clean elements. */
  function DstPath(d: string, elems: seq<string>): string
    requires elems != []
  {
    JoinPath(Join([d] + elems[..|elems| - 1], '/'), elems[|elems| - 1])
  }

  /** That path is the folder followed by the elements, one separator between each. */
  lemma DstPathJoin(d: string, elems: seq<string>)
    requires d != "" && d[|d| - 1] != '/'
    requires elems != [] && CleanElements(elems)
    ensures DstPath(d, elems) == d + "/" + Join(elems, '/')
  {
    var init, last := elems[..|elems| - 1], elems[|elems| - 1];
    var folder := Join([d] + init, '/');
    assert [d] + init + [last] == [d] + elems;
    JoinSnoc([d] + init, last);
    assert folder != "" && folder[|folder| - 1] != '/' by {
      if init != [] {
        var l := init[|init| - 1];
        assert [d] + init == ([d] + init[..|init| - 1]) + [l];
        JoinSnoc([d] + init[..|init| - 1], l);
        assert Kept(l) && '/' !in l;
        assert folder[|folder| - 1] == l[|l| - 1];
      }
    }
    assert !IsPrefix("/", last) by { assert Kept(last) && '/' !in last; }
  }

  /** The destination is the destination folder followed by the file's elements. */
  lemma ResolutionDst(filename: string, srcFolder: string, d: string, assets: seq<string>, fs: FileSystem)
    requires d != "" && d[|d| - 1] != '/'
    requires Resolution(filename, srcFolder, Some(d), assets, fs).Ok?
    ensures Resolution(filename, srcFolder, Some(d), assets, fs).value.dst
      == Some(d + "/" + Join(PathElements(Strip(filename)), '/'))
  {
    PathElementsClean(Strip(filename));
    DstPathJoin(d, PathElements(Strip(filename)));
  }

  /** Joining a list with one more part appends a separator and that part. */
  lemma {:induction false} JoinSnoc(parts: seq<string>, x: string)
    requires parts != []
    ensures Join(parts + [x], '/') == Join(parts, '/') + "/" + x
    decreases |parts|
  {
    if |parts| > 1 {
      JoinSnoc(parts[1..], x);
      assert (parts + [x])[1..] == parts[1..] + [x];
    } else {
      assert (parts + [x])[1..] == [x];
    }
  }

  /** `find_src_file`, computed the way the source does it. */
  method FindSrcFile(filename: string, srcFolder: string, dstFolder: Option<string>, assets: seq<string>, fs: FileSystem)
    returns (r: Result<Resolved>)
    ensures r == Resolution(filename, srcFolder, dstFolder, assets, fs)
  {
    var elems := PathElements(Strip(filename));
    var dstFile: Option<string> := None;
    if dstFolder.Some? {
      if elems == [] {
        return Err(IndexError);
      }
      var folder := Join([dstFolder.value] + elems[..|elems| - 1], '/');
      dstFile := Some(JoinPath(folder, elems[|elems| - 1]));
      assert dstFile.value == DstPath(dstFolder.value, elems);
    }
    var src := LocateSource(srcFolder, elems, assets, fs);
    if src.Err? {
      return Err(src.error);
    }
    r := Ok(Resolved(src.value, dstFile));
  }

  // ---------------------------------------------------------------------
  // _read_file, get_inline_js, get_inline_css

  /** `_read_file(p)`: the text of an existing file, otherwise "". */
  function ReadFile(fs: FileSystem, p: Option<string>): string {
    if p.Some? && IsFile(fs, p.value) then fs[p.value].text else ""
  }

  /** Every `</script` made harmless inside an inline `<script>` element. */
  function NeutraliseScript(s: string): (r: string)
    ensures !Contains(r, "</script")
    ensures !Contains(s, "</script") ==> r == s
  {
    ReplaceRemoves(s, "</script", "\\u003c/script");
    assert !Contains(s, "</script") ==> Replace(s, "</script", "\\u003c/script") == s by {
      if !Contains(s, "</script") {
        ReplaceAbsent(s, "</script", "\\u003c/script");
      }
    }
    Replace(s, "</script", "\\u003c/script")
  }

  /** Every `</style` made harmless inside an inline `<style>` element. */
  function NeutraliseStyle(s: string): (r: string)
    ensures !Contains(r, "</style")
    ensures !Contains(s, "</style") ==> r == s
  {
    ReplaceRemoves(s, "</style", "\\00003c/style");
    assert !Contains(s, "</style") ==> Replace(s, "</style", "\\00003c/style") == s by {
      if !Contains(s, "</style") {
        ReplaceAbsent(s, "</style", "\\00003c/style");
      }
    }
    Replace(s, "</style", "\\00003c/style")
  }

  /** `get_inline_js(...)`: the file's text, safe to put inside `<script>`; "" when it is not found. */
  function InlineJs(filename: string, srcFolder: string, dstFolder: Option<string>, assets: seq<string>, fs: FileSystem)
    : (r: Result<string>)
    ensures r.Ok? ==> !Contains(r.value, "</script")
    ensures r.Ok? <==> Resolution(filename, srcFolder, dstFolder, assets, fs).Ok?
    ensures r.Ok? && Resolution(filename, srcFolder, dstFolder, assets, fs).value.src.None? ==> r.value == ""
    ensures var found := Resolution(filename, srcFolder, dstFolder, assets, fs);
      r.Ok? && found.value.src.Some? ==> r.value == NeutraliseScript(fs[found.value.src.value].text)
    ensures var found := Resolution(filename, srcFolder, dstFolder, assets, fs);
      r.Ok? && found.value.src.Some? && !Contains(fs[found.value.src.value].text, "</script") ==>
        r.value == fs[found.value.src.value].text
  {
    match Resolution(filename, srcFolder, dstFolder, assets, fs)
    case Err(e) => Err(e)
    case Ok(found) => Ok(NeutraliseScript(ReadFile(fs, found.src)))
  }

  /** `get_inline_css(...)`: the file's text, safe to put inside `<style>`; "" when it is not found. */
  function InlineCss(filename: string, srcFolder: string, dstFolder: Option<string>, assets: seq<string>, fs: FileSystem)
    : (r: Result<string>)
    ensures r.Ok? ==> !Contains(r.value, "</style")
    ensures r.Ok? <==> Resolution(filename, srcFolder, dstFolder, assets, fs).Ok?
    ensures r.Ok? && Resolution(filename, srcFolder, dstFolder, assets, fs).value.src.None? ==> r.value == ""
    ensures var found := Resolution(filename, srcFolder, dstFolder, assets, fs);
      r.Ok? && found.value.src.Some? ==> r.value == NeutraliseStyle(fs[found.value.src.value].text)
    ensures var found := Resolution(filename, srcFolder, dstFolder, assets, fs);
      r.Ok? && found.value.src.Some? && !Contains(fs[found.value.src.value].text, "</style") ==>
        r.value == fs[found.value.src.value].text
  {
    match Resolution(filename, srcFolder, dstFolder, assets, fs)
    case Err(e) => Err(e)
    case Ok(found) => Ok(NeutraliseStyle(ReadFile(fs, found.src)))
  }

  // ---------------------------------------------------------------------
  // make_available

  /**
   * The files after `make_available`: a found source is copied to the
   * destination unless something already exists there.
   */
  function Copied(filename: string, srcFolder: string, dstFolder: Option<string>, assets: seq<string>, fs: FileSystem)
    : (r: Result<FileSystem>)
    ensures r.Ok? <==> (Resolution(filename, srcFolder, dstFolder, assets, fs).Ok? &&
      (Resolution(filename, srcFolder, dstFolder, assets, fs).value.src.None? || dstFolder.Some?))
    ensures r.Ok? ==> forall p :: p in fs ==> p in r.value && r.value[p] == fs[p]
    ensures r.Ok? ==> forall p :: p in r.value && p !in fs ==>
      var found := Resolution(filename, srcFolder, dstFolder, assets, fs).value;
      found.src.Some? && found.dst == Some(p) && r.value[p] == fs[found.src.value]
    ensures var found := Resolution(filename, srcFolder, dstFolder, assets, fs);
      r.Ok? && found.value.src.Some? ==>
        found.value.dst.Some? && found.value.dst.value in r.value &&
        (found.value.dst.value !in fs ==> r.value[found.value.dst.value] == fs[found.value.src.value])
    ensures var found := Resolution(filename, srcFolder, dstFolder, assets, fs);
      r.Ok? ==> (r.value == fs <==> found.value.src.None? || found.value.dst.value in fs)
  {
    match Resolution(filename, srcFolder, dstFolder, assets, fs)
    case Err(e) => Err(e)
    case Ok(found) =>
      if found.src.None? then Ok(fs)
      else if found.dst.None? then Err(TypeError)
      else if found.dst.value in fs then Ok(fs)
      else Ok(fs[found.dst.value := fs[found.src.value]])
  }

  /** The files on disk, which `make_available` adds to. */
  class Disk {
    var files: FileSystem

    constructor(files: FileSystem)
      ensures this.files == files
    {
      this.files := files;
    }

    /** `make_available(filename, src_folder, dst_folder, asset_folders)` */
    method MakeAvailable(filename: string, srcFolder: string, dstFolder: Option<string>, assets: seq<string>)
      returns (r: Result<()>)
      modifies this
      ensures r.Ok? <==> Copied(filename, srcFolder, dstFolder, assets, old(files)).Ok?
      ensures r.Ok? ==> files == Copied(filename, srcFolder, dstFolder, assets, old(files)).value
      ensures r.Err? ==> r.error == Copied(filename, srcFolder, dstFolder, assets, old(files)).error && files == old(files)
    {
      var found := FindSrcFile(filename, srcFolder, dstFolder, assets, files);
      if found.Err? {
        return Err(found.error);
      }
      var src, dst := found.value.src, found.value.dst;
      if src.Some? {
        if dst.None? {
          return Err(TypeError);
        }
        if dst.value !in files {
          files := files[dst.value := files[src.value]];
        }
      }
      r := Ok(());
    }
  }

  // ---------------------------------------------------------------------
  // can_make_inline_uri

  const InlineFormats: set<string> := {"png", "gif", "jpg", "jpeg", "svg", "ttf", "otf", "woff", "woff2", "eot"}

  /** `can_make_inline_uri(src_file)` */
  predicate CanMakeInlineUri(srcFile: string) {
    Lower(LastPiece(RStripSpace(srcFile), '.')) in InlineFormats
  }

  /** The answer depends only on the lower-cased extension; trailing whitespace is ignored. */
  lemma CanMakeInlineUriExtension(base: string, ext: string, ws: string)
    requires ext != [] && '.' !in ext && !IsSpace(ext[|ext| - 1])
    requires forall i :: 0 <= i < |ws| ==> IsSpace(ws[i])
    ensures CanMakeInlineUri(base + "." + ext + ws) <==> Lower(ext) in InlineFormats
  {
    var x := base + "." + ext;
    assert x[|x| - 1] == ext[|ext| - 1];
    RStripSpaceTrail(x, ws);
    LastPieceAfter(base, ext, '.');
  }

  // ---------------------------------------------------------------------
  // make_inline_uri

  const ImageFormats: set<string> := {"png", "gif", "jpeg"}
  const FontFormats: set<string> := {"ttf", "otf", "woff", "woff2", "eot"}
  const SvgHead := "data:image/svg+xml;charset=utf8,"
  const SvgTail := "\") format(\"svg\");"

  /** Where the embedded SVG starts: the first `<svg`, else the first `<SVG`, else -1. */
  function SvgStart(svg: string): (r: int)
    ensures -1 <= r <= |svg|
  {
    var start := Find(svg, "<svg");
    if start < 0 then Find(svg, "<SVG") else start
  }

  /** The lower-case tag is preferred; -1 exactly when neither spelling occurs. */
  lemma SvgStartFinds(svg: string)
    ensures var r := SvgStart(svg);
      (Contains(svg, "<svg") ==> r >= 0 && IsPrefix("<svg", svg[r..])) &&
      (!Contains(svg, "<svg") && Contains(svg, "<SVG") ==> r >= 0 && IsPrefix("<SVG", svg[r..])) &&
      (r == -1 <==> !Contains(svg, "<svg") && !Contains(svg, "<SVG"))
  {
    FindFirst(svg, "<svg");
    FindFirst(svg, "<SVG");
  }

  /** The format named by a path's extension, lower-cased, with `jpg` read as `jpeg`. */
  function Format(p: string): string {
    var e := Lower(LastPiece(p, '.'));
    if e == "jpg" then "jpeg" else e
  }

  /** The `data:` prefix of a binary format, for the image and font formats only. */
  function BinaryHead(fmt: string): (r: Option<string>)
    ensures r.Some? ==> IsPrefix("data:", r.value)
  {
    if fmt in ImageFormats then
      PrefixExtend("data:", "data:image/", fmt + ";charset=utf8;base64,");
      assert "data:image/" + fmt + ";charset=utf8;base64," == "data:image/" + (fmt + ";charset=utf8;base64,");
      Some("data:image/" + fmt + ";charset=utf8;base64,")
    else if fmt in FontFormats then
      PrefixExtend("data:", "data:application/x-font-", fmt + ";charset=utf8;base64,");
      assert "data:application/x-font-" + fmt + ";charset=utf8;base64," == "data:application/x-font-" + (fmt + ";charset=utf8;base64,");
      Some("data:application/x-font-" + fmt + ";charset=utf8;base64,")
    else None
  }

  /**
   * The `data:` URI of an existing file: SVG markup HTML-escaped, images and
   * fonts base 64 encoded; `None` for any other format.
   */
  function DataUri(p: string, f: File): Option<string> {
    if IsSuffix(".svg", Lower(p)) then
      Some(SvgHead + HtmlEscape(SliceFrom(f.text, SvgStart(f.text))) + SvgTail)
    else
      match BinaryHead(Format(p))
      case None => None
      case Some(head) => Some(head + Base64.Encode(f.bytes))
  }

  /** Every URI `make_inline_uri` builds is a `data:` URI. */
  lemma DataUriPrefix(p: string, f: File)
    ensures DataUri(p, f).Some? ==> IsPrefix("data:", DataUri(p, f).value)
  {
    if IsSuffix(".svg", Lower(p)) {
      var markup := HtmlEscape(SliceFrom(f.text, SvgStart(f.text)));
      PrefixExtend("data:", SvgHead, markup);
      PrefixExtend("data:", SvgHead + markup, SvgTail);
    } else if BinaryHead(Format(p)).Some? {
      PrefixExtend("data:", BinaryHead(Format(p)).value, Base64.Encode(f.bytes));
    }
  }

  /** A text that starts with `w` still does after anything is appended. */
  lemma PrefixExtend(w: string, a: string, b: string)
    requires IsPrefix(w, a)
    ensures IsPrefix(w, a + b)
  {
    assert (a + b)[..|w|] == a[..|w|];
  }

  /** The format of `base.ext` is its extension lower-cased, `jpg` read as `jpeg`. */
  lemma FormatOfExtension(base: string, ext: string)
    requires '.' !in ext
    ensures Format(base + "." + ext) == if Lower(ext) == "jpg" then "jpeg" else Lower(ext)
  {
    LastPieceAfter(base, ext, '.');
  }

  /**
   * A file that is not an SVG gets a URI exactly when its format is an image
   * or font format; the URI is the MIME prefix followed by the base 64 text,
   * which decodes back to the file's bytes.
   */
  lemma DataUriBinary(p: string, f: File)
    requires !IsSuffix(".svg", Lower(p))
    ensures DataUri(p, f).Some? <==> Format(p) in ImageFormats + FontFormats
    ensures DataUri(p, f).Some? ==>
      var head := if Format(p) in ImageFormats then "data:image/" else "data:application/x-font-";
      var prefix := head + Format(p) + ";charset=utf8;base64,";
      IsPrefix(prefix, DataUri(p, f).value) &&
      Base64.Decode(DataUri(p, f).value[|prefix|..]) == Some(f.bytes)
  {
    if Format(p) in ImageFormats + FontFormats {
      var head := if Format(p) in ImageFormats then "data:image/" else "data:application/x-font-";
      var prefix := head + Format(p) + ";charset=utf8;base64,";
      assert BinaryHead(Format(p)) == Some(prefix);
      var u := prefix + Base64.Encode(f.bytes);
      assert u[|prefix|..] == Base64.Encode(f.bytes);
      Base64.DecodeEncode(f.bytes);
    }
  }

  /**
   * An SVG file always gets a URI: the SVG prefix, the escaped markup from its
   * start tag on, and the closing `") format("svg");`. The escaped part holds
   * no `<` and unescapes to that markup.
   */
  lemma DataUriSvg(p: string, f: File)
    requires IsSuffix(".svg", Lower(p))
    ensures DataUri(p, f).Some?
    ensures var u := DataUri(p, f).value;
      |SvgHead| + |SvgTail| <= |u| && IsPrefix(SvgHead, u) && IsSuffix(SvgTail, u) &&
      var body := u[|SvgHead|..|u| - |SvgTail|];
      '<' !in body && HtmlUnescape(body) == SliceFrom(f.text, SvgStart(f.text))
  {
    var markup := SliceFrom(f.text, SvgStart(f.text));
    var body := HtmlEscape(markup);
    var u := SvgHead + body + SvgTail;
    assert u[|SvgHead|..|u| - |SvgTail|] == body;
    assert u[..|SvgHead|] == SvgHead;
    assert u[|u| - |SvgTail|..] == SvgTail;
    HtmlEscapeRoundTrip(markup);
  }

  /** The elements of a relative `make_inline_uri` argument: `src_file.strip("/").split("/")`, filtered. */
  function UriElements(key: string): seq<string> {
    KeepElements(Split(StripChar(key, '/'), '/'))
  }

  /** The file `make_inline_uri` finds for a stripped, non-empty argument. */
  function UriSource(key: string, srcFolder: string, assets: seq<string>, fs: FileSystem): (r: Result<Option<string>>)
    requires key != ""
    ensures r.Ok? && r.value.Some? ==> IsFile(fs, r.value.value)
  {
    if key[0] == '/' || key[0] == '~' then Ok(if IsFile(fs, key) then Some(key) else None)
    else Locate(srcFolder, UriElements(key), assets, fs)
  }

  /**
   * The URI for the non-empty key `key` when it is not memoised: the data URI
   * of the file found, or "" when no file is found or its format is not one
   * that can be inlined.
   */
  function BuildUri(key: string, srcFolder: string, assets: seq<string>, fs: FileSystem): (r: Result<string>)
    requires key != ""
    ensures r.Ok? && r.value != "" ==> IsPrefix("data:", r.value)
  {
    match UriSource(key, srcFolder, assets, fs)
    case Err(e) => Err(e)
    case Ok(None) => Ok("")
    case Ok(Some(p)) =>
      DataUriPrefix(p, fs[p]);
      match DataUri(p, fs[p])
      case None => Ok("")
      case Some(u) => Ok(u)
  }

  /**
   * The lookup's exception is the only one, and the URI is "" exactly when
   * no file is found or the file found is not of a format that can be inlined.
   */
  lemma BuildUriEmpty(key: string, srcFolder: string, assets: seq<string>, fs: FileSystem)
    requires key != ""
    ensures BuildUri(key, srcFolder, assets, fs).Err? <==> UriSource(key, srcFolder, assets, fs).Err?
    ensures var found := UriSource(key, srcFolder, assets, fs);
      BuildUri(key, srcFolder, assets, fs) == Ok("") <==>
        found == Ok(None) || (found.Ok? && found.value.Some? && DataUri(found.value.value, fs[found.value.value]).None?)
  {
    var found := UriSource(key, srcFolder, assets, fs);
    if found.Ok? && found.value.Some? {
      DataUriPrefix(found.value.value, fs[found.value.value]);
    }
  }

  /** A call's result and the memo after it. */
  datatype UriOutcome = UriOutcome(result: Result<string>, memo: map<string, string>)

  /**
   * `make_inline_uri(src_file, src_folder, dst_folder, asset_folders)` with
   * its memo: a stored URI is returned as is; otherwise the file is searched
   * for, and only a URI actually built is stored, under the stripped argument.
   */
  function InlineUri(memo: map<string, string>, srcFile: string, srcFolder: string, assets: seq<string>, fs: FileSystem)
    : (r: UriOutcome)
    ensures Strip(srcFile) in memo ==> r == UriOutcome(Ok(memo[Strip(srcFile)]), memo)
    ensures Strip(srcFile) !in memo && Strip(srcFile) == "" ==> r == UriOutcome(Err(IndexError), memo)
    ensures r.result.Err? || r.result.value == "" ==> r.memo == memo
    ensures r.memo != memo ==> r.memo == memo[Strip(srcFile) := r.result.value] && IsPrefix("data:", r.result.value)
  {
    var key := Strip(srcFile);
    if key in memo then UriOutcome(Ok(memo[key]), memo)
    else if key == "" then UriOutcome(Err(IndexError), memo)
    else
      var built := BuildUri(key, srcFolder, assets, fs);
      if built.Ok? && built.value != "" then UriOutcome(built, memo[key := built.value])
      else UriOutcome(built, memo)
  }

  /**
   * On a miss the URI is built from the file found, and a URI actually built
   * is stored under the stripped argument, so that the next call finds it.
   */
  lemma InlineUriMissBuilds(memo: map<string, string>, srcFile: string, srcFolder: string, assets: seq<string>,
                            fs: FileSystem)
    requires Strip(srcFile) !in memo && Strip(srcFile) != ""
    ensures var out := InlineUri(memo, srcFile, srcFolder, assets, fs);
      out.result == BuildUri(Strip(srcFile), srcFolder, assets, fs) &&
      (out.result.Ok? && out.result.value != "" ==>
        out.memo == memo[Strip(srcFile) := out.result.value] && Strip(srcFile) in out.memo)
  {
  }

  /** Every stored URI is what a call without a memo computes for its key. */
  ghost predicate MemoCoherent(memo: map<string, string>, srcFolder: string, assets: seq<string>, fs: FileSystem) {
    forall k :: k in memo ==> InlineUri(map[], k, srcFolder, assets, fs).result == Ok(memo[k])
  }

  /** A call depends on its argument only through the stripped key. */
  lemma InlineUriStrip(memo: map<string, string>, srcFile: string, srcFolder: string, assets: seq<string>, fs: FileSystem)
    ensures InlineUri(memo, Strip(srcFile), srcFolder, assets, fs) == InlineUri(memo, srcFile, srcFolder, assets, fs)
  {
    StripIdempotent(srcFile);
  }

  /** Without a hit, the memo plays no part in the result. */
  lemma InlineUriMiss(memo: map<string, string>, srcFile: string, srcFolder: string, assets: seq<string>, fs: FileSystem)
    requires Strip(srcFile) !in memo
    ensures InlineUri(memo, srcFile, srcFolder, assets, fs).result == InlineUri(map[], srcFile, srcFolder, assets, fs).result
  {
  }

  /** A coherent memo gives the answer a call without a memo gives. */
  lemma MemoAnswer(memo: map<string, string>, srcFile: string, srcFolder: string, assets: seq<string>, fs: FileSystem)
    requires MemoCoherent(memo, srcFolder, assets, fs)
    ensures InlineUri(memo, srcFile, srcFolder, assets, fs).result == InlineUri(map[], srcFile, srcFolder, assets, fs).result
  {
    var key := Strip(srcFile);
    InlineUriStrip(map[], srcFile, srcFolder, assets, fs);
    if key in memo {
      assert InlineUri(map[], key, srcFolder, assets, fs).result == Ok(memo[key]);
    } else {
      InlineUriMiss(memo, srcFile, srcFolder, assets, fs);
    }
  }

  /** A call on a coherent memo leaves it coherent. */
  lemma MemoStaysCoherent(memo: map<string, string>, srcFile: string, srcFolder: string, assets: seq<string>, fs: FileSystem)
    requires MemoCoherent(memo, srcFolder, assets, fs)
    ensures MemoCoherent(InlineUri(memo, srcFile, srcFolder, assets, fs).memo, srcFolder, assets, fs)
  {
    var key := Strip(srcFile);
    var out := InlineUri(memo, srcFile, srcFolder, assets, fs);
    if out.memo != memo {
      MemoAnswer(memo, srcFile, srcFolder, assets, fs);
      InlineUriStrip(map[], srcFile, srcFolder, assets, fs);
      assert out.memo == memo[key := out.result.value];
      assert InlineUri(map[], key, srcFolder, assets, fs).result == Ok(out.memo[key]);
    }
  }

  /**
   * For fixed folders and files, a coherent memo changes no answer and stays
   * coherent: memoisation is invisible.
   */
  lemma MemoTransparent(memo: map<string, string>, srcFile: string, srcFolder: string, assets: seq<string>, fs: FileSystem)
    requires MemoCoherent(memo, srcFolder, assets, fs)
    ensures InlineUri(memo, srcFile, srcFolder, assets, fs).result == InlineUri(map[], srcFile, srcFolder, assets, fs).result
    ensures MemoCoherent(InlineUri(memo, srcFile, srcFolder, assets, fs).memo, srcFolder, assets, fs)
  {
    MemoAnswer(memo, srcFile, srcFolder, assets, fs);
    MemoStaysCoherent(memo, srcFile, srcFolder, assets, fs);
  }

  /** Asking twice gives the same answer, and the second call leaves the memo alone. */
  lemma InlineUriRepeat(memo: map<string, string>, srcFile: string, srcFolder: string, assets: seq<string>, fs: FileSystem)
    ensures var first := InlineUri(memo, srcFile, srcFolder, assets, fs);
      InlineUri(first.memo, srcFile, srcFolder, assets, fs) == first
  {
  }

  /** The module-level memo of `make_inline_uri`. */
  class InlineUriMemo {
    var memo: map<string, string>

    constructor()
      ensures memo == map[]
    {
      memo := map[];
    }

    /** `make_inline_uri(src_file, src_folder, dst_folder, asset_folders)`; the destination folder is not used. */
    method MakeInlineUri(srcFile: string, srcFolder: string, dstFolder: Option<string>, assets: seq<string>, fs: FileSystem)
      returns (r: Result<string>)
      modifies this
      ensures UriOutcome(r, memo) == InlineUri(old(memo), srcFile, srcFolder, assets, fs)
    {
      var key := Strip(srcFile);
      if key in memo {
        return Ok(memo[key]);
      }
      if key == "" {
        return Err(IndexError);
      }
      var found: Result<Option<string>>;
      if key[0] == '/' || key[0] == '~' {
        found := Ok(if IsFile(fs, key) then Some(key) else None);
      } else {
        found := LocateSource(srcFolder, UriElements(key), assets, fs);
      }
      assert found == UriSource(key, srcFolder, assets, fs);
      var built: Result<string>;
      if found.Err? {
        built := Err(found.error);
      } else if found.value.None? {
        built := Ok("");
      } else {
        var p := found.value.value;
        var uri := DataUri(p, fs[p]);
        built := if uri.Some? then Ok(uri.value) else Ok("");
      }
      assert built == BuildUri(key, srcFolder, assets, fs);
      r := built;
      if built.Ok? && built.value != "" {
        memo := memo[key := built.value];
      }
    }
  }
}
