/**
 * The attribute and class handling of `Component` (panel_components/component.py):
 * the Python values an attribute can hold, the normalisation `add_attributes`
 * applies to the stored attributes, the class names `add_classes` and
 * `body_classes` collect, and the text `get_attributes` renders.
 */
module Attributes {
  import opened Outcomes
  import opened Text
  import opened OrderedDicts
  import opened Utils

  /** The Python values an attribute (or an argument of `add_classes`) can hold. */
  datatype Value =
    | NoneVal                                // None
    | Str(s: string)                         // a str
    | Bool(b: bool)                          // True or False
    | Num(text: string, zero: bool)          // an int or float: `str(value)`, and whether it is zero
    | Items(xs: seq<string>, text: string)   // a list or tuple of strings: its items and `str(value)`

  /** Python's truth value. */
  predicate Truthy(v: Value) {
    match v
    case NoneVal => false
    case Str(s) => s != ""
    case Bool(b) => b
    case Num(_, zero) => !zero
    case Items(xs, _) => xs != []
  }

  // ---------------------------------------------------------------------
  // add_classes, body_classes

  /**
   * The names one argument of `add_classes` contributes: the words of a
   * string, the items of a list; nothing for a falsy value, and TypeError for
   * a truthy value that cannot be iterated (`set(tuple(5))`).
   */
  function ClassWords(arg: Value): (r: Result<seq<string>>)
    ensures arg.Str? ==> r == Ok(SplitSpace(arg.s))
    ensures r.Err? <==> (arg.Bool? || arg.Num?) && Truthy(arg)
  {
    match arg
    case Str(s) => Ok(SplitSpace(s))
    case Items(xs, _) => Ok(xs)
    case _ => if Truthy(arg) then Err(TypeError) else Ok([])
  }

  /** All the names the arguments contribute, in order; the first TypeError stops the call. */
  function AllWords(args: seq<Value>): Result<seq<string>>
    decreases |args|
  {
    if args == [] then Ok([])
    else
      match AllWords(args[..|args| - 1])
      case Err(e) => Err(e)
      case Ok(ws) =>
        match ClassWords(args[|args| - 1])
        case Err(e) => Err(e)
        case Ok(more) => Ok(ws + more)
  }

  /** No name occurs twice: the classes form a set. */
  predicate NoDuplicates(xs: seq<string>) {
    forall i, j :: 0 <= i < j < |xs| ==> xs[i] != xs[j]
  }

  /**
   * The union of a set of names with new ones, `""` left out: the existing
   * names keep their place and each new name is added once, at its first
   * occurrence.
   */
  function AddNames(classes: seq<string>, names: seq<string>): (r: seq<string>)
    ensures classes <= r
    ensures forall x :: x in r <==> x in classes || (x in names && x != "")
    ensures NoDuplicates(classes) ==> NoDuplicates(r)
    decreases |names|
  {
    if names == [] then classes
    else if names[0] == "" || names[0] in classes then AddNames(classes, names[1..])
    else
      var r := AddNames(classes + [names[0]], names[1..]);
      r
  }

  /** `add_classes(*css_classes)`: the classes afterwards, or the error that leaves them unchanged. */
  function AddClasses(classes: seq<string>, args: seq<Value>): Result<seq<string>> {
    match AllWords(args)
    case Err(e) => Err(e)
    case Ok(ws) => Ok(AddNames(classes, ws))
  }

  /**
   * `add_classes` never removes a class, and every word of a string argument
   * becomes a class.
   */
  lemma {:induction false} AddClassesWords(classes: seq<string>, args: seq<Value>, i: nat, w: string)
    requires AddClasses(classes, args).Ok?
    requires i < |args| && args[i].Str? && w in SplitSpace(args[i].s)
    ensures classes <= AddClasses(classes, args).value
    ensures w in AddClasses(classes, args).value
    decreases |args|
  {
    var ws := AllWords(args).value;
    WordsIn(args, i, w);
    assert w != "" by {
      SplitSpaceWords(args[i].s);
      var k :| 0 <= k < |SplitSpace(args[i].s)| && SplitSpace(args[i].s)[k] == w;
    }
  }

  /** A word of a string argument is among all the words. */
  lemma {:induction false} WordsIn(args: seq<Value>, i: nat, w: string)
    requires AllWords(args).Ok?
    requires i < |args| && args[i].Str? && w in SplitSpace(args[i].s)
    ensures w in AllWords(args).value
    decreases |args|
  {
    var last := |args| - 1;
    var init := args[..last];
    var more := ClassWords(args[last]);
    assert AllWords(init).Ok? && more.Ok?;
    assert AllWords(args).value == AllWords(init).value + more.value;
    if i < last {
      assert init[i] == args[i];
      WordsIn(init, i, w);
    } else {
      assert w in more.value;
    }
  }

  /** The first TypeError stops the call: an error among the first `i` arguments is the answer. */
  lemma {:induction false} AllWordsStops(args: seq<Value>, i: nat)
    requires i <= |args| && AllWords(args[..i]).Err?
    ensures AllWords(args) == AllWords(args[..i])
    decreases |args|
  {
    if i < |args| {
      var init := args[..|args| - 1];
      assert init[..i] == args[..i];
      AllWordsStops(init, i);
    } else {
      assert args[..i] == args;
    }
  }

  /** `body_classes(*classes)`: the words of every non-empty argument added to the body classes. */
  function BodyWords(items: seq<string>): (r: seq<string>)
    ensures forall i :: 0 <= i < |r| ==> IsWord(r[i])
    ensures forall w :: w in r <==> exists i :: 0 <= i < |items| && items[i] != "" && w in SplitSpace(items[i])
    decreases |items|
  {
    if items == [] then []
    else
      var rest := BodyWords(items[1..]);
      var ws := if items[0] != "" then SplitSpace(items[0]) else [];
      SplitSpaceWords(items[0]);
      ws + rest
  }

  // ---------------------------------------------------------------------
  // add_attributes

  /** The state `add_attributes` changes besides the classes. */
  datatype AttrState = AttrState(attributes: Dict<Value>, filesAttrs: Dict<string>, filesUris: set<string>)

  /** A normalisation step: the state reached, and the exception raised there, if any. */
  datatype Step = Step(st: AttrState, error: Option<Error>)

  /**
   * A link the page does not serve itself: its first six characters,
   * lower-cased, are `https:` or `http:/`, or it starts with `//`.
   */
  predicate IsRemote(link: string) {
    var schema := Lower(link)[..if |link| < 6 then |link| else 6];
    schema == "https:" || schema == "http:/" || IsPrefix("//", schema)
  }

  /**
   * `self.attributes[attr] = value` inside the loop over `self.attributes`:
   * a key that was not there yet changes the size of the dictionary being
   * iterated, which raises RuntimeError once the assignment is done.
   */
  function Store(st: AttrState, attr: string, v: Value): (r: Step)
    ensures Get(r.st.attributes, attr) == Some(v)
    ensures r.error.None? <==> attr in Keys(st.attributes)
    ensures r.st.filesAttrs == st.filesAttrs && r.st.filesUris == st.filesUris
    ensures forall k :: k in Keys(st.attributes) ==> k in Keys(r.st.attributes)
    ensures forall k :: k != attr ==> Get(r.st.attributes, k) == Get(st.attributes, k)
  {
    PutGet(st.attributes, attr, v, attr);
    PutOthers(st.attributes, attr, v);
    Step(st.(attributes := Put(st.attributes, attr, v)), if attr in Keys(st.attributes) then None else Some(RuntimeError))
  }

  /**
   * The stripped value `link` of an `href` or `src`: a remote link is only
   * stored; a local one is first recorded in the file attributes (an empty
   * one then raises IndexError) and, unless it is a fragment or a query,
   * in the file URIs.
   */
  function StoreLink(st: AttrState, attr: string, link: string): (r: Step)
    ensures IsRemote(link) ==> r.st.filesAttrs == st.filesAttrs && r.st.filesUris == st.filesUris
    ensures !IsRemote(link) ==> Get(r.st.filesAttrs, attr) == Some(link)
    ensures !IsRemote(link) && link != "" && link[0] != '#' && link[0] != '?' ==> r.st.filesUris == st.filesUris + {link}
    ensures IsRemote(link) || link == "" || link[0] == '#' || link[0] == '?' ==> r.st.filesUris == st.filesUris
    ensures r.error == Some(IndexError) <==> !IsRemote(link) && link == ""
    ensures link != "" ==> Get(r.st.attributes, attr) == Some(Str(link))
    ensures forall k :: k in Keys(st.attributes) ==> k in Keys(r.st.attributes)
    ensures forall k :: k != attr ==> Get(r.st.attributes, k) == Get(st.attributes, k)
    ensures forall k :: k != attr ==> Get(r.st.filesAttrs, k) == Get(st.filesAttrs, k)
  {
    if IsRemote(link) then Store(st, attr, Str(link))
    else
      var st1 := st.(filesAttrs := Put(st.filesAttrs, attr, link));
      PutGet(st.filesAttrs, attr, link, attr);
      PutOthers(st.filesAttrs, attr, link);
      if link == "" then Step(st1, Some(IndexError))
      else
        var st2 := if link[0] == '#' || link[0] == '?' then st1 else st1.(filesUris := st1.filesUris + {link});
        Store(st2, attr, Str(link))
  }

  /** One turn of the loop of `add_attributes`, for the stored key `key`. */
  function NormaliseKey(st: AttrState, key: string): Step
    requires key in Keys(st.attributes)
  {
    var v := Get(st.attributes, key).value;
    var attr := Replace(key, "_", "-");
    if !Truthy(v) then Step(st, None)
    else
      match v
      case Str(s) =>
        if attr == "href" || attr == "src" then StoreLink(st, attr, Strip(s))
        else Store(st, attr, Str(HtmlEscape(s)))
      case Bool(_) => Store(st, attr, Str(""))
      case Num(text, _) => Store(st, attr, Str(text))
      case _ => Step(st, None)
  }

  /** A step only adds keys and file URIs. */
  lemma NormaliseKeyGrows(st: AttrState, key: string)
    requires key in Keys(st.attributes)
    ensures forall k :: k in Keys(st.attributes) ==> k in Keys(NormaliseKey(st, key).st.attributes)
    ensures st.filesUris <= NormaliseKey(st, key).st.filesUris
  {
  }

  /** The loop over the keys `keys` (the keys when the loop starts), up to the first exception. */
  function NormaliseFrom(st: AttrState, keys: seq<string>): (r: Step)
    requires forall k :: k in keys ==> k in Keys(st.attributes)
    decreases |keys|
  {
    if keys == [] then Step(st, None)
    else
      var step := NormaliseKey(st, keys[0]);
      if step.error.Some? then step
      else
        NormaliseKeyGrows(st, keys[0]);
        NormaliseFrom(step.st, keys[1..])
  }

  /**
   * `add_attributes(**attributes)` after the classes are handled: the new
   * attributes written over the stored ones, then every stored key normalised.
   */
  function AddAttributes(st: AttrState, attrs: Dict<Value>): Step {
    var st1 := st.(attributes := Update(st.attributes, Remove(attrs, "class")));
    NormaliseFrom(st1, Keys(st1.attributes))
  }

  /** Replacing one character by another keeps every other character in place. */
  lemma {:induction false} ReplaceChar(s: string, a: char, b: char)
    ensures |Replace(s, [a], [b])| == |s|
    ensures forall i :: 0 <= i < |s| ==> Replace(s, [a], [b])[i] == if s[i] == a then b else s[i]
    decreases |s|
  {
    if s != [] {
      ReplaceChar(s[1..], a, b);
    }
  }

  /** Only the key `class` is written to as `class`. */
  lemma ClassKey(key: string)
    requires Replace(key, "_", "-") == "class"
    ensures key == "class"
  {
    ReplaceChar(key, '_', '-');
    assert forall i :: 0 <= i < |key| ==> key[i] == "class"[i];
  }

  /** A normalisation step never stores an attribute called `class`. */
  lemma NormaliseKeyNoClass(st: AttrState, key: string)
    requires key in Keys(st.attributes) && "class" !in Keys(st.attributes)
    ensures "class" !in Keys(NormaliseKey(st, key).st.attributes)
  {
    if Replace(key, "_", "-") == "class" {
      ClassKey(key);
    }
  }

  /**
   * `class` is never a stored attribute: `add_attributes` moves it to the
   * classes, and normalisation never writes it.
   */
  lemma {:induction false} NoClassAttribute(st: AttrState, keys: seq<string>)
    requires forall k :: k in keys ==> k in Keys(st.attributes)
    requires "class" !in Keys(st.attributes)
    ensures "class" !in Keys(NormaliseFrom(st, keys).st.attributes)
    decreases |keys|
  {
    if keys != [] {
      NormaliseKeyNoClass(st, keys[0]);
      var step := NormaliseKey(st, keys[0]);
      if step.error.None? {
        NormaliseKeyGrows(st, keys[0]);
        NoClassAttribute(step.st, keys[1..]);
      }
    }
  }

  /** The attributes after `add_attributes` never hold `class`. */
  lemma AddAttributesNoClass(st: AttrState, attrs: Dict<Value>)
    requires "class" !in Keys(st.attributes)
    ensures "class" !in Keys(AddAttributes(st, attrs).st.attributes)
  {
    var st1 := st.(attributes := Update(st.attributes, Remove(attrs, "class")));
    UpdateKeys(st.attributes, Remove(attrs, "class"));
    NoClassAttribute(st1, Keys(st1.attributes));
  }

  /** One step only adds to the file URIs, and only a local link that is not a fragment or a query. */
  lemma NormaliseKeyUris(st: AttrState, key: string, u: string)
    requires key in Keys(st.attributes)
    ensures st.filesUris <= NormaliseKey(st, key).st.filesUris
    ensures u in NormaliseKey(st, key).st.filesUris && u !in st.filesUris ==>
      u != "" && u[0] != '#' && u[0] != '?' && !IsRemote(u)
  {
    var v := Get(st.attributes, key).value;
    var attr := Replace(key, "_", "-");
    var after := NormaliseKey(st, key).st.filesUris;
    if Truthy(v) && v.Str? && (attr == "href" || attr == "src") {
      var link := Strip(v.s);
      if !IsRemote(link) && link != "" && link[0] != '#' && link[0] != '?' {
        assert after == st.filesUris + {link};
      } else {
        assert after == st.filesUris;
      }
    } else {
      assert after == st.filesUris;
    }
  }

  /** The file URIs only grow, and every URI added is a local link that is not a fragment or a query. */
  lemma {:induction false} NormaliseUris(st: AttrState, keys: seq<string>, u: string)
    requires forall k :: k in keys ==> k in Keys(st.attributes)
    ensures st.filesUris <= NormaliseFrom(st, keys).st.filesUris
    ensures u in NormaliseFrom(st, keys).st.filesUris && u !in st.filesUris ==>
      u != "" && u[0] != '#' && u[0] != '?' && !IsRemote(u)
    decreases |keys|
  {
    if keys != [] {
      var step := NormaliseKey(st, keys[0]);
      NormaliseKeyUris(st, keys[0], u);
      if step.error.None? {
        NormaliseKeyGrows(st, keys[0]);
        NormaliseUris(step.st, keys[1..], u);
      }
    }
  }

  /** A plain string attribute is stored HTML-escaped, under its name with `_` written as `-`. */
  lemma NormaliseText(st: AttrState, key: string)
    requires key in Keys(st.attributes)
    requires var attr := Replace(key, "_", "-"); attr != "href" && attr != "src"
    requires Get(st.attributes, key).value.Str?
    ensures var s := Get(st.attributes, key).value.s;
      var after := Get(NormaliseKey(st, key).st.attributes, Replace(key, "_", "-"));
      s != "" ==>
        (after.Some? && after.value.Str? && after.value.s == HtmlEscape(s) &&
         forall i :: 0 <= i < |after.value.s| ==> after.value.s[i] !in "<>\"'")
  {
  }

  /** `True` is stored as the empty string (rendered as a bare name); a non-zero number as its text. */
  lemma NormaliseFlagNumber(st: AttrState, key: string)
    requires key in Keys(st.attributes)
    ensures var v := Get(st.attributes, key).value;
      var after := Get(NormaliseKey(st, key).st.attributes, Replace(key, "_", "-"));
      (v == Bool(true) ==> after == Some(Str(""))) &&
      (v.Num? && !v.zero ==> after == Some(Str(v.text)))
  {
  }

  /**
   * A local `href` or `src` is recorded, stripped, in the file attributes, and
   * also in the file URIs unless it is a fragment or a query; a remote one is
   * only stripped.
   */
  lemma NormaliseLink(st: AttrState, key: string)
    requires key in Keys(st.attributes)
    requires Replace(key, "_", "-") in ["href", "src"]
    requires Get(st.attributes, key).value.Str? && Get(st.attributes, key).value.s != ""
    ensures var link := Strip(Get(st.attributes, key).value.s);
      var attr := Replace(key, "_", "-");
      var step := NormaliseKey(st, key);
      (IsRemote(link) ==>
        (step.st.filesAttrs == st.filesAttrs && step.st.filesUris == st.filesUris &&
         Get(step.st.attributes, attr) == Some(Str(link)))) &&
      (!IsRemote(link) ==>
        (Get(step.st.filesAttrs, attr) == Some(link) &&
         (link == "" <==> step.error == Some(IndexError)) &&
         (link != "" ==>
           (Get(step.st.attributes, attr) == Some(Str(link)) &&
            (link in step.st.filesUris <==> link in st.filesUris || (link[0] != '#' && link[0] != '?'))))))
  {
    var v := Get(st.attributes, key).value;
    var attr := Replace(key, "_", "-");
    assert Truthy(v) && (attr == "href" || attr == "src");
    assert NormaliseKey(st, key) == StoreLink(st, attr, Strip(v.s));
  }

  // ---------------------------------------------------------------------
  // get_attributes

  /** The source folder and destination folder every component uses. */
  const SrcFolder := "assets"
  const DstFolder := "static"

  /**
   * What rendering depends on besides the component: `main` (the app's
   * folder name, "" when not served), the notebook flag, the asset folders
   * to search, and the files.
   */
  datatype RenderContext = RenderContext(main: string, notebook: bool, assets: seq<string>, fs: FileSystem)

  /** One rendered attribute: ` name` for an empty value, ` name="value"` otherwise; `len()` of a bool or number is a TypeError. */
  function AttrText(name: string, v: Value): (r: Result<string>)
    ensures v.Str? ==> r == Ok(if v.s == "" then " " + name else " " + name + "=\"" + v.s + "\"")
    ensures r.Err? <==> v.Bool? || v.Num?
  {
    match v
    case NoneVal => Ok("")
    case Str(s) => Ok(if s == "" then " " + name else " " + name + "=\"" + s + "\"")
    case Items(xs, text) => Ok(if xs == [] then " " + name else " " + name + "=\"" + text + "\"")
    case _ => Err(TypeError)
  }

  /** The rendered attributes so far, the memo of `make_inline_uri`, and the URIs recorded. */
  datatype AttrOut = AttrOut(result: Result<string>, memo: map<string, string>, uris: set<string>)

  /**
   * The value rendered for an attribute listed in `_files_attrs`: a `data:`
   * URI when not served or in a notebook, otherwise the quoted served path;
   * `.strip()` of a non-string is an AttributeError.
   */
  function FileValue(v: Value, ctx: RenderContext, memo: map<string, string>): (Result<Value>, map<string, string>) {
    if !v.Str? then (Err(AttributeError), memo)
    else if ctx.main == "" || ctx.notebook then
      var out := InlineUri(memo, v.s, SrcFolder, ctx.assets, ctx.fs);
      (if out.result.Ok? then Ok(Str(out.result.value)) else Err(out.result.error), out.memo)
    else (Ok(Str(Quote(ctx.main + "/" + DstFolder + "/" + v.s))), memo)
  }

  /** One turn of the loop of `get_attributes`: the text of one attribute, the memo, and the URI recorded. */
  function AttrEntry(k: string, v: Value, fileKeys: seq<string>, ctx: RenderContext, memo: map<string, string>)
    : (r: AttrOut)
    ensures r.uris == if k in fileKeys && ctx.main != "" && v.Str? then {Strip(v.s)} else {}
    ensures r.result.Ok? && k in fileKeys ==> v.Str?
    ensures !ctx.notebook && ctx.main != "" ==> r.memo == memo
  {
    if k in fileKeys then
      var uris := if ctx.main != "" && v.Str? then {Strip(v.s)} else {};
      var (rv, m) := FileValue(v, ctx, memo);
      if rv.Err? then AttrOut(Err(rv.error), m, uris)
      else AttrOut(AttrText(k, rv.value), m, uris)
    else AttrOut(AttrText(k, v), memo, {})
  }

  /** One step of the loop: the attribute's text, the memo it leaves, and the URIs it records. */
  type AttrStep = (string, Value, map<string, string>) -> AttrOut

  /**
   * The loop of `get_attributes` over the first `i` attributes, whatever one
   * step renders: the texts are concatenated, the memo is threaded through,
   * the URIs are collected, and the first exception ends the loop.
   */
  function Scan(step: AttrStep, attrs: Dict<Value>, memo: map<string, string>, i: nat): AttrOut
    requires i <= |attrs|
  {
    if i == 0 then AttrOut(Ok(""), memo, {})
    else
      var prev := Scan(step, attrs, memo, i - 1);
      if prev.result.Err? then prev
      else
        var entry := step(attrs[i - 1].0, attrs[i - 1].1, prev.memo);
        var text := if entry.result.Ok? then Ok(prev.result.value + entry.result.value) else entry.result;
        AttrOut(text, entry.memo, prev.uris + entry.uris)
  }

  /** The rendering of one attribute in `get_attributes`, as a step of the loop. */
  function EntryStep(fileKeys: seq<string>, ctx: RenderContext): AttrStep {
    (k, v, m) => AttrEntry(k, v, fileKeys, ctx, m)
  }

  /** The loop of `get_attributes` over the first `i` attributes. */
  function AttrsUpTo(attrs: Dict<Value>, fileKeys: seq<string>, ctx: RenderContext, memo: map<string, string>, i: nat)
    : (r: AttrOut)
    requires i <= |attrs|
    ensures !ctx.notebook && ctx.main != "" ==> r.memo == memo
    ensures ctx.main == "" ==> r.uris == {}
    decreases i, 1
  {
    if i == 0 then AttrOut(Ok(""), memo, {})
    else if AttrsUpTo(attrs, fileKeys, ctx, memo, i - 1).result.Err? then AttrsUpTo(attrs, fileKeys, ctx, memo, i - 1)
    else AttrsAfter(attrs, fileKeys, ctx, memo, i)
  }

  /** Attribute `i - 1` rendered after the attributes before it, which rendered without an exception. */
  function AttrsAfter(attrs: Dict<Value>, fileKeys: seq<string>, ctx: RenderContext, memo: map<string, string>, i: nat)
    : (r: AttrOut)
    requires 0 < i <= |attrs| && AttrsUpTo(attrs, fileKeys, ctx, memo, i - 1).result.Ok?
    ensures !ctx.notebook && ctx.main != "" ==> r.memo == memo
    ensures ctx.main == "" ==> r.uris == {}
    decreases i, 0
  {
    var prev := AttrsUpTo(attrs, fileKeys, ctx, memo, i - 1);
    var entry := AttrEntry(attrs[i - 1].0, attrs[i - 1].1, fileKeys, ctx, prev.memo);
    var text := if entry.result.Ok? then Ok(prev.result.value + entry.result.value) else entry.result;
    AttrOut(text, entry.memo, prev.uris + entry.uris)
  }

  /** The loop of `get_attributes` is the loop over any step, run with the rendering of one attribute. */
  lemma {:induction false} AttrsIsScan(attrs: Dict<Value>, fileKeys: seq<string>, ctx: RenderContext,
                                       memo: map<string, string>, i: nat)
    requires i <= |attrs|
    ensures AttrsUpTo(attrs, fileKeys, ctx, memo, i) == Scan(EntryStep(fileKeys, ctx), attrs, memo, i)
  {
    if i > 0 {
      AttrsIsScan(attrs, fileKeys, ctx, memo, i - 1);
      var step := EntryStep(fileKeys, ctx);
      var prev := AttrsUpTo(attrs, fileKeys, ctx, memo, i - 1);
      if prev.result.Ok? {
        var entry := AttrEntry(attrs[i - 1].0, attrs[i - 1].1, fileKeys, ctx, prev.memo);
        assert step(attrs[i - 1].0, attrs[i - 1].1, prev.memo) == entry;
        var text := if entry.result.Ok? then Ok(prev.result.value + entry.result.value) else entry.result;
        assert Scan(step, attrs, memo, i) == AttrOut(text, entry.memo, prev.uris + entry.uris);
        assert AttrsUpTo(attrs, fileKeys, ctx, memo, i) == AttrsAfter(attrs, fileKeys, ctx, memo, i)
          == AttrOut(text, entry.memo, prev.uris + entry.uris);
      } else {
        assert Scan(step, attrs, memo, i) == prev == AttrsUpTo(attrs, fileKeys, ctx, memo, i);
      }
    }
  }

  /** ` class="…"`: the classes, space-separated and HTML-escaped; nothing without classes. */
  function ClassAttr(classes: seq<string>): string {
    if classes == [] then "" else " class=\"" + HtmlEscape(Join(classes, ' ')) + "\""
  }

  /** `get_attributes(main, asset_folders)` */
  function RenderAttributes(attrs: Dict<Value>, fileKeys: seq<string>, classes: seq<string>, ctx: RenderContext,
                            memo: map<string, string>): AttrOut
  {
    var out := AttrsUpTo(attrs, fileKeys, ctx, memo, |attrs|);
    if out.result.Ok? then out.(result := Ok(out.result.value + ClassAttr(classes))) else out
  }

  /** The `class` attribute comes last, and only when there are classes. */
  lemma ClassAttributeLast(attrs: Dict<Value>, fileKeys: seq<string>, classes: seq<string>, ctx: RenderContext,
                           memo: map<string, string>)
    requires RenderAttributes(attrs, fileKeys, classes, ctx, memo).result.Ok?
    ensures var text := RenderAttributes(attrs, fileKeys, classes, ctx, memo).result.value;
      (classes == [] ==> text == AttrsUpTo(attrs, fileKeys, ctx, memo, |attrs|).result.value) &&
      (classes != [] ==> IsSuffix(" class=\"" + HtmlEscape(Join(classes, ' ')) + "\"", text))
  {
  }

  /** The URI a file attribute links to: its stripped string value. */
  function FileLink(fileKeys: seq<string>, k: string, v: Value): set<string> {
    if k in fileKeys && v.Str? then {Strip(v.s)} else {}
  }

  /** The links of the first `i` attributes, for any link of one attribute. */
  function Links(link: (string, Value) -> set<string>, attrs: Dict<Value>, i: nat): set<string>
    requires i <= |attrs|
  {
    if i == 0 then {} else Links(link, attrs, i - 1) + link(attrs[i - 1].0, attrs[i - 1].1)
  }

  /** The stripped string values of the file attributes among the first `i` attributes. */
  function FileLinks(attrs: Dict<Value>, fileKeys: seq<string>, i: nat): set<string>
    requires i <= |attrs|
  {
    Links((k, v) => FileLink(fileKeys, k, v), attrs, i)
  }

  /** A loop whose steps each record their attribute's link records the links of the attributes it reaches. */
  lemma {:induction false} ScanUris(step: AttrStep, link: (string, Value) -> set<string>, attrs: Dict<Value>,
                                    memo: map<string, string>, i: nat)
    requires i <= |attrs|
    requires forall k, v, m :: step(k, v, m).uris == link(k, v)
    ensures var out := Scan(step, attrs, memo, i);
      out.uris <= Links(link, attrs, i) && (out.result.Ok? ==> out.uris == Links(link, attrs, i))
  {
    if i > 0 {
      ScanUris(step, link, attrs, memo, i - 1);
    }
  }

  /**
   * With `main` set, rendering records the stripped value of every file
   * attribute it reaches in the file URIs; without `main` it records none.
   * When it finishes, every file attribute was reached.
   */
  lemma RecordedUris(attrs: Dict<Value>, fileKeys: seq<string>, ctx: RenderContext, memo: map<string, string>, i: nat)
    requires i <= |attrs|
    ensures var out := AttrsUpTo(attrs, fileKeys, ctx, memo, i);
      out.uris <= FileLinks(attrs, fileKeys, i) &&
      (out.result.Ok? && ctx.main != "" ==> out.uris == FileLinks(attrs, fileKeys, i))
  {
    if ctx.main != "" {
      var step := EntryStep(fileKeys, ctx);
      var link := (k, v) => FileLink(fileKeys, k, v);
      forall k, v, m ensures step(k, v, m).uris == link(k, v) {
        assert step(k, v, m) == AttrEntry(k, v, fileKeys, ctx, m);
      }
      ScanUris(step, link, attrs, memo, i);
      AttrsIsScan(attrs, fileKeys, ctx, memo, i);
    }
  }

  /** Once a step fails, the loop goes no further: nothing more is rendered, stored or recorded. */
  lemma {:induction false} ScanStop(step: AttrStep, attrs: Dict<Value>, memo: map<string, string>, i: nat, n: nat)
    requires i <= n <= |attrs|
    requires Scan(step, attrs, memo, i).result.Err?
    ensures Scan(step, attrs, memo, n) == Scan(step, attrs, memo, i)
    decreases n
  {
    if n > i {
      ScanStop(step, attrs, memo, i, n - 1);
    }
  }

  /** Once an attribute fails, the loop goes no further: nothing more is rendered, stored or recorded. */
  lemma AttrsStop(attrs: Dict<Value>, fileKeys: seq<string>, ctx: RenderContext,
                  memo: map<string, string>, i: nat, n: nat)
    requires i <= n <= |attrs|
    requires AttrsUpTo(attrs, fileKeys, ctx, memo, i).result.Err?
    ensures AttrsUpTo(attrs, fileKeys, ctx, memo, n) == AttrsUpTo(attrs, fileKeys, ctx, memo, i)
  {
    AttrsIsScan(attrs, fileKeys, ctx, memo, i);
    AttrsIsScan(attrs, fileKeys, ctx, memo, n);
    ScanStop(EntryStep(fileKeys, ctx), attrs, memo, i, n);
  }

  /** What rendering records: within the file links, all of them when it succeeds with `main` set, none without `main`. */
  lemma RenderedUris(attrs: Dict<Value>, fileKeys: seq<string>, classes: seq<string>, ctx: RenderContext,
                     memo: map<string, string>)
    ensures var out := RenderAttributes(attrs, fileKeys, classes, ctx, memo);
      out.uris <= FileLinks(attrs, fileKeys, |attrs|) &&
      (out.result.Ok? && ctx.main != "" ==> out.uris == FileLinks(attrs, fileKeys, |attrs|)) &&
      (ctx.main == "" ==> out.uris == {})
  {
    RecordedUris(attrs, fileKeys, ctx, memo, |attrs|);
  }

  /** One turn of the loop: the text grows by the attribute's, or its exception ends the loop; its URI is recorded either way. */
  lemma AttrsNext(attrs: Dict<Value>, fileKeys: seq<string>, ctx: RenderContext, memo: map<string, string>, i: nat,
                  text: string, memo1: map<string, string>, found: set<string>, entry: AttrOut)
    requires i < |attrs| && AttrsUpTo(attrs, fileKeys, ctx, memo, i) == AttrOut(Ok(text), memo1, found)
    requires entry == AttrEntry(attrs[i].0, attrs[i].1, fileKeys, ctx, memo1)
    ensures entry.result.Ok? ==>
      AttrsUpTo(attrs, fileKeys, ctx, memo, i + 1) == AttrOut(Ok(text + entry.result.value), entry.memo, found + entry.uris)
    ensures entry.result.Err? ==>
      AttrsUpTo(attrs, fileKeys, ctx, memo, |attrs|) == AttrOut(entry.result, entry.memo, found + entry.uris)
  {
    if entry.result.Err? {
      AttrsStop(attrs, fileKeys, ctx, memo, i + 1, |attrs|);
    }
  }
}
