/**
 * What `get_html` (panel_components/component.py) renders, stated on a
 * snapshot of a component tree: each node's tag, closing style, attributes,
 * classes and markup, and the snapshots of its children in order.
 */
module Markup {
  import opened Outcomes
  import opened Text
  import opened OrderedDicts
  import opened Utils
  import opened Attributes

  /** A component as `get_html` sees it; `fileKeys` are the keys of its `_files_attrs`. */
  datatype Element = Element(tag: string, xml: bool, attrs: Dict<Value>, fileKeys: seq<string>, classes: seq<string>,
                             pre: string, post: string, kids: seq<Element>)

  /** The full form is rendered without the XML closing style, or with something inside the tag. */
  predicate FullForm(e: Element) {
    !e.xml || e.kids != [] || e.pre != "" || e.post != ""
  }

  /** The opening tag `\n<tag attrs` + `close` + `>`, and the memo after rendering the attributes. */
  function OpenTag(e: Element, ctx: RenderContext, memo: map<string, string>, close: string): UriOutcome {
    var out := RenderAttributes(e.attrs, e.fileKeys, e.classes, ctx, memo);
    if out.result.Err? then UriOutcome(out.result, out.memo)
    else UriOutcome(Ok("\n<" + e.tag + out.result.value + close + ">"), out.memo)
  }

  /**
   * `get_html(main, asset_folders)`: the full form (opening tag,
   * `_pre_html`, the children in order, `_post_html`, closing tag), the
   * self-closing form, or nothing; tags only with a tag name. The memo of
   * `make_inline_uri` is threaded through in document order, and the first
   * exception is the result.
   */
  function Html(e: Element, ctx: RenderContext, memo: map<string, string>): UriOutcome
    decreases e, 1
  {
    if FullForm(e) then
      var head := if e.tag == "" then UriOutcome(Ok(""), memo) else OpenTag(e, ctx, memo, "");
      if head.result.Err? then head
      else
        var kids := KidsHtml(e, ctx, head.memo, |e.kids|);
        if kids.result.Err? then kids
        else
          var close := if e.tag == "" then "" else "\n</" + e.tag + ">";
          UriOutcome(Ok(head.result.value + e.pre + kids.result.value + e.post + close), kids.memo)
    else if e.tag != "" then OpenTag(e, ctx, memo, " /")
    else UriOutcome(Ok(""), memo)
  }

  /** The markup of the first `i` children of `e`, in order. */
  function KidsHtml(e: Element, ctx: RenderContext, memo: map<string, string>, i: nat): UriOutcome
    requires i <= |e.kids|
    decreases e, 0, i
  {
    if i == 0 then UriOutcome(Ok(""), memo)
    else
      var prev := KidsHtml(e, ctx, memo, i - 1);
      if prev.result.Err? then prev
      else
        var part := KidHtml(e, ctx, prev.memo, i - 1);
        if part.result.Err? then part else UriOutcome(Ok(prev.result.value + part.result.value), part.memo)
  }

  /** The markup of child `i` of `e`. */
  function KidHtml(e: Element, ctx: RenderContext, memo: map<string, string>, i: nat): UriOutcome
    requires i < |e.kids|
    decreases e, 0, i
  {
    Html(e.kids[i], ctx, memo)
  }

  /** Once a child fails, the children after it are not rendered. */
  lemma {:induction false} KidsStop(e: Element, ctx: RenderContext, memo: map<string, string>, i: nat, n: nat)
    requires i <= n <= |e.kids|
    requires KidsHtml(e, ctx, memo, i).result.Err?
    ensures KidsHtml(e, ctx, memo, n) == KidsHtml(e, ctx, memo, i)
    decreases n
  {
    if n > i {
      KidsStop(e, ctx, memo, i, n - 1);
    }
  }

  /** One turn of the loop over the children: the markup so far grows by the child's, or the child's exception ends it. */
  lemma KidsNext(e: Element, ctx: RenderContext, memo: map<string, string>, i: nat, kids: string,
                 memo1: map<string, string>, part: Result<string>, memo2: map<string, string>)
    requires i < |e.kids| && KidsHtml(e, ctx, memo, i) == UriOutcome(Ok(kids), memo1)
    requires Html(e.kids[i], ctx, memo1) == UriOutcome(part, memo2)
    ensures part.Ok? ==> KidsHtml(e, ctx, memo, i + 1) == UriOutcome(Ok(kids + part.value), memo2)
    ensures part.Err? ==> KidsHtml(e, ctx, memo, |e.kids|) == UriOutcome(part, memo2)
  {
    if part.Err? {
      KidsStop(e, ctx, memo, i + 1, |e.kids|);
    }
  }

  /** A successful opening tag starts with `\n<` and the tag name, and ends with `close` and `>`. */
  lemma OpenTagShape(e: Element, ctx: RenderContext, memo: map<string, string>, close: string)
    requires OpenTag(e, ctx, memo, close).result.Ok?
    ensures var text := OpenTag(e, ctx, memo, close).result.value;
      IsPrefix("\n<" + e.tag, text) && IsSuffix(close + ">", text)
  {
    var attrs := RenderAttributes(e.attrs, e.fileKeys, e.classes, ctx, memo).result.value;
    var text := "\n<" + e.tag + attrs + close + ">";
    assert text == ("\n<" + e.tag) + (attrs + close + ">");
    assert text == ("\n<" + e.tag + attrs) + (close + ">");
  }

  /**
   * With a tag name, the markup opens with `\n<tag` and ends with the
   * closing tag in the full form, with ` />` in the self-closing form.
   */
  lemma TaggedHtml(e: Element, ctx: RenderContext, memo: map<string, string>)
    requires e.tag != "" && Html(e, ctx, memo).result.Ok?
    ensures var text := Html(e, ctx, memo).result.value;
      IsPrefix("\n<" + e.tag, text) &&
      (FullForm(e) ==> IsSuffix("\n</" + e.tag + ">", text)) &&
      (!FullForm(e) ==> IsSuffix(" />", text))
  {
    if FullForm(e) {
      var head := OpenTag(e, ctx, memo, "");
      OpenTagShape(e, ctx, memo, "");
      var kids := KidsHtml(e, ctx, head.memo, |e.kids|);
      var open, close := head.result.value, "\n</" + e.tag + ">";
      var text := open + e.pre + kids.result.value + e.post + close;
      assert text == open + (e.pre + kids.result.value + e.post + close);
      assert open[..|"\n<" + e.tag|] == "\n<" + e.tag;
      assert text[..|"\n<" + e.tag|] == open[..|"\n<" + e.tag|];
      assert text == (open + e.pre + kids.result.value + e.post) + close;
    } else {
      OpenTagShape(e, ctx, memo, " /");
    }
  }

  /**
   * Without a tag name no attribute is rendered: the markup is `_pre_html`,
   * the children and `_post_html` in the full form, and nothing otherwise.
   */
  lemma UntaggedHtml(e: Element, ctx: RenderContext, memo: map<string, string>)
    requires e.tag == ""
    ensures !FullForm(e) ==> Html(e, ctx, memo) == UriOutcome(Ok(""), memo)
    ensures var kids := KidsHtml(e, ctx, memo, |e.kids|);
      FullForm(e) ==>
        Html(e, ctx, memo) == if kids.result.Err? then kids else UriOutcome(Ok(e.pre + kids.result.value + e.post), kids.memo)
  {
    if FullForm(e) {
      var kids := KidsHtml(e, ctx, memo, |e.kids|);
      if kids.result.Ok? {
        assert "" + e.pre + kids.result.value + e.post + "" == e.pre + kids.result.value + e.post;
      }
    }
  }

  /** A component holding only markup after no tag renders exactly that markup, whatever the context. */
  lemma LeafHtml(t: string, ctx: RenderContext, memo: map<string, string>)
    ensures Html(Element("", false, [], [], [], "", t, []), ctx, memo) == UriOutcome(Ok(t), memo)
  {
    var e := Element("", false, [], [], [], "", t, []);
    UntaggedHtml(e, ctx, memo);
    assert KidsHtml(e, ctx, memo, 0) == UriOutcome(Ok(""), memo);
    assert "" + "" + t == t;
  }

  /** Served outside a notebook, no `data:` URI is made: rendering leaves the memo as it was. */
  lemma {:induction false} ServedMemo(e: Element, ctx: RenderContext, memo: map<string, string>)
    requires ctx.main != "" && !ctx.notebook
    ensures Html(e, ctx, memo).memo == memo
    decreases e, 1
  {
    if FullForm(e) {
      var head := if e.tag == "" then UriOutcome(Ok(""), memo) else OpenTag(e, ctx, memo, "");
      if head.result.Ok? {
        KidsServedMemo(e, ctx, head.memo, |e.kids|);
      }
    }
  }

  /** The same for the children of `e`. */
  lemma {:induction false} KidsServedMemo(e: Element, ctx: RenderContext, memo: map<string, string>, i: nat)
    requires ctx.main != "" && !ctx.notebook && i <= |e.kids|
    ensures KidsHtml(e, ctx, memo, i).memo == memo
    decreases e, 0, i
  {
    if i > 0 {
      KidsServedMemo(e, ctx, memo, i - 1);
      var prev := KidsHtml(e, ctx, memo, i - 1);
      if prev.result.Ok? {
        ServedMemo(e.kids[i - 1], ctx, prev.memo);
        assert KidHtml(e, ctx, prev.memo, i - 1).memo == prev.memo;
      }
    }
  }
}
