/**
 * The markup the `_get_template_*` methods of `Component`
 * (panel_components/component.py) build from the gathered resource dicts:
 * each file is copied to the app's `static` folder when the app is served
 * (`main` set), then referenced by a `<script src>` or `<link>` tag, or
 * inlined in a `<script>` or `<style>` element; raw styles and scripts are
 * inlined with their closing tag neutralised.
 */
module Templates {
  import opened Outcomes
  import opened Text
  import opened Utils
  import opened Attributes
  import opened Markup

  /** Which element a resource goes in. */
  datatype TagKind = Script | Style

  /** The reference to a file served from `/main/static/`. */
  function LinkTag(kind: TagKind, main: string, item: string): string {
    var path := "/" + main + "/" + DstFolder + "/" + item;
    match kind
    case Script => "\n<script src=\"" + path + "\" type=\"text/javascript\" crossorigin=\"anonymous\"></script>"
    case Style => "\n<link href=\"" + path + "\" rel=\"stylesheet\" crossorigin=\"anonymous\">"
  }

  /** The text that would end the element early. */
  function Closer(kind: TagKind): string {
    match kind
    case Script => "</script"
    case Style => "</style"
  }

  /** An inline element holding `body`. */
  function InlineTag(kind: TagKind, body: string): string {
    match kind
    case Script => "\n<script type=\"text/javascript\">\n" + body + "</script>"
    case Style => "\n<style>\n" + body + "</style>"
  }

  /**
   * `get_inline_js(name, self._dst_folder)` or `get_inline_css(...)`: the
   * destination folder is passed in the place of the source folder, with no
   * asset folders.
   */
  function InlineBody(kind: TagKind, name: string, fs: FileSystem): (r: Result<string>)
    ensures r.Ok? ==> !Contains(r.value, Closer(kind))
    ensures r.Ok? <==> Resolution(name, DstFolder, None, [], fs).Ok?
    ensures var found := Resolution(name, DstFolder, None, [], fs);
      r.Ok? ==> r.value == if found.value.src.Some? then Neutralise(kind, fs[found.value.src.value].text) else ""
  {
    match kind
    case Script => InlineJs(name, DstFolder, None, [], fs)
    case Style => InlineCss(name, DstFolder, None, [], fs)
  }

  /** `.replace("</script", ...)` or `.replace("</style", ...)` of a raw script or style. */
  function Neutralise(kind: TagKind, text: string): (r: string)
    ensures !Contains(r, Closer(kind))
    ensures !Contains(text, Closer(kind)) ==> r == text
  {
    match kind
    case Script => NeutraliseScript(text)
    case Style => NeutraliseStyle(text)
  }

  /** What a part of a template yields: its text or the first exception, and the files after it. */
  datatype Emitted = Emitted(result: Result<string>, fs: FileSystem)

  /** A part followed by the next one, which was built on the files the first left; the first exception wins. */
  function Then(a: Emitted, b: Emitted): Emitted {
    if a.result.Err? then a
    else if b.result.Err? then b
    else Emitted(Ok(a.result.value + b.result.value), b.fs)
  }

  /**
   * One file of a resource dict: made available under `static` when `main`
   * is set; then referenced when `link`, inlined otherwise.
   */
  function FileTag(kind: TagKind, item: string, main: string, link: bool, assets: seq<string>, fs: FileSystem): Emitted {
    var copied := if main != "" then Copied(item, SrcFolder, Some(DstFolder), assets, fs) else Ok(fs);
    if copied.Err? then Emitted(Err(copied.error), fs)
    else if link then Emitted(Ok(LinkTag(kind, main, item)), copied.value)
    else
      match InlineBody(kind, item, copied.value)
      case Err(e) => Emitted(Err(e), copied.value)
      case Ok(body) => Emitted(Ok(InlineTag(kind, body)), copied.value)
  }

  /** What one turn of the loop over a resource dict does with one file and the files so far. */
  function Tagger(kind: TagKind, main: string, link: bool, assets: seq<string>): (string, FileSystem) -> Emitted {
    (item, fs) => FileTag(kind, item, main, link, assets, fs)
  }

  /** The first `i` turns of a loop that builds its text from `items` and stops at the first exception. */
  function Fold(step: (string, FileSystem) -> Emitted, items: seq<string>, fs: FileSystem, i: nat): Emitted
    requires i <= |items|
  {
    if i == 0 then Emitted(Ok(""), fs)
    else
      var prev := Fold(step, items, fs, i - 1);
      Then(prev, step(items[i - 1], prev.fs))
  }

  /** The loop over all the files of a resource dict. */
  function FileTags(kind: TagKind, items: seq<string>, main: string, link: bool, assets: seq<string>, fs: FileSystem)
    : Emitted
  {
    Fold(Tagger(kind, main, link, assets), items, fs, |items|)
  }

  /** The loop over the first `i` raw styles or scripts. */
  function RawTags(kind: TagKind, texts: seq<string>, i: nat): string
    requires i <= |texts|
  {
    if i == 0 then "" else RawTags(kind, texts, i - 1) + InlineTag(kind, Neutralise(kind, texts[i - 1]))
  }

  /** The links to the first `i` files, one after the other. */
  function Links(kind: TagKind, main: string, items: seq<string>, i: nat): string
    requires i <= |items|
  {
    if i == 0 then "" else Links(kind, main, items, i - 1) + LinkTag(kind, main, items[i - 1])
  }

  /** The first `i` texts, each in its element as it is. */
  function Verbatim(kind: TagKind, texts: seq<string>, i: nat): string
    requires i <= |texts|
  {
    if i == 0 then "" else Verbatim(kind, texts, i - 1) + InlineTag(kind, texts[i - 1])
  }

  // ---------------------------------------------------------------------
  // The four parts

  /** `_get_template_head_no_nb`: the head scripts (linked when served), then the head styles (linked when served outside a notebook). */
  function HeadNoNb(js: seq<string>, css: seq<string>, main: string, notebook: bool, assets: seq<string>, fs: FileSystem)
    : Emitted
  {
    var scripts := FileTags(Script, js, main, main != "", assets, fs);
    Then(scripts, FileTags(Style, css, main, main != "" && !notebook, assets, scripts.fs))
  }

  /** `_get_template_contents_top`: the body styles (linked when served outside a notebook), then the raw styles. */
  function ContentsTop(css: seq<string>, styles: seq<string>, main: string, notebook: bool, assets: seq<string>,
                       fs: FileSystem): Emitted
  {
    var files := FileTags(Style, css, main, main != "" && !notebook, assets, fs);
    Then(files, Emitted(Ok(RawTags(Style, styles, |styles|)), files.fs))
  }

  /** `_get_template_contents_bottom`: the body scripts (linked when served outside a notebook), then the raw scripts. */
  function ContentsBottom(js: seq<string>, scripts: seq<string>, main: string, notebook: bool, assets: seq<string>,
                          fs: FileSystem): Emitted
  {
    var files := FileTags(Script, js, main, main != "" && !notebook, assets, fs);
    Then(files, Emitted(Ok(RawTags(Script, scripts, |scripts|)), files.fs))
  }

  /**
   * `_get_template_contents_bottom_no_nb`: the scripts (linked when served),
   * then the raw scripts, each passed to `get_inline_js` as a file name.
   */
  function ContentsBottomNoNb(js: seq<string>, scripts: seq<string>, main: string, assets: seq<string>, fs: FileSystem)
    : Emitted
  {
    var files := FileTags(Script, js, main, main != "", assets, fs);
    Then(files, FileTags(Script, scripts, "", false, assets, files.fs))
  }

  /** `_get_template_body_classes_attr`: the body classes, space-separated, in a `class` attribute; none, no attribute. */
  function BodyClassAttr(classes: seq<string>): (r: string)
    ensures r == "" <==> classes == []
  {
    if classes == [] then "" else " class=\"" + Join(classes, ' ') + "\""
  }

  /** What a whole template yields: its text or the first exception, the files and the inline URI memo after it. */
  datatype Built = Built(result: Result<string>, fs: FileSystem, memo: map<string, string>)

  /** The fixed text of `_get_template` up to the head resources. */
  const PageHead: string :=
    "{% extends base %}\n\n{% block head %}\n<head>\n    {% block inner_head %}\n    <meta charset=\"utf-8\">\n" +
    "    <meta http-equiv=\"X-UA-Compatible\" content=\"IE=edge\">\n" +
    "    <title>{% block title %}{{ title | e if title else \"Panel App\" }}{% endblock %}</title>\n" +
    "    <meta name=\"viewport\" content=\"width=device-width, initial-scale=1\">\n" +
    "    {% block preamble %}{% endblock %}\n    {% block resources %}\n        {% block css_resources %}\n" +
    "        {{ bokeh_css | indent(8) if bokeh_css }}\n        {% endblock %}\n        {% block js_resources %}\n" +
    "        {{ bokeh_js | indent(8) if bokeh_js }}\n        {% endblock %}\n    {% endblock %}\n    {% block postamble %}\n"

  /** The fixed text between the head resources and the body's class attribute. */
  const PageBody: string := "\n    {% endblock %}\n    {% endblock %}\n</head>\n{% endblock %}\n\n{% block body %}\n<body"

  /** The fixed text that opens the contents block. */
  const PageContents: string := "\n    {% block inner_body %}\n    {% block contents %}\n"

  /** The fixed text that closes the contents block. */
  const PagePlot: string := "\n    {% endblock %}\n    {{ plot_script | indent(8) }}\n"

  /** The fixed text at the end of `_get_template`. */
  const PageEnd: string := "\n    {% endblock %}\n</body>\n{% endblock %}\n"

  /** The fixed text that opens `_get_nb_template`. */
  const NbHead: string := "{% extends base %}\n\n{% block contents %}\n"

  /** The fixed text at the end of `_get_nb_template`. */
  const NbEnd: string := "\n{% endblock %}\n"

  /** The text of `_get_template` around its parts. */
  function Page(head: string, classes: string, top: string, html: string, spacer: string, bottom: string, bottomNoNb: string)
    : string
  {
    PageHead + head + PageBody + classes + ">\n" + top + PageContents + html + spacer + PagePlot + bottom + bottomNoNb + PageEnd
  }

  /** The text of `_get_nb_template` around its parts. */
  function NbPage(top: string, html: string, spacer: string, bottom: string): string {
    NbHead + top + html + spacer + bottom + NbEnd
  }

  /** The gathered resource dicts the templates walk, each as the list of its values in order. */
  datatype Sources = Sources(headJs: seq<string>, headCss: seq<string>, bodyCss: seq<string>, bodyStyle: seq<string>,
                             bodyJs: seq<string>, bodyScript: seq<string>, noNbJs: seq<string>, noNbScript: seq<string>)

  /**
   * `_get_template`: the parts in the order Python evaluates them, each on
   * the files the previous ones left; the tree `view` is rendered for the
   * same `main` and asset folders; the first exception ends it.
   */
  function FullTemplate(src: Sources, view: Element, classes: string, spacer: string, main: string, notebook: bool,
                        assets: seq<string>, fs: FileSystem, memo: map<string, string>): Built
  {
    var head := HeadNoNb(src.headJs, src.headCss, main, notebook, assets, fs);
    if head.result.Err? then Built(head.result, head.fs, memo)
    else AfterHead(src, view, head.result.value, classes, spacer, main, notebook, assets, head.fs, memo)
  }

  /** `_get_template` once its head resources are `head`. */
  function AfterHead(src: Sources, view: Element, head: string, classes: string, spacer: string, main: string,
                     notebook: bool, assets: seq<string>, fs: FileSystem, memo: map<string, string>): Built
  {
    var top := ContentsTop(src.bodyCss, src.bodyStyle, main, notebook, assets, fs);
    var html := Html(view, RenderContext(main, notebook, assets, top.fs), memo);
    var bottom := ContentsBottom(src.bodyJs, src.bodyScript, main, notebook, assets, top.fs);
    var noNb := ContentsBottomNoNb(src.noNbJs, src.noNbScript, main, assets, bottom.fs);
    if top.result.Err? then Built(top.result, top.fs, memo)
    else if html.result.Err? then Built(html.result, top.fs, html.memo)
    else if bottom.result.Err? then Built(bottom.result, bottom.fs, html.memo)
    else if noNb.result.Err? then Built(noNb.result, noNb.fs, html.memo)
    else
      Built(Ok(Page(head, classes, top.result.value, html.result.value, spacer, bottom.result.value, noNb.result.value)),
            noNb.fs, html.memo)
  }

  /** `_get_template` once its body styles are `top`: the tree, then the body scripts, then the scripts outside notebooks. */
  function AfterTop(src: Sources, view: Element, head: string, classes: string, spacer: string, main: string,
                    notebook: bool, assets: seq<string>, top: string, fs: FileSystem, memo: map<string, string>): Built
  {
    var html := Html(view, RenderContext(main, notebook, assets, fs), memo);
    var bottom := ContentsBottom(src.bodyJs, src.bodyScript, main, notebook, assets, fs);
    var noNb := ContentsBottomNoNb(src.noNbJs, src.noNbScript, main, assets, bottom.fs);
    if html.result.Err? then Built(html.result, fs, html.memo)
    else if bottom.result.Err? then Built(bottom.result, bottom.fs, html.memo)
    else if noNb.result.Err? then Built(noNb.result, noNb.fs, html.memo)
    else Built(Ok(Page(head, classes, top, html.result.value, spacer, bottom.result.value, noNb.result.value)), noNb.fs, html.memo)
  }

  /** `AfterHead` is the body styles followed by `AfterTop`. */
  lemma AfterHeadTop(src: Sources, view: Element, head: string, classes: string, spacer: string, main: string,
                     notebook: bool, assets: seq<string>, fs: FileSystem, memo: map<string, string>)
    ensures var top := ContentsTop(src.bodyCss, src.bodyStyle, main, notebook, assets, fs);
      AfterHead(src, view, head, classes, spacer, main, notebook, assets, fs, memo) ==
        if top.result.Err? then Built(top.result, top.fs, memo)
        else AfterTop(src, view, head, classes, spacer, main, notebook, assets, top.result.value, top.fs, memo)
  {
  }

  /** `_get_nb_template`: the body styles, the tree, the spacer and the body scripts, in that order. */
  function NbTemplate(src: Sources, view: Element, spacer: string, main: string, notebook: bool, assets: seq<string>,
                      fs: FileSystem, memo: map<string, string>): Built
  {
    var top := ContentsTop(src.bodyCss, src.bodyStyle, main, notebook, assets, fs);
    var html := Html(view, RenderContext(main, notebook, assets, top.fs), memo);
    var bottom := ContentsBottom(src.bodyJs, src.bodyScript, main, notebook, assets, top.fs);
    if top.result.Err? then Built(top.result, top.fs, memo)
    else if html.result.Err? then Built(html.result, top.fs, html.memo)
    else if bottom.result.Err? then Built(bottom.result, bottom.fs, html.memo)
    else Built(Ok(NbPage(top.result.value, html.result.value, spacer, bottom.result.value)), bottom.fs, html.memo)
  }

  // ---------------------------------------------------------------------
  // The loops

  /** One turn of the loop over the files of a resource dict. */
  method EmitFileTag(kind: TagKind, item: string, main: string, link: bool, assets: seq<string>, disk: Disk)
    returns (r: Result<string>)
    modifies disk
    ensures Emitted(r, disk.files) == FileTag(kind, item, main, link, assets, old(disk.files))
  {
    if main != "" {
      var copied := disk.MakeAvailable(item, SrcFolder, Some(DstFolder), assets);
      if copied.Err? {
        return Err(copied.error);
      }
    }
    if link {
      return Ok(LinkTag(kind, main, item));
    }
    var body := InlineBody(kind, item, disk.files);
    if body.Err? {
      return Err(body.error);
    }
    r := Ok(InlineTag(kind, body.value));
  }

  /** The loop over the files of a resource dict, in order, up to the first exception. */
  method EmitFileTags(kind: TagKind, items: seq<string>, main: string, link: bool, assets: seq<string>, disk: Disk)
    returns (r: Result<string>)
    modifies disk
    ensures Emitted(r, disk.files) == FileTags(kind, items, main, link, assets, old(disk.files))
  {
    ghost var fs0 := disk.files;
    ghost var step := Tagger(kind, main, link, assets);
    var text := "";
    var i := 0;
    while i < |items|
      invariant 0 <= i <= |items|
      invariant Fold(step, items, fs0, i) == Emitted(Ok(text), disk.files)
    {
      ghost var tag := step(items[i], disk.files);
      FoldNext(step, items, fs0, i, text, disk.files, tag);
      var piece := EmitFileTag(kind, items[i], main, link, assets, disk);
      if piece.Err? {
        return piece;
      }
      text := text + piece.value;
      i := i + 1;
    }
    r := Ok(text);
  }

  /** The loops of `_get_template_head_no_nb`. */
  method EmitHeadNoNb(js: seq<string>, css: seq<string>, main: string, notebook: bool, assets: seq<string>, disk: Disk)
    returns (r: Result<string>)
    modifies disk
    ensures Emitted(r, disk.files) == HeadNoNb(js, css, main, notebook, assets, old(disk.files))
  {
    var scripts := EmitFileTags(Script, js, main, main != "", assets, disk);
    if scripts.Err? {
      return scripts;
    }
    var styles := EmitFileTags(Style, css, main, main != "" && !notebook, assets, disk);
    if styles.Err? {
      return styles;
    }
    r := Ok(scripts.value + styles.value);
  }

  /** The loops of `_get_template_contents_top`. */
  method EmitContentsTop(css: seq<string>, styles: seq<string>, main: string, notebook: bool, assets: seq<string>, disk: Disk)
    returns (r: Result<string>)
    modifies disk
    ensures Emitted(r, disk.files) == ContentsTop(css, styles, main, notebook, assets, old(disk.files))
  {
    var files := EmitFileTags(Style, css, main, main != "" && !notebook, assets, disk);
    if files.Err? {
      return files;
    }
    var raw := EmitRawTags(Style, styles);
    r := Ok(files.value + raw);
  }

  /** The loops of `_get_template_contents_bottom`. */
  method EmitContentsBottom(js: seq<string>, scripts: seq<string>, main: string, notebook: bool, assets: seq<string>,
                            disk: Disk) returns (r: Result<string>)
    modifies disk
    ensures Emitted(r, disk.files) == ContentsBottom(js, scripts, main, notebook, assets, old(disk.files))
  {
    var files := EmitFileTags(Script, js, main, main != "" && !notebook, assets, disk);
    if files.Err? {
      return files;
    }
    var raw := EmitRawTags(Script, scripts);
    r := Ok(files.value + raw);
  }

  /** The loops of `_get_template_contents_bottom_no_nb`. */
  method EmitContentsBottomNoNb(js: seq<string>, scripts: seq<string>, main: string, assets: seq<string>, disk: Disk)
    returns (r: Result<string>)
    modifies disk
    ensures Emitted(r, disk.files) == ContentsBottomNoNb(js, scripts, main, assets, old(disk.files))
  {
    var files := EmitFileTags(Script, js, main, main != "", assets, disk);
    if files.Err? {
      return files;
    }
    var raw := EmitFileTags(Script, scripts, "", false, assets, disk);
    if raw.Err? {
      return raw;
    }
    r := Ok(files.value + raw.value);
  }

  /** One turn of the loop: the text grows by the step's text, or its exception ends the loop. */
  lemma FoldNext(step: (string, FileSystem) -> Emitted, items: seq<string>, fs: FileSystem, i: nat, text: string,
                 fs1: FileSystem, tag: Emitted)
    requires i < |items| && Fold(step, items, fs, i) == Emitted(Ok(text), fs1)
    requires tag == step(items[i], fs1)
    ensures tag.result.Ok? ==> Fold(step, items, fs, i + 1) == Emitted(Ok(text + tag.result.value), tag.fs)
    ensures tag.result.Err? ==> Fold(step, items, fs, |items|) == tag
  {
    if tag.result.Err? {
      FoldStop(step, items, fs, i + 1, |items|);
    }
  }

  /** Once a step fails, the loop goes no further. */
  lemma {:induction false} FoldStop(step: (string, FileSystem) -> Emitted, items: seq<string>, fs: FileSystem, i: nat, n: nat)
    requires i <= n <= |items|
    requires Fold(step, items, fs, i).result.Err?
    ensures Fold(step, items, fs, n) == Fold(step, items, fs, i)
    decreases n
  {
    if n > i {
      FoldStop(step, items, fs, i, n - 1);
    }
  }

  /** The loop over the raw styles or scripts, in order. */
  method EmitRawTags(kind: TagKind, texts: seq<string>) returns (r: string)
    ensures r == RawTags(kind, texts, |texts|)
  {
    r := "";
    var i := 0;
    while i < |texts|
      invariant 0 <= i <= |texts|
      invariant r == RawTags(kind, texts, i)
    {
      r := r + InlineTag(kind, Neutralise(kind, texts[i]));
      i := i + 1;
    }
  }

  // ---------------------------------------------------------------------
  // Properties

  /** Every file of `before` is in `after`, unchanged. */
  predicate Keeps(before: FileSystem, after: FileSystem) {
    forall p :: p in before ==> p in after && after[p] == before[p]
  }

  /** A loop whose steps touch no file leaves the files as they were. */
  lemma {:induction false} FoldUnchanged(step: (string, FileSystem) -> Emitted, items: seq<string>, fs: FileSystem, i: nat)
    requires i <= |items|
    requires forall item, f :: step(item, f).fs == f
    ensures Fold(step, items, fs, i).fs == fs
  {
    if i > 0 {
      FoldUnchanged(step, items, fs, i - 1);
    }
  }

  /** A loop whose steps keep every file keeps every file. */
  lemma {:induction false} FoldKeeps(step: (string, FileSystem) -> Emitted, items: seq<string>, fs: FileSystem, i: nat)
    requires i <= |items|
    requires forall item, f :: Keeps(f, step(item, f).fs)
    ensures Keeps(fs, Fold(step, items, fs, i).fs)
  {
    if i > 0 {
      var prev := Fold(step, items, fs, i - 1);
      FoldKeeps(step, items, fs, i - 1);
      assert Keeps(prev.fs, step(items[i - 1], prev.fs).fs);
    }
  }

  /** A loop whose steps each yield their file's link yields the links, in order. */
  lemma {:induction false} FoldLinks(step: (string, FileSystem) -> Emitted, kind: TagKind, main: string, items: seq<string>,
                                     fs: FileSystem, i: nat)
    requires i <= |items|
    requires forall item, f :: step(item, f).result.Ok? ==> step(item, f).result.value == LinkTag(kind, main, item)
    requires Fold(step, items, fs, i).result.Ok?
    ensures Fold(step, items, fs, i).result.value == Links(kind, main, items, i)
  {
    if i > 0 {
      var prev := Fold(step, items, fs, i - 1);
      assert prev.result.Ok?;
      FoldLinks(step, kind, main, items, fs, i - 1);
    }
  }

  /** When the app is not served (`main` empty) nothing is copied. */
  lemma UnservedKeepsFiles(kind: TagKind, items: seq<string>, link: bool, assets: seq<string>, fs: FileSystem)
    ensures FileTags(kind, items, "", link, assets, fs).fs == fs
  {
    var step := Tagger(kind, "", link, assets);
    forall item, f ensures step(item, f).fs == f {
      assert step(item, f) == FileTag(kind, item, "", link, assets, f);
    }
    FoldUnchanged(step, items, fs, |items|);
  }

  /** Copying never removes or changes a file that was there. */
  lemma FileTagsKeepFiles(kind: TagKind, items: seq<string>, main: string, link: bool, assets: seq<string>, fs: FileSystem)
    ensures Keeps(fs, FileTags(kind, items, main, link, assets, fs).fs)
  {
    var step := Tagger(kind, main, link, assets);
    forall item, f ensures Keeps(f, step(item, f).fs) {
      assert step(item, f) == FileTag(kind, item, main, link, assets, f);
    }
    FoldKeeps(step, items, fs, |items|);
  }

  /** Keeping every file is transitive. */
  lemma KeepsTrans(a: FileSystem, b: FileSystem, c: FileSystem)
    requires Keeps(a, b) && Keeps(b, c)
    ensures Keeps(a, c)
  {
  }

  /** `HeadNoNb` never removes or changes a file that was there. */
  lemma HeadKeepsFiles(js: seq<string>, css: seq<string>, main: string, notebook: bool, assets: seq<string>, fs: FileSystem)
    ensures Keeps(fs, HeadNoNb(js, css, main, notebook, assets, fs).fs)
  {
    var scripts := FileTags(Script, js, main, main != "", assets, fs);
    var styles := FileTags(Style, css, main, main != "" && !notebook, assets, scripts.fs);
    FileTagsKeepFiles(Script, js, main, main != "", assets, fs);
    FileTagsKeepFiles(Style, css, main, main != "" && !notebook, assets, scripts.fs);
    KeepsTrans(fs, scripts.fs, styles.fs);
    assert HeadNoNb(js, css, main, notebook, assets, fs).fs in {scripts.fs, styles.fs};
  }

  /** `ContentsTop` and `ContentsBottom` never remove or change a file that was there. */
  lemma ContentsKeepFiles(files: seq<string>, texts: seq<string>, main: string, notebook: bool, assets: seq<string>,
                          fs: FileSystem)
    ensures Keeps(fs, ContentsTop(files, texts, main, notebook, assets, fs).fs)
    ensures Keeps(fs, ContentsBottom(files, texts, main, notebook, assets, fs).fs)
  {
    FileTagsKeepFiles(Style, files, main, main != "" && !notebook, assets, fs);
    FileTagsKeepFiles(Script, files, main, main != "" && !notebook, assets, fs);
  }

  /** `ContentsBottomNoNb` never removes or changes a file that was there. */
  lemma NoNbKeepsFiles(js: seq<string>, scripts: seq<string>, main: string, assets: seq<string>, fs: FileSystem)
    ensures Keeps(fs, ContentsBottomNoNb(js, scripts, main, assets, fs).fs)
  {
    var files := FileTags(Script, js, main, main != "", assets, fs);
    var texts := FileTags(Script, scripts, "", false, assets, files.fs);
    FileTagsKeepFiles(Script, js, main, main != "", assets, fs);
    FileTagsKeepFiles(Script, scripts, "", false, assets, files.fs);
    KeepsTrans(fs, files.fs, texts.fs);
  }

  /** Not served, none of the four parts copies a file. */
  lemma UnservedParts(a: seq<string>, b: seq<string>, notebook: bool, assets: seq<string>, fs: FileSystem)
    ensures HeadNoNb(a, b, "", notebook, assets, fs).fs == fs
    ensures ContentsTop(a, b, "", notebook, assets, fs).fs == fs
    ensures ContentsBottom(a, b, "", notebook, assets, fs).fs == fs
    ensures ContentsBottomNoNb(a, b, "", assets, fs).fs == fs
  {
    UnservedKeepsFiles(Script, a, false, assets, fs);
    UnservedKeepsFiles(Style, b, false, assets, fs);
    UnservedKeepsFiles(Script, b, false, assets, fs);
    UnservedKeepsFiles(Style, a, false, assets, fs);
  }

  /** Served with links, a part that succeeds is exactly the links to its files, in order. */
  lemma LinkedFiles(kind: TagKind, items: seq<string>, main: string, assets: seq<string>, fs: FileSystem)
    requires main != ""
    requires FileTags(kind, items, main, true, assets, fs).result.Ok?
    ensures FileTags(kind, items, main, true, assets, fs).result.value == Links(kind, main, items, |items|)
  {
    var step := Tagger(kind, main, true, assets);
    forall item, f | step(item, f).result.Ok? ensures step(item, f).result.value == LinkTag(kind, main, item) {
      assert step(item, f) == FileTag(kind, item, main, true, assets, f);
    }
    FoldLinks(step, kind, main, items, fs, |items|);
  }

  /**
   * Served, a file tag leaves the file it names under `static`: copied there
   * from the file found, unless something was there already.
   */
  lemma ServedFileAvailable(kind: TagKind, item: string, main: string, link: bool, assets: seq<string>, fs: FileSystem)
    requires main != ""
    requires FileTag(kind, item, main, link, assets, fs).result.Ok?
    ensures var found := Resolution(item, SrcFolder, Some(DstFolder), assets, fs);
      var after := FileTag(kind, item, main, link, assets, fs).fs;
      found.Ok? &&
      (found.value.src.Some? ==>
        found.value.dst == Some(DstFolder + "/" + Join(PathElements(Strip(item)), '/')) &&
        found.value.dst.value in after &&
        (found.value.dst.value !in fs ==> after[found.value.dst.value] == fs[found.value.src.value]))
  {
    ResolutionDst(item, SrcFolder, DstFolder, assets, fs);
  }

  /**
   * Inlined, a file tag's element holds the text of the file found under
   * `static`, with its closing tag neutralised, or nothing when none is found;
   * not served, no file is copied.
   */
  lemma InlinedFileText(kind: TagKind, item: string, main: string, assets: seq<string>, fs: FileSystem)
    requires FileTag(kind, item, main, false, assets, fs).result.Ok?
    ensures var out := FileTag(kind, item, main, false, assets, fs);
      var found := Resolution(item, DstFolder, None, [], out.fs);
      found.Ok? &&
      out.result.value == InlineTag(kind, if found.value.src.Some? then Neutralise(kind, out.fs[found.value.src.value].text) else "") &&
      (main == "" ==> out.fs == fs)
  {
  }

  /** Raw text that cannot close its element early is inlined exactly as it is. */
  lemma {:induction false} RawTagsVerbatim(kind: TagKind, texts: seq<string>, i: nat)
    requires i <= |texts|
    requires forall j :: 0 <= j < i ==> !Contains(texts[j], Closer(kind))
    ensures RawTags(kind, texts, i) == Verbatim(kind, texts, i)
  {
    if i > 0 {
      RawTagsVerbatim(kind, texts, i - 1);
      var t := texts[i - 1];
      assert !Contains(t, Closer(kind));
      assert Neutralise(kind, t) == t;
    }
  }

  /** Served outside a notebook, the head of the page is only links: scripts first, then styles. */
  lemma ServedHead(js: seq<string>, css: seq<string>, main: string, assets: seq<string>, fs: FileSystem)
    requires main != "" && HeadNoNb(js, css, main, false, assets, fs).result.Ok?
    ensures HeadNoNb(js, css, main, false, assets, fs).result.value == Links(Script, main, js, |js|) + Links(Style, main, css, |css|)
  {
    var scripts := FileTags(Script, js, main, true, assets, fs);
    LinkedFiles(Script, js, main, assets, fs);
    LinkedFiles(Style, css, main, assets, scripts.fs);
  }

  /** Not served, the head copies nothing. */
  lemma UnservedHead(js: seq<string>, css: seq<string>, notebook: bool, assets: seq<string>, fs: FileSystem)
    ensures HeadNoNb(js, css, "", notebook, assets, fs).fs == fs
  {
    UnservedKeepsFiles(Script, js, false, assets, fs);
    UnservedKeepsFiles(Style, css, false, assets, fs);
  }

  /** Building `_get_template` never removes or changes a file that was there. */
  lemma TemplateKeepsFiles(src: Sources, view: Element, classes: string, spacer: string, main: string, notebook: bool,
                           assets: seq<string>, fs: FileSystem, memo: map<string, string>)
    ensures Keeps(fs, FullTemplate(src, view, classes, spacer, main, notebook, assets, fs, memo).fs)
  {
    var head := HeadNoNb(src.headJs, src.headCss, main, notebook, assets, fs);
    HeadKeepsFiles(src.headJs, src.headCss, main, notebook, assets, fs);
    if head.result.Ok? {
      var rest := AfterHead(src, view, head.result.value, classes, spacer, main, notebook, assets, head.fs, memo);
      AfterHeadKeepsFiles(src, view, head.result.value, classes, spacer, main, notebook, assets, head.fs, memo);
      KeepsTrans(fs, head.fs, rest.fs);
    }
  }

  /** The parts after the head never remove or change a file that was there. */
  lemma AfterHeadKeepsFiles(src: Sources, view: Element, head: string, classes: string, spacer: string, main: string,
                            notebook: bool, assets: seq<string>, fs: FileSystem, memo: map<string, string>)
    ensures Keeps(fs, AfterHead(src, view, head, classes, spacer, main, notebook, assets, fs, memo).fs)
  {
    var top := ContentsTop(src.bodyCss, src.bodyStyle, main, notebook, assets, fs);
    var bottom := ContentsBottom(src.bodyJs, src.bodyScript, main, notebook, assets, top.fs);
    var noNb := ContentsBottomNoNb(src.noNbJs, src.noNbScript, main, assets, bottom.fs);
    ContentsKeepFiles(src.bodyCss, src.bodyStyle, main, notebook, assets, fs);
    ContentsKeepFiles(src.bodyJs, src.bodyScript, main, notebook, assets, top.fs);
    NoNbKeepsFiles(src.noNbJs, src.noNbScript, main, assets, bottom.fs);
    KeepsTrans(fs, top.fs, bottom.fs);
    KeepsTrans(fs, bottom.fs, noNb.fs);
    assert AfterHead(src, view, head, classes, spacer, main, notebook, assets, fs, memo).fs in {top.fs, bottom.fs, noNb.fs};
  }

  /** Building `_get_nb_template` never removes or changes a file that was there. */
  lemma NbTemplateKeepsFiles(src: Sources, view: Element, spacer: string, main: string, notebook: bool,
                             assets: seq<string>, fs: FileSystem, memo: map<string, string>)
    ensures Keeps(fs, NbTemplate(src, view, spacer, main, notebook, assets, fs, memo).fs)
  {
    var top := ContentsTop(src.bodyCss, src.bodyStyle, main, notebook, assets, fs);
    var bottom := ContentsBottom(src.bodyJs, src.bodyScript, main, notebook, assets, top.fs);
    ContentsKeepFiles(src.bodyCss, src.bodyStyle, main, notebook, assets, fs);
    ContentsKeepFiles(src.bodyJs, src.bodyScript, main, notebook, assets, top.fs);
    KeepsTrans(fs, top.fs, bottom.fs);
  }

  /** Not served (`main` empty), `_get_template` copies no file. */
  lemma UnservedTemplate(src: Sources, view: Element, classes: string, spacer: string, notebook: bool,
                         assets: seq<string>, fs: FileSystem, memo: map<string, string>)
    ensures FullTemplate(src, view, classes, spacer, "", notebook, assets, fs, memo).fs == fs
  {
    var head := HeadNoNb(src.headJs, src.headCss, "", notebook, assets, fs);
    UnservedParts(src.headJs, src.headCss, notebook, assets, fs);
    if head.result.Ok? {
      UnservedAfterHead(src, view, head.result.value, classes, spacer, notebook, assets, fs, memo);
    }
  }

  /** Not served, the parts after the head copy no file. */
  lemma UnservedAfterHead(src: Sources, view: Element, head: string, classes: string, spacer: string, notebook: bool,
                          assets: seq<string>, fs: FileSystem, memo: map<string, string>)
    ensures AfterHead(src, view, head, classes, spacer, "", notebook, assets, fs, memo).fs == fs
  {
    UnservedParts(src.bodyCss, src.bodyStyle, notebook, assets, fs);
    UnservedParts(src.bodyJs, src.bodyScript, notebook, assets, fs);
    UnservedParts(src.noNbJs, src.noNbScript, notebook, assets, fs);
  }

  /** Not served, `_get_nb_template` copies no file. */
  lemma UnservedNbTemplate(src: Sources, view: Element, spacer: string, notebook: bool, assets: seq<string>,
                           fs: FileSystem, memo: map<string, string>)
    ensures NbTemplate(src, view, spacer, "", notebook, assets, fs, memo).fs == fs
  {
    UnservedParts(src.bodyCss, src.bodyStyle, notebook, assets, fs);
    UnservedParts(src.bodyJs, src.bodyScript, notebook, assets, fs);
  }

  /** Served outside a notebook, `_get_template` inlines no file, so the memo of inline URIs is untouched. */
  lemma ServedTemplateMemo(src: Sources, view: Element, classes: string, spacer: string, main: string,
                           assets: seq<string>, fs: FileSystem, memo: map<string, string>)
    requires main != ""
    ensures FullTemplate(src, view, classes, spacer, main, false, assets, fs, memo).memo == memo
  {
    var head := HeadNoNb(src.headJs, src.headCss, main, false, assets, fs);
    if head.result.Ok? {
      ServedAfterHeadMemo(src, view, head.result.value, classes, spacer, main, assets, head.fs, memo);
    }
  }

  /** Served outside a notebook, the parts after the head leave the memo as it was. */
  lemma ServedAfterHeadMemo(src: Sources, view: Element, head: string, classes: string, spacer: string, main: string,
                            assets: seq<string>, fs: FileSystem, memo: map<string, string>)
    requires main != ""
    ensures AfterHead(src, view, head, classes, spacer, main, false, assets, fs, memo).memo == memo
  {
    var top := ContentsTop(src.bodyCss, src.bodyStyle, main, false, assets, fs);
    ServedMemo(view, RenderContext(main, false, assets, top.fs), memo);
  }

  /** Served outside a notebook, `_get_nb_template` leaves the memo as it was. */
  lemma ServedNbMemo(src: Sources, view: Element, spacer: string, main: string, assets: seq<string>, fs: FileSystem,
                     memo: map<string, string>)
    requires main != ""
    ensures NbTemplate(src, view, spacer, main, false, assets, fs, memo).memo == memo
  {
    var top := ContentsTop(src.bodyCss, src.bodyStyle, main, false, assets, fs);
    var html := Html(view, RenderContext(main, false, assets, top.fs), memo);
    ServedMemo(view, RenderContext(main, false, assets, top.fs), memo);
    assert NbTemplate(src, view, spacer, main, false, assets, fs, memo).memo in {memo, html.memo};
  }

  /** The class attribute names exactly the body classes, when none holds a space. */
  lemma BodyClassWords(classes: seq<string>)
    requires classes != []
    requires forall i :: 0 <= i < |classes| ==> ' ' !in classes[i]
    ensures var r := BodyClassAttr(classes);
      IsPrefix(" class=\"", r) && IsSuffix("\"", r) && Split(r[8..|r| - 1], ' ') == classes
  {
    var r := BodyClassAttr(classes);
    var inner := Join(classes, ' ');
    assert r == " class=\"" + inner + "\"";
    assert r[8..|r| - 1] == inner;
    JoinSplit(classes, ' ');
  }

  /**
   * The scripts of `append_body_no_nb_script` are looked up as file names:
   * a script that names no file is emitted as an empty element.
   */
  lemma NoNbScriptAsFile(text: string, assets: seq<string>, fs: FileSystem)
    requires Resolution(text, DstFolder, None, [], fs) == Ok(Resolved(None, None))
    ensures FileTags(Script, [text], "", false, assets, fs) == Emitted(Ok(InlineTag(Script, "")), fs)
  {
    var step := Tagger(Script, "", false, assets);
    assert InlineBody(Script, text, fs) == Ok("");
    assert FileTag(Script, text, "", false, assets, fs) == Emitted(Ok(InlineTag(Script, "")), fs);
    assert step(text, fs) == FileTag(Script, text, "", false, assets, fs);
    assert Fold(step, [text], fs, 0) == Emitted(Ok(""), fs);
    assert Fold(step, [text], fs, 1) == Then(Emitted(Ok(""), fs), step(text, fs));
    assert "" + InlineTag(Script, "") == InlineTag(Script, "");
    assert FileTags(Script, [text], "", false, assets, fs) == Fold(step, [text], fs, 1);
  }
}
