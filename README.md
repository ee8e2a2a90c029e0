# panel-components, modelled in Dafny

`panel-components` builds HTML pages for Panel apps out of a tree of
`Component` objects. Each component has:

- a tag name and optional XML closing style;
- CSS classes and attributes;
- pre and post markup;
- children, which are components, strings, numbers or embedded Panel objects;
- ten dictionaries of resources: head CSS/JS, body CSS and styles, Panel CSS
  files and raw CSS, body JS and scripts, and the "no notebook" body JS and
  scripts.

A component renders itself as HTML (`get_html`) and as the Jinja templates
Panel serves (`_get_template`, `_get_nb_template`). While doing so, it copies
the referenced asset files to a destination folder, or inlines them as text or
as `data:` URIs.

The helper module `utils.py` does the following:

- template escaping and folder names;
- asset lookup through a list of asset folders (`find_src_file`);
- inlining JS and CSS;
- copying files (`make_available`);
- building memoised `data:` URIs for images and fonts (`make_inline_uri`).

`resources.py` defines `TemporaryResources`, a context manager. It swaps
Panel's global resource configuration for a temporary one and restores it on
exit.

The Dafny modules follow that structure:

| module | file | models |
|---|---|---|
| `Outcomes` | outcomes.dfy | `Option`, `Result` and the Python exceptions the core raises |
| `Text` | text.dfy | the `str` methods the core relies on: `replace`, `split`, `strip`, `lower`, `find`, `html.escape` with its inverse, `urllib.parse.quote` |
| `Base64` | base64.dfy | `base64.b64encode` (RFC 4648, section 4) and a decoder proving it lossless |
| `OrderedDicts` | odict.dfy | Python's insertion-ordered `dict`, `update` and repeated `update` |
| `Utils` | utils.dfy | `panel_components/utils.py`; the file system is a value `map<string, File>`, and `make_available` and the `make_inline_uri` memo are classes whose state methods update |
| `Resources` | resources.dfy | `TemporaryResources` and the host configuration it swaps (`pn.config`, `Model.model_class_reverse_map`) |
| `Attributes` | attributes.dfy | the class and attribute normalisation of `add_classes` / `add_attributes` and the text of `get_attributes` |
| `Markup` | markup.dfy | the HTML `get_html` produces for a snapshot of a component tree |
| `Templates` | templates.dfy | the template builders `_get_template_*`, `_get_template` and `_get_nb_template` |
| `Components` | component.dfy | the `Component` class itself: fields, setters, the recursive getters and rendering as methods proved against the functions above |

## Model

| member | source | states |
|---|---|---|
| Utils.TemplateEscape | panel_components/utils.py:44-63 | the three chained `replace` calls of `template_escape`; `TemplateEscapeOnePass`, `TemplateEscapeRoundTrip` and `TemplateEscapeIdentity` state its properties |
| Utils.TemplateEscapeOnePass | panel_components/utils.py:60-62 | the three chained `replace` calls equal one left-to-right pass that rewrites each `{{`, `{%`, `{#` into its Jinja literal |
| Utils.TemplateEscapeRoundTrip | panel_components/utils.py:44-63 | rendering the escaped text as Jinja literals gives back the original text, whatever it contains |
| Utils.TemplateEscapeIdentity | panel_components/utils.py:44-63 | text with none of the three openers is returned unchanged |
| Utils.GetDirName | panel_components/utils.py:69-85 | the folder name never contains a separator |
| Utils.GetDirNameLast | panel_components/utils.py:69-85 | the name of `parent/name` is `name`, as the doc example promises |
| Utils.GetDirNameTrailing | panel_components/utils.py:83-85 | a trailing separator does not change the name |
| Utils.KeepElements | panel_components/utils.py:117-121 | every kept element is a non-empty element of the input not starting with `.`, and every such element is kept |
| Utils.KeepElementsOne | panel_components/utils.py:117-121 | a single element is kept exactly when it is non-empty and does not start with `.` |
| Utils.KeepElementsAppend | panel_components/utils.py:117-121 | the filter distributes over concatenation, so the kept elements keep their order and multiplicity, as the list comprehension does |
| Utils.PathElements | panel_components/utils.py:117-121 | `s.rstrip("/").split("/")` filtered by `KeepElements`; `PathElementsClean` and `PathElementsStrip` state its properties |
| Utils.PathElementsClean | panel_components/utils.py:117-121 | every path element is non-empty, does not start with `.` and has no `/` |
| Utils.Candidates | panel_components/utils.py:143-151 | one candidate path per asset folder, built from that folder's elements |
| Utils.FolderCandidatePath | panel_components/utils.py:144-151 | a folder's candidate is its elements joined with the file's, `/`-rooted for an absolute folder; IndexError for the absolute root and TypeError when nothing is left to join |
| Utils.ScanFolders | panel_components/utils.py:142-154 | a path the scan returns is a file |
| Utils.ScanFinds | panel_components/utils.py:143-154 | the scan of the reversed folder list returns the LAST folder whose candidate is a file |
| Utils.ScanNone | panel_components/utils.py:142-158 | the scan finds nothing exactly when every candidate misses |
| Utils.ScanAppend | panel_components/utils.py:143 | scanning `a + b` tries `b` first and falls back to `a` |
| Utils.Locate | panel_components/utils.py:138-154 | the source folder first, then `ScanFolders` over the asset folders; its contract states that a returned path is a file, and `ScanFinds`/`ScanNone` state which folder the scan picks |
| Utils.LocateSource | panel_components/utils.py:138-154 | the loop over `reversed(asset_folders)` computes `Locate` |
| Utils.Resolution | panel_components/utils.py:109-158 | a destination exists exactly when a destination folder is given; a found source is a file; a destination folder with an empty file name raises IndexError |
| Utils.ResolutionDst | panel_components/utils.py:123-127 | the destination is the destination folder joined with the file's path elements |
| Utils.FindSrcFile | panel_components/utils.py:109-158 | the method computes `Resolution` |
| Utils.NeutraliseScript | panel_components/utils.py:163 | inlined JS never contains `</script`, and JS without it is unchanged |
| Utils.NeutraliseStyle | panel_components/utils.py:168 | inlined CSS never contains `</style`, and CSS without it is unchanged |
| Utils.InlineJs | panel_components/utils.py:161-163 | succeeds exactly when the lookup does; the result is the found file's text with every `</script` replaced, so it never closes its `<script>`, and it is the text itself when it holds no `</script`; an absent file inlines as empty text |
| Utils.InlineCss | panel_components/utils.py:166-168 | succeeds exactly when the lookup does; the result is the found file's text with every `</style` replaced, so it never closes its `<style>`, and it is the text itself when it holds no `</style`; an absent file inlines as empty text |
| Utils.Copied | panel_components/utils.py:171-180 | existing files are kept; when a source is found, the destination exists afterwards and, if it was new, holds the source's content; it is the only file added; the files are unchanged exactly when no source is found or the destination already exists; fails when the lookup fails or a found file has no destination |
| Utils.Disk.MakeAvailable | panel_components/utils.py:171-180 | the disk afterwards is `Copied` (so a found source is copied to a destination that did not exist), or unchanged on error |
| Utils.CanMakeInlineUri | panel_components/utils.py:183-196 | the lower-cased text after the last `.` of the right-stripped name is one of the ten formats; `CanMakeInlineUriExtension` states it per extension |
| Utils.CanMakeInlineUriExtension | panel_components/utils.py:183-196 | a name is inlinable exactly when its lower-cased extension is one of the ten image and font formats, trailing whitespace ignored |
| Utils.SvgStart | panel_components/utils.py:238-239 | the index of the first `<svg`, else of the first `<SVG`, else -1, and never past the end; `SvgStartFinds` states which occurrence it is |
| Utils.SvgStartFinds | panel_components/utils.py:238-239 | the start is the first `<svg`, else the first `<SVG`, and -1 only when neither occurs |
| Utils.BinaryHead | panel_components/utils.py:244-252 | every binary head is a `data:` URI |
| Utils.DataUriPrefix | panel_components/utils.py:235-254 | every URI produced is a `data:` URI |
| Utils.DataUri | panel_components/utils.py:235-254 | the `data:` URI of a found file: the escaped SVG markup for `.svg`, the base 64 bytes for image and font formats, none otherwise; `DataUriPrefix`, `DataUriBinary` and `DataUriSvg` state its properties |
| Utils.DataUriBinary | panel_components/utils.py:243-254 | a non-SVG file gets a URI exactly for the image and font formats (`jpg` as `jpeg`); it carries the right head, and its payload decodes back to the file's bytes |
| Utils.DataUriSvg | panel_components/utils.py:236-242 | an SVG's URI has the fixed head and tail; its body has no `<` and unescapes to the file text from the `<svg` tag on |
| Utils.UriSource | panel_components/utils.py:208-233 | a path found for a URI is a file |
| Utils.BuildUri | panel_components/utils.py:204-254 | the URI built on a memo miss: a non-empty result is a `data:` URI; `BuildUriEmpty` states the `""` and exception cases |
| Utils.BuildUriEmpty | panel_components/utils.py:204-257 | the only exception is the lookup's, and the result is `""` exactly when no file is found or its format cannot be inlined |
| Utils.InlineUri | panel_components/utils.py:199-257 | a memo hit is returned as stored; an empty key raises IndexError; errors and empty results leave the memo alone; otherwise only the stripped key is added, with a `data:` URI |
| Utils.InlineUriStrip | panel_components/utils.py:200 | surrounding whitespace of the file name does not matter |
| Utils.InlineUriMiss | panel_components/utils.py:201-257 | on a memo miss the result is the one an empty memo gives |
| Utils.MemoAnswer | panel_components/utils.py:199-260 | a memo that only holds what the lookup would compute gives the same answer as an empty one |
| Utils.MemoStaysCoherent | panel_components/utils.py:199-260 | a lookup on such a memo stores only what the lookup would compute |
| Utils.MemoTransparent | panel_components/utils.py:199-260 | a memo that only holds what the lookup would compute changes no result and stays that way |
| Utils.InlineUriRepeat | panel_components/utils.py:201-202 | a second call with the memo from the first returns the same result and memo |
| Utils.InlineUriMissBuilds | panel_components/utils.py:203-257 | on a miss the result is the URI built from the file found (`BuildUri`); a non-empty URI is stored under the stripped argument |
| Utils.InlineUriMemo.MakeInlineUri | panel_components/utils.py:199-257 | the method's result and new memo are `InlineUri` of the old memo |
| Text.FindFirst | panel_components/utils.py:238 | `find` returns the first occurrence, and -1 exactly when there is none |
| Text.HtmlEscapeRoundTrip | panel_components/utils.py:241 | `html.escape` is undone by unescaping |
| Text.HtmlEscape | panel_components/component.py:170 | escaped text contains none of `<>"'`, and text without `&<>"'` is unchanged |
| Text.StripIdempotent | panel_components/utils.py:115 | stripping twice is stripping once |
| Text.SplitJoin | panel_components/utils.py:85 | joining the pieces of a split gives the text back; no piece holds the separator |
| Text.JoinSplit | panel_components/utils.py:126-127 | splitting a join of separator-free pieces gives the pieces back |
| Text.LowerFolds | panel_components/utils.py:184 | lower-casing leaves no upper-case letter, is idempotent, and leaves text without upper-case letters unchanged |
| Text.Quote | panel_components/component.py:373-375 | the quoted text has only safe characters and `%XX` escapes; safe text is unchanged |
| Base64.Encode | panel_components/utils.py:253 | the encoding has four characters for every started group of three bytes |
| Base64.EncodeAlphabet | panel_components/utils.py:253 | every character is from the base64 alphabet or `=` |
| Base64.DecodeEncode | panel_components/utils.py:253-254 | decoding the encoding gives the bytes back |
| OrderedDicts.Get | panel_components/component.py:183 | a lookup fails exactly for an absent key |
| OrderedDicts.PutGet | panel_components/component.py:183 | after storing a key, it maps to the new value and other keys keep theirs |
| OrderedDicts.UpdateKeys | panel_components/component.py:183 | `update` keeps the old keys in place and adds exactly the new ones |
| OrderedDicts.UpdateGet | panel_components/component.py:183 | after `update`, keys of the argument take its values and the others keep theirs |
| OrderedDicts.UpdateAllKeys | panel_components/component.py:186-190 | repeated `update` holds exactly the keys present somewhere |
| OrderedDicts.UpdateAllLast | panel_components/component.py:186-190 | after repeated `update`, a key takes the value of the last dictionary holding it |
| OrderedDicts.UpdateAllFirst | panel_components/component.py:186-190 | a key held by no later dictionary keeps its initial value |
| OrderedDicts.UpdateAllUnique | panel_components/component.py:186-190 | repeated `update` never duplicates a key |
| Resources.PanelStyleFileInside | panel_components/resources.py:113-119 | any path containing `panel/_styles` or `panel\_styles` is a Panel style file |
| Resources.IsPanelStyleFile | panel_components/resources.py:113-119 | a path holding `panel\_styles` or `panel/_styles`; `PanelStyleFileInside` and `NoStylesNoPanelStyle` state its properties |
| Resources.NoStylesNoPanelStyle | panel_components/resources.py:113-119 | a path without `_styles` is not a Panel style file |
| Resources.PanelCssFiles | panel_components/resources.py:105-111 | exactly the saved Panel style files when Panel CSS is included, none otherwise |
| Resources.PanelCssFilesAppend | panel_components/resources.py:105-111 | the filter keeps order: it distributes over concatenation |
| Resources.ToExclude | panel_components/resources.py:132-134 | the module texts of exactly the extensions not requested |
| Resources.ExcludeExtension | panel_components/resources.py:136-155 | the loop decides `Excluded` |
| Resources.ExcludedByImports | panel_components/resources.py:121-157 | a model is excluded exactly when its name is dotted, is not a Bokeh core model, and contains the module of an unrequested extension |
| Resources.ExcludedAntitone | panel_components/resources.py:132-134 | requesting more extensions never excludes more models |
| Resources.KeepModels | panel_components/resources.py:93-97 | the kept registry holds exactly the entries whose names are not excluded |
| Resources.KeepModelsGet | panel_components/resources.py:93-97 | a lookup in the kept registry misses for excluded names and otherwise agrees with the saved one |
| Resources.HostConfig.constructor | panel_components/resources.py:80-83 | the host configuration record (`pn.config.raw_css`, `css_files`, `js_files` and `Model.model_class_reverse_map`) starts with the given fields; it stands for the host's state, not for a function of the library |
| Resources.TemporaryResources.constructor | panel_components/resources.py:27-83 | the requested resources are kept and the current configuration is saved |
| Resources.TemporaryResources.Enter | panel_components/resources.py:85-97 | the configuration becomes the requested raw CSS and JS, the saved Panel style files followed by the requested CSS, and the saved registry without the excluded models |
| Resources.TemporaryResources.Exit | panel_components/resources.py:99-103 | every saved part of the configuration is restored |
| Resources.WithTemporaryResources | panel_components/resources.py:55-66 | inside the block the temporary resources are in force; afterwards the configuration is exactly what it was |
| Attributes.ClassWords | panel_components/component.py:135-140 | a string contributes its words; a truthy bool or number raises TypeError |
| Attributes.AddNames | panel_components/component.py:141-143 | the set union: old names stay, the new non-empty names are added, nothing is duplicated |
| Attributes.AddClassesWords | panel_components/component.py:132-144 | after `add_classes`, every word of every string argument is a class and the old classes remain |
| Attributes.AddClasses | panel_components/component.py:132-144 | `add_classes`: the words of all arguments added to the classes, or the first TypeError; `AddClassesWords` and `AllWordsStops` state its properties |
| Attributes.AllWordsStops | panel_components/component.py:134-140 | the first TypeError decides the whole call |
| Attributes.BodyWords | panel_components/component.py:202-207 | a word is added exactly when it is a word of some non-empty argument, and every added name is a whitespace-free word |
| Attributes.Store | panel_components/component.py:177-178 | storing sets the value and leaves every other attribute as it was; it raises RuntimeError exactly for a key new to the dictionary under iteration; links are untouched |
| Attributes.StoreLink | panel_components/component.py:158-167 | remote links are not recorded; local ones are recorded as file attributes, and as files to serve unless they start with `#` or `?`; an empty local link raises IndexError; other attributes and file attributes keep their values |
| Attributes.NormaliseKeyGrows | panel_components/component.py:153-178 | normalising a key never removes attributes or files to serve |
| Attributes.NormaliseKey | panel_components/component.py:153-178 | one turn of the loop of `add_attributes`; `NormaliseKeyGrows`, `NormaliseText`, `NormaliseFlagNumber` and `NormaliseLink` state what it stores |
| Attributes.AddAttributes | panel_components/component.py:146-178 | `add_attributes` after the classes: the new attributes written over the stored ones, then every key normalised; `AddAttributesNoClass` and `NormaliseUris` state its properties |
| Attributes.AddAttributesNoClass | panel_components/component.py:148-151 | `class` is never stored as an attribute |
| Attributes.NormaliseUris | panel_components/component.py:153-178 | files to serve only grow, and every file added is a local link not starting with `#` or `?` |
| Attributes.NormaliseText | panel_components/component.py:169-170 | a non-empty text value is stored HTML-escaped under the hyphenated name |
| Attributes.NormaliseFlagNumber | panel_components/component.py:171-174 | `True` becomes an empty value and a non-zero number its text |
| Attributes.NormaliseLink | panel_components/component.py:158-167 | a link is stored stripped; local links are recorded, with IndexError for a blank one, and are served unless they start with `#` or `?` |
| Attributes.AttrText | panel_components/component.py:377-381 | an empty value renders as a bare name, otherwise as `name="value"`; a bool or number raises TypeError from `len` |
| Attributes.AttrEntry | panel_components/component.py:360-375 | a file attribute is recorded to serve exactly when `main` is set; when serving outside a notebook the memo is untouched |
| Attributes.AttrsUpTo | panel_components/component.py:359-381 | without `main` nothing is recorded; when serving outside a notebook the memo is untouched |
| Attributes.ClassAttributeLast | panel_components/component.py:383-387 | the escaped ` class="…"` comes last, and only when there are classes |
| Attributes.RecordedUris | panel_components/component.py:362-364 | the recorded files are the file attributes rendered so far, all of them when rendering succeeds |
| Attributes.AttrsStop | panel_components/component.py:359-381 | the first error ends the rendering |
| Attributes.AttrsAfter | panel_components/component.py:359-381 | one more attribute after a successful prefix: same memo and recording guarantees as `AttrsUpTo` |
| Attributes.AttrsIsScan | panel_components/component.py:359-381 | the attribute loop is the generic first-error-stops loop `Scan` run with the rendering of one attribute |
| Attributes.ScanStop | panel_components/component.py:359-381 | in the generic loop, nothing changes after the first error |
| Attributes.ScanUris | panel_components/component.py:362-364 | in the generic loop, the URIs recorded are the links of the attributes reached, all of them when no step fails |
| Attributes.RenderedUris | panel_components/component.py:357-387 | `get_attributes` records exactly the file attributes when `main` is set, and nothing otherwise |
| Attributes.RenderAttributes | panel_components/component.py:357-387 | `get_attributes`: the attributes rendered in order, then the class attribute; `ClassAttributeLast`, `RecordedUris` and `RenderedUris` state its properties |
| Markup.OpenTagShape | panel_components/component.py:673-676 | an opening tag starts with `<tag` and ends with `>` or ` />` |
| Markup.TaggedHtml | panel_components/component.py:663-697 | a tagged element renders as `<tag…` and ends with `</tag>` in full form or with ` />` in XML short form |
| Markup.Html | panel_components/component.py:663-697 | `get_html`: opening tag with attributes, pre markup, children in order, post markup and closing; `TaggedHtml`, `UntaggedHtml`, `LeafHtml`, `ServedMemo` and `KidsStop` state its properties |
| Markup.UntaggedHtml | panel_components/component.py:663-697 | an element without a tag renders only its pre markup, children and post markup, or nothing in short form |
| Markup.LeafHtml | panel_components/component.py:315-327 | a text child renders exactly its markup |
| Markup.ServedMemo | panel_components/component.py:365-375 | serving outside a notebook never touches the `make_inline_uri` memo |
| Markup.KidsStop | panel_components/component.py:680-681 | the first child that fails ends the rendering |
| Templates.InlineBody | panel_components/component.py:415 | succeeds exactly when the lookup in `static` does; the body is the found file's text with its closing tag neutralised, or empty when none is found; it never closes its own tag |
| Templates.Neutralise | panel_components/component.py:481 | a raw style or script never closes its own tag, and is unchanged when it did not |
| Templates.BodyClassAttr | panel_components/component.py:443-448 | the attribute is empty exactly when there are no body classes |
| Templates.BodyClassWords | panel_components/component.py:443-448 | the attribute is ` class="…"` and its value splits back into the classes |
| Templates.ServedFileAvailable | panel_components/component.py:399-405 | when served, a found file is afterwards present under `static/<its path elements>`, with the source's content when it was not there before |
| Templates.InlinedFileText | panel_components/component.py:410-418 | an inlined file's element holds the text of the file found under `static`, neutralised, or nothing; unserved, no file is copied |
| Templates.LinkedFiles | panel_components/component.py:406-409 | when served, each file is linked as `/main/static/file` |
| Templates.RawTagsVerbatim | panel_components/component.py:547-554 | scripts without `</script` are emitted verbatim |
| Templates.ServedHead | panel_components/component.py:395-441 | when served outside a notebook, the head holds only links: scripts first, then stylesheets |
| Templates.UnservedHead | panel_components/component.py:395-441 | without `main` nothing is copied |
| Templates.TemplateKeepsFiles | panel_components/component.py:557-610 | building the page template only adds files |
| Templates.NbTemplateKeepsFiles | panel_components/component.py:612-626 | building the notebook template only adds files |
| Templates.UnservedTemplate | panel_components/component.py:557-610 | without `main` the page template copies nothing |
| Templates.FullTemplate | panel_components/component.py:557-610 | the page template: head, body classes, contents, HTML and bottom scripts; `TemplateKeepsFiles`, `UnservedTemplate` and `ServedTemplateMemo` state its properties |
| Templates.UnservedNbTemplate | panel_components/component.py:612-626 | without `main` the notebook template copies nothing |
| Templates.NbTemplate | panel_components/component.py:612-626 | the notebook template: top contents, the HTML, the spacer and the bottom contents; `NbTemplateKeepsFiles`, `UnservedNbTemplate` and `ServedNbMemo` state its properties |
| Templates.ServedTemplateMemo | panel_components/component.py:557-610 | when served outside a notebook, the page template never touches the URI memo |
| Templates.ServedNbMemo | panel_components/component.py:612-626 | when served outside a notebook, the notebook template never touches the URI memo |
| Templates.NoNbScriptAsFile | panel_components/component.py:510-518 | a "no notebook" script body is looked up as a file name, so a body naming no file inlines as an empty script |
| Templates.EmitFileTag | panel_components/component.py:398-417 | one file tag: a link with the file copied, or the inlined file |
| Templates.FileTag | panel_components/component.py:398-417 | one file tag: copied and linked when served, inlined otherwise; `ServedFileAvailable`, `InlinedFileText` and `LinkedFiles` state its properties |
| Templates.EmitFileTags | panel_components/component.py:398-417 | the loop over a file dictionary emits the tags in order, stopping at the first error |
| Templates.EmitRawTags | panel_components/component.py:547-554 | the loop over raw texts emits the neutralised tags in order |
| Templates.EmitHeadNoNb | panel_components/component.py:395-441 | `_get_template_head_no_nb`: JS tags, then CSS tags |
| Templates.HeadNoNb | panel_components/component.py:395-441 | the JS file tags, then the CSS file tags; `ServedHead` and `UnservedHead` state its properties |
| Templates.EmitContentsTop | panel_components/component.py:450-484 | `_get_template_contents_top`: CSS file tags, then raw styles |
| Templates.ContentsTop | panel_components/component.py:450-484 | the CSS file tags, then the raw styles; `EmitContentsTop` is proved equal to it |
| Templates.EmitContentsBottom | panel_components/component.py:521-555 | `_get_template_contents_bottom`: JS file tags, then raw scripts |
| Templates.ContentsBottom | panel_components/component.py:521-555 | the JS file tags, then the raw scripts; `RawTagsVerbatim` and `EmitContentsBottom` state its properties |
| Templates.EmitContentsBottomNoNb | panel_components/component.py:486-519 | `_get_template_contents_bottom_no_nb`: JS file tags, then script bodies looked up as files |
| Templates.ContentsBottomNoNb | panel_components/component.py:486-519 | the JS file tags, then the script bodies looked up as files; `NoNbScriptAsFile` states this |
| Components.PlanAppend | panel_components/component.py:329-351 | the children planned for `a + b` are those for `a` followed by those for `b` |
| Components.Plan | panel_components/component.py:329-351 | the children `add_children` appends, in argument order: a tuple flattened one level, a falsy object skipped; `PlanAppend` states that it distributes over concatenation |
| Components.EmbedEntriesKeys | panel_components/component.py:321-327 | the embedded objects are registered under the supplied ids, in order |
| Components.Component.constructor | panel_components/component.py:41-88 | a new component has empty state |
| Components.Component.New | panel_components/component.py:31-130 | the constructor stores tag, style, title and `main`; it applies the classes and attributes, and on success adds one child per planned child; an error from the attributes stops it before the children; the pre and post markup, the body classes, the asset folders, the spacer and the ten resource dictionaries start empty, and the panels have no repeated id |
| Components.Component.Blank | panel_components/component.py:41-88 | the fields `__init__` sets before the classes: the given tag, style, title and `main`, and every other field empty |
| Components.Component.Init | panel_components/component.py:88-130 | classes, then attributes, then children, as the constructor orders them |
| Components.Component.InitClassesAttributes | panel_components/component.py:88-93 | the classes and attributes the constructor stores |
| Components.Component.AppendHeadNoNbCss | panel_components/component.py:182-184 | `append_head_no_nb_css` updates its own dictionary only |
| Components.Component.AppendHeadNoNbJs | panel_components/component.py:192-194 | `append_head_no_nb_js` updates its own dictionary only |
| Components.Component.PrependBodyCss | panel_components/component.py:209-211 | `prepend_body_css` updates its own dictionary only |
| Components.Component.PrependBodyStyle | panel_components/component.py:219-221 | `prepend_body_style` updates its own dictionary only |
| Components.Component.PanelCssFiles | panel_components/component.py:229-231 | `panel_css_files` updates its own dictionary only |
| Components.Component.PanelRawCss | panel_components/component.py:239-241 | `panel_raw_css` updates its own dictionary only |
| Components.Component.AppendBodyJs | panel_components/component.py:249-251 | `append_body_js` updates its own dictionary only |
| Components.Component.AppendBodyScript | panel_components/component.py:259-261 | `append_body_script` updates its own dictionary only |
| Components.Component.AppendBodyNoNbJs | panel_components/component.py:269-271 | `append_body_no_nb_js` updates its own dictionary only |
| Components.Component.AppendBodyNoNbScript | panel_components/component.py:279-281 | `append_body_no_nb_script` updates its own dictionary only |
| Components.Component.GetResources | panel_components/component.py:186-190 | the ten `get_…` methods: the own dictionary updated by each child's gathered one, in child order |
| Components.Component.GatheredKeys | panel_components/component.py:186-190 | the gathered keys are exactly the own keys and those of some child |
| Components.Component.GatheredOwn | panel_components/component.py:186-190 | an own entry no child overrides survives |
| Components.Component.GatheredChildWins | panel_components/component.py:186-190 | the last child holding a key decides its value |
| Components.Component.GatheredUnique | panel_components/component.py:186-190 | gathering never duplicates a key |
| Components.Component.GetPanels | panel_components/component.py:389-393 | the panels of the whole tree, later children overriding |
| Components.Component.AllPanelsKeys | panel_components/component.py:389-393 | an id is present exactly when this component or some child registered it |
| Components.Component.AllPanelsUnique | panel_components/component.py:389-393 | gathering the panels never duplicates an id |
| Components.Component.PanelsOwn | panel_components/component.py:389-393 | an id no child gathers keeps the object this component registered |
| Components.Component.PanelsChildWins | panel_components/component.py:389-393 | the last child gathering an id decides its object, overriding this component and earlier children |
| Components.Component.AddFilesUris | panel_components/component.py:289-292 | the stripped file names are added to the files to serve |
| Components.Component.GetFilesUris | panel_components/component.py:294-298 | the union over the tree |
| Components.Component.AllUrisNodes | panel_components/component.py:294-298 | a file is gathered exactly when some node of the tree records it |
| Components.Component.AddAssetFolders | panel_components/component.py:300-303 | the stripped folders are appended in order |
| Components.Component.GetAssetFolders | panel_components/component.py:305-309 | the folders of the tree, the children's before this component's |
| Components.Component.OwnFoldersLast | panel_components/component.py:305-309 | a component's own folders end the gathered list |
| Components.Component.OwnFoldersFirst | panel_components/component.py:143 | the lookup tries a component's own folders before any child's |
| Components.Component.AddClasses | panel_components/component.py:132-144 | the classes become the union, or stay as they were on TypeError |
| Components.Component.AddAttributes | panel_components/component.py:146-180 | `class` goes to the classes; the others are stored and every stored attribute is normalised; the exception raised is reported |
| Components.Component.NormaliseAttributes | panel_components/component.py:153-178 | the loop over the stored attributes computes `NormaliseFrom` |
| Components.Component.BodyClasses | panel_components/component.py:202-207 | the body classes become the union with the words of the non-empty arguments |
| Components.Component.PrependHtml | panel_components/component.py:311-313 | the markup is appended to the pre markup |
| Components.Component.AppendHtml | panel_components/component.py:353-355 | the markup is appended to the post markup |
| Components.Component.AppendHtmlChild | panel_components/component.py:315-319 | a new leaf child holding the escaped text is added last |
| Components.Component.AppendPanelChild | panel_components/component.py:321-327 | a new leaf child embedding the id is added last, and the object is registered under that id |
| Components.Component.AddChildren | panel_components/component.py:329-351 | existing children stay; one child is added per planned child, in order; embedded objects are registered under the supplied ids, and the panels stay free of repeated ids |
| Components.Component.GetAttributes | panel_components/component.py:357-387 | the text, the new memo and the files recorded are those of `RenderAttributes` |
| Components.Component.AttributeList | panel_components/component.py:359-381 | the loop over the attributes computes `AttrsUpTo` |
| Components.Component.AttributeAt | panel_components/component.py:360-381 | one turn of that loop extends `AttrsUpTo` by one attribute, or its exception is the whole result |
| Components.Component.RenderAttribute | panel_components/component.py:360-381 | one attribute renders as `AttrEntry` |
| Components.Component.LeafRenders | panel_components/component.py:315-327 | a child made from a string or panel renders exactly its markup |
| Components.Component.GetHtml | panel_components/component.py:663-697 | the HTML and memo are those of `Html` on the tree as it was |
| Components.Component.ChildrenHtml | panel_components/component.py:680-681 | the children's HTML, concatenated in order |
| Components.Component.ChildAt | panel_components/component.py:680-681 | one child's HTML extends `KidsHtml` by one child, or its exception is the whole result; the tree is unchanged |
| Components.Component.OpenTagMarkup | panel_components/component.py:672-676 | the opening tag with its attributes, as `OpenTag`; the node's `filesUris` grows by exactly the files `RenderAttributes` records |
| Components.Component.TemplateHeadNoNb | panel_components/component.py:395-441 | `_get_template_head_no_nb` of the gathered head resources |
| Components.Component.TemplateContentsTop | panel_components/component.py:450-484 | `_get_template_contents_top` of the gathered body CSS and styles |
| Components.Component.TemplateContentsBottom | panel_components/component.py:521-555 | `_get_template_contents_bottom` of the gathered body JS and scripts |
| Components.Component.TemplateContentsBottomNoNb | panel_components/component.py:486-519 | `_get_template_contents_bottom_no_nb` of the gathered "no notebook" resources |
| Components.Component.ReprHtml | panel_components/component.py:699-702 | the HTML with the component's own `main`, using the tree's asset folders when none are given |
| Components.Component.GetTemplate | panel_components/component.py:557-610 | the page template, the files copied and the memo, as `FullTemplate` of the tree as it was |
| Components.Component.AfterHeadHtml | panel_components/component.py:587-609 | the page template after the head |
| Components.Component.AfterTopHtml | panel_components/component.py:593-609 | the page template after the body styles: the tree, the spacer, the body scripts and the scripts outside notebooks, each on the files the previous part left, as `AfterTop` defines it |
| Components.Component.GetNbTemplate | panel_components/component.py:612-626 | the notebook template, as `NbTemplate` |

## Left out

- File system effects are modelled as a value `map<string, File>`, where a `File` has a text view and a byte view. Directories and `os.makedirs` (utils.py:129-136, 173-179) are not modelled. Neither are `open` failures or encodings.
- `os.getcwd()` in `get_dir_name` is the parameter `cwd`. `IS_A_JUPYTER_NOTEBOOK` (utils.py:11-18) is the parameter `notebook`.
- `uuid.uuid4()` ids for embedded panels (component.py:322) are a parameter `ids` of fresh ids.
- `is_a_number` (utils.py:21-40) is not a function. A value is a number when it is the `Num` case of `Attributes.Value`, or the `Number` case of a child argument. Python's duck typing of `value * 0` is not modelled.
- `html.escape`, `urllib.parse.quote` and `base64.b64encode` are written out in `Text` and `Base64`. `quote` percent-encodes the UTF-8 bytes of every character outside letters, digits and `_.-~/`, which is Python's default safe set.
- Python `set` iteration order depends on hashing. The CSS classes and body classes keep first-insertion order in the model. The files to serve are an unordered Dafny `set`, and the core never observes their order. Dictionary keys are strings.
- `app()` (component.py:628-661) is not modelled. It needs `pn.Template`, `pn.Spacer`, `pn.extension` and `servable`, which are not part of this model.
- `pn.extension(*extensions)` in `TemporaryResources.__enter__` (resources.py:86-87) is left out because it is a foreign call. `Model.model_class_reverse_map` is a string-keyed dictionary of opaque model handles. The backups alias the live lists, as in Python. The model treats them as values because `__enter__` only reassigns.
- `_read_file` (utils.py:89-103) is the `text` view of a file in the map.
- `clean_path`, imported at component.py:14, is not defined in utils.py. That import is not part of this model.
- Components.Component.GetHtml: its ensures states the HTML and the memo. It does not state the files recorded in `filesUris` across the tree. That set changes when `main` is set: `get_attributes` also records the `#` and `?` links that `add_attributes` kept out of the files to serve, and a later `app()` reads it. `Attributes.RecordedUris` states that effect for one node, and `Components.Component.GetAttributes` and `Components.Component.OpenTagMarkup` state it for the node they render.
- Components.Component.ChildrenHtml: its ensures states the children's HTML and the memo. It does not state what the children's `get_attributes` calls add to their `filesUris`, for the reason given under `GetHtml`.
- Components.Component.ChildAt: its ensures states one child's HTML and the memo. It does not state what that child's subtree adds to its `filesUris`, for the reason given under `GetHtml`.
- Components.Component.ReprHtml: its ensures states the HTML and the memo of `_repr_html_`. It does not state the files the rendering records in `filesUris` across the tree, for the reason given under `GetHtml`.
- Components.Component.GetTemplate: its ensures states the template, the files on disk and the memo. It does not state the files the rendering of the tree records in `filesUris`, for the reason given under `GetHtml`.
- Components.Component.AfterHeadHtml: its ensures states the rest of the template, the files on disk and the memo. It does not state the files the rendering of the tree records in `filesUris`, for the reason given under `GetHtml`.
- Components.Component.AfterTopHtml: its ensures states the rest of the template, the files on disk and the memo. It does not state the files the rendering of the tree records in `filesUris`, for the reason given under `GetHtml`.
- Components.Component.GetNbTemplate: its ensures states the notebook template, the files on disk and the memo. It does not state the files the rendering of the tree records in `filesUris`, for the reason given under `GetHtml`.
- Components.Component.New: when the attributes raise, the real constructor propagates the exception and no object exists. The model returns the half-built component with the error.
- Components.Component.New: it states that the new component's own panels have no repeated id, but not `UniquePanels()` or `UniqueResources(kind)` over the whole tree. Those depend on the children passed in, and stating them made the proof of `New` too expensive. A caller that needs them proves them for the children and combines that with the empty dictionaries `New` states.
- Components.Component.New: the `main is True` branch (component.py:126-127) is not modelled. It rebinds a local after `self.main` was set and has no effect.
- Utils.InlineUri: `dst_folder` is accepted and ignored, as in the source.
- Text.Lower: only the ASCII letters `A`-`Z` are folded. Python's `str.lower` is Unicode-wide and can change the length of a string. Every text compared after lower-casing (the inline formats, `.svg`, the URL schemes) is ASCII.
- Components.Plan: the truthiness of a foreign object (the `if child` test at component.py:349) is the `truthy` flag of `Arg.Object`. A `__bool__` that raises, as a pandas DataFrame's does, is not modelled.
- Components.Component.Valid: a component may not contain itself, directly or through its children. In Python such a cycle makes the recursive getters and `get_html` raise RecursionError. `Valid()` rules cycles out, so that exception is not modelled. `Valid()` does allow one child under two parents, as Python does.

Other behaviour is modelled as the source has it:

- A second `add_attributes` call escapes the text values stored by the first one again.
- Storing a hyphenated key while iterating raises RuntimeError.
- A whitespace-only `href` or `src` raises IndexError.
- `True` and `False` children become the text "True" or "False" (a bool counts as a number).
- An SVG without `<svg` or `<SVG` is inlined from its last character.
- "No notebook" script bodies are looked up as file names; `Templates.NoNbScriptAsFile` states this.
- Inline JS and CSS are looked up with `static` as their source folder.
