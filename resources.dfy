/**
 * `TemporaryResources` (panel_components/resources.py): a context manager that
 * swaps in a temporary resource configuration of the host framework (its
 * raw CSS, CSS files, JS files and the registry of Bokeh model classes) and
 * puts the saved configuration back on exit.
 */
module Resources {
  import opened Outcomes
  import opened Text
  import opened OrderedDicts

  /** A registered Bokeh model class, by an opaque handle. */
  datatype ModelClass = ModelClass(handle: nat)

  /**
   * The host framework's global configuration: `pn.config.raw_css`,
   * `pn.config.css_files`, `pn.config.js_files`, the registry
   * `Model.model_class_reverse_map`, and the extension table
   * `EXTENSIONS` (extension name to the module text that identifies its models).
   */
  class HostConfig {
    var rawCss: seq<string>
    var cssFiles: seq<string>
    var jsFiles: Dict<string>
    var models: Dict<ModelClass>
    const extensionImports: Dict<string>

    constructor(rawCss: seq<string>, cssFiles: seq<string>, jsFiles: Dict<string>, models: Dict<ModelClass>,
                extensionImports: Dict<string>)
      ensures this.rawCss == rawCss && this.cssFiles == cssFiles && this.jsFiles == jsFiles
      ensures this.models == models && this.extensionImports == extensionImports
    {
      this.rawCss := rawCss;
      this.cssFiles := cssFiles;
      this.jsFiles := jsFiles;
      this.models := models;
      this.extensionImports := extensionImports;
    }
  }

  /** `_is_panel_style_file(file)`: the path names Panel's own style folder, with either separator. */
  predicate IsPanelStyleFile(file: string) {
    Contains(file, "panel\\_styles") || Contains(file, "panel/_styles")
  }

  /** A path holding `panel/_styles` or `panel\_styles` anywhere is a Panel style file. */
  lemma PanelStyleFileInside(a: string, b: string)
    ensures IsPanelStyleFile(a + "panel/_styles" + b)
    ensures IsPanelStyleFile(a + "panel\\_styles" + b)
  {
    PrefixContained(a, "panel/_styles", b);
    PrefixContained(a, "panel\\_styles", b);
  }

  /** `a + w + b` contains `w`. */
  lemma {:induction false} PrefixContained(a: string, w: string, b: string)
    ensures Contains(a + w + b, w)
    decreases |a|
  {
    if a == [] {
      assert a + w + b == w + b;
      assert (w + b)[..|w|] == w;
    } else {
      assert (a + w + b)[1..] == a[1..] + w + b;
      PrefixContained(a[1..], w, b);
    }
  }

  /** A path without `_styles` is never a Panel style file. */
  lemma {:induction false} NoStylesNoPanelStyle(file: string)
    requires !Contains(file, "_styles")
    ensures !IsPanelStyleFile(file)
    decreases |file|
  {
    if file != [] {
      NoStylesNoPanelStyle(file[1..]);
    }
    assert !IsPrefix("panel/_styles", file) by {
      if IsPrefix("panel/_styles", file) {
        assert IsPrefix("_styles", file[6..]);
        ContainsSuffix(file, 6, "_styles");
      }
    }
    assert !IsPrefix("panel\\_styles", file) by {
      if IsPrefix("panel\\_styles", file) {
        assert IsPrefix("_styles", file[6..]);
        ContainsSuffix(file, 6, "_styles");
      }
    }
  }

  /** An occurrence inside a suffix is an occurrence. */
  lemma {:induction false} ContainsSuffix(s: string, k: nat, w: string)
    requires k <= |s| && IsPrefix(w, s[k..])
    ensures Contains(s, w)
    decreases k
  {
    if k > 0 {
      assert s[1..][k - 1..] == s[k..];
      ContainsSuffix(s[1..], k - 1, w);
    }
  }

  /** `_panel_css_files`: the saved CSS files that are Panel style files, when Panel CSS is included. */
  function PanelCssFiles(backup: seq<string>, withPanel: bool): (r: seq<string>)
    ensures !withPanel ==> r == []
    ensures forall i :: 0 <= i < |r| ==> IsPanelStyleFile(r[i]) && r[i] in backup
    ensures withPanel ==> forall f :: f in backup && IsPanelStyleFile(f) ==> f in r
    decreases |backup|
  {
    if backup == [] then []
    else (if IsPanelStyleFile(backup[0]) && withPanel then [backup[0]] else []) + PanelCssFiles(backup[1..], withPanel)
  }

  /** The filter keeps the files in their original order: it distributes over concatenation. */
  lemma {:induction false} PanelCssFilesAppend(a: seq<string>, b: seq<string>, withPanel: bool)
    ensures PanelCssFiles(a + b, withPanel) == PanelCssFiles(a, withPanel) + PanelCssFiles(b, withPanel)
    decreases |a|
  {
    if a != [] {
      assert (a + b)[1..] == a[1..] + b;
      PanelCssFilesAppend(a[1..], b, withPanel);
    } else {
      assert a + b == b;
    }
  }

  /** `extensions_to_exclude`: the module text of every known extension that was not requested. */
  function ToExclude(imports: Dict<string>, requested: set<string>): (r: seq<string>)
    ensures forall v :: v in r <==> exists j :: 0 <= j < |imports| && imports[j].0 !in requested && imports[j].1 == v
    decreases |imports|
  {
    if imports == [] then []
    else
      var rest := ToExclude(imports[1..], requested);
      assert forall j :: 1 <= j < |imports| ==> imports[1..][j - 1] == imports[j];
      (if imports[0].0 !in requested then [imports[0].1] else []) + rest
  }

  /** `exclude_extension(model)`: a dotted name outside Bokeh that mentions an excluded extension. */
  predicate Excluded(toExclude: seq<string>, model: string) {
    '.' in model && !Contains(model, "bokeh.") && exists i :: 0 <= i < |toExclude| && Contains(model, toExclude[i])
  }

  /** The closure `exclude_extension` returned by `_get_exclude_extension_func`, with its loop. */
  method ExcludeExtension(toExclude: seq<string>, model: string) returns (b: bool)
    ensures b == Excluded(toExclude, model)
  {
    if '.' !in model || Contains(model, "bokeh.") {
      return false;
    }
    var i := 0;
    while i < |toExclude|
      invariant 0 <= i <= |toExclude|
      invariant forall j :: 0 <= j < i ==> !Contains(model, toExclude[j])
    {
      if Contains(model, toExclude[i]) {
        return true;
      }
      i := i + 1;
    }
    return false;
  }

  /**
   * A model is excluded exactly when its name is dotted, does not mention
   * `bokeh.`, and mentions the module text of a known extension that was not
   * requested.
   */
  lemma ExcludedByImports(imports: Dict<string>, requested: set<string>, model: string)
    ensures Excluded(ToExclude(imports, requested), model) <==>
      '.' in model && !Contains(model, "bokeh.") &&
      exists j :: 0 <= j < |imports| && imports[j].0 !in requested && Contains(model, imports[j].1)
  {
    var xs := ToExclude(imports, requested);
    if '.' in model && !Contains(model, "bokeh.") {
      if exists i :: 0 <= i < |xs| && Contains(model, xs[i]) {
        var i :| 0 <= i < |xs| && Contains(model, xs[i]);
        assert xs[i] in xs;
        var j :| 0 <= j < |imports| && imports[j].0 !in requested && imports[j].1 == xs[i];
      }
      if exists j :: 0 <= j < |imports| && imports[j].0 !in requested && Contains(model, imports[j].1) {
        var j :| 0 <= j < |imports| && imports[j].0 !in requested && Contains(model, imports[j].1);
        assert imports[j].1 in xs;
        var i :| 0 <= i < |xs| && xs[i] == imports[j].1;
      }
    }
  }

  /** Requesting more extensions never excludes more models. */
  lemma ExcludedAntitone(imports: Dict<string>, fewer: set<string>, more: set<string>, model: string)
    requires fewer <= more
    ensures Excluded(ToExclude(imports, more), model) ==> Excluded(ToExclude(imports, fewer), model)
  {
    ExcludedByImports(imports, more, model);
    ExcludedByImports(imports, fewer, model);
  }

  /** The registry comprehension of `__enter__`: the entries whose names are not excluded, in order. */
  function KeepModels(models: Dict<ModelClass>, toExclude: seq<string>): (r: Dict<ModelClass>)
    ensures forall i :: 0 <= i < |r| ==> r[i] in models && !Excluded(toExclude, r[i].0)
    ensures forall p :: p in models && !Excluded(toExclude, p.0) ==> p in r
    decreases |models|
  {
    if models == [] then []
    else (if Excluded(toExclude, models[0].0) then [] else [models[0]]) + KeepModels(models[1..], toExclude)
  }

  /** A name keeps its class in the filtered registry unless it is excluded. */
  lemma {:induction false} KeepModelsGet(models: Dict<ModelClass>, toExclude: seq<string>, name: string)
    ensures Get(KeepModels(models, toExclude), name) == if Excluded(toExclude, name) then None else Get(models, name)
    decreases |models|
  {
    if models != [] {
      KeepModelsGet(models[1..], toExclude, name);
      var head := if Excluded(toExclude, models[0].0) then [] else [models[0]];
      var rest := KeepModels(models[1..], toExclude);
      if head == [] {
        assert head + rest == rest;
      } else {
        assert (head + rest)[0] == models[0] && (head + rest)[1..] == rest;
      }
    }
  }

  /** `TemporaryResources(extensions, raw_css, css_files, js_files, include_panel_css)` */
  class TemporaryResources {
    const config: HostConfig
    const extensions: set<string>
    const rawCss: seq<string>
    const cssFiles: seq<string>
    const jsFiles: Dict<string>
    const includePanelCss: bool
    const backupRawCss: seq<string>
    const backupCssFiles: seq<string>
    const backupJsFiles: Dict<string>
    const backupModels: Dict<ModelClass>

    /** The requested configuration is kept and the current one is saved. */
    constructor(config: HostConfig, extensions: set<string>, rawCss: seq<string>, cssFiles: seq<string>,
                jsFiles: Dict<string>, includePanelCss: bool)
      ensures this.config == config && this.extensions == extensions && this.rawCss == rawCss
      ensures this.cssFiles == cssFiles && this.jsFiles == jsFiles && this.includePanelCss == includePanelCss
      ensures backupRawCss == config.rawCss && backupCssFiles == config.cssFiles
      ensures backupJsFiles == config.jsFiles && backupModels == config.models
    {
      this.config := config;
      this.extensions := extensions;
      this.rawCss := rawCss;
      this.cssFiles := cssFiles;
      this.jsFiles := jsFiles;
      this.includePanelCss := includePanelCss;
      backupRawCss := config.rawCss;
      backupCssFiles := config.cssFiles;
      backupJsFiles := config.jsFiles;
      backupModels := config.models;
    }

    /**
     * `__enter__`: the requested raw CSS and JS files, Panel's style files
     * followed by the requested CSS files, and the registry without the
     * models of extensions that were not requested.
     */
    method Enter()
      modifies config
      ensures config.rawCss == rawCss && config.jsFiles == jsFiles
      ensures config.cssFiles == PanelCssFiles(backupCssFiles, includePanelCss) + cssFiles
      ensures config.models == KeepModels(backupModels, ToExclude(config.extensionImports, extensions))
    {
      config.rawCss := rawCss;
      config.jsFiles := jsFiles;
      config.cssFiles := PanelCssFiles(backupCssFiles, includePanelCss) + cssFiles;
      var toExclude := ToExclude(config.extensionImports, extensions);
      config.models := KeepModels(backupModels, toExclude);
    }

    /** `__exit__`: the saved configuration is put back. */
    method Exit()
      modifies config
      ensures config.models == backupModels && config.cssFiles == backupCssFiles
      ensures config.jsFiles == backupJsFiles && config.rawCss == backupRawCss
    {
      config.models := backupModels;
      config.cssFiles := backupCssFiles;
      config.jsFiles := backupJsFiles;
      config.rawCss := backupRawCss;
    }
  }

  /**
   * `with TemporaryResources(...):` around a body that does not touch the
   * configuration: inside, the temporary configuration is in force; after,
   * the configuration is the one before the `with`.
   */
  method WithTemporaryResources(config: HostConfig, extensions: set<string>, rawCss: seq<string>,
                                cssFiles: seq<string>, jsFiles: Dict<string>, includePanelCss: bool)
    returns (insideRawCss: seq<string>, insideCssFiles: seq<string>)
    modifies config
    ensures insideRawCss == rawCss
    ensures insideCssFiles == PanelCssFiles(old(config.cssFiles), includePanelCss) + cssFiles
    ensures config.rawCss == old(config.rawCss) && config.cssFiles == old(config.cssFiles)
    ensures config.jsFiles == old(config.jsFiles) && config.models == old(config.models)
  {
    var resources := new TemporaryResources(config, extensions, rawCss, cssFiles, jsFiles, includePanelCss);
    resources.Enter();
    insideRawCss, insideCssFiles := config.rawCss, config.cssFiles;
    resources.Exit();
  }
}
