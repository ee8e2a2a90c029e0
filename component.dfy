/**
 * `panel_components/component.py`: the `Component` class. A component is a
 * node of a tree: a tag with attributes and CSS classes, markup before and
 * after its children, and the CSS/JS resources it needs. Getters gather a
 * resource over the whole tree; `get_html` renders the tree; the template
 * builders wrap the rendering in a Panel page template.
 */
module Components {
  import opened Outcomes
  import opened Text
  import opened OrderedDicts
  import opened Utils
  import opened Attributes
  import opened Markup
  import opened Templates

  /** The ten resource dictionaries a component keeps, each filled by its own method. */
  datatype Kind =
    | HeadNoNbCss     // append_head_no_nb_css
    | HeadNoNbJs      // append_head_no_nb_js
    | BodyCss         // prepend_body_css
    | BodyStyle       // prepend_body_style
    | PanelCss        // panel_css_files
    | PanelRawCss     // panel_raw_css
    | BodyJs          // append_body_js
    | BodyScript      // append_body_script
    | BodyNoNbJs      // append_body_no_nb_js
    | BodyNoNbScript  // append_body_no_nb_script

  /**
   * A positional argument of the constructor or of `add_children`: a
   * component, a string, a bool or other number (kept as the text `str()`
   * gives), `None`, a tuple, or any other object, which Panel renders
   * (a widget, a pane, a plot) and of which only the truth value matters here.
   */
  datatype Arg =
    | Node(component: Component)
    | Text(s: string)
    | Flag(b: bool)
    | Number(text: string)
    | NoneArg
    | Tuple(items: seq<Arg>)
    | Object(handle: nat, truthy: bool)

  /** The markup Panel replaces with the rendered object registered under `id`. */
  function Embed(id: string): string {
    "{{ embed(roots." + id + ") }}"
  }

  /** What `add_children` makes of one argument: the children it appends, in order. */
  datatype Planned =
    | Keep(node: Component)   // a component, appended as it is
    | Markup(text: string)    // a string or number: a new child holding the escaped text
    | Embedded(obj: Arg)      // any other object: a new child embedding it, registered as a panel

  /**
   * An item of a tuple argument: `None` is skipped; a component, a string or
   * a number is treated as at the top level; anything else, a nested tuple or
   * a falsy object included, is embedded.
   */
  function ItemPlan(item: Arg): seq<Planned> {
    match item
    case NoneArg => []
    case Node(c) => [Keep(c)]
    case Text(s) => [Markup(s)]
    case Flag(b) => [Markup(if b then "True" else "False")]
    case Number(t) => [Markup(t)]
    case _ => [Embedded(item)]
  }

  function ItemsPlan(items: seq<Arg>): seq<Planned>
    decreases |items|
  {
    if items == [] then [] else ItemsPlan(items[..|items| - 1]) + ItemPlan(items[|items| - 1])
  }

  /** A top-level argument: a tuple is flattened one level, and a falsy object is skipped. */
  function ArgPlan(arg: Arg): seq<Planned> {
    match arg
    case Tuple(items) => ItemsPlan(items)
    case Object(_, truthy) => if truthy then [Embedded(arg)] else []
    case _ => ItemPlan(arg)
  }

  /** `add_children(*args)`: the children appended, in order. */
  function Plan(args: seq<Arg>): seq<Planned>
    decreases |args|
  {
    if args == [] then [] else ArgPlan(args[0]) + Plan(args[1..])
  }

  /** The existing components a plan appends. */
  function KeptNodes(plan: seq<Planned>): set<Component> {
    set j | 0 <= j < |plan| && plan[j].Keep? :: plan[j].node
  }

  /** How many placeholder children a plan creates, each taking a fresh id. */
  function Embeds(plan: seq<Planned>): nat
    decreases |plan|
  {
    if plan == [] then 0 else Embeds(plan[..|plan| - 1]) + (if plan[|plan| - 1].Embedded? then 1 else 0)
  }

  /** The id the `j`-th planned child takes if it is a placeholder: the next unused one. */
  function IdAt(plan: seq<Planned>, ids: seq<string>, j: nat): string
    requires j <= |plan|
  {
    var n := Embeds(plan[..j]);
    if n < |ids| then ids[n] else ""
  }

  /** The id each planned child takes, position by position (only placeholders use theirs). */
  function PlaceIds(plan: seq<Planned>, ids: seq<string>): (r: seq<string>)
    ensures |r| == |plan|
    decreases |plan|
  {
    if plan == [] then [] else PlaceIds(plan[..|plan| - 1], ids) + [IdAt(plan, ids, |plan| - 1)]
  }

  lemma {:induction false} PlaceIdsAt(plan: seq<Planned>, ids: seq<string>, j: nat)
    requires j < |plan|
    ensures PlaceIds(plan, ids)[j] == IdAt(plan, ids, j)
    decreases |plan|
  {
    if j < |plan| - 1 {
      var init := plan[..|plan| - 1];
      PlaceIdsAt(init, ids, j);
      assert init[..j] == plan[..j];
    }
  }

  /** The entries a plan adds to `_panels`: each placeholder's id and object, in order. */
  function EmbedEntries(plan: seq<Planned>, ids: seq<string>): Dict<Arg>
    decreases |plan|
  {
    if plan == [] then []
    else
      var last := plan[|plan| - 1];
      EmbedEntries(plan[..|plan| - 1], ids) + (if last.Embedded? then [(IdAt(plan, ids, |plan| - 1), last.obj)] else [])
  }

  /** `c` is the child the planned entry `p` stands for, `id` being the id it took. */
  ghost predicate Realises(p: Planned, c: Component, id: string)
    reads c
  {
    match p
    case Keep(x) => c == x
    case Markup(t) => c.Leaf(HtmlEscape(t))
    case Embedded(_) => c.Leaf(Embed(id))
  }

  /** Extending the realised prefix by one more realised child. */
  lemma RealisesSnoc(plan: seq<Planned>, added: seq<Component>, pids: seq<string>, c: Component)
    requires |added| < |plan| && |plan| == |pids|
    requires forall k :: 0 <= k < |added| ==> Realises(plan[k], added[k], pids[k])
    requires Realises(plan[|added|], c, pids[|added|])
    ensures forall k :: 0 <= k < |added| + 1 ==> Realises(plan[k], (added + [c])[k], pids[k])
  {
  }

  /** The realised children, read back at their places after the earlier children. */
  lemma RealisesAfter(plan: seq<Planned>, pre: seq<Component>, added: seq<Component>, pids: seq<string>)
    requires |added| == |plan| == |pids|
    requires forall k :: 0 <= k < |added| ==> Realises(plan[k], added[k], pids[k])
    ensures forall j :: 0 <= j < |plan| ==> Realises(plan[j], (pre + added)[|pre| + j], pids[j])
  {
    forall j | 0 <= j < |plan|
      ensures Realises(plan[j], (pre + added)[|pre| + j], pids[j])
    {
      assert (pre + added)[|pre| + j] == added[j];
    }
  }

  /** One more planned entry changes the registered panels only if it is a placeholder. */
  lemma EntriesStep(plan: seq<Planned>, ids: seq<string>, j: nat, d: Dict<Arg>)
    requires j < |plan|
    ensures Update(d, EmbedEntries(plan[..j + 1], ids)) ==
      if plan[j].Embedded? then Put(Update(d, EmbedEntries(plan[..j], ids)), IdAt(plan, ids, j), plan[j].obj)
      else Update(d, EmbedEntries(plan[..j], ids))
  {
    EmbedEntriesNext(plan, ids, j);
    if plan[j].Embedded? {
      UpdateSnoc(d, EmbedEntries(plan[..j], ids), IdAt(plan, ids, j), plan[j].obj);
    } else {
      assert EmbedEntries(plan[..j + 1], ids) == EmbedEntries(plan[..j], ids);
    }
  }

  /** What the `j`-th planned entry adds, given that `used` ids were taken before it. */
  lemma PlanStep(plan: seq<Planned>, ids: seq<string>, j: nat, used: nat, d: Dict<Arg>)
    requires j < |plan| && used == Embeds(plan[..j])
    ensures Embeds(plan[..j + 1]) == if plan[j].Embedded? then used + 1 else used
    ensures PlaceIds(plan, ids)[j] == if used < |ids| then ids[used] else ""
    ensures Update(d, EmbedEntries(plan[..j + 1], ids)) ==
      if plan[j].Embedded? then Put(Update(d, EmbedEntries(plan[..j], ids)), PlaceIds(plan, ids)[j], plan[j].obj)
      else Update(d, EmbedEntries(plan[..j], ids))
  {
    EmbedEntriesNext(plan, ids, j);
    PlaceIdsAt(plan, ids, j);
    EntriesStep(plan, ids, j, d);
  }

  /** Adding two runs of arguments adds the children of the first run, then those of the second. */
  lemma {:induction false} PlanAppend(a: seq<Arg>, b: seq<Arg>)
    ensures Plan(a + b) == Plan(a) + Plan(b)
    decreases |a|
  {
    if a == [] {
      assert a + b == b;
    } else {
      assert (a + b)[1..] == a[1..] + b;
      PlanAppend(a[1..], b);
    }
  }

  /** One more argument adds its children at the end. */
  lemma PlanSnoc(args: seq<Arg>, arg: Arg)
    ensures Plan(args + [arg]) == Plan(args) + ArgPlan(arg)
  {
    PlanAppend(args, [arg]);
    assert [arg][1..] == [];
    assert Plan([arg]) == ArgPlan(arg) + [];
  }

  /** The children of argument `i` come right after those of the arguments before it. */
  lemma PlanAt(args: seq<Arg>, i: nat)
    requires i < |args|
    ensures |Plan(args[..i]) + ArgPlan(args[i])| <= |Plan(args)|
    ensures Plan(args)[..|Plan(args[..i]) + ArgPlan(args[i])|] == Plan(args[..i]) + ArgPlan(args[i])
  {
    assert args[..i + 1] == args[..i] + [args[i]];
    PlanSnoc(args[..i], args[i]);
    assert args == args[..i + 1] + args[i + 1..];
    PlanAppend(args[..i + 1], args[i + 1..]);
  }

  /** One more planned entry: one more placeholder entry if it is embedded. */
  lemma EmbedEntriesNext(plan: seq<Planned>, ids: seq<string>, j: nat)
    requires j < |plan|
    ensures Embeds(plan[..j + 1]) == Embeds(plan[..j]) + if plan[j].Embedded? then 1 else 0
    ensures IdAt(plan, ids, j) == if Embeds(plan[..j]) < |ids| then ids[Embeds(plan[..j])] else ""
    ensures EmbedEntries(plan[..j + 1], ids) ==
      EmbedEntries(plan[..j], ids) + if plan[j].Embedded? then [(IdAt(plan, ids, j), plan[j].obj)] else []
  {
    var p := plan[..j + 1];
    assert p[..|p| - 1] == plan[..j];
    assert p[|p| - 1] == plan[j];
    assert p[..j] == plan[..j];
  }

  /** The placeholders get the fresh ids in order, one each. */
  lemma {:induction false} EmbedEntriesKeys(plan: seq<Planned>, ids: seq<string>)
    requires Embeds(plan) <= |ids|
    ensures Keys(EmbedEntries(plan, ids)) == ids[..Embeds(plan)]
    decreases |plan|
  {
    if plan != [] {
      var init := plan[..|plan| - 1];
      assert plan[..|plan| - 1] == init;
      EmbedEntriesKeys(init, ids);
      var extra := if plan[|plan| - 1].Embedded? then [(IdAt(plan, ids, |plan| - 1), plan[|plan| - 1].obj)] else [];
      assert Keys(EmbedEntries(init, ids) + extra) == Keys(EmbedEntries(init, ids)) + Keys(extra);
      if plan[|plan| - 1].Embedded? {
        assert ids[..Embeds(plan)] == ids[..Embeds(init)] + [ids[Embeds(init)]];
      }
    }
  }

  /** The classes after the `class` argument of `add_attributes`, if there is one. */
  function ClassArg(classes: seq<string>, attrs: Dict<Value>): Result<seq<string>> {
    if "class" in Keys(attrs) then Attributes.AddClasses(classes, [Get(attrs, "class").value]) else Ok(classes)
  }

  /**
   * What `__init__` makes of its `css_classes` and `**attributes` before the
   * children are added: the classes and the attribute state, or the first
   * exception. An empty list or dict is skipped.
   */
  function InitAttrs(classes: seq<Value>, attrs: Dict<Value>): Result<(seq<string>, AttrState)> {
    var cls := if classes == [] then Ok([]) else Attributes.AddClasses([], classes);
    if cls.Err? then Err(cls.error)
    else if attrs == [] then Ok((cls.value, AttrState([], [], {})))
    else
      var withClass := ClassArg(cls.value, attrs);
      var step := Attributes.AddAttributes(AttrState([], [], {}), attrs);
      if withClass.Err? then Err(withClass.error)
      else if step.error.Some? then Err(step.error.value)
      else Ok((withClass.value, step.st))
  }

  class Component {
    var tagName: string            // "" for None
    var xmlClosingStyle: bool
    var title: string
    var main: string
    var children: seq<Component>
    var attributes: Dict<Value>
    var preHtml: string
    var postHtml: string
    var headNoNbCss: Dict<string>
    var headNoNbJs: Dict<string>
    var bodyCss: Dict<string>
    var bodyStyle: Dict<string>
    var panelCss: Dict<string>
    var panelRawCss: Dict<string>
    var bodyJs: Dict<string>
    var bodyScript: Dict<string>
    var bodyNoNbJs: Dict<string>
    var bodyNoNbScript: Dict<string>
    var bodyClasses: seq<string>
    var panels: Dict<Arg>
    var noPanelSpacer: string
    var filesAttrs: Dict<string>
    var filesUris: set<string>
    var assetFolders: seq<string>
    var cssClasses: seq<string>
    ghost var Repr: set<Component>

    /** The component and its descendants form a tree (no component is its own descendant). */
    ghost predicate Valid()
      reads this`Repr, Repr`children, Repr`Repr
      decreases Repr
    {
      this in Repr &&
      forall c :: c in children ==> c in Repr && c.Repr <= Repr && this !in c.Repr && c.Valid()
    }

    /** `Component()`: no tag, no children, nothing stored. */
    constructor()
      ensures Valid() && Repr == {this}
      ensures tagName == "" && !xmlClosingStyle && title == "" && main == ""
      ensures children == [] && attributes == [] && preHtml == "" && postHtml == ""
      ensures forall kind :: Own(kind) == []
      ensures headNoNbCss == [] && headNoNbJs == [] && bodyCss == [] && bodyStyle == [] && panelCss == []
      ensures panelRawCss == [] && bodyJs == [] && bodyScript == [] && bodyNoNbJs == [] && bodyNoNbScript == []
      ensures bodyClasses == [] && panels == [] && noPanelSpacer == ""
      ensures filesAttrs == [] && filesUris == {} && assetFolders == [] && cssClasses == []
      ensures forall kind :: UniqueResources(kind)
      ensures UniquePanels()
    {
      tagName, xmlClosingStyle, title, main := "", false, "", "";
      children, attributes, preHtml, postHtml := [], [], "", "";
      headNoNbCss, headNoNbJs, bodyCss, bodyStyle, panelCss := [], [], [], [], [];
      panelRawCss, bodyJs, bodyScript, bodyNoNbJs, bodyNoNbScript := [], [], [], [], [];
      bodyClasses, panels, noPanelSpacer := [], [], "";
      filesAttrs, filesUris, assetFolders, cssClasses := [], {}, [], [];
      Repr := {this};
    }

    /**
     * `Component(*children, tag_name=, xml_closing_style=, title=, main=,
     * css_classes=, **attributes)`: the tag, title and main folder are stored
     * (`None` or another falsy value as ""), then the classes, the attributes
     * and the children are added in that order; each placeholder child takes
     * the next fresh id of `ids`. The first exception ends the construction.
     */
    static method New(args: seq<Arg>, tagName: string, xmlClosingStyle: bool, title: string, main: string,
                      classes: seq<Value>, attrs: Dict<Value>, ids: seq<string>) returns (c: Component, r: Result<()>)
      requires forall n :: n in KeptNodes(Plan(args)) ==> n.Valid()
      requires Embeds(Plan(args)) <= |ids|
      ensures fresh(c) && c.Valid()
      ensures c.tagName == tagName && c.xmlClosingStyle == xmlClosingStyle && c.title == title && c.main == main
      ensures InitAttrs(classes, attrs).Err? ==> r == Err(InitAttrs(classes, attrs).error) && c.children == []
      ensures InitAttrs(classes, attrs).Ok? ==>
        (r == Ok(()) && c.cssClasses == InitAttrs(classes, attrs).value.0 &&
         AttrState(c.attributes, c.filesAttrs, c.filesUris) == InitAttrs(classes, attrs).value.1)
      ensures InitAttrs(classes, attrs).Ok? ==>
        (|c.children| == |Plan(args)| && c.panels == Update([], EmbedEntries(Plan(args), ids)) &&
         forall j :: 0 <= j < |Plan(args)| ==> Realises(Plan(args)[j], c.children[j], PlaceIds(Plan(args), ids)[j]))
      ensures UniqueKeys(c.panels)
      ensures c.preHtml == "" && c.postHtml == "" && c.bodyClasses == [] && c.assetFolders == [] && c.noPanelSpacer == ""
      ensures c.headNoNbCss == [] && c.headNoNbJs == [] && c.bodyCss == [] && c.bodyStyle == [] && c.panelCss == []
      ensures c.panelRawCss == [] && c.bodyJs == [] && c.bodyScript == [] && c.bodyNoNbJs == [] && c.bodyNoNbScript == []
    {
      ghost var kept := KeptNodes(Plan(args));
      c := Blank(tagName, xmlClosingStyle, title, main);
      assert forall n :: n in kept ==> c !in n.Repr;
      r := c.Init(args, classes, attrs, ids);
    }

    /** A component with the given tag, style, title and `main`, and nothing else stored yet. */
    static method Blank(tagName: string, xmlClosingStyle: bool, title: string, main: string) returns (c: Component)
      ensures fresh(c) && c.Valid() && c.Repr == {c}
      ensures c.tagName == tagName && c.xmlClosingStyle == xmlClosingStyle && c.title == title && c.main == main
      ensures c.children == [] && c.attributes == [] && c.preHtml == "" && c.postHtml == ""
      ensures c.headNoNbCss == [] && c.headNoNbJs == [] && c.bodyCss == [] && c.bodyStyle == [] && c.panelCss == []
      ensures c.panelRawCss == [] && c.bodyJs == [] && c.bodyScript == [] && c.bodyNoNbJs == [] && c.bodyNoNbScript == []
      ensures c.bodyClasses == [] && c.panels == [] && c.noPanelSpacer == ""
      ensures c.filesAttrs == [] && c.filesUris == {} && c.assetFolders == [] && c.cssClasses == []
    {
      c := new Component();
      c.tagName, c.xmlClosingStyle, c.title, c.main := tagName, xmlClosingStyle, title, main;
    }

    /** The classes, attributes and children steps of `__init__`, on a component that has none of them yet. */
    method Init(args: seq<Arg>, classes: seq<Value>, attrs: Dict<Value>, ids: seq<string>) returns (r: Result<()>)
      requires Valid() && children == [] && panels == []
      requires cssClasses == [] && attributes == [] && filesAttrs == [] && filesUris == {}
      requires forall n :: n in KeptNodes(Plan(args)) ==> n.Valid() && this !in n.Repr
      requires Embeds(Plan(args)) <= |ids|
      modifies this`attributes, this`filesAttrs, this`filesUris, this`cssClasses, this`children, this`Repr, this`panels
      ensures Valid()
      ensures InitAttrs(classes, attrs).Err? ==> r == Err(InitAttrs(classes, attrs).error) && children == []
      ensures InitAttrs(classes, attrs).Ok? ==>
        (r == Ok(()) && cssClasses == InitAttrs(classes, attrs).value.0 &&
         AttrState(attributes, filesAttrs, filesUris) == InitAttrs(classes, attrs).value.1)
      ensures InitAttrs(classes, attrs).Ok? ==>
        (|children| == |Plan(args)| && panels == Update([], EmbedEntries(Plan(args), ids)) &&
         forall j :: 0 <= j < |Plan(args)| ==> Realises(Plan(args)[j], children[j], PlaceIds(Plan(args), ids)[j]))
      ensures UniqueKeys(panels)
    {
      ghost var kept := KeptNodes(Plan(args));
      r := InitClassesAttributes(classes, attrs);
      if r.Ok? {
        assert forall n :: n in kept ==> n.Valid() && this !in n.Repr;
        AddChildren(args, ids);
      }
    }

    /** The `css_classes` and `**attributes` steps of `__init__`, on a component that has none yet. */
    method InitClassesAttributes(classes: seq<Value>, attrs: Dict<Value>) returns (r: Result<()>)
      requires cssClasses == [] && attributes == [] && filesAttrs == [] && filesUris == {}
      modifies this`attributes, this`filesAttrs, this`filesUris, this`cssClasses
      ensures InitAttrs(classes, attrs).Err? ==> r == Err(InitAttrs(classes, attrs).error)
      ensures InitAttrs(classes, attrs).Ok? ==>
        (r == Ok(()) && cssClasses == InitAttrs(classes, attrs).value.0 &&
         AttrState(attributes, filesAttrs, filesUris) == InitAttrs(classes, attrs).value.1)
    {
      r := Ok(());
      if classes != [] {
        r := AddClasses(classes);
        if r.Err? {
          return;
        }
      }
      if attrs != [] {
        r := AddAttributes(attrs);
      }
    }

    /** The component and all its descendants. */
    ghost function Nodes(): (ns: set<Component>)
      requires Valid()
      reads this`Repr, Repr`children, Repr`Repr
      ensures this in ns && ns <= Repr
      decreases Repr, 1
    {
      {this} + NodesFrom(|children|)
    }

    /** The descendants through the first `i` children. */
    ghost function NodesFrom(i: nat): (ns: set<Component>)
      requires Valid() && i <= |children|
      reads this`Repr, Repr`children, Repr`Repr
      ensures ns <= Repr
      decreases Repr, 0, i
    {
      if i == 0 then {} else NodesFrom(i - 1) + children[i - 1].Nodes()
    }

    // -------------------------------------------------------------------
    // The resource dictionaries

    /** The component's own dictionary of one kind. */
    function Own(kind: Kind): Dict<string>
      reads this`headNoNbCss, this`headNoNbJs, this`bodyCss, this`bodyStyle, this`panelCss, this`panelRawCss,
        this`bodyJs, this`bodyScript, this`bodyNoNbJs, this`bodyNoNbScript
    {
      match kind
      case HeadNoNbCss => headNoNbCss
      case HeadNoNbJs => headNoNbJs
      case BodyCss => bodyCss
      case BodyStyle => bodyStyle
      case PanelCss => panelCss
      case PanelRawCss => panelRawCss
      case BodyJs => bodyJs
      case BodyScript => bodyScript
      case BodyNoNbJs => bodyNoNbJs
      case BodyNoNbScript => bodyNoNbScript
    }

    /** `append_head_no_nb_css(**files)` */
    method AppendHeadNoNbCss(entries: Dict<string>)
      modifies this`headNoNbCss
      ensures headNoNbCss == Update(old(headNoNbCss), entries)
      ensures UniqueKeys(old(headNoNbCss)) ==> UniqueKeys(headNoNbCss)
    {
      headNoNbCss := Update(headNoNbCss, entries);
      if UniqueKeys(old(headNoNbCss)) {
        UpdateUnique(old(headNoNbCss), entries);
      }
    }

    /** `append_head_no_nb_js(**files)` */
    method AppendHeadNoNbJs(entries: Dict<string>)
      modifies this`headNoNbJs
      ensures headNoNbJs == Update(old(headNoNbJs), entries)
      ensures UniqueKeys(old(headNoNbJs)) ==> UniqueKeys(headNoNbJs)
    {
      headNoNbJs := Update(headNoNbJs, entries);
      if UniqueKeys(old(headNoNbJs)) {
        UpdateUnique(old(headNoNbJs), entries);
      }
    }

    /** `prepend_body_css(**files)` */
    method PrependBodyCss(entries: Dict<string>)
      modifies this`bodyCss
      ensures bodyCss == Update(old(bodyCss), entries)
      ensures UniqueKeys(old(bodyCss)) ==> UniqueKeys(bodyCss)
    {
      bodyCss := Update(bodyCss, entries);
      if UniqueKeys(old(bodyCss)) {
        UpdateUnique(old(bodyCss), entries);
      }
    }

    /** `prepend_body_style(**styles)` */
    method PrependBodyStyle(entries: Dict<string>)
      modifies this`bodyStyle
      ensures bodyStyle == Update(old(bodyStyle), entries)
      ensures UniqueKeys(old(bodyStyle)) ==> UniqueKeys(bodyStyle)
    {
      bodyStyle := Update(bodyStyle, entries);
      if UniqueKeys(old(bodyStyle)) {
        UpdateUnique(old(bodyStyle), entries);
      }
    }

    /** `panel_css_files(**files)` */
    method PanelCssFiles(entries: Dict<string>)
      modifies this`panelCss
      ensures panelCss == Update(old(panelCss), entries)
      ensures UniqueKeys(old(panelCss)) ==> UniqueKeys(panelCss)
    {
      panelCss := Update(panelCss, entries);
      if UniqueKeys(old(panelCss)) {
        UpdateUnique(old(panelCss), entries);
      }
    }

    /** `panel_raw_css(**styles)` */
    method PanelRawCss(entries: Dict<string>)
      modifies this`panelRawCss
      ensures panelRawCss == Update(old(panelRawCss), entries)
      ensures UniqueKeys(old(panelRawCss)) ==> UniqueKeys(panelRawCss)
    {
      panelRawCss := Update(panelRawCss, entries);
      if UniqueKeys(old(panelRawCss)) {
        UpdateUnique(old(panelRawCss), entries);
      }
    }

    /** `append_body_js(**files)` */
    method AppendBodyJs(entries: Dict<string>)
      modifies this`bodyJs
      ensures bodyJs == Update(old(bodyJs), entries)
      ensures UniqueKeys(old(bodyJs)) ==> UniqueKeys(bodyJs)
    {
      bodyJs := Update(bodyJs, entries);
      if UniqueKeys(old(bodyJs)) {
        UpdateUnique(old(bodyJs), entries);
      }
    }

    /** `append_body_script(**scripts)` */
    method AppendBodyScript(entries: Dict<string>)
      modifies this`bodyScript
      ensures bodyScript == Update(old(bodyScript), entries)
      ensures UniqueKeys(old(bodyScript)) ==> UniqueKeys(bodyScript)
    {
      bodyScript := Update(bodyScript, entries);
      if UniqueKeys(old(bodyScript)) {
        UpdateUnique(old(bodyScript), entries);
      }
    }

    /** `append_body_no_nb_js(**files)` */
    method AppendBodyNoNbJs(entries: Dict<string>)
      modifies this`bodyNoNbJs
      ensures bodyNoNbJs == Update(old(bodyNoNbJs), entries)
      ensures UniqueKeys(old(bodyNoNbJs)) ==> UniqueKeys(bodyNoNbJs)
    {
      bodyNoNbJs := Update(bodyNoNbJs, entries);
      if UniqueKeys(old(bodyNoNbJs)) {
        UpdateUnique(old(bodyNoNbJs), entries);
      }
    }

    /** `append_body_no_nb_script(**scripts)` */
    method AppendBodyNoNbScript(entries: Dict<string>)
      modifies this`bodyNoNbScript
      ensures bodyNoNbScript == Update(old(bodyNoNbScript), entries)
      ensures UniqueKeys(old(bodyNoNbScript)) ==> UniqueKeys(bodyNoNbScript)
    {
      bodyNoNbScript := Update(bodyNoNbScript, entries);
      if UniqueKeys(old(bodyNoNbScript)) {
        UpdateUnique(old(bodyNoNbScript), entries);
      }
    }

    /** Every component of the tree keeps its dictionary of this kind free of repeated keys. */
    ghost predicate UniqueResources(kind: Kind)
      requires Valid()
      reads this`Repr, Repr`children, Repr`Repr, Repr`headNoNbCss, Repr`headNoNbJs, Repr`bodyCss, Repr`bodyStyle, Repr`panelCss,
        Repr`panelRawCss, Repr`bodyJs, Repr`bodyScript, Repr`bodyNoNbJs, Repr`bodyNoNbScript
      decreases Repr
    {
      UniqueKeys(Own(kind)) && forall c :: c in children ==> c.UniqueResources(kind)
    }

    /** `get_<kind>()`: a copy of the own dictionary updated with each child's gathered dictionary in turn. */
    function Gathered(kind: Kind): Dict<string>
      requires Valid()
      reads this`Repr, Repr`children, Repr`Repr, Repr`headNoNbCss, Repr`headNoNbJs, Repr`bodyCss, Repr`bodyStyle, Repr`panelCss,
        Repr`panelRawCss, Repr`bodyJs, Repr`bodyScript, Repr`bodyNoNbJs, Repr`bodyNoNbScript
      decreases Repr, 1
    {
      GatheredFrom(kind, |children|)
    }

    /** The gathered dictionaries of the first `i` children. */
    ghost function Parts(kind: Kind, i: nat): (ps: seq<Dict<string>>)
      requires Valid() && i <= |children|
      reads this`Repr, Repr`children, Repr`Repr, Repr`headNoNbCss, Repr`headNoNbJs, Repr`bodyCss, Repr`bodyStyle, Repr`panelCss,
        Repr`panelRawCss, Repr`bodyJs, Repr`bodyScript, Repr`bodyNoNbJs, Repr`bodyNoNbScript
      ensures |ps| == i
      decreases Repr, 0, i
    {
      if i == 0 then [] else Parts(kind, i - 1) + [children[i - 1].Gathered(kind)]
    }

    /** The gathered dictionary after the first `i` children, as the loop of the getters builds it. */
    function GatheredFrom(kind: Kind, i: nat): Dict<string>
      requires Valid() && i <= |children|
      reads this`Repr, Repr`children, Repr`Repr, Repr`headNoNbCss, Repr`headNoNbJs, Repr`bodyCss, Repr`bodyStyle, Repr`panelCss,
        Repr`panelRawCss, Repr`bodyJs, Repr`bodyScript, Repr`bodyNoNbJs, Repr`bodyNoNbScript
      decreases Repr, 0, i
    {
      if i == 0 then Own(kind) else Update(GatheredFrom(kind, i - 1), children[i - 1].Gathered(kind))
    }

    /** The loop builds the fold. */
    lemma {:induction false} GatheredFromFold(kind: Kind, i: nat)
      requires Valid() && i <= |children|
      ensures GatheredFrom(kind, i) == UpdateAll(Own(kind), Parts(kind, i))
      decreases i
    {
      if i > 0 {
        GatheredFromFold(kind, i - 1);
        UpdateAllSnoc(Own(kind), Parts(kind, i - 1), children[i - 1].Gathered(kind));
      }
    }

    /** `get_append_head_no_nb_css()` and the nine other getters. */
    method GetResources(kind: Kind) returns (r: Dict<string>)
      requires Valid()
      ensures r == Gathered(kind)
      decreases Repr, 1
    {
      r := Own(kind);
      var i := 0;
      while i < |children|
        invariant 0 <= i <= |children|
        invariant r == GatheredFrom(kind, i)
      {
        r := UpdateWithChild(kind, i, r);
        i := i + 1;
      }
    }

    /** One turn of the getters' loop: `d.update(child.get_<kind>())`. */
    method UpdateWithChild(kind: Kind, i: nat, d: Dict<string>) returns (r: Dict<string>)
      requires Valid() && i < |children| && d == GatheredFrom(kind, i)
      ensures r == GatheredFrom(kind, i + 1)
      decreases Repr, 0
    {
      var part := children[i].GetResources(kind);
      GatheredFromStep(kind, i);
      r := Update(d, part);
    }

    /** One more child folded in. */
    lemma GatheredFromStep(kind: Kind, i: nat)
      requires Valid() && i < |children|
      ensures GatheredFrom(kind, i + 1) == Update(GatheredFrom(kind, i), children[i].Gathered(kind))
    {
    }

    /** Child `j`'s entry among the parts. */
    lemma {:induction false} PartsAt(kind: Kind, i: nat, j: nat)
      requires Valid() && j < i <= |children|
      ensures Parts(kind, i)[j] == children[j].Gathered(kind)
      decreases i
    {
      if j < i - 1 {
        PartsAt(kind, i - 1, j);
      }
    }

    /** Each part is the matching child's gathered dictionary. */
    lemma PartsAll(kind: Kind)
      requires Valid()
      ensures forall j :: 0 <= j < |children| ==> Parts(kind, |children|)[j] == children[j].Gathered(kind)
    {
      forall j | 0 <= j < |children|
        ensures Parts(kind, |children|)[j] == children[j].Gathered(kind)
      {
        PartsAt(kind, |children|, j);
      }
    }

    /** A key is gathered exactly when the component or one of its children's gathered dictionaries holds it. */
    lemma GatheredKeys(kind: Kind, key: string)
      requires Valid()
      ensures key in Keys(Gathered(kind)) <==>
        key in Keys(Own(kind)) || exists j :: 0 <= j < |children| && key in Keys(children[j].Gathered(kind))
    {
      GatheredFromFold(kind, |children|);
      PartsAll(kind);
      UpdateAllKeys(Own(kind), Parts(kind, |children|), key);
    }

    /** With well-formed dictionaries in the tree, the gathered dictionary is well formed. */
    lemma GatheredUnique(kind: Kind)
      requires Valid() && UniqueResources(kind)
      ensures UniqueKeys(Gathered(kind))
    {
      GatheredFromFold(kind, |children|);
      UpdateAllUnique(Own(kind), Parts(kind, |children|));
    }

    /** Each child's gathered dictionary is well formed. */
    lemma PartsUnique(kind: Kind)
      requires Valid() && UniqueResources(kind)
      ensures forall j :: 0 <= j < |children| ==> UniqueKeys(Parts(kind, |children|)[j])
    {
      forall j | 0 <= j < |children|
        ensures UniqueKeys(Parts(kind, |children|)[j])
      {
        PartsAt(kind, |children|, j);
        children[j].GatheredUnique(kind);
      }
    }

    /** A key no child gathers keeps the component's own value. */
    lemma GatheredOwn(kind: Kind, key: string)
      requires Valid() && UniqueResources(kind)
      requires forall j :: 0 <= j < |children| ==> key !in Keys(children[j].Gathered(kind))
      ensures Get(Gathered(kind), key) == Get(Own(kind), key)
    {
      GatheredFromFold(kind, |children|);
      PartsAll(kind);
      PartsUnique(kind);
      UpdateAllFirst(Own(kind), Parts(kind, |children|), key);
    }

    /**
     * A child overrides the component itself and every earlier child: a key
     * gathered by child `j` and by no later child has child `j`'s value.
     */
    lemma GatheredChildWins(kind: Kind, j: nat, key: string)
      requires Valid() && UniqueResources(kind) && j < |children|
      requires key in Keys(children[j].Gathered(kind))
      requires forall j' :: j < j' < |children| ==> key !in Keys(children[j'].Gathered(kind))
      ensures Get(Gathered(kind), key) == Get(children[j].Gathered(kind), key)
    {
      GatheredFromFold(kind, |children|);
      PartsAll(kind);
      PartsUnique(kind);
      UpdateAllLast(Own(kind), Parts(kind, |children|), j, key);
    }

    // -------------------------------------------------------------------
    // Panels

    /** `get_panels()`: a copy of the own panels updated with each child's gathered panels in turn. */
    ghost function AllPanels(): Dict<Arg>
      requires Valid()
      reads this`Repr, Repr`children, Repr`Repr, Repr`panels
      decreases Repr, 1
    {
      PanelsFrom(|children|)
    }

    /** The gathered panels after the first `i` children, as the loop of `get_panels` builds them. */
    ghost function PanelsFrom(i: nat): Dict<Arg>
      requires Valid() && i <= |children|
      reads this`Repr, Repr`children, Repr`Repr, Repr`panels
      decreases Repr, 0, i
    {
      if i == 0 then panels else Update(PanelsFrom(i - 1), children[i - 1].AllPanels())
    }

    /** The loop builds the fold. */
    lemma {:induction false} PanelsFromFold(i: nat)
      requires Valid() && i <= |children|
      ensures PanelsFrom(i) == UpdateAll(panels, PanelParts(i))
      decreases i
    {
      if i > 0 {
        PanelsFromFold(i - 1);
        UpdateAllSnoc(panels, PanelParts(i - 1), children[i - 1].AllPanels());
      }
    }

    /** The gathered panels of the first `i` children. */
    ghost function PanelParts(i: nat): (ps: seq<Dict<Arg>>)
      requires Valid() && i <= |children|
      reads this`Repr, Repr`children, Repr`Repr, Repr`panels
      ensures |ps| == i
      decreases Repr, 0, i
    {
      if i == 0 then [] else PanelParts(i - 1) + [children[i - 1].AllPanels()]
    }

    /** `get_panels()` */
    method GetPanels() returns (r: Dict<Arg>)
      requires Valid()
      ensures r == AllPanels()
      decreases Repr, 1
    {
      r := panels;
      var i := 0;
      while i < |children|
        invariant 0 <= i <= |children|
        invariant r == PanelsFrom(i)
      {
        r := MergeChildPanels(r, i);
        i := i + 1;
      }
    }

    /** One pass of the loop of `get_panels`: child `i`'s panels merged into `acc`. */
    method MergeChildPanels(acc: Dict<Arg>, i: nat) returns (r: Dict<Arg>)
      requires Valid() && i < |children| && acc == PanelsFrom(i)
      ensures r == PanelsFrom(i + 1)
      decreases Repr, 0
    {
      var part := children[i].GetPanels();
      PanelsFromStep(i);
      r := Update(acc, part);
    }

    /** One more child folded in. */
    lemma PanelsFromStep(i: nat)
      requires Valid() && i < |children|
      ensures PanelsFrom(i + 1) == Update(PanelsFrom(i), children[i].AllPanels())
    {
    }

    lemma {:induction false} PanelPartsAt(i: nat, j: nat)
      requires Valid() && j < i <= |children|
      ensures PanelParts(i)[j] == children[j].AllPanels()
      decreases i
    {
      if j < i - 1 {
        PanelPartsAt(i - 1, j);
      }
    }

    /** A panel id is gathered exactly when the component or one of its children registered it. */
    lemma AllPanelsKeys(id: string)
      requires Valid()
      ensures id in Keys(AllPanels()) <==>
        id in Keys(panels) || exists j :: 0 <= j < |children| && id in Keys(children[j].AllPanels())
    {
      PanelsFromFold(|children|);
      forall j | 0 <= j < |children|
        ensures PanelParts(|children|)[j] == children[j].AllPanels()
      {
        PanelPartsAt(|children|, j);
      }
      UpdateAllKeys(panels, PanelParts(|children|), id);
    }

    /** Every component of the tree keeps its panels free of repeated ids. */
    ghost predicate UniquePanels()
      requires Valid()
      reads this`Repr, Repr`children, Repr`Repr, Repr`panels
      decreases Repr
    {
      UniqueKeys(panels) && forall c :: c in children ==> c.UniquePanels()
    }

    /** With well-formed panels in the tree, the gathered panels are well formed. */
    lemma AllPanelsUnique()
      requires Valid() && UniquePanels()
      ensures UniqueKeys(AllPanels())
    {
      PanelsFromFold(|children|);
      UpdateAllUnique(panels, PanelParts(|children|));
    }

    /** Each child's gathered panels are well formed, and are the child's entry among the parts. */
    lemma PanelPartsAll()
      requires Valid() && UniquePanels()
      ensures forall j :: 0 <= j < |children| ==>
        PanelParts(|children|)[j] == children[j].AllPanels() && UniqueKeys(PanelParts(|children|)[j])
    {
      forall j | 0 <= j < |children|
        ensures PanelParts(|children|)[j] == children[j].AllPanels() && UniqueKeys(PanelParts(|children|)[j])
      {
        PanelPartsAt(|children|, j);
        children[j].AllPanelsUnique();
      }
    }

    /** An id no child gathers keeps the object the component itself registered. */
    lemma PanelsOwn(id: string)
      requires Valid() && UniquePanels()
      requires forall j :: 0 <= j < |children| ==> id !in Keys(children[j].AllPanels())
      ensures Get(AllPanels(), id) == Get(panels, id)
    {
      PanelsFromFold(|children|);
      PanelPartsAll();
      UpdateAllFirst(panels, PanelParts(|children|), id);
    }

    /**
     * A child overrides the component itself and every earlier child: an id
     * gathered by child `j` and by no later child has child `j`'s object.
     */
    lemma PanelsChildWins(j: nat, id: string)
      requires Valid() && UniquePanels() && j < |children|
      requires id in Keys(children[j].AllPanels())
      requires forall j' :: j < j' < |children| ==> id !in Keys(children[j'].AllPanels())
      ensures Get(AllPanels(), id) == Get(children[j].AllPanels(), id)
    {
      PanelsFromFold(|children|);
      PanelPartsAll();
      UpdateAllLast(panels, PanelParts(|children|), j, id);
    }

    // -------------------------------------------------------------------
    // Files to serve and asset folders

    /** `files_uris(*files)`: each name, stripped, joins the set. */
    method AddFilesUris(files: seq<string>)
      modifies this`filesUris
      ensures forall u :: u in filesUris <==> u in old(filesUris) || u in StripEach(files)
    {
      var before := filesUris;
      var acc := before;
      var i := 0;
      while i < |files|
        invariant 0 <= i <= |files|
        invariant forall u :: u in acc <==> u in before || u in StripEach(files[..i])
      {
        StripEachSnoc(files, i);
        acc := acc + {Strip(files[i])};
        i := i + 1;
      }
      assert files[..i] == files;
      filesUris := acc;
    }

    /** `get_files_uris()`: the union of the own set and the children's. */
    ghost function AllUris(): set<string>
      requires Valid()
      reads this`Repr, Repr`children, Repr`Repr, Repr`filesUris
      decreases Repr, 1
    {
      UrisFrom(|children|)
    }

    ghost function UrisFrom(i: nat): set<string>
      requires Valid() && i <= |children|
      reads this`Repr, Repr`children, Repr`Repr, Repr`filesUris
      decreases Repr, 0, i
    {
      if i == 0 then filesUris else UrisFrom(i - 1) + children[i - 1].AllUris()
    }

    /** `get_files_uris()` */
    method GetFilesUris() returns (r: set<string>)
      requires Valid()
      ensures r == AllUris()
      decreases Repr
    {
      r := filesUris;
      var i := 0;
      while i < |children|
        invariant 0 <= i <= |children|
        invariant Valid() && r == UrisFrom(i)
      {
        var part := children[i].GetFilesUris();
        r := r + part;
        i := i + 1;
      }
    }

    /** A name is gathered exactly when some component of the tree recorded it. */
    lemma {:induction false} AllUrisNodes(u: string)
      requires Valid()
      ensures u in AllUris() <==> exists n :: n in Nodes() && u in n.filesUris
      decreases Repr, 1
    {
      UrisFromNodes(|children|, u);
    }

    lemma {:induction false} UrisFromNodes(i: nat, u: string)
      requires Valid() && i <= |children|
      ensures u in UrisFrom(i) <==> u in filesUris || exists n :: n in NodesFrom(i) && u in n.filesUris
      decreases Repr, 0, i
    {
      if i > 0 {
        UrisFromNodes(i - 1, u);
        children[i - 1].AllUrisNodes(u);
      }
    }

    /** `asset_folders(*folders)`: each folder, stripped, is appended. */
    method AddAssetFolders(folders: seq<string>)
      modifies this`assetFolders
      ensures assetFolders == old(assetFolders) + StripEach(folders)
    {
      var before := assetFolders;
      var acc := before;
      var i := 0;
      while i < |folders|
        invariant 0 <= i <= |folders|
        invariant acc == before + StripEach(folders[..i])
      {
        StripEachSnoc(folders, i);
        Assoc(before, StripEach(folders[..i]), [Strip(folders[i])]);
        acc := acc + [Strip(folders[i])];
        i := i + 1;
      }
      assert folders[..i] == folders;
      assetFolders := acc;
    }

    /** `get_asset_folders()`: each child's folders are put in front of what has been gathered. */
    ghost function AllFolders(): seq<string>
      requires Valid()
      reads this`Repr, Repr`children, Repr`Repr, Repr`assetFolders
      decreases Repr, 1
    {
      FoldersFrom(|children|)
    }

    ghost function FoldersFrom(i: nat): seq<string>
      requires Valid() && i <= |children|
      reads this`Repr, Repr`children, Repr`Repr, Repr`assetFolders
      decreases Repr, 0, i
    {
      if i == 0 then assetFolders else children[i - 1].AllFolders() + FoldersFrom(i - 1)
    }

    /** The component's own folders come last, after everything its children gathered. */
    lemma OwnFoldersLast()
      requires Valid()
      ensures |assetFolders| <= |AllFolders()|
      ensures AllFolders()[|AllFolders()| - |assetFolders|..] == assetFolders
    {
      FoldersFromLast(|children|);
    }

    lemma {:induction false} FoldersFromLast(i: nat)
      requires Valid() && i <= |children|
      ensures |assetFolders| <= |FoldersFrom(i)|
      ensures FoldersFrom(i)[|FoldersFrom(i)| - |assetFolders|..] == assetFolders
      decreases i
    {
      if i > 0 {
        FoldersFromLast(i - 1);
        var prev := FoldersFrom(i - 1);
        var r := children[i - 1].AllFolders() + prev;
        assert r[|r| - |assetFolders|..] == prev[|prev| - |assetFolders|..];
      }
    }

    /** `get_asset_folders()` */
    method GetAssetFolders() returns (r: seq<string>)
      requires Valid()
      ensures r == AllFolders()
      decreases Repr
    {
      r := assetFolders;
      var i := 0;
      while i < |children|
        invariant 0 <= i <= |children|
        invariant Valid() && r == FoldersFrom(i)
      {
        var part := children[i].GetAssetFolders();
        r := part + r;
        i := i + 1;
      }
    }

    /**
     * The asset folders are searched from the last one, so the component's
     * own folders are searched before any descendant's: a file found in
     * them is the one used.
     */
    lemma OwnFoldersFirst(elems: seq<string>, fs: FileSystem)
      requires Valid()
      ensures |assetFolders| <= |AllFolders()|
      ensures var all := AllFolders();
        var inherited := all[..|all| - |assetFolders|];
        ScanFolders(Candidates(all, elems), fs) ==
          if ScanFolders(Candidates(assetFolders, elems), fs) == Ok(None)
          then ScanFolders(Candidates(inherited, elems), fs)
          else ScanFolders(Candidates(assetFolders, elems), fs)
    {
      var all := AllFolders();
      OwnFoldersLast();
      assert |assetFolders| <= |all|;
      var inherited := all[..|all| - |assetFolders|];
      assert all == inherited + assetFolders;
      CandidatesAppend(inherited, assetFolders, elems);
      ScanAppend(Candidates(inherited, elems), Candidates(assetFolders, elems), fs);
    }

    // -------------------------------------------------------------------
    // Classes, attributes and markup

    /** `add_classes(*css_classes)`: the words of every argument join the classes; a bad argument raises and changes nothing. */
    method AddClasses(args: seq<Value>) returns (r: Result<()>)
      modifies this`cssClasses
      ensures Attributes.AddClasses(old(cssClasses), args).Ok? ==>
        r == Ok(()) && cssClasses == Attributes.AddClasses(old(cssClasses), args).value
      ensures Attributes.AddClasses(old(cssClasses), args).Err? ==>
        r == Err(Attributes.AddClasses(old(cssClasses), args).error) && cssClasses == old(cssClasses)
    {
      var words: seq<string> := [];
      var i := 0;
      while i < |args|
        invariant 0 <= i <= |args|
        invariant AllWords(args[..i]) == Ok(words)
      {
        var more := ClassWords(args[i]);
        assert args[..i + 1][..i] == args[..i];
        if more.Err? {
          AllWordsStops(args, i + 1);
          return Err(more.error);
        }
        words := words + more.value;
        i := i + 1;
      }
      assert args[..i] == args;
      cssClasses := AddNames(cssClasses, words);
      r := Ok(());
    }

    /**
     * `add_attributes(**attributes)`: a `class` argument goes through
     * `add_classes`, the others are written over the stored attributes, and
     * then every stored attribute is normalised, up to the first exception.
     */
    method AddAttributes(attrs: Dict<Value>) returns (r: Result<()>)
      modifies this`attributes, this`filesAttrs, this`filesUris, this`cssClasses
      ensures var cls := ClassArg(old(cssClasses), attrs);
        cls.Err? ==> (r == Err(cls.error) && cssClasses == old(cssClasses) && attributes == old(attributes) &&
                      filesAttrs == old(filesAttrs) && filesUris == old(filesUris))
      ensures var cls := ClassArg(old(cssClasses), attrs);
        var step := Attributes.AddAttributes(AttrState(old(attributes), old(filesAttrs), old(filesUris)), attrs);
        cls.Ok? ==> (cssClasses == cls.value && AttrState(attributes, filesAttrs, filesUris) == step.st &&
                     r == (if step.error.Some? then Err(step.error.value) else Ok(())))
    {
      if attrs != [] {
        if "class" in Keys(attrs) {
          var cls := AddClasses([Get(attrs, "class").value]);
          if cls.Err? {
            return Err(cls.error);
          }
        }
        attributes := Update(attributes, Remove(attrs, "class"));
      } else {
        assert Update(attributes, Remove(attrs, "class")) == attributes;
      }
      r := NormaliseAttributes();
    }

    /** The loop of `add_attributes` over the stored attributes, up to the first exception. */
    method NormaliseAttributes() returns (r: Result<()>)
      modifies this`attributes, this`filesAttrs, this`filesUris
      ensures var step := NormaliseFrom(AttrState(old(attributes), old(filesAttrs), old(filesUris)), Keys(old(attributes)));
        AttrState(attributes, filesAttrs, filesUris) == step.st &&
        r == (if step.error.Some? then Err(step.error.value) else Ok(()))
    {
      var keys := Keys(attributes);
      var st := AttrState(attributes, filesAttrs, filesUris);
      ghost var st0 := st;
      var i := 0;
      while i < |keys|
        invariant 0 <= i <= |keys|
        invariant forall k :: k in keys[i..] ==> k in Keys(st.attributes)
        invariant NormaliseFrom(st, keys[i..]) == NormaliseFrom(st0, keys)
      {
        var step := NormaliseKey(st, keys[i]);
        NormaliseKeyGrows(st, keys[i]);
        assert keys[i..][1..] == keys[i + 1..];
        st := step.st;
        if step.error.Some? {
          attributes, filesAttrs, filesUris := st.attributes, st.filesAttrs, st.filesUris;
          return Err(step.error.value);
        }
        i := i + 1;
      }
      attributes, filesAttrs, filesUris := st.attributes, st.filesAttrs, st.filesUris;
      r := Ok(());
    }

    /** `body_classes(*classes)`: the words of the non-empty arguments join the body classes. */
    method BodyClasses(classes: seq<string>)
      modifies this`bodyClasses
      ensures bodyClasses == AddNames(old(bodyClasses), BodyWords(classes))
      ensures old(bodyClasses) <= bodyClasses
      ensures forall x :: x in bodyClasses <==> x in old(bodyClasses) || x in BodyWords(classes)
    {
      bodyClasses := AddNames(bodyClasses, BodyWords(classes));
    }

    /** `prepend_html(markup)`: more markup after the opening tag. */
    method PrependHtml(markup: string)
      modifies this`preHtml
      ensures preHtml == old(preHtml) + markup
    {
      preHtml := preHtml + markup;
    }

    /** `append_html(markup)`: more markup before the closing tag. */
    method AppendHtml(markup: string)
      modifies this`postHtml
      ensures postHtml == old(postHtml) + markup
    {
      postHtml := postHtml + markup;
    }

    // -------------------------------------------------------------------
    // Children

    /** A new component holding only `markup` after its (absent) tag: what `_append_html_child` and `_append_panel_child` create. */
    ghost predicate Leaf(markup: string)
      reads this
    {
      Repr == {this} && children == [] && tagName == "" && !xmlClosingStyle && preHtml == "" && postHtml == markup &&
      attributes == [] && cssClasses == [] && filesAttrs == [] && filesUris == {} && assetFolders == [] &&
      panels == [] && noPanelSpacer == "" && bodyClasses == [] && title == "" && main == "" &&
      forall kind :: Own(kind) == []
    }

    /** Makes `c`, a valid tree not containing this component, the new last child. */
    method Adopt(c: Component)
      requires Valid() && c.Valid() && this !in c.Repr
      modifies this`children, this`Repr
      ensures Valid()
      ensures children == old(children) + [c] && Repr == old(Repr) + c.Repr
    {
      children := children + [c];
      Repr := Repr + c.Repr;
    }

    /** `_append_html_child(text)`: a new last child holding the HTML-escaped text. */
    method AppendHtmlChild(text: string)
      requires Valid()
      modifies this`children, this`Repr
      ensures Valid()
      ensures |children| == |old(children)| + 1 && children == old(children) + [children[|old(children)|]]
      ensures fresh(children[|old(children)|]) && children[|old(children)|].Leaf(HtmlEscape(text))
    {
      var c := new Component();
      c.AppendHtml(HtmlEscape(text));
      Adopt(c);
    }

    /**
     * `_append_panel_child(obj)`: a new last child holding the placeholder
     * for `id`, and the object registered under `id` (the fresh id is a
     * parameter).
     */
    method AppendPanelChild(obj: Arg, id: string)
      requires Valid()
      modifies this`children, this`Repr, this`panels
      ensures Valid()
      ensures |children| == |old(children)| + 1 && children == old(children) + [children[|old(children)|]]
      ensures fresh(children[|old(children)|]) && children[|old(children)|].Leaf(Embed(id))
      ensures panels == Put(old(panels), id, obj)
      ensures UniqueKeys(old(panels)) ==> UniqueKeys(panels)
    {
      var c := new Component();
      c.AppendHtml(Embed(id));
      Adopt(c);
      panels := Put(panels, id, obj);
      if UniqueKeys(old(panels)) {
        PutUnique(old(panels), id, obj);
      }
    }

    /** Appends the child one planned entry stands for. */
    method Realise(p: Planned, id: string)
      requires Valid()
      requires p.Keep? ==> p.node.Valid() && this !in p.node.Repr
      modifies this`children, this`Repr, this`panels
      ensures Valid()
      ensures |children| == |old(children)| + 1 && children == old(children) + [children[|old(children)|]]
      ensures children[|old(children)|] != this
      ensures Realises(p, children[|old(children)|], id)
      ensures !p.Keep? ==> fresh(children[|old(children)|])
      ensures panels == if p.Embedded? then Put(old(panels), id, p.obj) else old(panels)
    {
      match p
      case Keep(c) =>
        Adopt(c);
      case Markup(t) =>
        AppendHtmlChild(t);
      case Embedded(obj) =>
        AppendPanelChild(obj, id);
    }

    /**
     * `add_children(*args)`: the children the arguments stand for are
     * appended in order; each placeholder takes the next fresh id from `ids`
     * and registers its object in `_panels` under that id.
     */
    method AddChildren(args: seq<Arg>, ids: seq<string>)
      requires Valid()
      requires forall c :: c in KeptNodes(Plan(args)) ==> c.Valid() && this !in c.Repr
      requires Embeds(Plan(args)) <= |ids|
      modifies this`children, this`Repr, this`panels
      ensures Valid()
      ensures |children| == |old(children)| + |Plan(args)| && children[..|old(children)|] == old(children)
      ensures forall j :: 0 <= j < |Plan(args)| ==>
        Realises(Plan(args)[j], children[|old(children)| + j], PlaceIds(Plan(args), ids)[j])
      ensures panels == Update(old(panels), EmbedEntries(Plan(args), ids))
      ensures UniqueKeys(old(panels)) ==> UniqueKeys(panels)
    {
      AddPlanned(Plan(args), ids);
      if UniqueKeys(old(panels)) {
        UpdateUnique(old(panels), EmbedEntries(Plan(args), ids));
      }
    }

    /** Appends the children of a plan, in order. */
    method AddPlanned(plan: seq<Planned>, ids: seq<string>)
      requires Valid()
      requires forall c :: c in KeptNodes(plan) ==> c.Valid() && this !in c.Repr
      requires Embeds(plan) <= |ids|
      modifies this`children, this`Repr, this`panels
      ensures Valid()
      ensures |children| == |old(children)| + |plan| && children[..|old(children)|] == old(children)
      ensures forall j :: 0 <= j < |plan| ==> Realises(plan[j], children[|old(children)| + j], PlaceIds(plan, ids)[j])
      ensures panels == Update(old(panels), EmbedEntries(plan, ids))
    {
      ghost var added: seq<Component> := [];
      ghost var pids := PlaceIds(plan, ids);
      var used := 0;
      var j := 0;
      while j < |plan|
        invariant j <= |plan|
        invariant Progress(plan, ids, j, used, added, old(children), old(panels))
      {
        used, added := RealiseNext(plan, ids, j, used, added, old(children), old(panels));
        j := j + 1;
      }
      assert plan[..j] == plan;
      RealisesAfter(plan, old(children), added, pids);
    }

    /**
     * What `add_children`'s loop has done after `j` planned entries: their
     * children follow the earlier ones, each realising its entry, and the
     * placeholders among them are registered in order.
     */
    ghost predicate Progress(plan: seq<Planned>, ids: seq<string>, j: nat, used: nat, added: seq<Component>,
                             before: seq<Component>, registered: Dict<Arg>)
      reads *
    {
      j <= |plan| && |added| == j &&
      Valid() &&
      children == before + added &&
      (forall k :: 0 <= k < j ==> added[k] != this) &&
      (forall k :: 0 <= k < j ==> Realises(plan[k], added[k], PlaceIds(plan, ids)[k])) &&
      panels == Update(registered, EmbedEntries(plan[..j], ids)) &&
      used == Embeds(plan[..j]) &&
      forall c :: c in KeptNodes(plan) ==> c.Valid() && this !in c.Repr
    }

    /** One round of `add_children`'s loop: the child the `j`-th planned entry stands for is appended. */
    method RealiseNext(plan: seq<Planned>, ids: seq<string>, j: nat, used: nat, ghost added: seq<Component>,
                       ghost before: seq<Component>, ghost registered: Dict<Arg>)
      returns (used': nat, ghost added': seq<Component>)
      requires j < |plan|
      requires Progress(plan, ids, j, used, added, before, registered)
      modifies this`children, this`Repr, this`panels
      ensures Progress(plan, ids, j + 1, used', added', before, registered)
    {
      ghost var pids := PlaceIds(plan, ids);
      PlanStep(plan, ids, j, used, registered);
      var id := if used < |ids| then ids[used] else "";
      assert plan[j].Keep? ==> plan[j].node in KeptNodes(plan);
      Realise(plan[j], id);
      ghost var c := children[|children| - 1];
      RealisesSnoc(plan, added, pids, c);
      added' := added + [c];
      Assoc(before, added, [c]);
      used' := if plan[j].Embedded? then used + 1 else used;
      forall n | n in KeptNodes(plan)
        ensures n.Valid() && this !in n.Repr
      {
        assert old(n.Valid()) && this !in old(n.Repr) && n in old(n.Repr);
        assert n.Repr == old(n.Repr);
      }
    }

    // -------------------------------------------------------------------
    // Rendering

    /**
     * `get_attributes(main, asset_folders)`: the attributes rendered in order,
     * then the classes. A file attribute is recorded in `_files_uris` when
     * `main` is set, and becomes a `data:` URI (through the memo) when not
     * served or in a notebook, the quoted served path otherwise. The first
     * exception ends the call, with what it recorded so far kept.
     */
    method GetAttributes(ctx: RenderContext, m: InlineUriMemo) returns (r: Result<string>)
      modifies this`filesUris, m
      ensures var out := RenderAttributes(attributes, Keys(filesAttrs), cssClasses, ctx, old(m.memo));
        r == out.result && m.memo == out.memo && filesUris == old(filesUris) + out.uris
    {
      r := AttributeList(ctx, m);
      if r.Ok? {
        r := Ok(r.value + ClassAttr(cssClasses));
      }
    }

    /** The loop of `get_attributes`: the attributes rendered in order, up to the first exception. */
    method AttributeList(ctx: RenderContext, m: InlineUriMemo) returns (r: Result<string>)
      modifies this`filesUris, m
      ensures var out := AttrsUpTo(old(attributes), Keys(old(filesAttrs)), ctx, old(m.memo), |old(attributes)|);
        r == out.result && m.memo == out.memo && filesUris == old(filesUris) + out.uris
    {
      var attrs, keys := attributes, Keys(filesAttrs);
      ghost var memo0, uris0 := m.memo, filesUris;
      ghost var whole := AttrsUpTo(attrs, keys, ctx, memo0, |attrs|);
      ghost var found: set<string> := {};
      r := Ok("");
      var i := 0;
      while i < |attrs| && r.Ok?
        invariant 0 <= i <= |attrs|
        invariant r.Ok? ==> AttrsUpTo(attrs, keys, ctx, memo0, i) == AttrOut(r, m.memo, found)
        invariant r.Err? ==> whole == AttrOut(r, m.memo, found)
        invariant filesUris == uris0 + found
        decreases |attrs| - i, if r.Ok? then 1 else 0
      {
        var piece;
        piece, found := AttributeAt(attrs, keys, ctx, m, i, r.value, memo0, uris0, found);
        if piece.Err? {
          r := piece;
        } else {
          r := Ok(r.value + piece.value);
          i := i + 1;
        }
      }
      assert whole == AttrOut(r, m.memo, found);
    }

    /** Attribute `i` rendered after the first `i`, as the loop of `get_attributes` meets it. */
    method AttributeAt(attrs: Dict<Value>, keys: seq<string>, ctx: RenderContext, m: InlineUriMemo, i: nat, text: string,
                       ghost memo0: map<string, string>, ghost uris0: set<string>, ghost found: set<string>)
      returns (piece: Result<string>, ghost found': set<string>)
      requires i < |attrs| && AttrsUpTo(attrs, keys, ctx, memo0, i) == AttrOut(Ok(text), m.memo, found)
      requires filesUris == uris0 + found
      modifies this`filesUris, m
      ensures filesUris == uris0 + found'
      ensures piece.Ok? ==> AttrsUpTo(attrs, keys, ctx, memo0, i + 1) == AttrOut(Ok(text + piece.value), m.memo, found')
      ensures piece.Err? ==> AttrsUpTo(attrs, keys, ctx, memo0, |attrs|) == AttrOut(piece, m.memo, found')
    {
      ghost var entry := AttrEntry(attrs[i].0, attrs[i].1, keys, ctx, m.memo);
      AttrsNext(attrs, keys, ctx, memo0, i, text, m.memo, found, entry);
      piece := RenderAttribute(attrs[i].0, attrs[i].1, keys, ctx, m);
      found' := found + entry.uris;
    }

    /** One turn of the loop of `get_attributes`: the text of attribute `k`. */
    method RenderAttribute(k: string, v: Value, keys: seq<string>, ctx: RenderContext, m: InlineUriMemo)
      returns (r: Result<string>)
      modifies this`filesUris, m
      ensures var entry := AttrEntry(k, v, keys, ctx, old(m.memo));
        r == entry.result && m.memo == entry.memo && filesUris == old(filesUris) + entry.uris
    {
      var value := v;
      if k in keys {
        if ctx.main != "" {
          if !v.Str? {
            return Err(AttributeError);
          }
          AddFilesUris([v.s]);
          assert StripEach([v.s]) == [Strip(v.s)];
        }
        if ctx.main == "" || ctx.notebook {
          if !v.Str? {
            return Err(AttributeError);
          }
          var uri := m.MakeInlineUri(v.s, SrcFolder, Some(DstFolder), ctx.assets, ctx.fs);
          if uri.Err? {
            return Err(uri.error);
          }
          value := Str(uri.value);
        } else {
          value := Str(Quote(ctx.main + "/" + DstFolder + "/" + v.s));
        }
      }
      r := AttrText(k, value);
    }

    /** The component tree as `get_html` sees it. */
    ghost function View(): (e: Element)
      requires Valid()
      reads this`Repr, Repr`Repr, Repr`children, Repr`tagName, Repr`xmlClosingStyle, Repr`attributes,
        Repr`filesAttrs, Repr`cssClasses, Repr`preHtml, Repr`postHtml
      ensures |e.kids| == |children|
      decreases Repr, 1
    {
      Element(tagName, xmlClosingStyle, attributes, Keys(filesAttrs), cssClasses, preHtml, postHtml, KidViews(|children|))
    }

    /** The views of the first `i` children. */
    ghost function KidViews(i: nat): (ks: seq<Element>)
      requires Valid() && i <= |children|
      reads this`Repr, Repr`Repr, Repr`children, Repr`tagName, Repr`xmlClosingStyle, Repr`attributes,
        Repr`filesAttrs, Repr`cssClasses, Repr`preHtml, Repr`postHtml
      ensures |ks| == i
      decreases Repr, 0, i
    {
      if i == 0 then [] else KidViews(i - 1) + [children[i - 1].View()]
    }

    /** Child `j`'s view among the views. */
    lemma {:induction false} KidViewsAt(i: nat, j: nat)
      requires Valid() && j < i <= |children|
      ensures KidViews(i)[j] == children[j].View()
      decreases i
    {
      if j < i - 1 {
        KidViewsAt(i - 1, j);
      }
    }

    /** Child `i`'s view is the `i`-th child of the view. */
    lemma ViewKid(i: nat)
      requires Valid() && i < |children|
      ensures View().kids[i] == children[i].View()
    {
      KidViewsAt(|children|, i);
    }

    /** A leaf made by `_append_html_child` or `_append_panel_child` renders exactly its markup, whatever the context. */
    lemma LeafRenders(markup: string, ctx: RenderContext, memo: map<string, string>)
      requires Valid() && Leaf(markup)
      ensures Html(View(), ctx, memo) == UriOutcome(Ok(markup), memo)
    {
      assert View() == Element("", false, [], [], [], "", markup, []);
      LeafHtml(markup, ctx, memo);
    }

    /** `get_html(main, asset_folders)`: the markup of the tree, as `Html` states it, and the memo after it. */
    method GetHtml(ctx: RenderContext, m: InlineUriMemo) returns (r: Result<string>)
      requires Valid()
      modifies Repr`filesUris, m
      ensures UriOutcome(r, m.memo) == Html(old(View()), ctx, old(m.memo))
      decreases Repr, 2
    {
      ghost var e := View();
      ghost var memo0 := m.memo;
      var markup := "";
      if !xmlClosingStyle || children != [] || preHtml != "" || postHtml != "" {
        if tagName != "" {
          var open := OpenTagMarkup(ctx, m, "");
          if open.Err? {
            return Err(open.error);
          }
          markup := open.value;
        }
        ghost var head := UriOutcome(Ok(markup), m.memo);
        assert head == if e.tag == "" then UriOutcome(Ok(""), memo0) else OpenTag(e, ctx, memo0, "");
        markup := markup + preHtml;
        var kids := ChildrenHtml(ctx, m);
        if kids.Err? {
          return Err(kids.error);
        }
        markup := markup + kids.value;
        markup := markup + postHtml;
        if tagName != "" {
          markup := markup + ("\n</" + tagName + ">");
        }
        ghost var close := if e.tag == "" then "" else "\n</" + e.tag + ">";
        assert markup == head.result.value + e.pre + kids.value + e.post + close;
      } else if tagName != "" {
        r := OpenTagMarkup(ctx, m, " /");
        return;
      }
      r := Ok(markup);
    }

    /** The loop of `get_html` over the children: their markup in order, up to the first exception. */
    method ChildrenHtml(ctx: RenderContext, m: InlineUriMemo) returns (r: Result<string>)
      requires Valid()
      modifies Repr`filesUris, m
      ensures UriOutcome(r, m.memo) == KidsHtml(old(View()), ctx, old(m.memo), |children|)
      decreases Repr, 1
    {
      ghost var e := View();
      ghost var memo0 := m.memo;
      r := Ok("");
      var i := 0;
      while i < |children| && r.Ok?
        invariant 0 <= i <= |children|
        invariant Valid() && View() == e
        invariant r.Ok? ==> KidsHtml(e, ctx, memo0, i) == UriOutcome(r, m.memo)
        invariant r.Err? ==> KidsHtml(e, ctx, memo0, |children|) == UriOutcome(r, m.memo)
        decreases |children| - i, if r.Ok? then 1 else 0
      {
        var part := ChildAt(ctx, m, i, r.value, e, memo0);
        if part.Err? {
          r := part;
        } else {
          r := Ok(r.value + part.value);
          i := i + 1;
        }
      }
    }

    /** One turn of the loop over the children: child `i`'s markup, or the exception that ends the loop. */
    method ChildAt(ctx: RenderContext, m: InlineUriMemo, i: nat, kids: string, ghost e: Element, ghost memo0: map<string, string>)
      returns (part: Result<string>)
      requires Valid() && View() == e && i < |children|
      requires KidsHtml(e, ctx, memo0, i) == UriOutcome(Ok(kids), m.memo)
      modifies Repr`filesUris, m
      ensures Valid() && View() == e
      ensures part.Ok? ==> KidsHtml(e, ctx, memo0, i + 1) == UriOutcome(Ok(kids + part.value), m.memo)
      ensures part.Err? ==> KidsHtml(e, ctx, memo0, |children|) == UriOutcome(part, m.memo)
      decreases Repr, 0
    {
      ViewKid(i);
      ghost var memo1 := m.memo;
      part := children[i].GetHtml(ctx, m);
      KidsNext(e, ctx, memo0, i, kids, memo1, part, m.memo);
    }

    /** `"\n<{}{}>".format(tag_name, self.get_attributes(main, asset_folders))`, with `close` before the `>`. */
    method OpenTagMarkup(ctx: RenderContext, m: InlineUriMemo, close: string) returns (r: Result<string>)
      requires Valid()
      modifies this`filesUris, m
      ensures UriOutcome(r, m.memo) == OpenTag(old(View()), ctx, old(m.memo), close)
      ensures filesUris ==
        old(filesUris) + RenderAttributes(old(attributes), Keys(old(filesAttrs)), old(cssClasses), ctx, old(m.memo)).uris
    {
      var attrs := GetAttributes(ctx, m);
      if attrs.Err? {
        return Err(attrs.error);
      }
      r := Ok("\n<" + tagName + attrs.value + close + ">");
    }

    /** The gathered resource dicts the templates walk. */
    function Sources(): Sources
      requires Valid()
      reads this`Repr, Repr`children, Repr`Repr, Repr`headNoNbCss, Repr`headNoNbJs, Repr`bodyCss, Repr`bodyStyle, Repr`panelCss,
        Repr`panelRawCss, Repr`bodyJs, Repr`bodyScript, Repr`bodyNoNbJs, Repr`bodyNoNbScript
    {
      Templates.Sources(Values(Gathered(HeadNoNbJs)), Values(Gathered(HeadNoNbCss)), Values(Gathered(BodyCss)),
        Values(Gathered(BodyStyle)), Values(Gathered(BodyJs)), Values(Gathered(BodyScript)), Values(Gathered(BodyNoNbJs)),
        Values(Gathered(BodyNoNbScript)))
    }

    /** `_get_template_head_no_nb(asset_folders)`: the gathered head scripts, then the gathered head styles. */
    method TemplateHeadNoNb(notebook: bool, assets: seq<string>, disk: Disk) returns (r: Result<string>)
      requires Valid()
      modifies disk
      ensures Emitted(r, disk.files) == HeadNoNb(old(Sources()).headJs, old(Sources()).headCss, main, notebook, assets, old(disk.files))
    {
      ghost var src := Sources();
      var js := GetResources(HeadNoNbJs);
      var css := GetResources(HeadNoNbCss);
      assert src.headJs == Values(js) && src.headCss == Values(css);
      r := EmitHeadNoNb(Values(js), Values(css), main, notebook, assets, disk);
    }

    /** `_get_template_contents_top(asset_folders)`: the gathered body styles, then the gathered raw styles. */
    method TemplateContentsTop(notebook: bool, assets: seq<string>, disk: Disk) returns (r: Result<string>)
      requires Valid()
      modifies disk
      ensures Emitted(r, disk.files) == ContentsTop(old(Sources()).bodyCss, old(Sources()).bodyStyle, main, notebook, assets, old(disk.files))
    {
      ghost var src := Sources();
      var css := GetResources(BodyCss);
      var styles := GetResources(BodyStyle);
      assert src.bodyCss == Values(css) && src.bodyStyle == Values(styles);
      r := EmitContentsTop(Values(css), Values(styles), main, notebook, assets, disk);
    }

    /** `_get_template_contents_bottom(asset_folders)`: the gathered body scripts, then the gathered raw scripts. */
    method TemplateContentsBottom(notebook: bool, assets: seq<string>, disk: Disk) returns (r: Result<string>)
      requires Valid()
      modifies disk
      ensures Emitted(r, disk.files) ==
        ContentsBottom(old(Sources()).bodyJs, old(Sources()).bodyScript, main, notebook, assets, old(disk.files))
    {
      ghost var src := Sources();
      var js := GetResources(BodyJs);
      var scripts := GetResources(BodyScript);
      assert src.bodyJs == Values(js) && src.bodyScript == Values(scripts);
      r := EmitContentsBottom(Values(js), Values(scripts), main, notebook, assets, disk);
    }

    /** `_get_template_contents_bottom_no_nb(asset_folders)`: the gathered scripts, then the gathered raw scripts as file names. */
    method TemplateContentsBottomNoNb(assets: seq<string>, disk: Disk) returns (r: Result<string>)
      requires Valid()
      modifies disk
      ensures Emitted(r, disk.files) == ContentsBottomNoNb(old(Sources()).noNbJs, old(Sources()).noNbScript, main, assets, old(disk.files))
    {
      ghost var src := Sources();
      var js := GetResources(BodyNoNbJs);
      var scripts := GetResources(BodyNoNbScript);
      assert src.noNbJs == Values(js) && src.noNbScript == Values(scripts);
      r := EmitContentsBottomNoNb(Values(js), Values(scripts), main, assets, disk);
    }

    /**
     * `_repr_html_(asset_folders)`: the tree rendered for the component's own
     * `main`, with the gathered asset folders when none are given.
     */
    method ReprHtml(assets: Option<seq<string>>, notebook: bool, disk: Disk, m: InlineUriMemo) returns (r: Result<string>)
      requires Valid()
      modifies Repr`filesUris, m
      ensures var folders := if assets.Some? then assets.value else old(AllFolders());
        UriOutcome(r, m.memo) == Html(old(View()), RenderContext(old(main), notebook, folders, old(disk.files)), old(m.memo))
    {
      var folders: seq<string>;
      if assets.Some? {
        folders := assets.value;
      } else {
        folders := GetAssetFolders();
      }
      r := GetHtml(RenderContext(main, notebook, folders, disk.files), m);
    }

    /**
     * `_get_template(asset_folders)`: the page around the head resources, the
     * body classes, the contents and the scripts. The getters have no effect,
     * so the gathered dictionaries are all read first.
     */
    method GetTemplate(notebook: bool, assets: seq<string>, disk: Disk, m: InlineUriMemo) returns (r: Result<string>)
      requires Valid()
      modifies disk, Repr`filesUris, m
      ensures Built(r, disk.files, m.memo) == FullTemplate(old(Sources()), old(View()), old(BodyClassAttr(bodyClasses)),
        old(noPanelSpacer), old(main), notebook, assets, old(disk.files), old(m.memo))
    {
      var src := Sources();
      ghost var e := View();
      var head := EmitHeadNoNb(src.headJs, src.headCss, main, notebook, assets, disk);
      if head.Err? {
        return head;
      }
      assert View() == e && Sources() == src;
      r := AfterHeadHtml(src, head.value, notebook, assets, disk, m);
    }

    /** The rest of `_get_template(asset_folders)` once the head resources are `head`. */
    method AfterHeadHtml(src: Sources, head: string, notebook: bool, assets: seq<string>, disk: Disk, m: InlineUriMemo)
      returns (r: Result<string>)
      requires Valid() && src == Sources()
      modifies disk, Repr`filesUris, m
      ensures Built(r, disk.files, m.memo) == AfterHead(src, old(View()), head, old(BodyClassAttr(bodyClasses)),
        old(noPanelSpacer), old(main), notebook, assets, old(disk.files), old(m.memo))
    {
      var classes, spacer, mainDir := BodyClassAttr(bodyClasses), noPanelSpacer, main;
      AfterHeadTop(src, View(), head, classes, spacer, mainDir, notebook, assets, disk.files, m.memo);
      var top := EmitContentsTop(src.bodyCss, src.bodyStyle, mainDir, notebook, assets, disk);
      if top.Err? {
        return top;
      }
      r := AfterTopHtml(src, head, classes, spacer, top.value, notebook, assets, disk, m);
    }

    /** The rest of `_get_template(asset_folders)` once the body styles are `top`. */
    method AfterTopHtml(src: Sources, head: string, classes: string, spacer: string, top: string, notebook: bool,
                        assets: seq<string>, disk: Disk, m: InlineUriMemo) returns (r: Result<string>)
      requires Valid()
      modifies disk, Repr`filesUris, m
      ensures Built(r, disk.files, m.memo) ==
        AfterTop(src, old(View()), head, classes, spacer, old(main), notebook, assets, top, old(disk.files), old(m.memo))
    {
      var mainDir := main;
      ghost var whole := AfterTop(src, View(), head, classes, spacer, mainDir, notebook, assets, top, disk.files, m.memo);
      var html := ReprHtml(Some(assets), notebook, disk, m);
      if html.Err? {
        assert whole == Built(html, disk.files, m.memo);
        return html;
      }
      var bottom := EmitContentsBottom(src.bodyJs, src.bodyScript, mainDir, notebook, assets, disk);
      if bottom.Err? {
        assert whole == Built(bottom, disk.files, m.memo);
        return bottom;
      }
      var noNb := EmitContentsBottomNoNb(src.noNbJs, src.noNbScript, mainDir, assets, disk);
      if noNb.Err? {
        assert whole == Built(noNb, disk.files, m.memo);
        return noNb;
      }
      r := Ok(Page(head, classes, top, html.value, spacer, bottom.value, noNb.value));
      assert whole == Built(r, disk.files, m.memo);
    }

    /** `_get_nb_template(asset_folders)`: the contents block alone, with the body styles and scripts. */
    method GetNbTemplate(notebook: bool, assets: seq<string>, disk: Disk, m: InlineUriMemo) returns (r: Result<string>)
      requires Valid()
      modifies disk, Repr`filesUris, m
      ensures Built(r, disk.files, m.memo) ==
        NbTemplate(old(Sources()), old(View()), old(noPanelSpacer), old(main), notebook, assets, old(disk.files), old(m.memo))
    {
      var src, spacer, mainDir := Sources(), noPanelSpacer, main;
      var top := EmitContentsTop(src.bodyCss, src.bodyStyle, mainDir, notebook, assets, disk);
      if top.Err? {
        return top;
      }
      var html := ReprHtml(Some(assets), notebook, disk, m);
      if html.Err? {
        return html;
      }
      var bottom := EmitContentsBottom(src.bodyJs, src.bodyScript, mainDir, notebook, assets, disk);
      if bottom.Err? {
        return bottom;
      }
      r := Ok(NbPage(top.value, html.value, spacer, bottom.value));
    }
  }
}
