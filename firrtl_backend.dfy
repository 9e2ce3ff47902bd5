/**
 * `FirrtlBackend::execute` (backends/firrtl/firrtl.cc): names every module and
 * every module port, chooses the module that names the circuit, and lowers the
 * modules one after another with the same name allocator.
 */
module FirrtlBackend {
  import opened Wrappers
  import opened Netlist
  import opened FirrtlNames
  import opened FirrtlLowering
  import opened FirrtlWorker

  /** The first module carrying the `top` attribute, if any. */
  function FirstTopAttr(modules: seq<Module>): Option<Module>
  {
    if modules == [] then None
    else
      var t := FirstTopAttr(modules[..|modules| - 1]);
      if t.Some? then t
      else if modules[|modules| - 1].topAttr then Some(modules[|modules| - 1])
      else None
  }

  lemma {:induction false} FirstTopAttrIsFirst(modules: seq<Module>)
    ensures FirstTopAttr(modules).Some? <==> exists i | 0 <= i < |modules| :: modules[i].topAttr
    ensures FirstTopAttr(modules).Some? ==>
      exists i | 0 <= i < |modules| :: modules[i] == FirstTopAttr(modules).value && modules[i].topAttr
        && forall j | 0 <= j < i :: !modules[j].topAttr
    decreases |modules|
  {
    if modules != [] {
      var n := |modules| - 1;
      var init := modules[..n];
      FirstTopAttrIsFirst(init);
      if FirstTopAttr(init).Some? {
        var i :| 0 <= i < |init| && init[i] == FirstTopAttr(init).value && init[i].topAttr
          && forall j | 0 <= j < i :: !init[j].topAttr;
        assert modules[i] == init[i];
      } else if modules[n].topAttr {
        assert forall j | 0 <= j < n :: modules[j] == init[j];
      } else {
        assert forall j | 0 <= j < n :: modules[j] == init[j];
      }
    }
  }

  lemma FirstTopAttrStep(modules: seq<Module>, k: nat)
    requires k < |modules|
    ensures FirstTopAttr(modules[..k + 1]) ==
      if FirstTopAttr(modules[..k]).Some? then FirstTopAttr(modules[..k])
      else if modules[k].topAttr then Some(modules[k]) else None
  {
    assert modules[..k + 1][..k] == modules[..k];
  }

  /** `design->top_module()`, looked up among the modules. */
  function Designated(design: Design): Option<Module>
  {
    if design.designatedTop.Some? then FindModule(design.modules, design.designatedTop.value) else None
  }

  /** The circuit's module: the designated top, else the first with `top`, else the last. */
  function SelectTop(design: Design): Option<Module>
  {
    if Designated(design).Some? then Designated(design)
    else if FirstTopAttr(design.modules).Some? then FirstTopAttr(design.modules)
    else if design.modules == [] then None
    else Some(design.modules[|design.modules| - 1])
  }

  /** What the choice of the circuit's module means, case by case. */
  lemma SelectTopChoice(design: Design)
    ensures SelectTop(design).Some? <==> design.modules != []
    ensures SelectTop(design).Some? ==> SelectTop(design).value in design.modules
    ensures Designated(design).Some? ==> SelectTop(design).value.name == design.designatedTop.value
    ensures Designated(design).None? && (exists i | 0 <= i < |design.modules| :: design.modules[i].topAttr) ==>
      exists i | 0 <= i < |design.modules| ::
        design.modules[i] == SelectTop(design).value && design.modules[i].topAttr
        && forall j | 0 <= j < i :: !design.modules[j].topAttr
    ensures Designated(design).None? && design.modules != [] ==>
      (forall i | 0 <= i < |design.modules| :: !design.modules[i].topAttr) ==>
      SelectTop(design).value == design.modules[|design.modules| - 1]
  {
    FirstTopAttrIsFirst(design.modules);
  }

  /** The lines of several modules, one after another. */
  function Flatten(texts: seq<seq<string>>): seq<string>
  {
    if texts == [] then [] else Flatten(texts[..|texts| - 1]) + texts[|texts| - 1]
  }

  /** The ports among the first `k` wires of `m` are named in `cache`. */
  ghost predicate PortsNamedUpTo(m: Module, k: nat, cache: map<string, string>)
  {
    k <= |m.wires| && forall j | 0 <= j < k && m.wires[j].portId != 0 :: m.wires[j].name in cache
  }

  /** One wire of the port naming: a port is given its name. */
  method NamePort(names: NameAllocator, m: Module, k: nat,
                  ghost cache0: map<string, string>, ghost used0: set<string>, ghost counter0: int)
    requires k < |m.wires| && GrewFrom(names, cache0, used0, counter0) && PortsNamedUpTo(m, k, names.nameCache)
    modifies names
    ensures GrewFrom(names, cache0, used0, counter0) && PortsNamedUpTo(m, k + 1, names.nameCache)
    ensures names.drawnIds == old(names.drawnIds)
  {
    if m.wires[k].portId != 0 {
      ghost var c1 := names.nameCache;
      var _ := Name(names, m.wires[k].name);
      ExtendsTrans(names.nameCache, c1, cache0);
    }
  }

  /** The naming of one module's ports, in the order of its wires. */
  method NamePorts(names: NameAllocator, m: Module)
    requires names.Valid()
    modifies names
    ensures Grew(names)
    ensures forall k | 0 <= k < |m.wires| && m.wires[k].portId != 0 :: m.wires[k].name in names.nameCache
  {
    ghost var cache0, used0, counter0 := names.nameCache, names.usedNames, names.autoidCounter;
    var n := |m.wires|;
    var k := 0;
    while k < n
      invariant k <= n
      invariant GrewFrom(names, cache0, used0, counter0) && PortsNamedUpTo(m, k, names.nameCache)
      invariant names.drawnIds == old(names.drawnIds)
    {
      NamePort(names, m, k, cache0, used0, counter0);
      k := k + 1;
    }
    assert PortsNamedUpTo(m, n, names.nameCache);
  }

  /** A module's name, then its ports'. */
  method NameModule(names: NameAllocator, m: Module)
    requires names.Valid()
    modifies names
    ensures Grew(names) && m.name in names.nameCache
  {
    var _ := Name(names, m.name);
    ghost var c1 := names.nameCache;
    NamePorts(names, m);
    ExtendsTrans(names.nameCache, c1, old(names.nameCache));
  }

  /** The first `k` modules are named in `cache`, and `top` is the choice among them so far. */
  ghost predicate ModulesNamedUpTo(design: Design, k: nat, cache: map<string, string>, top: Option<Module>)
  {
    k <= |design.modules|
    && (forall j | 0 <= j < k :: design.modules[j].name in cache)
    && top == if Designated(design).Some? then Designated(design) else FirstTopAttr(design.modules[..k])
  }

  /** One module of the naming loop: its names, and the first `top` attribute seen. */
  method NameModuleStep(names: NameAllocator, design: Design, k: nat, top: Option<Module>,
                        ghost cache0: map<string, string>, ghost used0: set<string>, ghost counter0: int)
    returns (top': Option<Module>)
    requires k < |design.modules| && GrewFrom(names, cache0, used0, counter0)
    requires ModulesNamedUpTo(design, k, names.nameCache, top)
    modifies names
    ensures GrewFrom(names, cache0, used0, counter0) && ModulesNamedUpTo(design, k + 1, names.nameCache, top')
    ensures names.drawnIds == old(names.drawnIds)
  {
    var m := design.modules[k];
    ghost var c1 := names.nameCache;
    NameModule(names, m);
    ExtendsTrans(names.nameCache, c1, cache0);
    FirstTopAttrStep(design.modules, k);
    top' := top;
    if top.None? && m.topAttr {
      top' := Some(m);
    }
  }

  /**
   * The naming loop: every module name, then its ports, in design order,
   * while it picks the first module marked `top` unless one is designated.
   */
  method NameModules(names: NameAllocator, design: Design) returns (top: Option<Module>)
    requires names.Valid()
    modifies names
    ensures Grew(names)
    ensures forall k | 0 <= k < |design.modules| :: design.modules[k].name in names.nameCache
    ensures top == SelectTop(design) && (design.modules != [] ==> top.Some?)
  {
    var designated := Designated(design);
    top := designated;
    ghost var cache0, used0, counter0 := names.nameCache, names.usedNames, names.autoidCounter;
    assert design.modules[..0] == [];
    var n := |design.modules|;
    var k := 0;
    while k < n
      invariant k <= n
      invariant GrewFrom(names, cache0, used0, counter0) && ModulesNamedUpTo(design, k, names.nameCache, top)
      invariant names.drawnIds == old(names.drawnIds)
    {
      top := NameModuleStep(names, design, k, top, cache0, used0, counter0);
      k := k + 1;
    }
    assert design.modules[..k] == design.modules;
    if top.None? && design.modules != [] {
      top := Some(design.modules[|design.modules| - 1]);
    }
  }

  /** `FirrtlWorker worker(module, *f, design); worker.run();` */
  method LowerModuleText(names: NameAllocator, design: Design, m: Module)
    returns (ok: bool, text: seq<string>, ghost draws: seq<string>)
    requires names.Valid()
    modifies names
    ensures names.Valid() && Extends(names.nameCache, old(names.nameCache)) && old(names.usedNames) <= names.usedNames
    ensures ok <==> !ModuleFatal(design, m)
    ensures ok ==> ModuleLowerable(design, m, names.nameCache, draws) && text == LoweredText(design, m, names.nameCache, draws)
    ensures ok ==> Drawn(draws, old(names.usedNames), names.usedNames)
    ensures ok ==> (forall i | 0 <= i < |draws| :: draws[i] in names.drawnIds) && old(names.drawnIds) <= names.drawnIds
  {
    var worker := new Worker(m, design, names);
    ok, text := worker.Run();
    draws := worker.draws;
  }

  /** The first `k` modules can be lowered, and `texts` are their texts under `cache`, drawing `drawn`. */
  ghost predicate ModulesLowered(design: Design, k: nat, cache: map<string, string>, texts: seq<seq<string>>,
                                 drawn: seq<seq<string>>)
  {
    && k <= |design.modules| && |texts| == |drawn| == k
    && (forall j | 0 <= j < k :: !ModuleFatal(design, design.modules[j]))
    && (forall j | 0 <= j < k :: LoweredAs(design, design.modules[j], cache, drawn[j], texts[j]))
  }

  /** Module `k` lowered under `c2`, which extends `c1`, extends the record of the first `k`. */
  lemma ModulesLoweredSnoc(design: Design, k: nat, c1: map<string, string>, c2: map<string, string>,
                           texts: seq<seq<string>>, drawn: seq<seq<string>>, text: seq<string>, draws: seq<string>)
    requires k < |design.modules| && ModulesLowered(design, k, c1, texts, drawn) && Extends(c2, c1)
    requires !ModuleFatal(design, design.modules[k])
    requires ModuleLowerable(design, design.modules[k], c2, draws) && text == LoweredText(design, design.modules[k], c2, draws)
    ensures ModulesLowered(design, k + 1, c2, texts + [text], drawn + [draws])
  {
    forall j | 0 <= j < k
      ensures LoweredAs(design, design.modules[j], c2, drawn[j], texts[j])
    {
      LoweredAsStable(design, design.modules[j], c1, c2, drawn[j], texts[j]);
    }
    assert LoweredAs(design, design.modules[k], c2, draws, text);
  }

  /** The names drawn by the first modules, then those of one more. */
  lemma FlattenSnoc(texts: seq<seq<string>>, text: seq<string>)
    ensures Flatten(texts + [text]) == Flatten(texts) + text
  {
    assert (texts + [text])[..|texts|] == texts;
  }

  /**
   * The `next_id` names drawn so far: fresh against `used0`, pairwise distinct,
   * in use now, and all of them among the names `next_id` handed out (`ids`).
   */
  ghost predicate DrawnSoFar(drawn: seq<seq<string>>, used0: set<string>, used: set<string>, ids: set<string>)
  {
    Drawn(Flatten(drawn), used0, used) && forall i | 0 <= i < |Flatten(drawn)| :: Flatten(drawn)[i] in ids
  }

  /** One more module's drawn names, fresh against what was in use before it, keep `DrawnSoFar`. */
  lemma DrawnSoFarSnoc(drawn: seq<seq<string>>, draws: seq<string>, used0: set<string>, used1: set<string>,
                       used2: set<string>, ids1: set<string>, ids2: set<string>)
    requires DrawnSoFar(drawn, used0, used1, ids1) && used0 <= used1 <= used2 && ids1 <= ids2
    requires Drawn(draws, used1, used2) && forall i | 0 <= i < |draws| :: draws[i] in ids2
    ensures DrawnSoFar(drawn + [draws], used0, used2, ids2)
  {
    FlattenSnoc(drawn, draws);
    FreshConcat(Flatten(drawn), draws, used0, used1, used2);
    var all := Flatten(drawn) + draws;
    forall i | 0 <= i < |all|
      ensures all[i] in ids2
    {
      if i >= |Flatten(drawn)| {
        assert all[i] == draws[i - |Flatten(drawn)|];
      }
    }
  }

  /** The lines after one more module's text. */
  lemma LinesSnoc(header: string, texts: seq<seq<string>>, text: seq<string>)
    ensures [header] + Flatten(texts + [text]) == ([header] + Flatten(texts)) + text
  {
    assert (texts + [text])[..|texts|] == texts;
    AppendAssoc([header], Flatten(texts), text);
  }

  /** The first `k` modules lowered into `lines` after `header`, drawing `drawn` fresh against `u0`. */
  ghost predicate LoweredSoFar(names: NameAllocator, design: Design, k: nat, u0: set<string>, header: string,
                               lines: seq<string>, texts: seq<seq<string>>, drawn: seq<seq<string>>)
    reads names
  {
    && ModulesLowered(design, k, names.nameCache, texts, drawn) && lines == [header] + Flatten(texts)
    && DrawnSoFar(drawn, u0, names.usedNames, names.drawnIds) && u0 <= names.usedNames
  }

  /** One turn of the loop over the modules: module `k` is lowered and its text appended. */
  method LowerNext(names: NameAllocator, design: Design, k: nat, ghost c0: map<string, string>, ghost u0: set<string>,
                   header: string, lines: seq<string>, ghost texts: seq<seq<string>>, ghost drawn: seq<seq<string>>)
    returns (ok: bool, lines': seq<string>, ghost texts': seq<seq<string>>, ghost drawn': seq<seq<string>>)
    requires names.Valid() && Extends(names.nameCache, c0) && k < |design.modules|
    requires LoweredSoFar(names, design, k, u0, header, lines, texts, drawn)
    modifies names
    ensures names.Valid() && Extends(names.nameCache, c0) && old(names.usedNames) <= names.usedNames
    ensures ok <==> !ModuleFatal(design, design.modules[k])
    ensures ok ==> LoweredSoFar(names, design, k + 1, u0, header, lines', texts', drawn')
  {
    ghost var c1, u1, i1 := names.nameCache, names.usedNames, names.drawnIds;
    var text;
    ghost var draws;
    ok, text, draws := LowerModuleText(names, design, design.modules[k]);
    lines', texts', drawn' := lines, texts, drawn;
    if ok {
      ExtendsTrans(names.nameCache, c1, c0);
      ModulesLoweredSnoc(design, k, c1, names.nameCache, texts, drawn, text, draws);
      LinesSnoc(header, texts, text);
      DrawnSoFarSnoc(drawn, draws, u0, u1, names.usedNames, i1, names.drawnIds);
      lines', texts', drawn' := lines + text, texts + [text], drawn + [draws];
    }
  }

  /** The modules' lines after `header`, in design order, until one cannot be lowered. */
  method LowerModules(names: NameAllocator, design: Design, ghost c0: map<string, string>, header: string)
    returns (ok: bool, lines: seq<string>, ghost texts: seq<seq<string>>, ghost drawn: seq<seq<string>>, bad: string)
    requires names.Valid() && Extends(names.nameCache, c0)
    modifies names
    ensures names.Valid() && Extends(names.nameCache, c0)
    ensures ok ==> DrawnSoFar(drawn, old(names.usedNames), names.usedNames, names.drawnIds)
    ensures ok <==> forall k | 0 <= k < |design.modules| :: !ModuleFatal(design, design.modules[k])
    ensures ok ==> |texts| == |drawn| == |design.modules| && lines == [header] + Flatten(texts)
    ensures ok ==> forall k | 0 <= k < |design.modules| ::
      ModuleLowerable(design, design.modules[k], names.nameCache, drawn[k])
      && texts[k] == LoweredText(design, design.modules[k], names.nameCache, drawn[k])
  {
    lines := [header];
    texts, drawn := [], [];
    bad := "";
    var n := |design.modules|;
    var k := 0;
    ok := true;
    while k < n && ok
      invariant k <= n
      invariant names.Valid() && Extends(names.nameCache, c0) && old(names.usedNames) <= names.usedNames
      invariant ok ==> LoweredSoFar(names, design, k, old(names.usedNames), header, lines, texts, drawn)
      invariant !ok ==> 0 < k && ModuleFatal(design, design.modules[k - 1])
    {
      ok, lines, texts, drawn := LowerNext(names, design, k, c0, old(names.usedNames), header, lines, texts, drawn);
      if !ok {
        bad := design.modules[k].name;
      }
      k := k + 1;
    }
    if ok {
      assert k == n && ModulesLowered(design, n, names.nameCache, texts, drawn);
    }
  }

  /**
   * `execute`: the circuit header naming the chosen module, then every module
   * in design order; the name cache and the counter are cleared before and after.
   * `cache` is the name cache just before the final clearing. A design without
   * modules leaves no module to name the circuit, where the source dereferences
   * a null pointer; the model reports it as fatal. The `next_id` names all
   * modules draw (`drawn`) were unused before, are pairwise distinct, and none
   * of them is a name `make_id` gave, since `used_names` is shared by both and
   * kept across modules.
   */
  method Execute(names: NameAllocator, design: Design)
    returns (r: Result<seq<string>>, ghost cache: map<string, string>, ghost texts: seq<seq<string>>,
             ghost drawn: seq<seq<string>>)
    requires names.Valid()
    modifies names
    ensures r.Ok? <==> design.modules != [] && forall k | 0 <= k < |design.modules| :: !ModuleFatal(design, design.modules[k])
    ensures r.Ok? ==> names.Valid() && names.nameCache == map[] && names.autoidCounter == 0
    ensures r.Ok? ==>
      SelectTop(design).Some? && SelectTop(design).value.name in cache
      && r.value == ["circuit " + cache[SelectTop(design).value.name] + ":\n"] + Flatten(texts)
    ensures r.Ok? ==>
      |texts| == |drawn| == |design.modules|
      && forall k | 0 <= k < |design.modules| ::
           ModuleLowerable(design, design.modules[k], cache, drawn[k])
           && texts[k] == LoweredText(design, design.modules[k], cache, drawn[k])
    ensures r.Ok? ==> forall a, b | a in cache && b in cache && a != b :: cache[a] != cache[b]
    ensures r.Ok? ==> Drawn(Flatten(drawn), old(names.usedNames), names.usedNames) && Apart(cache, Flatten(drawn))
  {
    names.ResetForRun();
    var top := NameModules(names, design);
    if top.None? {
      cache, texts, drawn := names.nameCache, [], [];
      return Fatal("no module to name the circuit"), cache, texts, drawn;
    }
    var topId := Name(names, top.value.name);
    ghost var c0, u0 := names.nameCache, names.usedNames;
    assert forall j | 0 <= j < |design.modules| :: design.modules[j].name in c0;
    var ok, lines, bad;
    ok, lines, texts, drawn, bad := LowerModules(names, design, c0, "circuit " + topId + ":\n");
    if !ok {
      cache := names.nameCache;
      return Fatal("module " + bad + " cannot be lowered"), cache, texts, drawn;
    }
    cache := names.nameCache;
    DrawnSince(Flatten(drawn), old(names.usedNames), u0, names.usedNames);
    assert Apart(cache, Flatten(drawn)) by {
      forall k | k in cache
        ensures cache[k] !in Flatten(drawn)
      {
        assert cache[k] !in names.drawnIds;
      }
    }
    names.ResetForRun();
    r := Ok(lines);
  }
}
