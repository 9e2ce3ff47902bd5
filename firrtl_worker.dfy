/**
 * `FirrtlWorker` (backends/firrtl/firrtl.cc): lowers one module. It collects
 * port declarations, wire declarations, cell statements and wire statements
 * in four lists, records which cell output drives each wire bit in the reverse
 * wire map, resolves every output wire from that map, and writes the lists out.
 */
module FirrtlWorker {
  import opened Text
  import opened Wrappers
  import opened Netlist
  import opened FirrtlNames
  import opened FirrtlExpr
  import opened FirrtlCells
  import opened FirrtlLowering

  /** The `mem` declaration, with its two loops over the read and write ports. */
  method MemHeaderLines(cell: Cell, memId: string) returns (lines: seq<string>)
    ensures lines == MemHeader(cell, memId)
  {
    var readers := PortDeclLines("      reader => r", Count(Param(cell, "\\RD_PORTS")));
    var writers := PortDeclLines("      writer => w", Count(Param(cell, "\\WR_PORTS")));
    lines := ["    mem " + memId + ":\n",
              "      data-type => UInt<" + IntToString(Param(cell, "\\WIDTH")) + ">\n",
              "      depth => " + IntToString(Param(cell, "\\SIZE")) + "\n"]
      + readers + writers
      + ["      read-latency => 0\n", "      write-latency => 1\n", "      read-under-write => undefined\n"];
  }

  /** One of those loops: a line per port `0 .. n - 1`. */
  method PortDeclLines(prefix: string, n: nat) returns (lines: seq<string>)
    ensures lines == MemPortDecls(prefix, n)
  {
    lines := [];
    for i := 0 to n
      invariant lines == MemPortDecls(prefix, i)
    {
      lines := lines + [prefix + NatToString(i) + "\n"];
    }
  }

  /** The loop that compares every enable bit of a write port with the first. */
  method SameEnable(wen: SigSpec) returns (ok: bool)
    ensures ok <==> forall k | 1 <= k < |wen| :: wen[k] == wen[0]
  {
    var k := 1;
    while k < |wen|
      invariant 1 <= k && (forall j | 1 <= j < k && j < |wen| :: wen[j] == wen[0])
    {
      if wen[0] != wen[k] {
        return false;
      }
      k := k + 1;
    }
    return true;
  }

  /** The allocator's names were only added to, and `next_id` handed out none. */
  twostate predicate Grew(names: NameAllocator)
    reads names
  {
    names.Valid() && Extends(names.nameCache, old(names.nameCache)) && old(names.usedNames) <= names.usedNames
    && names.autoidCounter == old(names.autoidCounter) && names.drawnIds == old(names.drawnIds)
  }

  /** `make_id` as the lowering sees it: the name cached for `id`, the cache only grown. */
  method Name(names: NameAllocator, id: string) returns (r: string)
    requires names.Valid()
    modifies names
    ensures Grew(names) && id in names.nameCache && names.nameCache[id] == r
    ensures id in old(names.nameCache) ==> names.nameCache == old(names.nameCache) && names.usedNames == old(names.usedNames)
  {
    r := names.MakeId(id);
  }

  /**
   * The names of an instance and its `inst` line. The cell name is asked for
   * twice; the second answer is the cached first, so the comment is always empty.
   */
  method InstanceHeader(names: NameAllocator, cell: Cell) returns (cellName: string, instanceOf: string, header: string)
    requires names.Valid()
    modifies names
    ensures Grew(names) && cell.cellType in names.nameCache && cell.name in names.nameCache
    ensures cellName == names.nameCache[cell.name]
    ensures instanceOf ==
      if IsParamod(cell.cellType) then MangleParamod(names.nameCache[cell.cellType]) else names.nameCache[cell.cellType]
    ensures header == "    inst " + cellName + " of " + instanceOf
  {
    var cellType := Name(names, cell.cellType);
    instanceOf := cellType;
    if IsParamod(cell.cellType) {
      instanceOf := MangleTypeName(cellType);
    }
    cellName := Name(names, cell.name);
    var again := Name(names, cell.name);
    var comment := if cellName != again then " /* " + again + " */ " else "";
    header := "    inst " + cellName + comment + " of " + instanceOf;
    assert comment == "" && cellName + comment == cellName;
  }

  /** One connection of an instance: its line, or the abort when the module has no such port. */
  method InstanceConnection(names: NameAllocator, m: Module, conn: Conn, cellName: string) returns (r: Result<seq<string>>)
    requires names.Valid()
    modifies names
    ensures Grew(names)
    ensures r.Fatal? <==> |conn.sig| > 0 && FindWire(m.wires, conn.port).None?
    ensures r.Ok? ==>
      (|conn.sig| > 0 ==> conn.port in names.nameCache && Covers(names.nameCache, conn.sig))
      && r.value == InstanceConnLines(m, conn, cellName, names.nameCache)
  {
    if |conn.sig| == 0 {
      return Ok([]);
    }
    var portId := Name(names, conn.port);
    var firstName := cellName + "." + portId;
    var secondExpr := MakeExpr(names, conn.sig);
    var secondName := Print(secondExpr);
    var dir := PortFDirection(m, conn.port);
    if dir.Fatal? {
      return Fatal(dir.message);
    }
    return Ok([InstanceConnLine(dir.value, firstName, secondName)]);
  }

  /** The expressions of write port `i`, in the order `make_expr` names their wires. */
  method WritePortExprs(names: NameAllocator, cell: Cell, i: nat) returns (addr: Expr, data: Expr, clk: Expr, wen: Expr)
    requires names.Valid()
    modifies names
    ensures Grew(names) && WritePortNamed(cell, names.nameCache, i)
    ensures addr == SigExpr(WrAddr(cell, i), names.nameCache) && data == SigExpr(WrData(cell, i), names.nameCache)
    ensures clk == SigExpr(WrClk(cell, i), names.nameCache) && wen == SigExpr(WrEnBit(cell, i), names.nameCache)
  {
    addr := MakeExpr(names, WrAddr(cell, i));
    ghost var c1 := names.nameCache;
    data := MakeExpr(names, WrData(cell, i));
    ghost var c2 := names.nameCache;
    clk := MakeExpr(names, WrClk(cell, i));
    ghost var c3 := names.nameCache;
    wen := MakeExpr(names, WrEnBit(cell, i));
    SigExprStable(WrAddr(cell, i), c1, names.nameCache);
    SigExprStable(WrData(cell, i), c2, names.nameCache);
    SigExprStable(WrClk(cell, i), c3, names.nameCache);
  }

  /** The allocator grew from the snapshot `cache0`, `used0`, `counter0`, without a `next_id`. */
  ghost predicate GrewFrom(names: NameAllocator, cache0: map<string, string>, used0: set<string>, counter0: int)
    reads names
  {
    names.Valid() && Extends(names.nameCache, cache0) && used0 <= names.usedNames && names.autoidCounter == counter0
  }

  /** The declarations of the first `k` wires, none of them an inout port. */
  ghost predicate DeclaredUpTo(wires: seq<Wire>, k: nat, cache: map<string, string>, ports: seq<string>, decls: seq<string>)
  {
    k <= |wires| && (forall j | 0 <= j < k :: !InoutPort(wires[j]))
    && WiresNamed(wires[..k], cache)
    && ports == PortDecls(wires[..k], cache) && decls == InternalWireDecls(wires[..k], cache)
  }

  /** One wire of the first pass: named, then declared as a port or a plain wire, or refused as an inout port. */
  method DeclareWire(names: NameAllocator, wires: seq<Wire>, k: nat, ports: seq<string>, decls: seq<string>,
                     ghost cache0: map<string, string>, ghost used0: set<string>, ghost counter0: int)
    returns (ok: bool, ports': seq<string>, decls': seq<string>)
    requires k < |wires| && GrewFrom(names, cache0, used0, counter0)
    requires DeclaredUpTo(wires, k, names.nameCache, ports, decls)
    modifies names
    ensures GrewFrom(names, cache0, used0, counter0)
    ensures names.drawnIds == old(names.drawnIds)
    ensures ok <==> !InoutPort(wires[k])
    ensures ok ==> DeclaredUpTo(wires, k + 1, names.nameCache, ports', decls')
  {
    var w := wires[k];
    ghost var c0 := names.nameCache;
    var wireName := Name(names, w.name);
    ExtendsTrans(names.nameCache, c0, cache0);
    WireDeclsNext(wires, k, c0, names.nameCache, ports, decls);
    ports', decls' := ports, decls;
    if w.portId != 0 {
      if w.portInput && w.portOutput {
        return false, ports', decls';
      }
      ports' := ports + [PortDecl(w, wireName)];
    } else {
      decls' := decls + [WireDecl(wireName, w.width)];
    }
    ok := true;
  }

  /** The declarations of the first pass over the wires, or `false` at the first inout port. */
  method WireDeclLines(names: NameAllocator, wires: seq<Wire>) returns (ok: bool, ports: seq<string>, decls: seq<string>)
    requires names.Valid()
    modifies names
    ensures Grew(names)
    ensures ok <==> forall k | 0 <= k < |wires| :: !InoutPort(wires[k])
    ensures ok ==>
      WiresNamed(wires, names.nameCache)
      && ports == PortDecls(wires, names.nameCache) && decls == InternalWireDecls(wires, names.nameCache)
  {
    ghost var cache0, used0, counter0 := names.nameCache, names.usedNames, names.autoidCounter;
    ports, decls := [], [];
    assert wires[..0] == [];
    var n := |wires|;
    var k := 0;
    while k < n
      invariant k <= n
      invariant GrewFrom(names, cache0, used0, counter0)
      invariant names.drawnIds == old(names.drawnIds)
      invariant DeclaredUpTo(wires, k, names.nameCache, ports, decls)
    {
      ok, ports, decls := DeclareWire(names, wires, k, ports, decls, cache0, used0, counter0);
      if !ok {
        return;
      }
      k := k + 1;
    }
    assert wires[..k] == wires;
    return true, ports, decls;
  }

  /** The five lines of write port `i`, or `false` when the port cannot be lowered. */
  method WritePortBlockLines(names: NameAllocator, cell: Cell, memId: string, i: nat) returns (ok: bool, lines: seq<string>)
    requires names.Valid()
    modifies names
    ensures Grew(names)
    ensures ok <==> WritePortSupported(cell, i)
    ensures ok ==>
      WritePortNamed(cell, names.nameCache, i)
      && lines == WritePortBlock(memId + ".w" + NatToString(i), cell, names.nameCache, i)
  {
    lines := [];
    if ConstBitAt(ConstParam(cell, "\\WR_CLK_ENABLE"), i) != S1 {
      return false, lines;
    }
    if ConstBitAt(ConstParam(cell, "\\WR_CLK_POLARITY"), i) != S1 {
      return false, lines;
    }
    var addrExpr, dataExpr, clkExpr, wenExpr := WritePortExprs(names, cell, i);
    var width := Count(Param(cell, "\\WIDTH"));
    var same := SameEnable(Slice(GetPort(cell, "\\WR_EN"), i, width));
    if !same {
      return false, lines;
    }
    var port := memId + ".w" + NatToString(i);
    lines := [Connect(port + ".addr", addrExpr), Connect(port + ".data", dataExpr),
              Connect(port + ".en", wenExpr), Connect(port + ".mask", Atom("UInt<1>(1)")),
              Connect(port + ".clk", Op("asClock", [clkExpr]))];
    return true, lines;
  }

  /** The loop over the INIT bits: a memory with initialization data is refused. */
  method AllUndefined(bits: seq<State>) returns (ok: bool)
    ensures ok <==> forall k | 0 <= k < |bits| :: bits[k] == Sx
  {
    for k := 0 to |bits|
      invariant forall j | 0 <= j < k :: bits[j] == Sx
    {
      if bits[k] != Sx {
        return false;
      }
    }
    return true;
  }

  /** The connection lines of an instance of `m`, or the abort of the first connection `m` has no port for. */
  method InstanceConnections(names: NameAllocator, m: Module, conns: seq<Conn>, cellName: string)
    returns (r: Result<seq<string>>)
    requires names.Valid()
    modifies names
    ensures Grew(names)
    ensures r.Fatal? <==> exists k | 0 <= k < |conns| :: |conns[k].sig| > 0 && FindWire(m.wires, conns[k].port).None?
    ensures r.Ok? ==>
      ConnsNamed(names.nameCache, conns) && r.value == InstanceConns(m, conns, cellName, names.nameCache)
  {
    var lines := [];
    var k := 0;
    while k < |conns|
      invariant 0 <= k <= |conns|
      invariant Grew(names)
      invariant ConnsNamed(names.nameCache, conns[..k])
      invariant forall j | 0 <= j < k && |conns[j].sig| > 0 :: FindWire(m.wires, conns[j].port).Some?
      invariant lines == InstanceConns(m, conns[..k], cellName, names.nameCache)
    {
      ghost var c0 := names.nameCache;
      var line := InstanceConnection(names, m, conns[k], cellName);
      if line.Fatal? {
        return Fatal(line.message);
      }
      InstanceConnsStable(m, conns[..k], cellName, c0, names.nameCache);
      InstanceConnsStep(m, conns, k, cellName, names.nameCache);
      lines := lines + line.value;
      k := k + 1;
    }
    assert conns[..k] == conns;
    return Ok(lines);
  }

  /** The resolver's inner loop: how far the run of `w`'s bits that starts at `cursor` extends. */
  method ChunkWidth(w: Wire, m: DriverMap, cursor: nat, start: (string, int)) returns (width: nat)
    requires cursor < w.width
    ensures width == Extent(w, m, cursor, start, 1)
  {
    width := 1;
    while cursor + width < w.width
      invariant 1 <= width && cursor + width <= w.width
      invariant Extent(w, m, cursor, start, width) == Extent(w, m, cursor, start, 1)
      decreases w.width - cursor - width
    {
      var stopBit := WireBit(w, cursor + width);
      if stopBit !in m {
        break;
      }
      var stopMap := m[stopBit];
      stopMap := (stopMap.0, stopMap.1 - width);
      if start != stopMap {
        break;
      }
      width := width + 1;
    }
  }

  /** One step of the resolver's walk: the run that starts at `cursor` and its expression. */
  method RunStep(names: NameAllocator, w: Wire, m: DriverMap, cursor: nat, unconn: string)
    returns (newExpr: Expr, width: nat, unconnOut: string, driven: bool, ghost run: Run)
    requires names.Valid() && cursor < w.width
    modifies names
    ensures names.Valid() && names.nameCache == old(names.nameCache)
    ensures 1 <= width && cursor + width <= w.width
    ensures RunsFrom(w, m, cursor) == [run] + RunsFrom(w, m, cursor + width)
    ensures unconn == "" && run.Undriven? ==>
      unconnOut != "" && unconnOut !in old(names.usedNames) && names.usedNames == old(names.usedNames) + {unconnOut}
      && names.drawnIds == old(names.drawnIds) + {unconnOut}
    ensures unconn != "" || run.Driven? ==>
      unconnOut == unconn && names.usedNames == old(names.usedNames) && names.drawnIds == old(names.drawnIds)
    ensures newExpr == RunExpr(run, unconnOut) && driven == run.Driven?
  {
    unconnOut := unconn;
    if WireBit(w, cursor) in m {
      var startMap := m[WireBit(w, cursor)];
      width := ChunkWidth(w, m, cursor, startMap);
      newExpr := Bits(Atom(startMap.0), startMap.1 + width - 1, startMap.1);
      run := Driven(startMap.0, startMap.1, width);
      driven := true;
    } else {
      if unconnOut == "" {
        unconnOut := names.NextId();
      }
      width := 1;
      newExpr := Atom(unconnOut);
      run := Undriven;
      driven := false;
    }
  }

  /**
   * The resolver's walk over the bits of `w`: each run of bits driven by
   * consecutive bits of one signal becomes a `bits` slice, each undriven bit the
   * placeholder `unconn`, drawn with `next_id` when first needed.
   */
  method WireRuns(names: NameAllocator, w: Wire, m: DriverMap, unconn0: string)
    returns (expr: Expr, isValid: bool, makeUnconnId: bool, unconn: string)
    requires names.Valid()
    modifies names
    ensures names.Valid() && names.nameCache == old(names.nameCache)
    ensures isValid <==> AnyDriven(RunsFrom(w, m, 0))
    ensures makeUnconnId <==> unconn0 == "" && AnyUndriven(RunsFrom(w, m, 0))
    ensures makeUnconnId ==>
      unconn != "" && unconn !in old(names.usedNames) && names.usedNames == old(names.usedNames) + {unconn}
      && names.drawnIds == old(names.drawnIds) + {unconn}
    ensures !makeUnconnId ==> unconn == unconn0 && names.usedNames == old(names.usedNames) && names.drawnIds == old(names.drawnIds)
    ensures expr == RunsExpr(RunsFrom(w, m, 0), unconn)
  {
    unconn := unconn0;
    expr := Atom("");
    var cursor := 0;
    isValid := false;
    makeUnconnId := false;
    ghost var done: seq<Run> := [];
    while cursor < w.width
      invariant cursor <= w.width
      invariant done + RunsFrom(w, m, cursor) == RunsFrom(w, m, 0)
      invariant isValid <==> AnyDriven(done)
      invariant makeUnconnId <==> unconn0 == "" && AnyUndriven(done)
      invariant makeUnconnId ==>
        unconn != "" && unconn !in old(names.usedNames) && names.usedNames == old(names.usedNames) + {unconn}
        && names.drawnIds == old(names.drawnIds) + {unconn}
      invariant !makeUnconnId ==> unconn == unconn0 && names.usedNames == old(names.usedNames) && names.drawnIds == old(names.drawnIds)
      invariant names.Valid() && names.nameCache == old(names.nameCache)
      invariant expr == RunsExpr(done, unconn)
      decreases w.width - cursor
    {
      var newExpr, chunkWidth, u, driven, run := RunStep(names, w, m, cursor, unconn);
      if unconn == "" && !driven {
        makeUnconnId := true;
        RunsExprDrivenOnly(done, "", u);
      }
      unconn := u;
      isValid := isValid || driven;
      AppendAssoc(done, [run], RunsFrom(w, m, cursor + chunkWidth));
      RunsExprStep(done, run, unconn);
      AnySnoc(done, run);
      PrintEmpty(expr);
      expr := if expr == Atom("") then newExpr else Op("cat", [newExpr, expr]);
      done := done + [run];
      cursor := cursor + chunkWidth;
    }
    assert done == RunsFrom(w, m, 0);
  }

  /** The names `s` are distinct, none was in use in `before`, and all are in use in `after`. */
  predicate Drawn(s: seq<string>, before: set<string>, after: set<string>)
  {
    (forall i | 0 <= i < |s| :: s[i] !in before && s[i] in after)
    && (forall i, j | 0 <= i < j < |s| :: s[i] != s[j])
  }

  /** No name in `s` is one that `cache` gives to an id. */
  ghost predicate Apart(cache: map<string, string>, s: seq<string>)
  {
    forall k | k in cache :: cache[k] !in s
  }

  /** Names fresh against a set are fresh against any smaller one. */
  lemma DrawnSince(s: seq<string>, before: set<string>, middle: set<string>, after: set<string>)
    requires Drawn(s, middle, after) && before <= middle
    ensures Drawn(s, before, after)
  {
  }

  /** Names drawn in two rounds, the second avoiding all the first used, are all distinct. */
  lemma FreshConcat(ids: seq<string>, used: seq<string>, before: set<string>, middle: set<string>, after: set<string>)
    requires Drawn(ids, before, middle) && Drawn(used, middle, after)
    requires before <= middle <= after
    ensures Drawn(ids + used, before, after)
  {
    forall i, j | 0 <= i < j < |ids + used|
      ensures (ids + used)[i] != (ids + used)[j]
    {
      if i >= |ids| {
        assert (ids + used)[i] == used[i - |ids|] && (ids + used)[j] == used[j - |ids|];
      }
    }
  }

  /** A name fresh against everything used before extends a list of fresh, distinct names. */
  lemma FreshStep(ids: seq<string>, yId: string, used0: set<string>, u0: set<string>, u1: set<string>)
    requires used0 <= u0 && yId !in u0 && yId in u1 && u0 <= u1
    requires forall i | 0 <= i < |ids| :: ids[i] !in used0 && ids[i] in u0
    requires forall i, j | 0 <= i < j < |ids| :: ids[i] != ids[j]
    ensures forall i | 0 <= i < |ids + [yId]| :: (ids + [yId])[i] !in used0 && (ids + [yId])[i] in u1
    ensures forall i, j | 0 <= i < j < |ids + [yId]| :: (ids + [yId])[i] != (ids + [yId])[j]
  {
  }

  /** One more connection's lines, appended to those of the connections `pre`, are those of `pre + [conn]`. */
  lemma ConnsLinesSnoc(pre: seq<(SigSpec, SigSpec)>, conn: (SigSpec, SigSpec), ids: seq<string>, yId: string,
                       c0: map<string, string>, c1: map<string, string>,
                       wd0: seq<string>, ce0: seq<string>, we0: seq<string>, map0: DriverMap, dr0: seq<string>,
                       wd: seq<string>, ce: seq<string>, we: seq<string>, m: DriverMap, dr: seq<string>)
    requires |ids| == |pre| && Extends(c1, c0)
    requires (forall j | 0 <= j < |pre| :: Covers(c0, pre[j].1)) && Covers(c1, conn.1)
    requires
      var l := ConnsLowering(pre, ids, c0);
      var y := ConnLowering(conn, yId, c1);
      wd == wd0 + l.wireDecls + y.wireDecls && ce == ce0 + l.cellExprs + y.cellExprs
      && we == we0 + l.wireExprs + y.wireExprs && m == RegisterAll(RegisterAll(map0, l.drivers), y.drivers)
      && dr == dr0 + ids + [yId]
    ensures forall j | 0 <= j < |pre + [conn]| :: Covers(c1, (pre + [conn])[j].1)
    ensures
      var l := ConnsLowering(pre + [conn], ids + [yId], c1);
      wd == wd0 + l.wireDecls && ce == ce0 + l.cellExprs && we == we0 + l.wireExprs
      && m == RegisterAll(map0, l.drivers) && dr == dr0 + (ids + [yId])
  {
    var prefix := ConnsLowering(pre, ids, c0);
    ConnsLoweringStable(pre, ids, c0, c1);
    var p := pre + [conn];
    forall j | 0 <= j < |p|
      ensures Covers(c1, p[j].1)
    {
      if j < |pre| {
        assert p[j] == pre[j];
      }
    }
    assert p[..|pre|] == pre && p[|pre|] == conn;
    assert (ids + [yId])[..|pre|] == ids && (ids + [yId])[|pre|] == yId;
    EmitConcat(wd0, ce0, we0, map0, prefix, ConnLowering(conn, yId, c1));
    AppendAssoc(dr0, ids, [yId]);
  }

  /** One more connection's lines, appended to those of the first `k`, are those of the first `k + 1`. */
  lemma ConnsLinesStep(conns: seq<(SigSpec, SigSpec)>, k: nat, ids: seq<string>, yId: string,
                       c0: map<string, string>, c1: map<string, string>,
                       wd0: seq<string>, ce0: seq<string>, we0: seq<string>, map0: DriverMap, dr0: seq<string>,
                       wd: seq<string>, ce: seq<string>, we: seq<string>, m: DriverMap, dr: seq<string>)
    requires k < |conns| && |ids| == k && Extends(c1, c0)
    requires (forall j | 0 <= j < k :: Covers(c0, conns[j].1)) && Covers(c1, conns[k].1)
    requires
      var l := ConnsLowering(conns[..k], ids, c0);
      var y := ConnLowering(conns[k], yId, c1);
      wd == wd0 + l.wireDecls + y.wireDecls && ce == ce0 + l.cellExprs + y.cellExprs
      && we == we0 + l.wireExprs + y.wireExprs && m == RegisterAll(RegisterAll(map0, l.drivers), y.drivers)
      && dr == dr0 + ids + [yId]
    ensures forall j | 0 <= j < k + 1 :: Covers(c1, conns[j].1)
    ensures
      var l := ConnsLowering(conns[..k + 1], ids + [yId], c1);
      wd == wd0 + l.wireDecls && ce == ce0 + l.cellExprs && we == we0 + l.wireExprs
      && m == RegisterAll(map0, l.drivers) && dr == dr0 + (ids + [yId])
  {
    SliceSnoc(conns, k);
    ConnsLinesSnoc(conns[..k], conns[k], ids, yId, c0, c1, wd0, ce0, we0, map0, dr0, wd, ce, we, m, dr);
    forall j | 0 <= j < k + 1
      ensures Covers(c1, conns[j].1)
    {
      assert conns[..k + 1][j] == conns[j];
    }
  }

  /** One more wire's resolver lines, appended to those of the first `k`, are those of the first `k + 1`. */
  lemma ResolveLinesStep(wires: seq<Wire>, k: nat, cache: map<string, string>, m: DriverMap, used: seq<string>,
                         drawn: string, consumed: bool, wd0: seq<string>, we0: seq<string>,
                         wd: seq<string>, we: seq<string>, unconn: string)
    requires k < |wires| && WiresNamed(wires, cache) && !wires[k].portInput
    requires WiresNamed(wires[..k], cache) && WiresNamed(wires[..k + 1], cache)
    requires !consumed ==> drawn == ""
    requires
      var s := ResolveWires(wires[..k], cache, m, used);
      var r := ResolveWire(wires[k], cache[wires[k].name], m, s.unconnId, drawn);
      s.used == |used| && consumed == r.consumed && unconn == r.unconnId
      && wd == wd0 + s.wireDecls + r.wireDecls && we == we0 + s.wireExprs + r.wireExprs
    ensures
      var used' := if consumed then used + [drawn] else used;
      var s := ResolveWires(wires[..k + 1], cache, m, used');
      s.used == |used'| && unconn == s.unconnId && wd == wd0 + s.wireDecls && we == we0 + s.wireExprs
  {
    var s := ResolveWires(wires[..k], cache, m, used);
    var r := ResolveWire(wires[k], cache[wires[k].name], m, s.unconnId, drawn);
    assert wires[..k + 1][..k] == wires[..k];
    if consumed {
      ResolveWiresPrefix(wires[..k], cache, m, used, [drawn]);
      assert (used + [drawn])[s.used] == drawn;
    }
    AppendAssoc(wd0, s.wireDecls, r.wireDecls);
    AppendAssoc(we0, s.wireExprs, r.wireExprs);
  }

  class Worker {
    const mod: Module
    const design: Design
    const names: NameAllocator
    var reverseWireMap: DriverMap
    var unconnId: string
    var portDecls: seq<string>
    var wireDecls: seq<string>
    var cellExprs: seq<string>
    var wireExprs: seq<string>
    /** The names `next_id` handed out while lowering, in order. */
    ghost var draws: seq<string>

    ghost predicate Valid()
      reads this, names
    {
      names.Valid()
    }

    constructor (mod: Module, design: Design, names: NameAllocator)
      ensures this.mod == mod && this.design == design && this.names == names
      ensures reverseWireMap == map[] && unconnId == "" && draws == []
      ensures portDecls == [] && wireDecls == [] && cellExprs == [] && wireExprs == []
    {
      this.mod := mod;
      this.design := design;
      this.names := names;
      reverseWireMap := map[];
      unconnId := "";
      portDecls := [];
      wireDecls := [];
      cellExprs := [];
      wireExprs := [];
      draws := [];
    }

    /** Names were only added, and none was handed out by `next_id`. */
    twostate predicate NamesGrew()
      reads this, names
    {
      Grew(names)
    }

    /** The lists grew by exactly the lines of `l`, and its drivers were registered. */
    twostate predicate Emitted(l: Lowered)
      reads this
    {
      portDecls == old(portDecls) && wireDecls == old(wireDecls) + l.wireDecls
      && cellExprs == old(cellExprs) + l.cellExprs && wireExprs == old(wireExprs) + l.wireExprs
      && reverseWireMap == RegisterAll(old(reverseWireMap), l.drivers)
      && unconnId == old(unconnId) && draws == old(draws)
    }

    /** `register_reverse_wire_map`. */
    method RegisterReverseWireMap(id: string, sig: SigSpec)
      modifies this
      ensures Emitted(Lowered([], [], [], [(id, sig)]))
    {
      ghost var m0 := reverseWireMap;
      var m := reverseWireMap;
      for i := 0 to |sig|
        invariant m == Register(m0, id, sig[..i])
      {
        assert sig[..i + 1][..i] == sig[..i];
        m := m[sig[i] := (id, i)];
      }
      assert sig[..|sig|] == sig;
      reverseWireMap := m;
      RegisterAllSnoc(m0, [], id, sig);
      assert [] + [(id, sig)] == [(id, sig)];
    }

    /** The `wire` declaration of a cell's output `yId`, its connection from `e`, and its drivers `y`. */
    method DeclareDriven(yId: string, width: int, e: Expr, y: SigSpec)
      modifies this
      ensures Emitted(Lowered([WireDecl(yId, width)], [Connect(yId, e)], [], [(yId, y)]))
    {
      wireDecls := wireDecls + [WireDecl(yId, width)];
      cellExprs := cellExprs + [Connect(yId, e)];
      RegisterReverseWireMap(yId, y);
    }

    method LowerUnary(cell: Cell)
      requires Valid() && KindOf(cell.cellType) == Unary
      modifies this, names
      ensures NamesGrew() && CellNamed(design, cell, names.nameCache)
      ensures Emitted(UnaryLowering(cell, names.nameCache))
    {
      var yId := Name(names, cell.name);
      ghost var c1 := names.nameCache;
      var isSigned := ParamBool(cell, "\\A_SIGNED");
      var yWidth := Param(cell, "\\Y_WIDTH");
      var aExpr := MakeExpr(names, GetPort(cell, "\\A"));
      ExtendsTrans(names.nameCache, c1, old(names.nameCache));
      var expr := UnaryExpr(cell.cellType, aExpr, isSigned, Param(cell, "\\A_WIDTH"), yWidth);
      assert UnaryLowering(cell, names.nameCache) == Lowered([WireDecl(yId, yWidth)], [Connect(yId, expr)], [], [(yId, GetPort(cell, "\\Y"))]);
      DeclareDriven(yId, yWidth, expr, GetPort(cell, "\\Y"));
    }

    method LowerBinary(cell: Cell)
      requires Valid() && KindOf(cell.cellType) == Binary
      modifies this, names
      ensures NamesGrew() && CellNamed(design, cell, names.nameCache)
      ensures Emitted(BinaryLowering(cell, names.nameCache))
    {
      var yId := Name(names, cell.name);
      var isSigned := ParamBool(cell, "\\A_SIGNED");
      var yWidth := Param(cell, "\\Y_WIDTH");
      var aExpr := MakeExpr(names, GetPort(cell, "\\A"));
      ghost var c0 := names.nameCache;
      var bExpr := MakeExpr(names, GetPort(cell, "\\B"));
      SigExprStable(GetPort(cell, "\\A"), c0, names.nameCache);
      var expr := BinaryExpr(BinaryOpOf(cell.cellType).value, aExpr, bExpr, isSigned, ParamBool(cell, "\\B_SIGNED"),
                             Param(cell, "\\B_WIDTH"), yWidth, IsFullyConst(GetPort(cell, "\\B")));
      assert BinaryLowering(cell, names.nameCache) == Lowered([WireDecl(yId, yWidth)], [Connect(yId, expr)], [], [(yId, GetPort(cell, "\\Y"))]);
      DeclareDriven(yId, yWidth, expr, GetPort(cell, "\\Y"));
    }

    method LowerMux(cell: Cell)
      requires Valid() && KindOf(cell.cellType) == Mux
      modifies this, names
      ensures NamesGrew() && CellNamed(design, cell, names.nameCache)
      ensures Emitted(MuxLowering(cell, names.nameCache))
    {
      var yId := Name(names, cell.name);
      var width := Param(cell, "\\WIDTH");
      var aExpr := MakeExpr(names, GetPort(cell, "\\A"));
      ghost var c0 := names.nameCache;
      var bExpr := MakeExpr(names, GetPort(cell, "\\B"));
      ghost var c1 := names.nameCache;
      var sExpr := MakeExpr(names, GetPort(cell, "\\S"));
      SigExprStable(GetPort(cell, "\\A"), c0, names.nameCache);
      SigExprStable(GetPort(cell, "\\B"), c1, names.nameCache);
      DeclareDriven(yId, width, MuxExpr(sExpr, aExpr, bExpr), GetPort(cell, "\\Y"));
    }

    method LowerShiftx(cell: Cell)
      requires Valid() && KindOf(cell.cellType) == Shiftx
      modifies this, names
      ensures NamesGrew() && CellNamed(design, cell, names.nameCache)
      ensures Emitted(ShiftxLowering(cell, names.nameCache))
    {
      var yId := Name(names, cell.name);
      var yWidth := Param(cell, "\\Y_WIDTH");
      var aExpr := MakeExpr(names, GetPort(cell, "\\A"));
      ghost var c0 := names.nameCache;
      var bExpr := MakeExpr(names, GetPort(cell, "\\B"));
      SigExprStable(GetPort(cell, "\\A"), c0, names.nameCache);
      var expr := ShiftxExpr(aExpr, bExpr, ParamBool(cell, "\\B_SIGNED"), Param(cell, "\\B_WIDTH"));
      DeclareDriven(yId, yWidth, expr, GetPort(cell, "\\Y"));
    }

    method LowerShift(cell: Cell)
      requires Valid() && KindOf(cell.cellType) == Shift
      modifies this, names
      ensures NamesGrew() && CellNamed(design, cell, names.nameCache)
      ensures Emitted(ShiftLowering(cell, names.nameCache))
    {
      var yId := Name(names, cell.name);
      var yWidth := Param(cell, "\\Y_WIDTH");
      var aExpr := MakeExpr(names, GetPort(cell, "\\A"));
      ghost var c0 := names.nameCache;
      var bExpr := MakeExpr(names, GetPort(cell, "\\B"));
      SigExprStable(GetPort(cell, "\\A"), c0, names.nameCache);
      var expr := ShiftExpr(aExpr, bExpr, ParamBool(cell, "\\B_SIGNED"), Param(cell, "\\B_WIDTH"), yWidth);
      DeclareDriven(yId, yWidth, expr, GetPort(cell, "\\Y"));
    }

    /** `$dff`: a negative-edge clock aborts before anything is named. */
    method LowerDff(cell: Cell) returns (ok: bool)
      requires Valid() && KindOf(cell.cellType) == Dff
      modifies this, names
      ensures NamesGrew()
      ensures ok <==> ParamBool(cell, "\\CLK_POLARITY")
      ensures ok ==> CellNamed(design, cell, names.nameCache) && Emitted(DffLowering(cell, names.nameCache))
    {
      var clkpol := ParamBool(cell, "\\CLK_POLARITY");
      if !clkpol {
        return false;
      }
      var qId := Name(names, cell.name);
      var width := Param(cell, "\\WIDTH");
      var expr := MakeExpr(names, GetPort(cell, "\\D"));
      ghost var c0 := names.nameCache;
      var clkExpr := MakeExpr(names, GetPort(cell, "\\CLK"));
      SigExprStable(GetPort(cell, "\\D"), c0, names.nameCache);
      var clk := "asClock(" + Print(clkExpr) + ")";
      wireDecls := wireDecls + ["    reg " + qId + ": UInt<" + IntToString(width) + ">, " + clk + "\n"];
      cellExprs := cellExprs + [Connect(qId, expr)];
      RegisterReverseWireMap(qId, GetPort(cell, "\\Q"));
      return true;
    }

    /** `process_instance`. */
    method LowerInstance(cell: Cell) returns (ok: bool)
      requires Valid() && KindOf(cell.cellType) == Instance
      modifies this, names
      ensures NamesGrew()
      ensures ok <==> !InstanceFatal(design, cell)
      ensures ok ==> CellNamed(design, cell, names.nameCache) && Emitted(InstanceLowering(design, cell, names.nameCache))
    {
      var cellName, instanceOf, header := InstanceHeader(names, cell);
      var found := FindModule(design.modules, cell.cellType);
      if found.None? {
        assert InstanceLowering(design, cell, names.nameCache) == NoLines;
        assert RegisterAll(reverseWireMap, []) == reverseWireMap;
        assert Emitted(NoLines);
        return true;
      }
      ghost var c1 := names.nameCache;
      var conns := InstanceConnections(names, found.value, cell.conns, cellName);
      assert FindModule(design.modules, cell.cellType) == Some(found.value);
      if conns.Fatal? {
        return false;
      }
      assert names.nameCache[cell.name] == c1[cell.name] && names.nameCache[cell.cellType] == c1[cell.cellType];
      var lines := [header] + conns.value + ["\n"];
      assert InstanceLowering(design, cell, names.nameCache) == Lowered([], [], lines, []);
      wireExprs := wireExprs + lines;
      assert RegisterAll(reverseWireMap, []) == reverseWireMap;
      assert Emitted(Lowered([], [], lines, []));
      return true;
    }

    /**
     * Read port `i`: address from RD_ADDR, always enabled, clock tied low; its
     * data drives RD_DATA. `exprs0` and `map0` are the statement list and the
     * reverse wire map before port 0.
     */
    method LowerReadPort(cell: Cell, memId: string, i: nat, ghost exprs0: seq<string>, ghost map0: DriverMap)
      requires Valid() && ReadPortsNamed(cell, names.nameCache, i)
      requires cellExprs == exprs0 + ReadPortLines(cell, memId, names.nameCache, i)
      requires reverseWireMap == RegisterAll(map0, ReadDrivers(cell, memId, i))
      modifies this, names
      ensures NamesGrew() && ReadPortsNamed(cell, names.nameCache, i + 1)
      ensures cellExprs == exprs0 + ReadPortLines(cell, memId, names.nameCache, i + 1)
      ensures reverseWireMap == RegisterAll(map0, ReadDrivers(cell, memId, i + 1))
      ensures portDecls == old(portDecls) && wireDecls == old(wireDecls) && wireExprs == old(wireExprs)
      ensures unconnId == old(unconnId) && draws == old(draws)
    {
      ghost var c0 := names.nameCache;
      var dataSig := RdData(cell, i);
      var addrExpr := MakeExpr(names, RdAddr(cell, i));
      var port := memId + ".r" + NatToString(i);
      ReadPortLinesStable(cell, memId, i, c0, names.nameCache);
      ReadPortsStep(cell, memId, names.nameCache, i);
      AppendAssoc(exprs0, ReadPortLines(cell, memId, names.nameCache, i), ReadPortBlock(port, addrExpr));
      cellExprs := cellExprs + ReadPortBlock(port, addrExpr);
      RegisterReverseWireMap(port + ".data", dataSig);
      assert ReadDrivers(cell, memId, i + 1) == ReadDrivers(cell, memId, i) + [(port + ".data", dataSig)];
      RegisterAllSnoc(map0, ReadDrivers(cell, memId, i), port + ".data", dataSig);
      RegisterAllSnoc(old(reverseWireMap), [], port + ".data", dataSig);
    }

    method LowerReadPorts(cell: Cell, memId: string) returns (ok: bool)
      requires Valid()
      modifies this, names
      ensures NamesGrew()
      ensures ok <==> ReadPortsUnclocked(cell)
      ensures ok ==>
        var n := Count(Param(cell, "\\RD_PORTS"));
        ReadPortsNamed(cell, names.nameCache, n)
        && Emitted(Lowered([], ReadPortLines(cell, memId, names.nameCache, n), [], ReadDrivers(cell, memId, n)))
    {
      var rdPorts := Count(Param(cell, "\\RD_PORTS"));
      var rdClkEnable := ConstParam(cell, "\\RD_CLK_ENABLE");
      ghost var exprs0, map0 := cellExprs, reverseWireMap;
      ghost var cache0, used0 := names.nameCache, names.usedNames;
      var i := 0;
      while i < rdPorts
        invariant 0 <= i <= rdPorts
        invariant names.Valid() && Extends(names.nameCache, cache0) && used0 <= names.usedNames
        invariant names.autoidCounter == old(names.autoidCounter) && names.drawnIds == old(names.drawnIds)
        invariant forall j | 0 <= j < i :: ConstBitAt(rdClkEnable, j) == S0
        invariant ReadPortsNamed(cell, names.nameCache, i)
        invariant cellExprs == exprs0 + ReadPortLines(cell, memId, names.nameCache, i)
        invariant reverseWireMap == RegisterAll(map0, ReadDrivers(cell, memId, i))
        invariant portDecls == old(portDecls) && wireDecls == old(wireDecls) && wireExprs == old(wireExprs)
        invariant unconnId == old(unconnId) && draws == old(draws)
      {
        if ConstBitAt(rdClkEnable, i) != S0 {
          return false;
        }
        assert forall j | 0 <= j < i + 1 :: ConstBitAt(rdClkEnable, j) == S0;
        ghost var c0 := names.nameCache;
        LowerReadPort(cell, memId, i, exprs0, map0);
        ExtendsTrans(names.nameCache, c0, cache0);
        i := i + 1;
      }
      assert wireDecls == old(wireDecls) + [] && wireExprs == old(wireExprs) + [];
      return true;
    }

    method LowerWritePort(cell: Cell, memId: string, i: nat) returns (ok: bool)
      requires Valid()
      modifies this, names
      ensures NamesGrew()
      ensures ok <==> WritePortSupported(cell, i)
      ensures ok ==>
        WritePortNamed(cell, names.nameCache, i)
        && Emitted(Lowered([], WritePortBlock(memId + ".w" + NatToString(i), cell, names.nameCache, i), [], []))
    {
      var lines;
      ok, lines := WritePortBlockLines(names, cell, memId, i);
      if ok {
        cellExprs := cellExprs + lines;
        assert wireDecls == old(wireDecls) + [] && wireExprs == old(wireExprs) + [];
        assert reverseWireMap == RegisterAll(old(reverseWireMap), []);
      }
    }

    /** Every list but the statement list, and the driver map, hold the given values. */
    ghost predicate ExprsOnly(pd0: seq<string>, wd0: seq<string>, we0: seq<string>, m0: DriverMap, un0: string,
                              dr0: seq<string>)
      reads this
    {
      portDecls == pd0 && wireDecls == wd0 && wireExprs == we0 && reverseWireMap == m0 && unconnId == un0 && draws == dr0
    }

    /** One turn of the loop over the write ports, against the statement list `ce0` before port 0. */
    method WritePortNext(cell: Cell, memId: string, i: nat, ghost ce0: seq<string>, ghost cache0: map<string, string>,
                         ghost used0: set<string>, ghost counter0: int, ghost pd0: seq<string>, ghost wd0: seq<string>,
                         ghost we0: seq<string>, ghost m0: DriverMap, ghost un0: string, ghost dr0: seq<string>)
      returns (ok: bool)
      requires Valid() && GrewFrom(names, cache0, used0, counter0) && WritePortsNamed(cell, names.nameCache, i)
      requires cellExprs == ce0 + WritePortLines(cell, memId, names.nameCache, i) && ExprsOnly(pd0, wd0, we0, m0, un0, dr0)
      modifies this, names
      ensures GrewFrom(names, cache0, used0, counter0)
      ensures names.drawnIds == old(names.drawnIds)
      ensures ok <==> WritePortSupported(cell, i)
      ensures ok ==>
        && WritePortsNamed(cell, names.nameCache, i + 1)
        && cellExprs == ce0 + WritePortLines(cell, memId, names.nameCache, i + 1)
        && ExprsOnly(pd0, wd0, we0, m0, un0, dr0)
    {
      ghost var c0 := names.nameCache;
      ok := LowerWritePort(cell, memId, i);
      ExtendsTrans(names.nameCache, c0, cache0);
      if ok {
        WritePortLinesStable(cell, memId, i, c0, names.nameCache);
        WritePortsStep(cell, memId, names.nameCache, i);
        AppendAssoc(ce0, WritePortLines(cell, memId, names.nameCache, i),
                    WritePortBlock(memId + ".w" + NatToString(i), cell, names.nameCache, i));
      }
    }

    method LowerWritePorts(cell: Cell, memId: string) returns (ok: bool)
      requires Valid()
      modifies this, names
      ensures NamesGrew()
      ensures ok <==> WritePortsFatal(cell, 0).None?
      ensures ok ==>
        var n := Count(Param(cell, "\\WR_PORTS"));
        WritePortsNamed(cell, names.nameCache, n)
        && Emitted(Lowered([], WritePortLines(cell, memId, names.nameCache, n), [], []))
    {
      var wrPorts := Count(Param(cell, "\\WR_PORTS"));
      ghost var ce0, cache0, used0, counter0 := cellExprs, names.nameCache, names.usedNames, names.autoidCounter;
      ghost var pd0, wd0, we0, m0, un0, dr0 := portDecls, wireDecls, wireExprs, reverseWireMap, unconnId, draws;
      WritePortsFatalNone(cell, 0);
      var i := 0;
      ok := true;
      while i < wrPorts && ok
        invariant i <= wrPorts
        invariant GrewFrom(names, cache0, used0, counter0)
        invariant names.drawnIds == old(names.drawnIds)
        invariant ok ==> WritePortsSupported(cell, i)
        invariant ok ==> WritePortsNamed(cell, names.nameCache, i)
        invariant ok ==> cellExprs == ce0 + WritePortLines(cell, memId, names.nameCache, i)
        invariant ok ==> ExprsOnly(pd0, wd0, we0, m0, un0, dr0)
        invariant !ok ==> 0 < i && !WritePortSupported(cell, i - 1)
      {
        ok := WritePortNext(cell, memId, i, ce0, cache0, used0, counter0, pd0, wd0, we0, m0, un0, dr0);
        if ok {
          WritePortsSupportedNext(cell, i);
        }
        i := i + 1;
      }
      if ok {
        assert wireDecls == wd0 + [] && wireExprs == we0 + [] && reverseWireMap == RegisterAll(m0, []);
      }
    }

    /** The `$mem` rule: abort on an unsupported memory, else declare it and wire its ports. */
    method LowerMem(cell: Cell) returns (ok: bool)
      requires Valid() && KindOf(cell.cellType) == Mem
      modifies this, names
      ensures NamesGrew()
      ensures ok <==> MemFatal(cell).None?
      ensures ok ==> CellNamed(design, cell, names.nameCache) && Emitted(MemLowering(cell, names.nameCache))
    {
      var memId := Name(names, cell.name);
      var initOk := AllUndefined(ConstParam(cell, "\\INIT"));
      if !initOk {
        return false;
      }
      var offset := Param(cell, "\\OFFSET");
      if offset != 0 {
        return false;
      }
      ghost var c0 := names.nameCache;
      ok := LowerMemPorts(cell, memId);
      ExtendsTrans(names.nameCache, c0, old(names.nameCache));
      assert names.nameCache[cell.name] == memId;
    }

    /** The `mem` declaration and the lines of its read and write ports, in that order. */
    method LowerMemPorts(cell: Cell, memId: string) returns (ok: bool)
      requires Valid()
      modifies this, names
      ensures NamesGrew()
      ensures ok <==> ReadPortsUnclocked(cell) && WritePortsFatal(cell, 0).None?
      ensures ok ==>
        && ReadPortsNamed(cell, names.nameCache, Count(Param(cell, "\\RD_PORTS")))
        && WritePortsNamed(cell, names.nameCache, Count(Param(cell, "\\WR_PORTS")))
        && Emitted(MemPortsLowering(cell, memId, names.nameCache))
    {
      var header := MemHeaderLines(cell, memId);
      cellExprs := cellExprs + header;
      ghost var c0 := names.nameCache;
      ok := LowerReadPorts(cell, memId);
      if !ok {
        return false;
      }
      ghost var c1 := names.nameCache;
      ok := LowerWritePorts(cell, memId);
      if !ok {
        return false;
      }
      var rd := Count(Param(cell, "\\RD_PORTS"));
      ReadPortLinesStable(cell, memId, rd, c1, names.nameCache);
      ghost var readLines := ReadPortLines(cell, memId, names.nameCache, rd);
      AppendAssoc(old(cellExprs), header + readLines,
                  WritePortLines(cell, memId, names.nameCache, Count(Param(cell, "\\WR_PORTS"))));
      AppendAssoc(old(cellExprs), header, readLines);
      return true;
    }

    /** One cell, dispatched in the order `run` tests the type. */
    method LowerCell(cell: Cell) returns (ok: bool)
      requires Valid()
      modifies this, names
      ensures NamesGrew()
      ensures ok <==> !CellFatal(design, cell)
      ensures ok ==> CellNamed(design, cell, names.nameCache) && Emitted(CellLowering(design, cell, names.nameCache))
    {
      match KindOf(cell.cellType)
      case Instance =>
        ok := LowerInstance(cell);
      case Mem =>
        ok := LowerMem(cell);
      case MemPort =>
        var cellType := Name(names, cell.cellType);
        var memId := Name(names, cell.name);
        ok := true;
        assert RegisterAll(reverseWireMap, []) == reverseWireMap;
        assert Emitted(NoLines);
      case Dff =>
        ok := LowerDff(cell);
      case Unsupported =>
        ok := true;
        assert RegisterAll(reverseWireMap, []) == reverseWireMap;
        assert Emitted(NoLines);
      case _ =>
        LowerOperator(cell);
        ok := true;
    }

    /** The cells that become one expression on their output and can never abort. */
    method LowerOperator(cell: Cell)
      requires Valid() && KindOf(cell.cellType) in {Unary, Binary, Mux, Shiftx, Shift}
      modifies this, names
      ensures NamesGrew() && !CellFatal(design, cell)
      ensures CellNamed(design, cell, names.nameCache) && Emitted(CellLowering(design, cell, names.nameCache))
    {
      match KindOf(cell.cellType)
      case Unary =>
        LowerUnary(cell);
        assert CellLowering(design, cell, names.nameCache) == UnaryLowering(cell, names.nameCache);
      case Binary =>
        LowerBinary(cell);
        assert CellLowering(design, cell, names.nameCache) == BinaryLowering(cell, names.nameCache);
      case Mux =>
        LowerMux(cell);
        assert CellLowering(design, cell, names.nameCache) == MuxLowering(cell, names.nameCache);
      case Shiftx =>
        LowerShiftx(cell);
        assert CellLowering(design, cell, names.nameCache) == ShiftxLowering(cell, names.nameCache);
      case Shift =>
        LowerShift(cell);
        assert CellLowering(design, cell, names.nameCache) == ShiftLowering(cell, names.nameCache);
    }

    /** Like `Emitted`, but the lines also used the names `ids` that `next_id` handed out. */
    twostate predicate EmittedDrawing(l: Lowered, ids: seq<string>)
      reads this
    {
      portDecls == old(portDecls) && wireDecls == old(wireDecls) + l.wireDecls
      && cellExprs == old(cellExprs) + l.cellExprs && wireExprs == old(wireExprs) + l.wireExprs
      && reverseWireMap == RegisterAll(old(reverseWireMap), l.drivers)
      && unconnId == old(unconnId) && draws == old(draws) + ids
    }

    /** The first pass over the wires: name each, declare ports and plain wires, refuse inout ports. */
    method DeclareWires() returns (ok: bool)
      requires Valid()
      modifies this, names
      ensures NamesGrew()
      ensures ok <==> forall k | 0 <= k < |mod.wires| :: !InoutPort(mod.wires[k])
      ensures ok ==>
        WiresNamed(mod.wires, names.nameCache)
        && portDecls == old(portDecls) + PortDecls(mod.wires, names.nameCache)
        && wireDecls == old(wireDecls) + InternalWireDecls(mod.wires, names.nameCache)
        && cellExprs == old(cellExprs) && wireExprs == old(wireExprs)
        && reverseWireMap == old(reverseWireMap) && unconnId == old(unconnId) && draws == old(draws)
    {
      var ports, decls;
      ok, ports, decls := WireDeclLines(names, mod.wires);
      if !ok {
        return;
      }
      portDecls := portDecls + ports;
      wireDecls := wireDecls + decls;
    }

    /** The pass over the cells, in order; the first cell that aborts ends it. */
    method LowerCells() returns (ok: bool)
      requires Valid()
      modifies this, names
      ensures NamesGrew()
      ensures ok <==> forall k | 0 <= k < |mod.cells| :: !CellFatal(design, mod.cells[k])
      ensures ok ==>
        (forall k | 0 <= k < |mod.cells| :: CellNamed(design, mod.cells[k], names.nameCache))
        && Emitted(CellsLowering(design, mod.cells, names.nameCache))
    {
      var k := 0;
      while k < |mod.cells|
        invariant 0 <= k <= |mod.cells|
        invariant NamesGrew()
        invariant forall j | 0 <= j < k :: !CellFatal(design, mod.cells[j]) && CellNamed(design, mod.cells[j], names.nameCache)
        invariant Emitted(CellsLowering(design, mod.cells[..k], names.nameCache))
      {
        ghost var c0 := names.nameCache;
        ghost var prefix := CellsLowering(design, mod.cells[..k], c0);
        ok := LowerCell(mod.cells[k]);
        if !ok {
          return false;
        }
        forall j | 0 <= j < k
          ensures CellNamed(design, mod.cells[j], names.nameCache)
        {
          CellLoweringStable(design, mod.cells[j], c0, names.nameCache);
        }
        CellsLoweringStable(design, mod.cells[..k], c0, names.nameCache);
        CellsLoweringStep(design, mod.cells, k, names.nameCache);
        EmitConcat(old(wireDecls), old(cellExprs), old(wireExprs), old(reverseWireMap), prefix,
                   CellLowering(design, mod.cells[k], names.nameCache));
        k := k + 1;
      }
      assert mod.cells[..k] == mod.cells;
      return true;
    }

    /** One connection: a fresh `_N` wire, driven by the right-hand side, driving the left. */
    method LowerConnection(conn: (SigSpec, SigSpec)) returns (yId: string)
      requires Valid()
      modifies this, names
      ensures names.Valid() && Extends(names.nameCache, old(names.nameCache)) && old(names.usedNames) <= names.usedNames
      ensures yId !in old(names.usedNames) && yId in names.usedNames
      ensures yId in names.drawnIds && old(names.drawnIds) <= names.drawnIds
      ensures Covers(names.nameCache, conn.1) && EmittedDrawing(ConnLowering(conn, yId, names.nameCache), [yId])
    {
      yId := names.NextId();
      var yWidth := |conn.0|;
      var expr := MakeExpr(names, conn.1);
      wireDecls := wireDecls + [WireDecl(yId, yWidth)];
      cellExprs := cellExprs + [Connect(yId, expr)];
      RegisterReverseWireMap(yId, conn.0);
      draws := draws + [yId];
    }

    /**
     * The names after lowering the first `k` connections, against the names
     * before the pass: those drawn so far are `ids`, fresh and distinct.
     */
    ghost predicate ConnsFresh(k: nat, ids: seq<string>, cache0: map<string, string>, used0: set<string>)
      reads this, names
    {
      k <= |mod.connections| && |ids| == k
      && names.Valid() && Extends(names.nameCache, cache0) && used0 <= names.usedNames
      && (forall i | 0 <= i < |ids| :: ids[i] in names.drawnIds)
      && (forall i | 0 <= i < |ids| :: ids[i] !in used0 && ids[i] in names.usedNames)
      && (forall i, j | 0 <= i < j < |ids| :: ids[i] != ids[j])
      && (forall j | 0 <= j < k :: Covers(names.nameCache, mod.connections[j].1))
    }

    /** The lines after lowering the first `k` connections, against those before the pass. */
    ghost predicate ConnsEmitted(k: nat, ids: seq<string>, wd0: seq<string>, ce0: seq<string>, we0: seq<string>,
                                 map0: DriverMap, dr0: seq<string>, pd0: seq<string>, un0: string)
      reads this, names
      requires k <= |mod.connections| && |ids| == k
      requires forall j | 0 <= j < k :: Covers(names.nameCache, mod.connections[j].1)
    {
      var l := ConnsLowering(mod.connections[..k], ids, names.nameCache);
      portDecls == pd0 && wireDecls == wd0 + l.wireDecls && cellExprs == ce0 + l.cellExprs
      && wireExprs == we0 + l.wireExprs && reverseWireMap == RegisterAll(map0, l.drivers)
      && unconnId == un0 && draws == dr0 + ids
    }

    /** The loop body of the pass over the connections: `ConnsFresh` and `ConnsEmitted` move from `k` to `k + 1`. */
    method ConnectionStep(k: nat, ghost ids: seq<string>, ghost cache0: map<string, string>, ghost used0: set<string>,
                          ghost wd0: seq<string>, ghost ce0: seq<string>, ghost we0: seq<string>, ghost map0: DriverMap,
                          ghost dr0: seq<string>, ghost pd0: seq<string>, ghost un0: string)
      returns (yId: string)
      requires k < |mod.connections| && ConnsFresh(k, ids, cache0, used0)
      requires ConnsEmitted(k, ids, wd0, ce0, we0, map0, dr0, pd0, un0)
      modifies this, names
      ensures ConnsFresh(k + 1, ids + [yId], cache0, used0) && old(names.drawnIds) <= names.drawnIds
      ensures ConnsEmitted(k + 1, ids + [yId], wd0, ce0, we0, map0, dr0, pd0, un0)
    {
      ghost var c0 := names.nameCache;
      ghost var u0 := names.usedNames;
      yId := LowerConnection(mod.connections[k]);
      ghost var c1 := names.nameCache;
      ConnsLinesStep(mod.connections, k, ids, yId, c0, c1, wd0, ce0, we0, map0, dr0,
                     wireDecls, cellExprs, wireExprs, reverseWireMap, draws);
      ExtendsTrans(c1, c0, cache0);
      FreshStep(ids, yId, used0, u0, names.usedNames);
    }

    /** The pass over `module->connections()`. */
    method LowerConnections() returns (ghost ids: seq<string>)
      requires Valid()
      modifies this, names
      ensures names.Valid() && Extends(names.nameCache, old(names.nameCache)) && old(names.usedNames) <= names.usedNames
      ensures |ids| == |mod.connections|
      ensures forall i | 0 <= i < |ids| :: ids[i] !in old(names.usedNames) && ids[i] in names.usedNames
      ensures forall i, j | 0 <= i < j < |ids| :: ids[i] != ids[j]
      ensures (forall i | 0 <= i < |ids| :: ids[i] in names.drawnIds) && old(names.drawnIds) <= names.drawnIds
      ensures forall k | 0 <= k < |mod.connections| :: Covers(names.nameCache, mod.connections[k].1)
      ensures EmittedDrawing(ConnsLowering(mod.connections, ids, names.nameCache), ids)
    {
      ghost var cache0, used0 := names.nameCache, names.usedNames;
      ghost var wd0, ce0, we0, map0 := wireDecls, cellExprs, wireExprs, reverseWireMap;
      ghost var dr0, pd0, un0 := draws, portDecls, unconnId;
      ids := [];
      assert mod.connections[..0] == [];
      var n := |mod.connections|;
      var k := 0;
      while k < n
        invariant k <= n
        invariant ConnsFresh(k, ids, cache0, used0) && old(names.drawnIds) <= names.drawnIds
        invariant ConnsEmitted(k, ids, wd0, ce0, we0, map0, dr0, pd0, un0)
      {
        var yId := ConnectionStep(k, ids, cache0, used0, wd0, ce0, we0, map0, dr0, pd0, un0);
        ids := ids + [yId];
        k := k + 1;
      }
      assert ConnsFresh(n, ids, cache0, used0);
      assert ConnsEmitted(n, ids, wd0, ce0, we0, map0, dr0, pd0, un0);
      assert mod.connections[..n] == mod.connections;
    }

    /**
     * The resolver for one wire that is not an input: it walks the wire's bits,
     * joins each run of bits driven by consecutive bits of one signal into a
     * `bits` slice, and gives undriven bits the shared placeholder, drawn with
     * `next_id` when first needed and dropped again if the wire has no driven bit.
     */
    method ResolveWireLines(w: Wire) returns (ghost drawn: string, ghost consumed: bool)
      requires Valid() && w.name in names.nameCache
      modifies this, names
      ensures names.Valid() && names.nameCache == old(names.nameCache)
      ensures
        var r := ResolveWire(w, names.nameCache[w.name], reverseWireMap, old(unconnId), drawn);
        consumed == r.consumed && unconnId == r.unconnId
        && wireDecls == old(wireDecls) + r.wireDecls && wireExprs == old(wireExprs) + r.wireExprs
      ensures consumed ==>
        drawn !in old(names.usedNames) && names.usedNames == old(names.usedNames) + {drawn} && draws == old(draws) + [drawn]
        && drawn in names.drawnIds
      ensures !consumed ==> drawn == "" && names.usedNames == old(names.usedNames) && draws == old(draws)
      ensures old(names.drawnIds) <= names.drawnIds
      ensures portDecls == old(portDecls) && cellExprs == old(cellExprs) && reverseWireMap == old(reverseWireMap)
    {
      var expr, isValid, makeUnconnId, unconn := WireRuns(names, w, reverseWireMap, unconnId);
      drawn := if makeUnconnId then unconn else "";
      var name := Name(names, w.name);
      if isValid {
        if makeUnconnId {
          wireDecls := wireDecls + [WireDecl(unconn, 1), Invalid(unconn)];
        }
        wireExprs := wireExprs + [Connect(name, expr)];
      } else {
        if makeUnconnId {
          unconn := "";
        }
        wireDecls := wireDecls + [Invalid(name)];
      }
      unconnId := unconn;
      consumed := makeUnconnId;
      if consumed {
        draws := draws + [drawn];
      }
    }

    /** The names after resolving the first `k` wires: those drawn so far are `used`, fresh and distinct. */
    ghost predicate ResolveFresh(k: nat, used: seq<string>, cache0: map<string, string>, used0: set<string>)
      reads this, names
    {
      k <= |mod.wires| && WiresNamed(mod.wires, cache0)
      && names.Valid() && names.nameCache == cache0 && used0 <= names.usedNames
      && Drawn(used, used0, names.usedNames) && (forall i | 0 <= i < |used| :: used[i] in names.drawnIds)
    }

    /** The lines after resolving the first `k` wires, against those before the pass. */
    ghost predicate ResolveEmitted(k: nat, used: seq<string>, cache0: map<string, string>, wd0: seq<string>,
                                   we0: seq<string>, dr0: seq<string>, pd0: seq<string>, ce0: seq<string>,
                                   map0: DriverMap)
      reads this
      requires k <= |mod.wires| && WiresNamed(mod.wires, cache0)
    {
      assert WiresNamed(mod.wires[..k], cache0);
      var s := ResolveWires(mod.wires[..k], cache0, map0, used);
      s.used == |used| && unconnId == s.unconnId
      && wireDecls == wd0 + s.wireDecls && wireExprs == we0 + s.wireExprs
      && draws == dr0 + used && portDecls == pd0 && cellExprs == ce0 && reverseWireMap == map0
    }

    /** The loop body of the resolver: `ResolveFresh` and `ResolveEmitted` move from `k` to `k + 1`. */
    method ResolveStep(k: nat, ghost used: seq<string>, ghost cache0: map<string, string>, ghost used0: set<string>,
                       ghost wd0: seq<string>, ghost we0: seq<string>, ghost dr0: seq<string>, ghost pd0: seq<string>,
                       ghost ce0: seq<string>, ghost map0: DriverMap)
      returns (ghost used': seq<string>)
      requires k < |mod.wires| && ResolveFresh(k, used, cache0, used0)
      requires ResolveEmitted(k, used, cache0, wd0, we0, dr0, pd0, ce0, map0)
      modifies this, names
      ensures ResolveFresh(k + 1, used', cache0, used0) && old(names.drawnIds) <= names.drawnIds
      ensures ResolveEmitted(k + 1, used', cache0, wd0, we0, dr0, pd0, ce0, map0)
    {
      var w := mod.wires[k];
      assert WiresNamed(mod.wires[..k + 1], cache0);
      assert mod.wires[..k + 1][..k] == mod.wires[..k];
      used' := used;
      if !w.portInput {
        ghost var u0 := names.usedNames;
        ghost var s := ResolveWires(mod.wires[..k], cache0, map0, used);
        var drawn, consumed := ResolveWireLines(w);
        ResolveLinesStep(mod.wires, k, cache0, map0, used, drawn, consumed, wd0, we0,
                         wireDecls, wireExprs, unconnId);
        if consumed {
          FreshStep(used, drawn, used0, u0, names.usedNames);
          AppendAssoc(dr0, used, [drawn]);
          used' := used + [drawn];
        }
      }
    }

    /** The resolver's lines for all wires were appended to `wd0` and `we0`, drawing the names `used`. */
    ghost predicate Resolved(used: seq<string>, cache: map<string, string>, m: DriverMap, wd0: seq<string>, we0: seq<string>)
      reads this
      requires WiresNamed(mod.wires, cache)
    {
      var s := ResolveWires(mod.wires, cache, m, used);
      s.used == |used| && unconnId == s.unconnId && wireDecls == wd0 + s.wireDecls && wireExprs == we0 + s.wireExprs
    }

    /** The pass over the wires that resolves every one that is not an input. */
    method ResolveOutputs() returns (ghost used: seq<string>)
      requires Valid() && WiresNamed(mod.wires, names.nameCache) && unconnId == ""
      modifies this, names
      ensures names.Valid() && names.nameCache == old(names.nameCache) && old(names.usedNames) <= names.usedNames
      ensures WiresNamed(mod.wires, names.nameCache)
      ensures Resolved(used, names.nameCache, reverseWireMap, old(wireDecls), old(wireExprs))
      ensures draws == old(draws) + used && Drawn(used, old(names.usedNames), names.usedNames)
      ensures (forall i | 0 <= i < |used| :: used[i] in names.drawnIds) && old(names.drawnIds) <= names.drawnIds
      ensures portDecls == old(portDecls) && cellExprs == old(cellExprs) && reverseWireMap == old(reverseWireMap)
    {
      ghost var cache0, used0 := names.nameCache, names.usedNames;
      ghost var wd0, we0, dr0 := wireDecls, wireExprs, draws;
      ghost var pd0, ce0, map0 := portDecls, cellExprs, reverseWireMap;
      used := [];
      assert mod.wires[..0] == [];
      assert wireDecls == wd0 + [] && wireExprs == we0 + [] && draws == dr0 + [];
      var n := |mod.wires|;
      var k := 0;
      while k < n
        invariant k <= n
        invariant ResolveFresh(k, used, cache0, used0) && old(names.drawnIds) <= names.drawnIds
        invariant ResolveEmitted(k, used, cache0, wd0, we0, dr0, pd0, ce0, map0)
      {
        used := ResolveStep(k, used, cache0, used0, wd0, we0, dr0, pd0, ce0, map0);
        k := k + 1;
      }
      assert ResolveFresh(n, used, cache0, used0);
      assert ResolveEmitted(n, used, cache0, wd0, we0, dr0, pd0, ce0, map0);
      assert mod.wires[..n] == mod.wires;
      assert Resolved(used, cache0, map0, wd0, we0);
    }


    /** The lowering's state before `run` has collected anything. */
    ghost predicate Empty()
      reads this
    {
      reverseWireMap == map[] && unconnId == "" && draws == []
      && portDecls == [] && wireDecls == [] && cellExprs == [] && wireExprs == []
    }

    /** The passes over the wires and the cells: the module's declarations and its cells' lines. */
    method Declare() returns (ok: bool)
      requires Valid() && Empty()
      modifies this, names
      ensures NamesGrew()
      ensures ok <==> !ModuleFatal(design, mod)
      ensures ok ==>
        WiresNamed(mod.wires, names.nameCache)
        && (forall k | 0 <= k < |mod.cells| ::
              !CellFatal(design, mod.cells[k]) && CellNamed(design, mod.cells[k], names.nameCache))
      ensures ok ==>
        var cells := CellsLowering(design, mod.cells, names.nameCache);
        portDecls == PortDecls(mod.wires, names.nameCache)
        && wireDecls == InternalWireDecls(mod.wires, names.nameCache) + cells.wireDecls
        && cellExprs == cells.cellExprs && wireExprs == cells.wireExprs
        && reverseWireMap == RegisterAll(map[], cells.drivers) && unconnId == "" && draws == []
    {
      ok := DeclareWires();
      if !ok {
        return;
      }
      ghost var c2 := names.nameCache;
      ghost var decls := InternalWireDecls(mod.wires, c2);
      assert portDecls == PortDecls(mod.wires, c2) && wireDecls == decls;
      ok := LowerCells();
      if !ok {
        return;
      }
      WireDeclsStable(mod.wires, c2, names.nameCache);
      assert wireDecls == decls + CellsLowering(design, mod.cells, names.nameCache).wireDecls;
    }

    /**
     * The lines of the connections (named `ids`) and of the resolver (drawing
     * `used`) follow those there were before, and the connections' drivers are registered.
     */
    ghost predicate Driven(ids: seq<string>, used: seq<string>, cache: map<string, string>, m0: DriverMap,
                           pd0: seq<string>, wd0: seq<string>, ce0: seq<string>, we0: seq<string>)
      reads this
      requires WiresNamed(mod.wires, cache) && |ids| == |mod.connections|
      requires forall k | 0 <= k < |mod.connections| :: Covers(cache, mod.connections[k].1)
    {
      var conns := ConnsLowering(mod.connections, ids, cache);
      var res := ResolveWires(mod.wires, cache, RegisterAll(m0, conns.drivers), used);
      portDecls == pd0
      && wireDecls == wd0 + conns.wireDecls + res.wireDecls
      && cellExprs == ce0 + conns.cellExprs
      && wireExprs == we0 + conns.wireExprs + res.wireExprs
      && reverseWireMap == RegisterAll(m0, conns.drivers)
    }

    /** The connections and the resolver: every `next_id` name the module draws. */
    method Drive() returns (ghost ids: seq<string>, ghost used: seq<string>)
      requires Valid() && WiresNamed(mod.wires, names.nameCache) && unconnId == "" && draws == []
      modifies this, names
      ensures names.Valid() && Extends(names.nameCache, old(names.nameCache)) && old(names.usedNames) <= names.usedNames
      ensures WiresNamed(mod.wires, names.nameCache) && |ids| == |mod.connections|
      ensures forall k | 0 <= k < |mod.connections| :: Covers(names.nameCache, mod.connections[k].1)
      ensures Driven(ids, used, names.nameCache, old(reverseWireMap), old(portDecls), old(wireDecls), old(cellExprs),
                     old(wireExprs))
      ensures draws == ids + used && Drawn(draws, old(names.usedNames), names.usedNames)
      ensures (forall i | 0 <= i < |draws| :: draws[i] in names.drawnIds) && old(names.drawnIds) <= names.drawnIds
    {
      ghost var c3 := names.nameCache;
      ghost var wd0, ce0, we0, map0 := wireDecls, cellExprs, wireExprs, reverseWireMap;
      ghost var pd0 := portDecls;
      ids := LowerConnections();
      ghost var c4, u4 := names.nameCache, names.usedNames;
      ghost var conns := ConnsLowering(mod.connections, ids, c4);
      ghost var wd1, we1 := wireDecls, wireExprs;
      assert wd1 == wd0 + conns.wireDecls && we1 == we0 + conns.wireExprs;
      assert reverseWireMap == RegisterAll(map0, conns.drivers) && draws == ids;
      WireDeclsStable(mod.wires, c3, c4);
      used := ResolveOutputs();
      ghost var res := ResolveWires(mod.wires, c4, reverseWireMap, used);
      assert wireDecls == wd1 + res.wireDecls && wireExprs == we1 + res.wireExprs;
      assert Drawn(ids, old(names.usedNames), u4) && Drawn(used, u4, names.usedNames);
      FreshConcat(ids, used, old(names.usedNames), u4, names.usedNames);
      assert Driven(ids, used, c4, map0, pd0, wd0, ce0, we0);
    }

    /**
     * `run`: the module header, the pass over the wires, the pass over the
     * cells, the connections, the resolver, and the four lists written out.
     * It aborts exactly on an inout port or a cell that cannot be lowered.
     */
    method Run() returns (ok: bool, text: seq<string>)
      requires Valid() && Empty()
      modifies this, names
      ensures names.Valid() && Extends(names.nameCache, old(names.nameCache)) && old(names.usedNames) <= names.usedNames
      ensures ok <==> !ModuleFatal(design, mod)
      ensures ok ==> LoweredAs(design, mod, names.nameCache, draws, text)
      ensures ok ==>
        var l := LowerModule(design, mod, names.nameCache, draws);
        portDecls == l.portDecls && wireDecls == l.wireDecls && cellExprs == l.cellExprs && wireExprs == l.wireExprs
      ensures ok ==> Drawn(draws, old(names.usedNames), names.usedNames)
      ensures ok ==> (forall i | 0 <= i < |draws| :: draws[i] in names.drawnIds) && old(names.drawnIds) <= names.drawnIds
    {
      text := [];
      var moduleName := Name(names, mod.name);
      ok := Declare();
      if !ok {
        return;
      }
      ghost var c2, c2u := names.nameCache, names.usedNames;
      ghost var ids, used := Drive();
      CellsLoweringStable(design, mod.cells, c2, names.nameCache);
      WireDeclsStable(mod.wires, c2, names.nameCache);
      LowerModuleSplit(design, mod, names.nameCache, ids, used);
      text := ModuleText(moduleName, portDecls, wireDecls, cellExprs, wireExprs);
      LoweredAsText(design, mod, names.nameCache, draws, text);
      DrawnSince(draws, old(names.usedNames), c2u, names.usedNames);
    }
  }
}
