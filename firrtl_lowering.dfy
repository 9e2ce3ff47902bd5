/**
 * What `FirrtlWorker::run` (backends/firrtl/firrtl.cc) adds to its four lists of
 * statements for each wire, cell and connection of a module, written as
 * functions of the name cache `make_id` has filled. The worker's methods are
 * proved to emit exactly these lines.
 */
module FirrtlLowering {
  import opened Text
  import opened Wrappers
  import opened Netlist
  import opened FirrtlNames
  import opened FirrtlExpr
  import opened FirrtlCells

  /** The lines one step adds to `wire_decls`, `cell_exprs` and `wire_exprs`, and the signals it drives. */
  datatype Lowered = Lowered(wireDecls: seq<string>, cellExprs: seq<string>, wireExprs: seq<string>,
                             drivers: seq<(string, SigSpec)>)

  const NoLines := Lowered([], [], [], [])

  function Concat(x: Lowered, y: Lowered): Lowered
  {
    Lowered(x.wireDecls + y.wireDecls, x.cellExprs + y.cellExprs, x.wireExprs + y.wireExprs, x.drivers + y.drivers)
  }

  lemma SliceSnoc<T>(s: seq<T>, k: nat)
    requires k < |s|
    ensures s[..k + 1] == s[..k] + [s[k]]
  {
  }

  lemma AppendAssoc<T>(a: seq<T>, b: seq<T>, c: seq<T>)
    ensures a + (b + c) == a + b + c
  {
  }

  function WireDecl(id: string, width: int): string
  {
    "    wire " + id + ": UInt<" + IntToString(width) + ">\n"
  }

  function Connect(sink: string, e: Expr): string
  {
    "    " + sink + " <= " + Print(e) + "\n"
  }

  function Invalid(id: string): string
  {
    "    " + id + " is invalid\n"
  }

  function PortDecl(w: Wire, id: string): string
  {
    "    " + (if w.portInput then "input" else "output") + " " + id + ": UInt<" + IntToString(w.width) + ">\n"
  }

  // ---- which rule a cell takes ----

  datatype CellKind = Instance | Unary | Binary | Mux | Mem | MemPort | Dff | Shiftx | Shift | Unsupported

  /** The order in which `run` tests the cell type. */
  function KindOf(t: string): CellKind
  {
    if t == [] || t[0] != '$' then Instance
    else if UnaryOpOf(t).Some? then Unary
    else if BinaryOpOf(t).Some? then Binary
    else if t == "$mux" then Mux
    else if t == "$mem" then Mem
    else if t == "$memwr" || t == "$memrd" then MemPort
    else if t == "$dff" then Dff
    else if IsParamod(t) then Instance
    else if t == "$shiftx" then Shiftx
    else if t == "$shift" then Shift
    else Unsupported
  }

  /** A cell is lowered as an instance iff its type is not internal (`$…`) or names a `$paramod`. */
  lemma KindOfInstance(t: string)
    ensures KindOf(t) == Instance <==> (t == [] || t[0] != '$' || IsParamod(t))
  {
    if IsParamod(t) {
      assert t[1] == "$paramod"[1] == 'p';
      assert UnaryOpOf(t).None? && BinaryOpOf(t).None?;
    }
  }

  // ---- conditions that abort the run ----

  /** `getPortFDirection` throws: the instantiated module lacks a port the cell connects. */
  predicate InstanceFatal(design: Design, cell: Cell)
  {
    match FindModule(design.modules, cell.cellType)
    case None => false
    case Some(m) =>
      exists k | 0 <= k < |cell.conns| :: |cell.conns[k].sig| > 0 && FindWire(m.wires, cell.conns[k].port).None?
  }

  predicate CellFatal(design: Design, cell: Cell)
  {
    match KindOf(cell.cellType)
    case Instance => InstanceFatal(design, cell)
    case Mem => MemFatal(cell).Some?
    case Dff => !ParamBool(cell, "\\CLK_POLARITY")
    case _ => false
  }

  // ---- the memory's per-port signals ----

  function RdAddr(cell: Cell, i: nat): SigSpec
  {
    var abits := Count(Param(cell, "\\ABITS"));
    Slice(GetPort(cell, "\\RD_ADDR"), i, abits)
  }

  function RdData(cell: Cell, i: nat): SigSpec
  {
    var width := Count(Param(cell, "\\WIDTH"));
    Slice(GetPort(cell, "\\RD_DATA"), i, width)
  }

  function WrAddr(cell: Cell, i: nat): SigSpec
  {
    var abits := Count(Param(cell, "\\ABITS"));
    Slice(GetPort(cell, "\\WR_ADDR"), i, abits)
  }

  function WrData(cell: Cell, i: nat): SigSpec
  {
    var width := Count(Param(cell, "\\WIDTH"));
    Slice(GetPort(cell, "\\WR_DATA"), i, width)
  }

  function WrClk(cell: Cell, i: nat): SigSpec
  {
    Extract(GetPort(cell, "\\WR_CLK"), i, 1)
  }

  /** `wen_sig[0]`, the bit that enables the whole word. */
  function WrEnBit(cell: Cell, i: nat): SigSpec
  {
    var width := Count(Param(cell, "\\WIDTH"));
    var wen := Slice(GetPort(cell, "\\WR_EN"), i, width);
    if wen == [] then [] else [wen[0]]
  }

  /** The names `make_id` must have given before a cell's lines can be written. */
  ghost predicate CellNamed(design: Design, cell: Cell, cache: map<string, string>)
  {
    match KindOf(cell.cellType)
    case Instance =>
      cell.cellType in cache && cell.name in cache &&
      (FindModule(design.modules, cell.cellType).Some? ==> ConnsNamed(cache, cell.conns))
    case Unary => cell.name in cache && Covers(cache, GetPort(cell, "\\A"))
    case Binary => cell.name in cache && Covers(cache, GetPort(cell, "\\A")) && Covers(cache, GetPort(cell, "\\B"))
    case Mux =>
      cell.name in cache && Covers(cache, GetPort(cell, "\\A")) && Covers(cache, GetPort(cell, "\\B"))
      && Covers(cache, GetPort(cell, "\\S"))
    case Mem =>
      cell.name in cache && ReadPortsNamed(cell, cache, Count(Param(cell, "\\RD_PORTS")))
      && WritePortsNamed(cell, cache, Count(Param(cell, "\\WR_PORTS")))
    case MemPort => cell.cellType in cache && cell.name in cache
    case Dff => cell.name in cache && Covers(cache, GetPort(cell, "\\D")) && Covers(cache, GetPort(cell, "\\CLK"))
    case Shiftx => cell.name in cache && Covers(cache, GetPort(cell, "\\A")) && Covers(cache, GetPort(cell, "\\B"))
    case Shift => cell.name in cache && Covers(cache, GetPort(cell, "\\A")) && Covers(cache, GetPort(cell, "\\B"))
    case Unsupported => true
  }

  ghost predicate ConnsNamed(cache: map<string, string>, conns: seq<Conn>)
  {
    forall k | 0 <= k < |conns| && |conns[k].sig| > 0 :: conns[k].port in cache && Covers(cache, conns[k].sig)
  }

  /** The address of every read port below `n` has its names. */
  ghost predicate ReadPortsNamed(cell: Cell, cache: map<string, string>, n: nat)
  {
    forall i: nat | i < n :: Covers(cache, RdAddr(cell, i))
  }

  ghost predicate WritePortNamed(cell: Cell, cache: map<string, string>, i: nat)
  {
    Covers(cache, WrAddr(cell, i)) && Covers(cache, WrData(cell, i)) && Covers(cache, WrClk(cell, i))
    && Covers(cache, WrEnBit(cell, i))
  }

  ghost predicate WritePortsNamed(cell: Cell, cache: map<string, string>, n: nat)
  {
    forall i: nat | i < n :: WritePortNamed(cell, cache, i)
  }

  // ---- the lines of each rule ----

  function UnaryLowering(cell: Cell, cache: map<string, string>): Lowered
    requires KindOf(cell.cellType) == Unary && cell.name in cache && Covers(cache, GetPort(cell, "\\A"))
  {
    var yId := cache[cell.name];
    var yWidth := Param(cell, "\\Y_WIDTH");
    var e := UnaryExpr(cell.cellType, SigExpr(GetPort(cell, "\\A"), cache), ParamBool(cell, "\\A_SIGNED"),
                       Param(cell, "\\A_WIDTH"), yWidth);
    Lowered([WireDecl(yId, yWidth)], [Connect(yId, e)], [], [(yId, GetPort(cell, "\\Y"))])
  }

  function BinaryLowering(cell: Cell, cache: map<string, string>): Lowered
    requires KindOf(cell.cellType) == Binary && cell.name in cache
    requires Covers(cache, GetPort(cell, "\\A")) && Covers(cache, GetPort(cell, "\\B"))
  {
    var yId := cache[cell.name];
    var yWidth := Param(cell, "\\Y_WIDTH");
    var e := BinaryExpr(BinaryOpOf(cell.cellType).value, SigExpr(GetPort(cell, "\\A"), cache),
                        SigExpr(GetPort(cell, "\\B"), cache), ParamBool(cell, "\\A_SIGNED"),
                        ParamBool(cell, "\\B_SIGNED"), Param(cell, "\\B_WIDTH"), yWidth,
                        IsFullyConst(GetPort(cell, "\\B")));
    Lowered([WireDecl(yId, yWidth)], [Connect(yId, e)], [], [(yId, GetPort(cell, "\\Y"))])
  }

  function MuxLowering(cell: Cell, cache: map<string, string>): Lowered
    requires cell.name in cache && Covers(cache, GetPort(cell, "\\A")) && Covers(cache, GetPort(cell, "\\B"))
    requires Covers(cache, GetPort(cell, "\\S"))
  {
    var yId := cache[cell.name];
    var e := MuxExpr(SigExpr(GetPort(cell, "\\S"), cache), SigExpr(GetPort(cell, "\\A"), cache),
                     SigExpr(GetPort(cell, "\\B"), cache));
    Lowered([WireDecl(yId, Param(cell, "\\WIDTH"))], [Connect(yId, e)], [], [(yId, GetPort(cell, "\\Y"))])
  }

  function ShiftxLowering(cell: Cell, cache: map<string, string>): Lowered
    requires cell.name in cache && Covers(cache, GetPort(cell, "\\A")) && Covers(cache, GetPort(cell, "\\B"))
  {
    var yId := cache[cell.name];
    var e := ShiftxExpr(SigExpr(GetPort(cell, "\\A"), cache), SigExpr(GetPort(cell, "\\B"), cache),
                        ParamBool(cell, "\\B_SIGNED"), Param(cell, "\\B_WIDTH"));
    Lowered([WireDecl(yId, Param(cell, "\\Y_WIDTH"))], [Connect(yId, e)], [], [(yId, GetPort(cell, "\\Y"))])
  }

  function ShiftLowering(cell: Cell, cache: map<string, string>): Lowered
    requires cell.name in cache && Covers(cache, GetPort(cell, "\\A")) && Covers(cache, GetPort(cell, "\\B"))
  {
    var yId := cache[cell.name];
    var e := ShiftExpr(SigExpr(GetPort(cell, "\\A"), cache), SigExpr(GetPort(cell, "\\B"), cache),
                       ParamBool(cell, "\\B_SIGNED"), Param(cell, "\\B_WIDTH"), Param(cell, "\\Y_WIDTH"));
    Lowered([WireDecl(yId, Param(cell, "\\Y_WIDTH"))], [Connect(yId, e)], [], [(yId, GetPort(cell, "\\Y"))])
  }

  /** `$dff`: a register clocked by CLK, assigned from D. */
  function DffLowering(cell: Cell, cache: map<string, string>): Lowered
    requires cell.name in cache && Covers(cache, GetPort(cell, "\\D")) && Covers(cache, GetPort(cell, "\\CLK"))
  {
    var q := cache[cell.name];
    var clk := "asClock(" + Print(SigExpr(GetPort(cell, "\\CLK"), cache)) + ")";
    Lowered(["    reg " + q + ": UInt<" + IntToString(Param(cell, "\\WIDTH")) + ">, " + clk + "\n"],
            [Connect(q, SigExpr(GetPort(cell, "\\D"), cache))], [], [(q, GetPort(cell, "\\Q"))])
  }

  /** One `reader`/`writer` line per port `0 .. n - 1`, each `prefix` followed by the port number. */
  function MemPortDecls(prefix: string, n: nat): seq<string>
  {
    seq(n, i requires 0 <= i => prefix + NatToString(i) + "\n")
  }

  /** The `mem` declaration: type, depth, one reader and writer per port, fixed latencies. */
  function MemHeader(cell: Cell, memId: string): seq<string>
  {
    ["    mem " + memId + ":\n",
     "      data-type => UInt<" + IntToString(Param(cell, "\\WIDTH")) + ">\n",
     "      depth => " + IntToString(Param(cell, "\\SIZE")) + "\n"]
    + MemPortDecls("      reader => r", Count(Param(cell, "\\RD_PORTS")))
    + MemPortDecls("      writer => w", Count(Param(cell, "\\WR_PORTS")))
    + ["      read-latency => 0\n", "      write-latency => 1\n", "      read-under-write => undefined\n"]
  }

  function ReadPortBlock(port: string, addr: Expr): seq<string>
  {
    [Connect(port + ".addr", addr),
     Connect(port + ".en", Atom("UInt<1>(1)")),
     Connect(port + ".clk", Atom("asClock(UInt<1>(0))"))]
  }

  /** The lines of read ports `0 .. n - 1`. */
  function ReadPortLines(cell: Cell, memId: string, cache: map<string, string>, n: nat): seq<string>
    requires ReadPortsNamed(cell, cache, n)
  {
    if n == 0 then []
    else
      ReadPortLines(cell, memId, cache, n - 1)
      + ReadPortBlock(memId + ".r" + NatToString(n - 1), SigExpr(RdAddr(cell, n - 1), cache))
  }

  function WritePortBlock(port: string, cell: Cell, cache: map<string, string>, i: nat): seq<string>
    requires WritePortNamed(cell, cache, i)
  {
    [Connect(port + ".addr", SigExpr(WrAddr(cell, i), cache)),
     Connect(port + ".data", SigExpr(WrData(cell, i), cache)),
     Connect(port + ".en", SigExpr(WrEnBit(cell, i), cache)),
     Connect(port + ".mask", Atom("UInt<1>(1)")),
     Connect(port + ".clk", Op("asClock", [SigExpr(WrClk(cell, i), cache)]))]
  }

  /** The lines of write ports `0 .. n - 1`. */
  function WritePortLines(cell: Cell, memId: string, cache: map<string, string>, n: nat): seq<string>
    requires WritePortsNamed(cell, cache, n)
  {
    if n == 0 then []
    else
      WritePortLines(cell, memId, cache, n - 1) + WritePortBlock(memId + ".w" + NatToString(n - 1), cell, cache, n - 1)
  }

  /** Read port `i` drives its RD_DATA slice from `mem.rI.data`. */
  function ReadDrivers(cell: Cell, memId: string, n: nat): seq<(string, SigSpec)>
  {
    if n == 0 then []
    else ReadDrivers(cell, memId, n - 1) + [(memId + ".r" + NatToString(n - 1) + ".data", RdData(cell, n - 1))]
  }

  function MemLowering(cell: Cell, cache: map<string, string>): Lowered
    requires cell.name in cache
    requires ReadPortsNamed(cell, cache, Count(Param(cell, "\\RD_PORTS")))
    requires WritePortsNamed(cell, cache, Count(Param(cell, "\\WR_PORTS")))
  {
    MemPortsLowering(cell, cache[cell.name], cache)
  }

  /** The `mem` declaration named `memId`, then its read ports, then its write ports. */
  function MemPortsLowering(cell: Cell, memId: string, cache: map<string, string>): Lowered
    requires ReadPortsNamed(cell, cache, Count(Param(cell, "\\RD_PORTS")))
    requires WritePortsNamed(cell, cache, Count(Param(cell, "\\WR_PORTS")))
  {
    var rd := Count(Param(cell, "\\RD_PORTS"));
    var wr := Count(Param(cell, "\\WR_PORTS"));
    Lowered([], MemHeader(cell, memId) + ReadPortLines(cell, memId, cache, rd) + WritePortLines(cell, memId, cache, wr),
            [], ReadDrivers(cell, memId, rd))
  }

  /** The connection line of one instance port; the empty connection writes none. */
  function InstanceConnLines(m: Module, conn: Conn, cellName: string, cache: map<string, string>): seq<string>
    requires |conn.sig| > 0 ==> conn.port in cache && Covers(cache, conn.sig) && FindWire(m.wires, conn.port).Some?
  {
    if |conn.sig| > 0 then
      [InstanceConnLine(PortFDirection(m, conn.port).value, cellName + "." + cache[conn.port],
                        Print(SigExpr(conn.sig, cache)))]
    else []
  }

  /** The connection lines of an instance, one per non-empty connection. */
  function InstanceConns(m: Module, conns: seq<Conn>, cellName: string, cache: map<string, string>): seq<string>
    requires ConnsNamed(cache, conns)
    requires forall k | 0 <= k < |conns| && |conns[k].sig| > 0 :: FindWire(m.wires, conns[k].port).Some?
  {
    if conns == [] then []
    else
      var n := |conns| - 1;
      InstanceConns(m, conns[..n], cellName, cache) + InstanceConnLines(m, conns[n], cellName, cache)
  }

  /** An instance of a module the design has: an `inst` statement and its connections; otherwise nothing. */
  function InstanceLowering(design: Design, cell: Cell, cache: map<string, string>): Lowered
    requires !InstanceFatal(design, cell) && cell.cellType in cache && cell.name in cache
    requires FindModule(design.modules, cell.cellType).Some? ==> ConnsNamed(cache, cell.conns)
  {
    var cellType := cache[cell.cellType];
    var instanceOf := if IsParamod(cell.cellType) then MangleParamod(cellType) else cellType;
    var cellName := cache[cell.name];
    match FindModule(design.modules, cell.cellType)
    case None => NoLines
    case Some(m) =>
      Lowered([], [], ["    inst " + cellName + " of " + instanceOf] + InstanceConns(m, cell.conns, cellName, cache) + ["\n"], [])
  }

  function CellLowering(design: Design, cell: Cell, cache: map<string, string>): Lowered
    requires !CellFatal(design, cell) && CellNamed(design, cell, cache)
  {
    match KindOf(cell.cellType)
    case Instance => InstanceLowering(design, cell, cache)
    case Unary => UnaryLowering(cell, cache)
    case Binary => BinaryLowering(cell, cache)
    case Mux => MuxLowering(cell, cache)
    case Mem => MemLowering(cell, cache)
    case MemPort => NoLines
    case Dff => DffLowering(cell, cache)
    case Shiftx => ShiftxLowering(cell, cache)
    case Shift => ShiftLowering(cell, cache)
    case Unsupported => NoLines
  }

  /** All cells of a module, in order. */
  function CellsLowering(design: Design, cells: seq<Cell>, cache: map<string, string>): Lowered
    requires forall k | 0 <= k < |cells| :: !CellFatal(design, cells[k]) && CellNamed(design, cells[k], cache)
  {
    if cells == [] then NoLines
    else Concat(CellsLowering(design, cells[..|cells| - 1], cache), CellLowering(design, cells[|cells| - 1], cache))
  }

  /** `module->connections()`: each gets a fresh `_N` wire driven by the right-hand side. */
  function ConnLowering(conn: (SigSpec, SigSpec), id: string, cache: map<string, string>): Lowered
    requires Covers(cache, conn.1)
  {
    Lowered([WireDecl(id, |conn.0|)], [Connect(id, SigExpr(conn.1, cache))], [], [(id, conn.0)])
  }

  function ConnsLowering(conns: seq<(SigSpec, SigSpec)>, ids: seq<string>, cache: map<string, string>): Lowered
    requires |ids| == |conns| && forall k | 0 <= k < |conns| :: Covers(cache, conns[k].1)
  {
    if conns == [] then NoLines
    else
      var n := |conns| - 1;
      Concat(ConnsLowering(conns[..n], ids[..n], cache), ConnLowering(conns[n], ids[n], cache))
  }

  /** Appending the lines of `x` and then of `y` appends those of `Concat(x, y)`. */
  lemma EmitConcat(wireDecls: seq<string>, cellExprs: seq<string>, wireExprs: seq<string>, m: DriverMap,
                   x: Lowered, y: Lowered)
    ensures wireDecls + Concat(x, y).wireDecls == wireDecls + x.wireDecls + y.wireDecls
    ensures cellExprs + Concat(x, y).cellExprs == cellExprs + x.cellExprs + y.cellExprs
    ensures wireExprs + Concat(x, y).wireExprs == wireExprs + x.wireExprs + y.wireExprs
    ensures RegisterAll(m, Concat(x, y).drivers) == RegisterAll(RegisterAll(m, x.drivers), y.drivers)
  {
    AppendAssoc(wireDecls, x.wireDecls, y.wireDecls);
    AppendAssoc(cellExprs, x.cellExprs, y.cellExprs);
    AppendAssoc(wireExprs, x.wireExprs, y.wireExprs);
    RegisterAllConcat(m, x.drivers, y.drivers);
  }

  lemma CellsLoweringStep(design: Design, cells: seq<Cell>, k: nat, cache: map<string, string>)
    requires k < |cells|
    requires forall j | 0 <= j <= k :: !CellFatal(design, cells[j]) && CellNamed(design, cells[j], cache)
    ensures CellsLowering(design, cells[..k + 1], cache) ==
      Concat(CellsLowering(design, cells[..k], cache), CellLowering(design, cells[k], cache))
  {
    assert cells[..k + 1][..k] == cells[..k];
  }

  lemma ConnsLoweringStep(conns: seq<(SigSpec, SigSpec)>, ids: seq<string>, k: nat, cache: map<string, string>)
    requires k < |conns| && |ids| == k + 1 && forall j | 0 <= j <= k :: Covers(cache, conns[j].1)
    ensures ConnsLowering(conns[..k + 1], ids, cache) ==
      Concat(ConnsLowering(conns[..k], ids[..k], cache), ConnLowering(conns[k], ids[k], cache))
  {
    var c := conns[..k + 1];
    assert c[..k] == conns[..k] && c[k] == conns[k] && |c| - 1 == k;
  }

  // ---- stability: a later, larger cache gives the same lines ----

  lemma {:induction false} InstanceConnsStable(m: Module, conns: seq<Conn>, cellName: string,
                                               c1: map<string, string>, c2: map<string, string>)
    requires ConnsNamed(c1, conns) && Extends(c2, c1)
    requires forall k | 0 <= k < |conns| && |conns[k].sig| > 0 :: FindWire(m.wires, conns[k].port).Some?
    ensures ConnsNamed(c2, conns)
    ensures InstanceConns(m, conns, cellName, c1) == InstanceConns(m, conns, cellName, c2)
    decreases |conns|
  {
    forall k | 0 <= k < |conns| && |conns[k].sig| > 0
      ensures conns[k].port in c2 && Covers(c2, conns[k].sig)
    {
      SigExprStable(conns[k].sig, c1, c2);
    }
    if conns != [] {
      var n := |conns| - 1;
      InstanceConnsStable(m, conns[..n], cellName, c1, c2);
      if |conns[n].sig| > 0 {
        SigExprStable(conns[n].sig, c1, c2);
      }
    }
  }

  lemma {:induction false} ReadPortLinesStable(cell: Cell, memId: string, n: nat, c1: map<string, string>,
                                               c2: map<string, string>)
    requires ReadPortsNamed(cell, c1, n) && Extends(c2, c1)
    ensures ReadPortsNamed(cell, c2, n)
    ensures ReadPortLines(cell, memId, c1, n) == ReadPortLines(cell, memId, c2, n)
  {
    forall j: nat | j < n
      ensures Covers(c2, RdAddr(cell, j))
    {
      SigExprStable(RdAddr(cell, j), c1, c2);
    }
    if n > 0 {
      ReadPortLinesStable(cell, memId, n - 1, c1, c2);
      SigExprStable(RdAddr(cell, n - 1), c1, c2);
    }
  }

  lemma WritePortStable(cell: Cell, i: nat, c1: map<string, string>, c2: map<string, string>)
    requires WritePortNamed(cell, c1, i) && Extends(c2, c1)
    ensures WritePortNamed(cell, c2, i)
  {
    SigExprStable(WrAddr(cell, i), c1, c2);
    SigExprStable(WrData(cell, i), c1, c2);
    SigExprStable(WrEnBit(cell, i), c1, c2);
    SigExprStable(WrClk(cell, i), c1, c2);
  }

  lemma WritePortBlockStable(port: string, cell: Cell, i: nat, c1: map<string, string>, c2: map<string, string>)
    requires WritePortNamed(cell, c1, i) && Extends(c2, c1)
    ensures WritePortNamed(cell, c2, i)
    ensures WritePortBlock(port, cell, c1, i) == WritePortBlock(port, cell, c2, i)
  {
    WritePortStable(cell, i, c1, c2);
    SigExprStable(WrAddr(cell, i), c1, c2);
    SigExprStable(WrData(cell, i), c1, c2);
    SigExprStable(WrEnBit(cell, i), c1, c2);
    SigExprStable(WrClk(cell, i), c1, c2);
  }

  lemma {:induction false} WritePortLinesStable(cell: Cell, memId: string, n: nat, c1: map<string, string>,
                                                c2: map<string, string>)
    requires WritePortsNamed(cell, c1, n) && Extends(c2, c1)
    ensures WritePortsNamed(cell, c2, n)
    ensures WritePortLines(cell, memId, c1, n) == WritePortLines(cell, memId, c2, n)
  {
    forall j: nat | j < n
      ensures WritePortNamed(cell, c2, j)
    {
      WritePortStable(cell, j, c1, c2);
    }
    if n > 0 {
      WritePortLinesStable(cell, memId, n - 1, c1, c2);
      WritePortBlockStable(memId + ".w" + NatToString(n - 1), cell, n - 1, c1, c2);
    }
  }

  lemma InstanceConnsStep(m: Module, conns: seq<Conn>, k: nat, cellName: string, cache: map<string, string>)
    requires k < |conns| && ConnsNamed(cache, conns[..k])
    requires forall j | 0 <= j < k && |conns[j].sig| > 0 :: FindWire(m.wires, conns[j].port).Some?
    requires |conns[k].sig| > 0 ==>
      conns[k].port in cache && Covers(cache, conns[k].sig) && FindWire(m.wires, conns[k].port).Some?
    ensures ConnsNamed(cache, conns[..k + 1])
    ensures forall j | 0 <= j < k + 1 && |conns[j].sig| > 0 :: FindWire(m.wires, conns[j].port).Some?
    ensures InstanceConns(m, conns[..k + 1], cellName, cache) ==
      InstanceConns(m, conns[..k], cellName, cache) + InstanceConnLines(m, conns[k], cellName, cache)
  {
    assert conns[..k + 1][..k] == conns[..k];
  }

  lemma ReadPortsStep(cell: Cell, memId: string, cache: map<string, string>, n: nat)
    requires ReadPortsNamed(cell, cache, n) && Covers(cache, RdAddr(cell, n))
    ensures ReadPortsNamed(cell, cache, n + 1)
    ensures ReadPortLines(cell, memId, cache, n + 1) ==
      ReadPortLines(cell, memId, cache, n) + ReadPortBlock(memId + ".r" + NatToString(n), SigExpr(RdAddr(cell, n), cache))
  {
  }

  lemma WritePortsStep(cell: Cell, memId: string, cache: map<string, string>, n: nat)
    requires WritePortsNamed(cell, cache, n) && WritePortNamed(cell, cache, n)
    ensures WritePortsNamed(cell, cache, n + 1)
    ensures WritePortLines(cell, memId, cache, n + 1) ==
      WritePortLines(cell, memId, cache, n) + WritePortBlock(memId + ".w" + NatToString(n), cell, cache, n)
  {
  }

  /** The lines of a cell depend only on names already given, so handing out more names changes nothing. */
  lemma CellLoweringStable(design: Design, cell: Cell, c1: map<string, string>, c2: map<string, string>)
    requires !CellFatal(design, cell) && CellNamed(design, cell, c1) && Extends(c2, c1)
    ensures CellNamed(design, cell, c2)
    ensures CellLowering(design, cell, c1) == CellLowering(design, cell, c2)
  {
    match KindOf(cell.cellType)
    case Instance =>
      if FindModule(design.modules, cell.cellType).Some? {
        InstanceConnsStable(FindModule(design.modules, cell.cellType).value, cell.conns, c1[cell.name], c1, c2);
      }
    case Unary => SigExprStable(GetPort(cell, "\\A"), c1, c2);
    case Binary =>
      SigExprStable(GetPort(cell, "\\A"), c1, c2);
      SigExprStable(GetPort(cell, "\\B"), c1, c2);
    case Mux =>
      SigExprStable(GetPort(cell, "\\A"), c1, c2);
      SigExprStable(GetPort(cell, "\\B"), c1, c2);
      SigExprStable(GetPort(cell, "\\S"), c1, c2);
    case Mem =>
      ReadPortLinesStable(cell, c1[cell.name], Count(Param(cell, "\\RD_PORTS")), c1, c2);
      WritePortLinesStable(cell, c1[cell.name], Count(Param(cell, "\\WR_PORTS")), c1, c2);
    case MemPort =>
    case Dff =>
      SigExprStable(GetPort(cell, "\\D"), c1, c2);
      SigExprStable(GetPort(cell, "\\CLK"), c1, c2);
    case Shiftx =>
      SigExprStable(GetPort(cell, "\\A"), c1, c2);
      SigExprStable(GetPort(cell, "\\B"), c1, c2);
    case Shift =>
      SigExprStable(GetPort(cell, "\\A"), c1, c2);
      SigExprStable(GetPort(cell, "\\B"), c1, c2);
    case Unsupported =>
  }

  lemma {:induction false} CellsLoweringStable(design: Design, cells: seq<Cell>, c1: map<string, string>,
                                               c2: map<string, string>)
    requires forall k | 0 <= k < |cells| :: !CellFatal(design, cells[k]) && CellNamed(design, cells[k], c1)
    requires Extends(c2, c1)
    ensures forall k | 0 <= k < |cells| :: CellNamed(design, cells[k], c2)
    ensures CellsLowering(design, cells, c1) == CellsLowering(design, cells, c2)
    decreases |cells|
  {
    forall k | 0 <= k < |cells|
      ensures CellNamed(design, cells[k], c2)
    {
      CellLoweringStable(design, cells[k], c1, c2);
    }
    if cells != [] {
      var n := |cells| - 1;
      CellsLoweringStable(design, cells[..n], c1, c2);
      CellLoweringStable(design, cells[n], c1, c2);
    }
  }

  lemma {:induction false} ConnsLoweringStable(conns: seq<(SigSpec, SigSpec)>, ids: seq<string>,
                                               c1: map<string, string>, c2: map<string, string>)
    requires |ids| == |conns| && (forall k | 0 <= k < |conns| :: Covers(c1, conns[k].1)) && Extends(c2, c1)
    ensures forall k | 0 <= k < |conns| :: Covers(c2, conns[k].1)
    ensures ConnsLowering(conns, ids, c1) == ConnsLowering(conns, ids, c2)
    decreases |conns|
  {
    forall k | 0 <= k < |conns|
      ensures Covers(c2, conns[k].1)
    {
      SigExprStable(conns[k].1, c1, c2);
    }
    if conns != [] {
      var n := |conns| - 1;
      ConnsLoweringStable(conns[..n], ids[..n], c1, c2);
      SigExprStable(conns[n].1, c1, c2);
    }
  }

  // ---- the reverse wire map ----

  type DriverMap = map<SigBit, (string, int)>

  /** `register_reverse_wire_map(id, sig)`: bit `i` of `sig` is driven by bit `i` of `id`. */
  function Register(m: DriverMap, id: string, sig: SigSpec): DriverMap
    decreases |sig|
  {
    if sig == [] then m
    else Register(m, id, sig[..|sig| - 1])[sig[|sig| - 1] := (id, |sig| - 1)]
  }

  function RegisterAll(m: DriverMap, drivers: seq<(string, SigSpec)>): DriverMap
  {
    if drivers == [] then m
    else
      var n := |drivers| - 1;
      Register(RegisterAll(m, drivers[..n]), drivers[n].0, drivers[n].1)
  }

  /** The last position of `b` in `sig`. */
  function LastIndex(sig: SigSpec, b: SigBit): (i: nat)
    requires b in sig
    ensures i < |sig| && sig[i] == b
    ensures forall j | i < j < |sig| :: sig[j] != b
  {
    if sig[|sig| - 1] == b then |sig| - 1 else LastIndex(sig[..|sig| - 1], b)
  }

  /**
   * Last write wins: after registering `sig`, each of its bits maps to its last
   * position in `sig`; every other bit keeps what it had.
   */
  lemma {:induction false} RegisterLookup(m: DriverMap, id: string, sig: SigSpec, b: SigBit)
    ensures b in Register(m, id, sig) <==> b in m || b in sig
    ensures b in sig ==> Register(m, id, sig)[b] == (id, LastIndex(sig, b))
    ensures b !in sig && b in m ==> Register(m, id, sig)[b] == m[b]
    decreases |sig|
  {
    if sig != [] {
      var n := |sig| - 1;
      RegisterLookup(m, id, sig[..n], b);
      assert sig == sig[..n] + [sig[n]];
      assert b in sig <==> b in sig[..n] || b == sig[n];
    }
  }

  lemma RegisterAllSnoc(m: DriverMap, drivers: seq<(string, SigSpec)>, id: string, sig: SigSpec)
    ensures RegisterAll(m, drivers + [(id, sig)]) == Register(RegisterAll(m, drivers), id, sig)
  {
    assert (drivers + [(id, sig)])[..|drivers|] == drivers;
  }

  lemma {:induction false} RegisterAllConcat(m: DriverMap, d1: seq<(string, SigSpec)>, d2: seq<(string, SigSpec)>)
    ensures RegisterAll(m, d1 + d2) == RegisterAll(RegisterAll(m, d1), d2)
    decreases |d2|
  {
    if d2 != [] {
      var n := |d2| - 1;
      assert (d1 + d2)[..|d1 + d2| - 1] == d1 + d2[..n];
      assert (d1 + d2)[|d1 + d2| - 1] == d2[n];
      RegisterAllConcat(m, d1, d2[..n]);
      assert RegisterAll(m, d1 + d2) == Register(RegisterAll(m, d1 + d2[..n]), d2[n].0, d2[n].1);
    } else {
      assert d1 + d2 == d1;
    }
  }

  // ---- resolving the drivers of each output wire ----

  /** A maximal run of a wire's bits: consecutive bits of one driver, or one undriven bit. */
  datatype Run = Driven(id: string, lo: int, width: nat) | Undriven

  function RunWidth(r: Run): nat
  {
    if r.Driven? then r.width else 1
  }

  /** How far the run starting at `cursor` reaches, having reached `width` bits. */
  function Extent(w: Wire, m: DriverMap, cursor: nat, start: (string, int), width: nat): (r: nat)
    requires 1 <= width && cursor + width <= w.width
    ensures width <= r && cursor + r <= w.width
    decreases w.width - cursor - width
  {
    if cursor + width < w.width && WireBit(w, cursor + width) in m
       && m[WireBit(w, cursor + width)] == (start.0, start.1 + width)
    then Extent(w, m, cursor, start, width + 1)
    else width
  }

  function RunsFrom(w: Wire, m: DriverMap, cursor: nat): seq<Run>
    decreases w.width - cursor
  {
    if cursor >= w.width then []
    else if WireBit(w, cursor) in m then
      var start := m[WireBit(w, cursor)];
      var width := Extent(w, m, cursor, start, 1);
      [Driven(start.0, start.1, width)] + RunsFrom(w, m, cursor + width)
    else [Undriven] + RunsFrom(w, m, cursor + 1)
  }

  /** The driver of each bit a run covers; `None` for an undriven bit. */
  function RunBits(runs: seq<Run>): seq<Option<(string, int)>>
  {
    if runs == [] then []
    else
      (match runs[0]
       case Driven(id, lo, width) => seq(width, k requires 0 <= k < width => Some((id, lo + k)))
       case Undriven => [None])
      + RunBits(runs[1..])
  }

  function Lookup(m: DriverMap, b: SigBit): Option<(string, int)>
  {
    if b in m then Some(m[b]) else None
  }

  /** Bits `cursor` to `cursor + width - 1` of `w` are driven by consecutive bits of `start`. */
  ghost predicate DrivenSpan(w: Wire, m: DriverMap, cursor: nat, start: (string, int), width: nat)
  {
    forall j: nat | cursor <= j < cursor + width :: Lookup(m, WireBit(w, j)) == Some((start.0, start.1 + (j - cursor)))
  }

  lemma {:induction false} ExtentDriven(w: Wire, m: DriverMap, cursor: nat, start: (string, int), width: nat)
    requires 1 <= width && cursor + width <= w.width
    requires DrivenSpan(w, m, cursor, start, width)
    ensures DrivenSpan(w, m, cursor, start, Extent(w, m, cursor, start, width))
    decreases w.width - cursor - width
  {
    if cursor + width < w.width && WireBit(w, cursor + width) in m
       && m[WireBit(w, cursor + width)] == (start.0, start.1 + width) {
      ExtentDriven(w, m, cursor, start, width + 1);
    }
  }

  /**
   * The runs spell out the reverse map over the wire: every bit from `cursor`
   * up is covered exactly once, in order, with the driver the map gives it.
   */
  lemma {:induction false} RunsSpellDrivers(w: Wire, m: DriverMap, cursor: nat)
    requires cursor <= w.width
    ensures RunBits(RunsFrom(w, m, cursor)) ==
      seq(w.width - cursor, k requires 0 <= k < w.width - cursor => Lookup(m, WireBit(w, cursor + k)))
    decreases w.width - cursor
  {
    var runs := RunsFrom(w, m, cursor);
    var want := seq(w.width - cursor, k requires 0 <= k < w.width - cursor => Lookup(m, WireBit(w, cursor + k)));
    if cursor < w.width {
      var width, head := RunHead(w, m, cursor);
      var rest := RunsFrom(w, m, cursor + width);
      RunsSpellDrivers(w, m, cursor + width);
      forall k | 0 <= k < w.width - cursor
        ensures RunBits(runs)[k] == want[k]
      {
        if k < width {
          assert RunBits(runs)[k] == head[k];
        } else {
          assert RunBits(runs)[k] == RunBits(rest)[k - width];
          assert cursor + width + (k - width) == cursor + k;
        }
      }
      assert RunBits(runs) == want;
    }
  }

  /** The bits of the first run from `cursor`, and the runs after it. */
  lemma RunHead(w: Wire, m: DriverMap, cursor: nat) returns (width: nat, head: seq<Option<(string, int)>>)
    requires cursor < w.width
    ensures 1 <= width && cursor + width <= w.width && |head| == width
    ensures RunBits(RunsFrom(w, m, cursor)) == head + RunBits(RunsFrom(w, m, cursor + width))
    ensures forall k | 0 <= k < width :: head[k] == Lookup(m, WireBit(w, cursor + k))
  {
    var runs := RunsFrom(w, m, cursor);
    if WireBit(w, cursor) in m {
      var start := m[WireBit(w, cursor)];
      width := Extent(w, m, cursor, start, 1);
      ExtentDriven(w, m, cursor, start, 1);
      head := seq(width, k requires 0 <= k < width => Some((start.0, start.1 + k)));
      forall k | 0 <= k < width
        ensures head[k] == Lookup(m, WireBit(w, cursor + k))
      {
        assert Lookup(m, WireBit(w, cursor + k)) == Some((start.0, start.1 + (cursor + k - cursor)));
      }
    } else {
      width := 1;
      head := [None];
      assert Lookup(m, WireBit(w, cursor + 0)) == None;
    }
    var rest := RunsFrom(w, m, cursor + width);
    assert runs == [runs[0]] + rest;
    assert runs[1..] == rest;
  }

  /** No two neighbouring driven runs could have been joined into one. */
  ghost predicate Maximal(runs: seq<Run>)
  {
    forall i | 0 <= i < |runs| - 1 && runs[i].Driven? && runs[i + 1].Driven? ::
      !(runs[i + 1].id == runs[i].id && runs[i + 1].lo == runs[i].lo + runs[i].width)
  }

  lemma {:induction false} RunsMaximal(w: Wire, m: DriverMap, cursor: nat)
    ensures Maximal(RunsFrom(w, m, cursor))
    decreases w.width - cursor
  {
    var runs := RunsFrom(w, m, cursor);
    if cursor < w.width {
      if WireBit(w, cursor) in m {
        var start := m[WireBit(w, cursor)];
        var width := Extent(w, m, cursor, start, 1);
        RunsMaximal(w, m, cursor + width);
        var rest := RunsFrom(w, m, cursor + width);
        assert runs == [Driven(start.0, start.1, width)] + rest;
        forall i | 0 <= i < |runs| - 1 && runs[i].Driven? && runs[i + 1].Driven?
          ensures !(runs[i + 1].id == runs[i].id && runs[i + 1].lo == runs[i].lo + runs[i].width)
        {
          if i == 0 {
            ExtentStops(w, m, cursor, start, 1);
            assert rest != [] && rest[0] == runs[1];
            assert cursor + width < w.width && WireBit(w, cursor + width) in m;
            var next := m[WireBit(w, cursor + width)];
            assert runs[1].id == next.0 && runs[1].lo == next.1;
          } else {
            assert runs[i] == rest[i - 1] && runs[i + 1] == rest[i];
          }
        }
      } else {
        RunsMaximal(w, m, cursor + 1);
        assert runs == [Undriven] + RunsFrom(w, m, cursor + 1);
      }
    }
  }

  lemma {:induction false} ExtentStops(w: Wire, m: DriverMap, cursor: nat, start: (string, int), width: nat)
    requires 1 <= width && cursor + width <= w.width
    ensures var r := Extent(w, m, cursor, start, width);
      cursor + r < w.width ==>
        !(WireBit(w, cursor + r) in m && m[WireBit(w, cursor + r)] == (start.0, start.1 + r))
    decreases w.width - cursor - width
  {
    if cursor + width < w.width && WireBit(w, cursor + width) in m
       && m[WireBit(w, cursor + width)] == (start.0, start.1 + width) {
      ExtentStops(w, m, cursor, start, width + 1);
    }
  }

  function RunExpr(r: Run, unconn: string): Expr
  {
    match r
    case Driven(id, lo, width) => Bits(Atom(id), lo + width - 1, lo)
    case Undriven => Atom(unconn)
  }

  /** The wire's expression: runs accumulated with the later ones as the high part of `cat`. */
  function RunsExpr(runs: seq<Run>, unconn: string): Expr
  {
    if runs == [] then Atom("")
    else Accumulate(RunsExpr(runs[..|runs| - 1], unconn), RunExpr(runs[|runs| - 1], unconn))
  }

  /** Runs that are all driven read the same whatever the placeholder. */
  lemma {:induction false} RunsExprDrivenOnly(runs: seq<Run>, u1: string, u2: string)
    requires forall k | 0 <= k < |runs| :: runs[k].Driven?
    ensures RunsExpr(runs, u1) == RunsExpr(runs, u2)
    decreases |runs|
  {
    if runs != [] {
      RunsExprDrivenOnly(runs[..|runs| - 1], u1, u2);
    }
  }

  lemma RunsExprStep(runs: seq<Run>, r: Run, u: string)
    ensures RunsExpr(runs + [r], u) == Accumulate(RunsExpr(runs, u), RunExpr(r, u))
  {
    assert (runs + [r])[..|runs|] == runs;
  }

  /** Some run is driven by a cell or connection: the wire gets a `<=` statement. */
  predicate AnyDriven(runs: seq<Run>)
  {
    exists k | 0 <= k < |runs| :: runs[k].Driven?
  }

  /** Some bit is undriven: the wire needs the placeholder. */
  predicate AnyUndriven(runs: seq<Run>)
  {
    exists k | 0 <= k < |runs| :: runs[k].Undriven?
  }

  lemma AnySnoc(runs: seq<Run>, r: Run)
    ensures AnyDriven(runs + [r]) <==> AnyDriven(runs) || r.Driven?
    ensures AnyUndriven(runs + [r]) <==> AnyUndriven(runs) || r.Undriven?
  {
    if r.Driven? {
      assert (runs + [r])[|runs|].Driven?;
    } else {
      assert (runs + [r])[|runs|].Undriven?;
    }
    if AnyDriven(runs) {
      var k :| 0 <= k < |runs| && runs[k].Driven?;
      assert (runs + [r])[k].Driven?;
    }
    if AnyUndriven(runs) {
      var k :| 0 <= k < |runs| && runs[k].Undriven?;
      assert (runs + [r])[k].Undriven?;
    }
  }

  /** What the resolver writes for one non-input wire named `name`. */
  datatype Resolved = Resolved(wireDecls: seq<string>, wireExprs: seq<string>, unconnId: string, consumed: bool)

  /**
   * `unconn` is the shared placeholder for undriven bits ("" while none exists);
   * `drawn` is the name `next_id` would hand out if one is needed now.
   */
  function ResolveWire(w: Wire, name: string, m: DriverMap, unconn: string, drawn: string): Resolved
  {
    var runs := RunsFrom(w, m, 0);
    var valid := AnyDriven(runs);
    var created := unconn == "" && AnyUndriven(runs);
    var u := if created then drawn else unconn;
    if valid then
      Resolved((if created then [WireDecl(u, 1), Invalid(u)] else []), [Connect(name, RunsExpr(runs, u))], u, created)
    else
      Resolved([Invalid(name)], [], if created then "" else unconn, created)
  }

  /** The resolver's state after the wires so far: lines, placeholder, and fresh names used. */
  datatype ResolveState = ResolveState(wireDecls: seq<string>, wireExprs: seq<string>, unconnId: string, used: nat)

  function ResolveWires(wires: seq<Wire>, cache: map<string, string>, m: DriverMap, draws: seq<string>): ResolveState
    requires forall k | 0 <= k < |wires| :: wires[k].name in cache
  {
    if wires == [] then ResolveState([], [], "", 0)
    else
      var n := |wires| - 1;
      var s := ResolveWires(wires[..n], cache, m, draws);
      var w := wires[n];
      if w.portInput then s
      else
        var r := ResolveWire(w, cache[w.name], m, s.unconnId, if s.used < |draws| then draws[s.used] else "");
        ResolveState(s.wireDecls + r.wireDecls, s.wireExprs + r.wireExprs, r.unconnId,
                     s.used + if r.consumed then 1 else 0)
  }

  /** Names drawn beyond those already used do not matter. */
  lemma {:induction false} ResolveWiresPrefix(wires: seq<Wire>, cache: map<string, string>, m: DriverMap,
                                              draws: seq<string>, more: seq<string>)
    requires forall k | 0 <= k < |wires| :: wires[k].name in cache
    requires ResolveWires(wires, cache, m, draws).used <= |draws|
    ensures ResolveWires(wires, cache, m, draws + more) == ResolveWires(wires, cache, m, draws)
    decreases |wires|
  {
    if wires != [] {
      var n := |wires| - 1;
      ResolveWiresUsedGrows(wires, cache, m, draws);
      ResolveWiresPrefix(wires[..n], cache, m, draws, more);
    }
  }

  lemma ResolveWiresUsedGrows(wires: seq<Wire>, cache: map<string, string>, m: DriverMap, draws: seq<string>)
    requires wires != [] && forall k | 0 <= k < |wires| :: wires[k].name in cache
    ensures ResolveWires(wires[..|wires| - 1], cache, m, draws).used <= ResolveWires(wires, cache, m, draws).used
  {
  }

  /**
   * An output wire none of whose bits is driven is declared invalid; if it was
   * the first to need the placeholder, the name `next_id` drew for it is
   * dropped again and the next undriven bit draws another.
   */
  lemma UndrivenWireInvalid(w: Wire, name: string, m: DriverMap, drawn: string)
    requires w.width > 0 && forall k | 0 <= k < w.width :: WireBit(w, k) !in m
    ensures ResolveWire(w, name, m, "", drawn) == Resolved([Invalid(name)], [], "", true)
  {
    RunsAllUndriven(w, m, 0);
    assert RunsFrom(w, m, 0)[0].Undriven?;
  }

  lemma {:induction false} RunsAllUndriven(w: Wire, m: DriverMap, cursor: nat)
    requires forall k | cursor <= k < w.width :: WireBit(w, k) !in m
    ensures var runs := RunsFrom(w, m, cursor);
      |runs| == w.width - cursor || (cursor >= w.width && runs == [])
    ensures forall k | 0 <= k < |RunsFrom(w, m, cursor)| :: RunsFrom(w, m, cursor)[k].Undriven?
    decreases w.width - cursor
  {
    if cursor < w.width {
      RunsAllUndriven(w, m, cursor + 1);
    }
  }

  // ---- the module as a whole ----

  /** An inout module port: `run` refuses it. */
  predicate InoutPort(w: Wire)
  {
    w.portId != 0 && w.portInput && w.portOutput
  }

  /** The conditions under which lowering a module aborts the run. */
  predicate ModuleFatal(design: Design, m: Module)
  {
    (exists k | 0 <= k < |m.wires| :: InoutPort(m.wires[k]))
    || (exists k | 0 <= k < |m.cells| :: CellFatal(design, m.cells[k]))
  }

  ghost predicate WiresNamed(wires: seq<Wire>, cache: map<string, string>)
  {
    forall k | 0 <= k < |wires| :: wires[k].name in cache
  }

  /** The declarations of the first pass over the wires: ports, and plain wires. */
  function PortDecls(wires: seq<Wire>, cache: map<string, string>): seq<string>
    requires WiresNamed(wires, cache)
  {
    if wires == [] then []
    else
      var n := |wires| - 1;
      PortDecls(wires[..n], cache) + if wires[n].portId != 0 then [PortDecl(wires[n], cache[wires[n].name])] else []
  }

  function InternalWireDecls(wires: seq<Wire>, cache: map<string, string>): seq<string>
    requires WiresNamed(wires, cache)
  {
    if wires == [] then []
    else
      var n := |wires| - 1;
      InternalWireDecls(wires[..n], cache)
      + if wires[n].portId == 0 then [WireDecl(cache[wires[n].name], wires[n].width)] else []
  }

  lemma {:induction false} WireDeclsStable(wires: seq<Wire>, c1: map<string, string>, c2: map<string, string>)
    requires WiresNamed(wires, c1) && Extends(c2, c1)
    ensures WiresNamed(wires, c2)
    ensures PortDecls(wires, c1) == PortDecls(wires, c2) && InternalWireDecls(wires, c1) == InternalWireDecls(wires, c2)
    decreases |wires|
  {
    if wires != [] {
      WireDeclsStable(wires[..|wires| - 1], c1, c2);
    }
  }

  /** The declarations of the first `k + 1` wires, under a grown cache, from those of the first `k`. */
  lemma WireDeclsNext(wires: seq<Wire>, k: nat, c0: map<string, string>, c1: map<string, string>,
                      ports: seq<string>, decls: seq<string>)
    requires k < |wires| && WiresNamed(wires[..k], c0) && Extends(c1, c0) && wires[k].name in c1
    requires ports == PortDecls(wires[..k], c0) && decls == InternalWireDecls(wires[..k], c0)
    ensures WiresNamed(wires[..k + 1], c1)
    ensures PortDecls(wires[..k + 1], c1) ==
      ports + if wires[k].portId != 0 then [PortDecl(wires[k], c1[wires[k].name])] else []
    ensures InternalWireDecls(wires[..k + 1], c1) ==
      decls + if wires[k].portId == 0 then [WireDecl(c1[wires[k].name], wires[k].width)] else []
  {
    WireDeclsStable(wires[..k], c0, c1);
    WireDeclsStep(wires, k, c1);
  }

  lemma WireDeclsStep(wires: seq<Wire>, k: nat, cache: map<string, string>)
    requires k < |wires| && WiresNamed(wires[..k], cache) && wires[k].name in cache
    ensures WiresNamed(wires[..k + 1], cache)
    ensures PortDecls(wires[..k + 1], cache) ==
      PortDecls(wires[..k], cache) + if wires[k].portId != 0 then [PortDecl(wires[k], cache[wires[k].name])] else []
    ensures InternalWireDecls(wires[..k + 1], cache) ==
      InternalWireDecls(wires[..k], cache)
      + if wires[k].portId == 0 then [WireDecl(cache[wires[k].name], wires[k].width)] else []
  {
    assert wires[..k + 1][..k] == wires[..k];
  }

  /** The four lists `run` collects for one module. */
  datatype ModuleLines = ModuleLines(portDecls: seq<string>, wireDecls: seq<string>, cellExprs: seq<string>,
                                     wireExprs: seq<string>)

  /**
   * A module's lists once every pass has run with the final name cache: the
   * wires' declarations, then the cells, then the connections (drawing the
   * first `next_id` names in `draws`), then the resolver over the drivers the
   * cells and connections registered (drawing the rest).
   */
  function LowerModule(design: Design, m: Module, cache: map<string, string>, draws: seq<string>): ModuleLines
    requires WiresNamed(m.wires, cache)
    requires forall k | 0 <= k < |m.cells| :: !CellFatal(design, m.cells[k]) && CellNamed(design, m.cells[k], cache)
    requires forall k | 0 <= k < |m.connections| :: Covers(cache, m.connections[k].1)
    requires |m.connections| <= |draws|
  {
    var n := |m.connections|;
    var cells := CellsLowering(design, m.cells, cache);
    var conns := ConnsLowering(m.connections, draws[..n], cache);
    var drivers := RegisterAll(RegisterAll(map[], cells.drivers), conns.drivers);
    var s := ResolveWires(m.wires, cache, drivers, draws[n..]);
    ModuleLines(PortDecls(m.wires, cache),
                InternalWireDecls(m.wires, cache) + cells.wireDecls + conns.wireDecls + s.wireDecls,
                cells.cellExprs + conns.cellExprs,
                cells.wireExprs + conns.wireExprs + s.wireExprs)
  }

  /** `LowerModule` with the connections' names `ids` and the resolver's `used` told apart. */
  lemma LowerModuleSplit(design: Design, m: Module, cache: map<string, string>, ids: seq<string>, used: seq<string>)
    requires WiresNamed(m.wires, cache)
    requires forall k | 0 <= k < |m.cells| :: !CellFatal(design, m.cells[k]) && CellNamed(design, m.cells[k], cache)
    requires forall k | 0 <= k < |m.connections| :: Covers(cache, m.connections[k].1)
    requires |m.connections| == |ids|
    ensures
      var cells := CellsLowering(design, m.cells, cache);
      var conns := ConnsLowering(m.connections, ids, cache);
      var drivers := RegisterAll(RegisterAll(map[], cells.drivers), conns.drivers);
      var s := ResolveWires(m.wires, cache, drivers, used);
      LowerModule(design, m, cache, ids + used) ==
        ModuleLines(PortDecls(m.wires, cache),
                    InternalWireDecls(m.wires, cache) + cells.wireDecls + conns.wireDecls + s.wireDecls,
                    cells.cellExprs + conns.cellExprs,
                    cells.wireExprs + conns.wireExprs + s.wireExprs)
  {
    assert (ids + used)[..|ids|] == ids && (ids + used)[|ids|..] == used;
  }

  /** The names `LowerModule` reads are all in `cache`, and `draws` holds a name for every connection. */
  ghost predicate ModuleLowerable(design: Design, m: Module, cache: map<string, string>, draws: seq<string>)
  {
    && m.name in cache && WiresNamed(m.wires, cache)
    && (forall k | 0 <= k < |m.cells| :: !CellFatal(design, m.cells[k]) && CellNamed(design, m.cells[k], cache))
    && (forall k | 0 <= k < |m.connections| :: Covers(cache, m.connections[k].1))
    && |m.connections| <= |draws|
  }

  /** The text `run` writes for module `m`: its header and its four lists. */
  function LoweredText(design: Design, m: Module, cache: map<string, string>, draws: seq<string>): seq<string>
    requires ModuleLowerable(design, m, cache, draws)
  {
    var l := LowerModule(design, m, cache, draws);
    ModuleText(cache[m.name], l.portDecls, l.wireDecls, l.cellExprs, l.wireExprs)
  }

  lemma {:induction false} ResolveWiresStable(wires: seq<Wire>, c1: map<string, string>, c2: map<string, string>,
                                              m: DriverMap, draws: seq<string>)
    requires WiresNamed(wires, c1) && Extends(c2, c1)
    ensures WiresNamed(wires, c2)
    ensures ResolveWires(wires, c1, m, draws) == ResolveWires(wires, c2, m, draws)
    decreases |wires|
  {
    if wires != [] {
      ResolveWiresStable(wires[..|wires| - 1], c1, c2, m, draws);
    }
  }

  /**
   * Names handed out after a module was lowered (to the modules after it)
   * do not change its text.
   */
  lemma LoweredTextStable(design: Design, m: Module, c1: map<string, string>, c2: map<string, string>,
                          draws: seq<string>)
    requires ModuleLowerable(design, m, c1, draws) && Extends(c2, c1)
    ensures ModuleLowerable(design, m, c2, draws)
    ensures LoweredText(design, m, c1, draws) == LoweredText(design, m, c2, draws)
  {
    var n := |m.connections|;
    WireDeclsStable(m.wires, c1, c2);
    CellsLoweringStable(design, m.cells, c1, c2);
    ConnsLoweringStable(m.connections, draws[..n], c1, c2);
    var cells := CellsLowering(design, m.cells, c1);
    var conns := ConnsLowering(m.connections, draws[..n], c1);
    ResolveWiresStable(m.wires, c1, c2, RegisterAll(RegisterAll(map[], cells.drivers), conns.drivers), draws[n..]);
  }

  /** `text` is what `run` writes for module `m` under `cache`. */
  ghost predicate LoweredAs(design: Design, m: Module, cache: map<string, string>, draws: seq<string>,
                            text: seq<string>)
  {
    ModuleLowerable(design, m, cache, draws) && text == LoweredText(design, m, cache, draws)
  }

  lemma LoweredAsStable(design: Design, m: Module, c1: map<string, string>, c2: map<string, string>,
                        draws: seq<string>, text: seq<string>)
    requires LoweredAs(design, m, c1, draws, text) && Extends(c2, c1)
    ensures LoweredAs(design, m, c2, draws, text)
  {
    LoweredTextStable(design, m, c1, c2, draws);
  }

  /** The text built from the lists `LowerModule` computes is the module's lowered text. */
  lemma LoweredAsText(design: Design, m: Module, cache: map<string, string>, draws: seq<string>, text: seq<string>)
    requires ModuleLowerable(design, m, cache, draws)
    requires
      var l := LowerModule(design, m, cache, draws);
      text == ModuleText(cache[m.name], l.portDecls, l.wireDecls, l.cellExprs, l.wireExprs)
    ensures LoweredAs(design, m, cache, draws, text)
  {
  }

  /** The text of one module: header, then the four lists, separated by empty lines. */
  function ModuleText(id: string, portDecls: seq<string>, wireDecls: seq<string>, cellExprs: seq<string>,
                      wireExprs: seq<string>): seq<string>
  {
    ["  module " + id + ":\n"] + portDecls + ["\n"] + wireDecls + ["\n"] + cellExprs + ["\n"] + wireExprs
  }
}
