/**
 * `CheckPass::execute` (passes/cmds/check.cc): for every module without
 * processes it records, per canonical signal bit, the descriptions of what
 * drives it, how many pure drivers it has, and whether something reads it;
 * then it counts the problems it finds: unmapped internal cells, unprocessed
 * `init` attributes, bits with conflicting drivers, used bits without a
 * driver, logic loops, and `init` bits not driven by a flip-flop.
 *
 * The `SigMap` built for each module is the parameter `sigmaps(m)` (`sigmap`
 * inside one module); the problems are recorded as values instead of being
 * written to the log.
 */
module CheckPass {
  import opened Wrappers
  import opened Text
  import opened Netlist

  // ---- options ----

  datatype Flags = Flags(noinit: bool, initdrv: bool, mapped: bool, allowTbuf: bool, assertMode: bool)

  predicate IsFlag(a: string)
  {
    a == "-noinit" || a == "-initdrv" || a == "-mapped" || a == "-allow-tbuf" || a == "-assert"
  }

  /**
   * An option is in effect when it appears before the first argument that is
   * not one of the five options (`extra_args` receives the rest).
   */
  predicate OptionGiven(args: seq<string>, opt: string)
  {
    exists i | 1 <= i < |args| :: args[i] == opt && forall j | 1 <= j < i :: IsFlag(args[j])
  }

  function FlagsOf(args: seq<string>): Flags
  {
    Flags(OptionGiven(args, "-noinit"), OptionGiven(args, "-initdrv"), OptionGiven(args, "-mapped"),
          OptionGiven(args, "-allow-tbuf"), OptionGiven(args, "-assert"))
  }

  /** The first argument that is not one of the five options starts with `-`, so `extra_args` rejects it. */
  predicate LeftoverOption(args: seq<string>)
  {
    exists i | 1 <= i < |args| :: UnknownOption(args, i) && !IsFlag(args[i]) && forall j | 1 <= j < i :: IsFlag(args[j])
  }

  /** At the index where the option loop stops, `extra_args` rejects the argument exactly when `LeftoverOption` holds. */
  lemma LeftoverAtStop(args: seq<string>, argidx: nat)
    requires 1 <= argidx && (argidx == 1 || argidx <= |args|)
    requires forall i | 1 <= i < argidx :: IsFlag(args[i])
    requires argidx < |args| ==> !IsFlag(args[argidx])
    ensures UnknownOption(args, argidx) <==> LeftoverOption(args)
  {
    if LeftoverOption(args) {
      var i :| 1 <= i < |args| && UnknownOption(args, i) && !IsFlag(args[i]) && forall j | 1 <= j < i :: IsFlag(args[j]);
      assert i == argidx;
    }
    if UnknownOption(args, argidx) {
      assert 1 <= argidx < |args| && !IsFlag(args[argidx]);
    }
  }

  /** Whether `opt` is among `args[1..n]`. */
  predicate Seen(args: seq<string>, n: nat, opt: string)
  {
    exists i | 1 <= i < n && i < |args| :: args[i] == opt
  }

  /** The options among `args[1..n]`. */
  function SeenFlags(args: seq<string>, n: nat): Flags
  {
    Flags(Seen(args, n, "-noinit"), Seen(args, n, "-initdrv"), Seen(args, n, "-mapped"),
          Seen(args, n, "-allow-tbuf"), Seen(args, n, "-assert"))
  }

  /** The option loop: it stops at the first argument that is not one of the five options. */
  method ParseFlags(args: seq<string>) returns (flags: Flags, argidx: nat)
    ensures 1 <= argidx && (argidx == 1 || argidx <= |args|)
    ensures forall i | 1 <= i < argidx :: IsFlag(args[i])
    ensures argidx < |args| ==> !IsFlag(args[argidx])
    ensures flags == FlagsOf(args)
  {
    flags := Flags(false, false, false, false, false);
    argidx := 1;
    while argidx < |args|
      invariant 1 <= argidx && (argidx == 1 || argidx <= |args|)
      invariant forall i | 1 <= i < argidx :: IsFlag(args[i])
      invariant flags == SeenFlags(args, argidx)
    {
      var a := args[argidx];
      if a == "-noinit" {
        flags := flags.(noinit := true);
      } else if a == "-initdrv" {
        flags := flags.(initdrv := true);
      } else if a == "-mapped" {
        flags := flags.(mapped := true);
      } else if a == "-allow-tbuf" {
        flags := flags.(allowTbuf := true);
      } else if a == "-assert" {
        flags := flags.(assertMode := true);
      } else {
        break;
      }
      argidx := argidx + 1;
    }
    FlagsAtStop(args, argidx, flags);
  }

  lemma FlagsAtStop(args: seq<string>, argidx: nat, flags: Flags)
    requires 1 <= argidx && (argidx == 1 || argidx <= |args|)
    requires forall i | 1 <= i < argidx :: IsFlag(args[i])
    requires argidx < |args| ==> !IsFlag(args[argidx])
    requires flags == SeenFlags(args, argidx)
    ensures flags == FlagsOf(args)
  {
    OptionBeforeStop(args, argidx, "-noinit");
    OptionBeforeStop(args, argidx, "-initdrv");
    OptionBeforeStop(args, argidx, "-mapped");
    OptionBeforeStop(args, argidx, "-allow-tbuf");
    OptionBeforeStop(args, argidx, "-assert");
  }

  /** An option seen by the loop, which stops at `argidx`, is exactly one that is in effect. */
  lemma OptionBeforeStop(args: seq<string>, argidx: nat, opt: string)
    requires IsFlag(opt)
    requires 1 <= argidx && (argidx == 1 || argidx <= |args|)
    requires forall i | 1 <= i < argidx :: IsFlag(args[i])
    requires argidx < |args| ==> !IsFlag(args[argidx])
    ensures Seen(args, argidx, opt) <==> OptionGiven(args, opt)
  {
    if OptionGiven(args, opt) {
      var i :| 1 <= i < |args| && args[i] == opt && forall j | 1 <= j < i :: IsFlag(args[j]);
      if i > argidx {
        assert false;
      }
      assert i != argidx;
    }
  }

  // ---- the driver bookkeeping ----

  /** A driver description: a cell output bit, or a module input bit. */
  datatype Driver = CellPort(port: string, index: nat, cell: string, cellType: string) | ModuleInput(wire: string, index: nat)

  /** `wire_drivers`, `wire_drivers_count` and `used_wires` of one module. */
  datatype Scan = Scan(entries: map<SigBit, seq<Driver>>, counts: map<SigBit, nat>, used: set<SigBit>)

  function EntriesAt(e: map<SigBit, seq<Driver>>, b: SigBit): seq<Driver>
  {
    if b in e then e[b] else []
  }

  function CountAt(c: map<SigBit, nat>, b: SigBit): nat
  {
    if b in c then c[b] else 0
  }

  /** `wire_drivers[b].push_back(d)`. */
  function AddDriver(e: map<SigBit, seq<Driver>>, b: SigBit, d: Driver): map<SigBit, seq<Driver>>
  {
    e[b := EntriesAt(e, b) + [d]]
  }

  /** All bits of a wire, as `SigSpec(wire)`. */
  function WireSig(w: Wire): (r: SigSpec)
    ensures |r| == w.width
  {
    seq(w.width, i requires 0 <= i < w.width => WireBit(w, i))
  }

  /** The wire bits of `sig`. */
  function WireBitsOf(sig: SigSpec): set<SigBit>
  {
    set i | 0 <= i < |sig| && sig[i].WireBit? :: sig[i]
  }

  /** The first `n` bits of a cell output: a description for each wire bit. */
  function PortDrivers(e: map<SigBit, seq<Driver>>, sig: SigSpec, n: nat, port: string, cell: Cell): map<SigBit, seq<Driver>>
    requires n <= |sig|
  {
    if n == 0 then e
    else
      var r := PortDrivers(e, sig, n - 1, port, cell);
      if sig[n - 1].WireBit? then AddDriver(r, sig[n - 1], CellPort(port, n - 1, cell.name, cell.cellType)) else r
  }

  /** The first `n` bits of a module input: a description for every bit, constant or not. */
  function InputDrivers(e: map<SigBit, seq<Driver>>, sig: SigSpec, n: nat, wire: string): map<SigBit, seq<Driver>>
    requires n <= |sig|
  {
    if n == 0 then e else AddDriver(InputDrivers(e, sig, n - 1, wire), sig[n - 1], ModuleInput(wire, n - 1))
  }

  /** `wire_drivers_count[bit]++` for the wire bits among the first `n`. */
  function Bumps(c: map<SigBit, nat>, sig: SigSpec, n: nat): map<SigBit, nat>
    requires n <= |sig|
  {
    if n == 0 then c
    else
      var r := Bumps(c, sig, n - 1);
      if sig[n - 1].WireBit? then r[sig[n - 1] := CountAt(r, sig[n - 1]) + 1] else r
  }

  /** One connection of a cell: inputs are used, outputs described, pure outputs counted. */
  function ScanConn(s: Scan, cell: Cell, conn: Conn, sigmap: SigBit -> SigBit): Scan
  {
    var sig := Canon(sigmap, conn.sig);
    Scan(if conn.isOutput then PortDrivers(s.entries, sig, |sig|, conn.port, cell) else s.entries,
         if !conn.isInput && conn.isOutput then Bumps(s.counts, sig, |sig|) else s.counts,
         if conn.isInput then s.used + WireBitsOf(sig) else s.used)
  }

  function ScanConns(s: Scan, cell: Cell, conns: seq<Conn>, sigmap: SigBit -> SigBit): Scan
  {
    if conns == [] then s
    else ScanConn(ScanConns(s, cell, conns[..|conns| - 1], sigmap), cell, conns[|conns| - 1], sigmap)
  }

  function ScanCells(s: Scan, cells: seq<Cell>, sigmap: SigBit -> SigBit): Scan
  {
    if cells == [] then s
    else
      var last := cells[|cells| - 1];
      ScanConns(ScanCells(s, cells[..|cells| - 1], sigmap), last, last.conns, sigmap)
  }

  /** One wire: module inputs are described, pure inputs counted, outputs used. */
  function ScanWire(s: Scan, w: Wire, sigmap: SigBit -> SigBit): Scan
  {
    var sig := Canon(sigmap, WireSig(w));
    Scan(if w.portInput then InputDrivers(s.entries, sig, |sig|, w.name) else s.entries,
         if w.portInput && !w.portOutput then Bumps(s.counts, sig, |sig|) else s.counts,
         if w.portOutput then s.used + WireBitsOf(sig) else s.used)
  }

  function ScanWires(s: Scan, wires: seq<Wire>, sigmap: SigBit -> SigBit): Scan
  {
    if wires == [] then s else ScanWire(ScanWires(s, wires[..|wires| - 1], sigmap), wires[|wires| - 1], sigmap)
  }

  /** The module's bookkeeping once both loops have run. */
  function ScanModule(m: Module, sigmap: SigBit -> SigBit): Scan
  {
    ScanWires(ScanCells(Scan(map[], map[], {}), m.cells, sigmap), m.wires, sigmap)
  }

  // ---- counting: every counted driver is also described ----

  /** How often `b`, a wire bit, occurs among the first `n` bits of `sig`. */
  function Occurrences(sig: SigSpec, n: nat, b: SigBit): nat
    requires n <= |sig|
  {
    if n == 0 then 0 else Occurrences(sig, n - 1, b) + if sig[n - 1] == b && b.WireBit? then 1 else 0
  }

  lemma {:induction false} PortDriversAdd(e: map<SigBit, seq<Driver>>, sig: SigSpec, n: nat, port: string, cell: Cell, b: SigBit)
    requires n <= |sig|
    ensures |EntriesAt(PortDrivers(e, sig, n, port, cell), b)| == |EntriesAt(e, b)| + Occurrences(sig, n, b)
  {
    if n > 0 {
      PortDriversAdd(e, sig, n - 1, port, cell, b);
    }
  }

  lemma {:induction false} InputDriversAdd(e: map<SigBit, seq<Driver>>, sig: SigSpec, n: nat, wire: string, b: SigBit)
    requires n <= |sig|
    ensures |EntriesAt(InputDrivers(e, sig, n, wire), b)| >= |EntriesAt(e, b)| + Occurrences(sig, n, b)
  {
    if n > 0 {
      InputDriversAdd(e, sig, n - 1, wire, b);
    }
  }

  lemma {:induction false} BumpsAdd(c: map<SigBit, nat>, sig: SigSpec, n: nat, b: SigBit)
    requires n <= |sig|
    ensures CountAt(Bumps(c, sig, n), b) == CountAt(c, b) + Occurrences(sig, n, b)
  {
    if n > 0 {
      BumpsAdd(c, sig, n - 1, b);
    }
  }

  /** Each bit has at least as many descriptions as counted drivers. */
  ghost predicate Described(s: Scan)
  {
    forall b :: CountAt(s.counts, b) <= |EntriesAt(s.entries, b)|
  }

  lemma ScanConnDescribed(s: Scan, cell: Cell, conn: Conn, sigmap: SigBit -> SigBit)
    requires Described(s)
    ensures Described(ScanConn(s, cell, conn, sigmap))
  {
    var sig := Canon(sigmap, conn.sig);
    forall b
      ensures CountAt(ScanConn(s, cell, conn, sigmap).counts, b) <= |EntriesAt(ScanConn(s, cell, conn, sigmap).entries, b)|
    {
      if conn.isOutput {
        PortDriversAdd(s.entries, sig, |sig|, conn.port, cell, b);
        if !conn.isInput {
          BumpsAdd(s.counts, sig, |sig|, b);
        }
      }
    }
  }

  lemma {:induction false} ScanConnsDescribed(s: Scan, cell: Cell, conns: seq<Conn>, sigmap: SigBit -> SigBit)
    requires Described(s)
    ensures Described(ScanConns(s, cell, conns, sigmap))
    decreases |conns|
  {
    if conns != [] {
      ScanConnsDescribed(s, cell, conns[..|conns| - 1], sigmap);
      ScanConnDescribed(ScanConns(s, cell, conns[..|conns| - 1], sigmap), cell, conns[|conns| - 1], sigmap);
    }
  }

  lemma {:induction false} ScanCellsDescribed(s: Scan, cells: seq<Cell>, sigmap: SigBit -> SigBit)
    requires Described(s)
    ensures Described(ScanCells(s, cells, sigmap))
    decreases |cells|
  {
    if cells != [] {
      var last := cells[|cells| - 1];
      ScanCellsDescribed(s, cells[..|cells| - 1], sigmap);
      ScanConnsDescribed(ScanCells(s, cells[..|cells| - 1], sigmap), last, last.conns, sigmap);
    }
  }

  lemma ScanWireDescribed(s: Scan, w: Wire, sigmap: SigBit -> SigBit)
    requires Described(s)
    ensures Described(ScanWire(s, w, sigmap))
  {
    var sig := Canon(sigmap, WireSig(w));
    forall b
      ensures CountAt(ScanWire(s, w, sigmap).counts, b) <= |EntriesAt(ScanWire(s, w, sigmap).entries, b)|
    {
      if w.portInput {
        InputDriversAdd(s.entries, sig, |sig|, w.name, b);
        if !w.portOutput {
          BumpsAdd(s.counts, sig, |sig|, b);
        }
      }
    }
  }

  lemma {:induction false} ScanWiresDescribed(s: Scan, wires: seq<Wire>, sigmap: SigBit -> SigBit)
    requires Described(s)
    ensures Described(ScanWires(s, wires, sigmap))
    decreases |wires|
  {
    if wires != [] {
      ScanWiresDescribed(s, wires[..|wires| - 1], sigmap);
      ScanWireDescribed(ScanWires(s, wires[..|wires| - 1], sigmap), wires[|wires| - 1], sigmap);
    }
  }

  /**
   * A bit counted as driven more than once has at least two descriptions, so
   * every conflict warning lists at least two drivers, and every counted bit
   * is a key of `wire_drivers`, which the conflict loop walks.
   */
  lemma ConflictsListDrivers(m: Module, sigmap: SigBit -> SigBit, b: SigBit)
    ensures CountAt(ScanModule(m, sigmap).counts, b) <= |EntriesAt(ScanModule(m, sigmap).entries, b)|
    ensures CountAt(ScanModule(m, sigmap).counts, b) > 0 ==> b in ScanModule(m, sigmap).entries
  {
    ScanCellsDescribed(Scan(map[], map[], {}), m.cells, sigmap);
    ScanWiresDescribed(ScanCells(Scan(map[], map[], {}), m.cells, sigmap), m.wires, sigmap);
  }

  /** An inout port adds descriptions for its bits but no counted driver, and marks them used. */
  lemma InoutPortNotCounted(s: Scan, w: Wire, sigmap: SigBit -> SigBit, i: nat)
    requires w.portInput && w.portOutput && i < w.width
    ensures ScanWire(s, w, sigmap).counts == s.counts
    ensures sigmap(WireBit(w, i)) in ScanWire(s, w, sigmap).entries
    ensures sigmap(WireBit(w, i)).WireBit? ==> sigmap(WireBit(w, i)) in ScanWire(s, w, sigmap).used
  {
    var sig := Canon(sigmap, WireSig(w));
    InputDriversPresent(s.entries, sig, |sig|, w.name, i);
    assert sig[i] == sigmap(WireBit(w, i));
  }

  lemma {:induction false} InputDriversPresent(e: map<SigBit, seq<Driver>>, sig: SigSpec, n: nat, wire: string, i: nat)
    requires i < n <= |sig|
    ensures sig[i] in InputDrivers(e, sig, n, wire)
  {
    if i < n - 1 {
      InputDriversPresent(e, sig, n - 1, wire, i);
    }
  }

  // ---- the two loops that fill the bookkeeping ----

  method AddPortDrivers(e: map<SigBit, seq<Driver>>, sig: SigSpec, port: string, cell: Cell) returns (r: map<SigBit, seq<Driver>>)
    ensures r == PortDrivers(e, sig, |sig|, port, cell)
  {
    r := e;
    for i := 0 to |sig|
      invariant r == PortDrivers(e, sig, i, port, cell)
    {
      if sig[i].WireBit? {
        r := AddDriver(r, sig[i], CellPort(port, i, cell.name, cell.cellType));
      }
    }
  }

  method AddInputDrivers(e: map<SigBit, seq<Driver>>, sig: SigSpec, wire: string) returns (r: map<SigBit, seq<Driver>>)
    ensures r == InputDrivers(e, sig, |sig|, wire)
  {
    r := e;
    for i := 0 to |sig|
      invariant r == InputDrivers(e, sig, i, wire)
    {
      r := AddDriver(r, sig[i], ModuleInput(wire, i));
    }
  }

  method AddCounts(c: map<SigBit, nat>, sig: SigSpec) returns (r: map<SigBit, nat>)
    ensures r == Bumps(c, sig, |sig|)
  {
    r := c;
    for i := 0 to |sig|
      invariant r == Bumps(c, sig, i)
    {
      if sig[i].WireBit? {
        r := r[sig[i] := CountAt(r, sig[i]) + 1];
      }
    }
  }

  method AddUses(used: set<SigBit>, sig: SigSpec) returns (r: set<SigBit>)
    ensures r == used + WireBitsOf(sig)
  {
    r := used;
    for i := 0 to |sig|
      invariant r == used + WireBitsOf(sig[..i])
    {
      if sig[i].WireBit? {
        r := r + {sig[i]};
      }
      assert WireBitsOf(sig[..i + 1]) == WireBitsOf(sig[..i]) + if sig[i].WireBit? then {sig[i]} else {} by {
        assert forall k | 0 <= k < i :: sig[..i + 1][k] == sig[..i][k];
      }
    }
    assert sig[..|sig|] == sig;
  }

  /** `$`-prefixed cell types that are not modules of the design. */
  predicate Unmapped(design: Design, flags: Flags, cell: Cell)
  {
    flags.mapped && |cell.cellType| > 0 && cell.cellType[0] == '$'
    && FindModule(design.modules, cell.cellType).None?
    && !(flags.allowTbuf && cell.cellType == "$_TBUF_")
  }

  /** A problem the pass reports with a warning and counts. */
  datatype Problem =
    | UnmappedCell(cell: string, cellType: string)
    | UnprocessedInit(wire: string)
    | Conflict(bit: SigBit, drivers: seq<Driver>)
    | NoDriver(bit: SigBit)
    | LogicLoop(index: nat)
    | InitNotFF(start: SigBit)

  /** The unmapped-cell warnings, in cell order. */
  function UnmappedProblems(design: Design, flags: Flags, cells: seq<Cell>): seq<Problem>
  {
    if cells == [] then []
    else
      var last := cells[|cells| - 1];
      UnmappedProblems(design, flags, cells[..|cells| - 1])
      + if Unmapped(design, flags, last) then [UnmappedCell(last.name, last.cellType)] else []
  }

  method ScanCellConns(s: Scan, cell: Cell, sigmap: SigBit -> SigBit) returns (r: Scan)
    ensures r == ScanConns(s, cell, cell.conns, sigmap)
  {
    r := s;
    for k := 0 to |cell.conns|
      invariant r == ScanConns(s, cell, cell.conns[..k], sigmap)
    {
      var conn := cell.conns[k];
      var sig := Canon(sigmap, conn.sig);
      var entries, counts, used := r.entries, r.counts, r.used;
      if conn.isInput {
        used := AddUses(used, sig);
      }
      if conn.isOutput {
        entries := AddPortDrivers(entries, sig, conn.port, cell);
      }
      if !conn.isInput && conn.isOutput {
        counts := AddCounts(counts, sig);
      }
      assert cell.conns[..k + 1][..k] == cell.conns[..k];
      r := Scan(entries, counts, used);
    }
    assert cell.conns[..|cell.conns|] == cell.conns;
  }

  /** The loop over the cells: unmapped-cell warnings and the cells' drivers and uses. */
  method ScanModuleCells(design: Design, flags: Flags, m: Module, sigmap: SigBit -> SigBit)
    returns (s: Scan, problems: seq<Problem>)
    ensures s == ScanCells(Scan(map[], map[], {}), m.cells, sigmap)
    ensures problems == UnmappedProblems(design, flags, m.cells)
  {
    s := Scan(map[], map[], {});
    problems := [];
    for k := 0 to |m.cells|
      invariant s == ScanCells(Scan(map[], map[], {}), m.cells[..k], sigmap)
      invariant problems == UnmappedProblems(design, flags, m.cells[..k])
    {
      var cell := m.cells[k];
      assert m.cells[..k + 1][..k] == m.cells[..k];
      if flags.mapped && |cell.cellType| > 0 && cell.cellType[0] == '$' && FindModule(design.modules, cell.cellType).None? {
        if !(flags.allowTbuf && cell.cellType == "$_TBUF_") {
          problems := problems + [UnmappedCell(cell.name, cell.cellType)];
        }
      }
      s := ScanCellConns(s, cell, sigmap);
    }
    assert m.cells[..|m.cells|] == m.cells;
  }

  /** The `init` bits of a wire with value 0 or 1, below both lengths, canonicalised. */
  function InitBitsOf(w: Wire, sigmap: SigBit -> SigBit): set<SigBit>
  {
    if w.init.None? then {}
    else
      var v := w.init.value;
      set i | 0 <= i < Min(|v|, w.width) && (v[i] == S0 || v[i] == S1) :: sigmap(WireBit(w, i))
  }

  function Min(a: nat, b: nat): nat
  {
    if a < b then a else b
  }

  function InitBits(wires: seq<Wire>, sigmap: SigBit -> SigBit): set<SigBit>
  {
    if wires == [] then {} else InitBits(wires[..|wires| - 1], sigmap) + InitBitsOf(wires[|wires| - 1], sigmap)
  }

  /** The `-noinit` warnings, in wire order. */
  function NoinitProblems(flags: Flags, wires: seq<Wire>): seq<Problem>
  {
    if wires == [] then []
    else
      var last := wires[|wires| - 1];
      NoinitProblems(flags, wires[..|wires| - 1]) + if last.init.Some? && flags.noinit then [UnprocessedInit(last.name)] else []
  }

  method AddInitBits(bits: set<SigBit>, w: Wire, sigmap: SigBit -> SigBit) returns (r: set<SigBit>)
    requires w.init.Some?
    ensures r == bits + InitBitsOf(w, sigmap)
  {
    var initval := w.init.value;
    r := bits;
    var i := 0;
    while i < |initval| && i < w.width
      invariant 0 <= i <= Min(|initval|, w.width)
      invariant r == bits + set j | 0 <= j < i && (initval[j] == S0 || initval[j] == S1) :: sigmap(WireBit(w, j))
    {
      if initval[i] == S0 || initval[i] == S1 {
        r := r + {sigmap(WireBit(w, i))};
      }
      i := i + 1;
    }
  }

  /** The loop over the wires. */
  method ScanModuleWires(flags: Flags, s0: Scan, wires: seq<Wire>, sigmap: SigBit -> SigBit)
    returns (s: Scan, initBits: set<SigBit>, problems: seq<Problem>)
    ensures s == ScanWires(s0, wires, sigmap)
    ensures initBits == InitBits(wires, sigmap)
    ensures problems == NoinitProblems(flags, wires)
  {
    s := s0;
    initBits := {};
    problems := [];
    for k := 0 to |wires|
      invariant s == ScanWires(s0, wires[..k], sigmap)
      invariant initBits == InitBits(wires[..k], sigmap)
      invariant problems == NoinitProblems(flags, wires[..k])
    {
      var w := wires[k];
      var sig := Canon(sigmap, WireSig(w));
      var entries, counts, used := s.entries, s.counts, s.used;
      if w.portInput {
        entries := AddInputDrivers(entries, sig, w.name);
      }
      if w.portOutput {
        used := AddUses(used, sig);
      }
      if w.portInput && !w.portOutput {
        counts := AddCounts(counts, sig);
      }
      if w.init.Some? {
        initBits := AddInitBits(initBits, w, sigmap);
        if flags.noinit {
          problems := problems + [UnprocessedInit(w.name)];
        }
      }
      assert wires[..k + 1][..k] == wires[..k];
      s := Scan(entries, counts, used);
    }
    assert wires[..|wires|] == wires;
  }

  // ---- the reports ----

  /** The bits the conflict loop warns about. */
  function ConflictBits(s: Scan): set<SigBit>
  {
    set b | b in s.entries && CountAt(s.counts, b) > 1
  }

  /** One `Conflict` per bit of `bits`, listing its descriptions, and nothing else. */
  ghost predicate ReportsConflicts(problems: seq<Problem>, s: Scan, bits: set<SigBit>)
  {
    (forall i | 0 <= i < |problems| ::
       problems[i].Conflict? && problems[i].bit in bits && problems[i].drivers == EntriesAt(s.entries, problems[i].bit))
    && (forall b | b in bits :: Conflict(b, EntriesAt(s.entries, b)) in problems)
    && (forall i, j | 0 <= i < j < |problems| :: problems[i] != problems[j])
  }

  /** The walk over `wire_drivers`; the order of a hash dictionary is not modelled. */
  method ReportConflicts(s: Scan) returns (problems: seq<Problem>)
    ensures ReportsConflicts(problems, s, ConflictBits(s))
  {
    problems := [];
    var todo := s.entries.Keys;
    while todo != {}
      invariant todo <= s.entries.Keys
      invariant ReportsConflicts(problems, s, ConflictBits(s) - todo)
      invariant forall i | 0 <= i < |problems| :: problems[i].bit !in todo
      decreases |todo|
    {
      var b :| b in todo;
      if CountAt(s.counts, b) > 1 {
        problems := problems + [Conflict(b, s.entries[b])];
      }
      todo := todo - {b};
    }
  }

  /** The bits the undriven loop warns about: used, but with no description at all. */
  function UndrivenBits(s: Scan): set<SigBit>
  {
    set b | b in s.used && b !in s.entries
  }

  ghost predicate ReportsUndriven(problems: seq<Problem>, bits: set<SigBit>)
  {
    (forall i | 0 <= i < |problems| :: problems[i].NoDriver? && problems[i].bit in bits)
    && (forall b | b in bits :: NoDriver(b) in problems)
    && (forall i, j | 0 <= i < j < |problems| :: problems[i] != problems[j])
  }

  method ReportUndriven(s: Scan) returns (problems: seq<Problem>)
    ensures ReportsUndriven(problems, UndrivenBits(s))
  {
    problems := [];
    var todo := s.used;
    while todo != {}
      invariant todo <= s.used
      invariant ReportsUndriven(problems, UndrivenBits(s) - todo)
      invariant forall i | 0 <= i < |problems| :: problems[i].bit !in todo
      decreases |todo|
    {
      var b :| b in todo;
      if b !in s.entries {
        problems := problems + [NoDriver(b)];
      }
      todo := todo - {b};
    }
  }

  /** A bit driven by an inout port only has a description, so it is never reported undriven. */
  lemma InoutDrivenNotUndriven(m: Module, sigmap: SigBit -> SigBit, k: nat, i: nat)
    requires k < |m.wires| && m.wires[k].portInput && m.wires[k].portOutput && i < m.wires[k].width
    ensures sigmap(WireBit(m.wires[k], i)) !in UndrivenBits(ScanModule(m, sigmap))
  {
    var s := ScanCells(Scan(map[], map[], {}), m.cells, sigmap);
    var pre := ScanWires(s, m.wires[..k], sigmap);
    InoutPortNotCounted(pre, m.wires[k], sigmap, i);
    assert m.wires[..k + 1][..k] == m.wires[..k];
    ScanWiresKeepEntries(s, m.wires, k + 1, sigmap, sigmap(WireBit(m.wires[k], i)));
  }

  /** A bit that has a description keeps it through the later wires. */
  lemma {:induction false} ScanWiresKeepEntries(s: Scan, wires: seq<Wire>, n: nat, sigmap: SigBit -> SigBit, b: SigBit)
    requires n <= |wires| && b in ScanWires(s, wires[..n], sigmap).entries
    ensures b in ScanWires(s, wires, sigmap).entries
    decreases |wires| - n
  {
    if n < |wires| {
      var next := ScanWires(s, wires[..n + 1], sigmap);
      assert wires[..n + 1][..n] == wires[..n];
      var w := wires[n];
      if w.portInput {
        var sig := Canon(sigmap, WireSig(w));
        InputDriversKeep(ScanWires(s, wires[..n], sigmap).entries, sig, |sig|, w.name, b);
      }
      ScanWiresKeepEntries(s, wires, n + 1, sigmap, b);
    } else {
      assert wires[..n] == wires;
    }
  }

  lemma {:induction false} InputDriversKeep(e: map<SigBit, seq<Driver>>, sig: SigSpec, n: nat, wire: string, b: SigBit)
    requires n <= |sig| && b in e
    ensures b in InputDrivers(e, sig, n, wire)
  {
    if n > 0 {
      InputDriversKeep(e, sig, n - 1, wire, b);
    }
  }

  // ---- init bits not driven by a flip-flop ----

  /** The flip-flop and latch cell types whose `Q` drives an `init` bit legitimately. */
  const FF_TYPES: set<string> := {
    "$sr", "$ff", "$dff", "$dffe", "$dffsr", "$adff", "$dlatch", "$dlatchsr",
    "$_DFFE_NN_", "$_DFFE_NP_", "$_DFFE_PN_", "$_DFFE_PP_",
    "$_DFFSR_NNN_", "$_DFFSR_NNP_", "$_DFFSR_NPN_", "$_DFFSR_NPP_",
    "$_DFFSR_PNN_", "$_DFFSR_PNP_", "$_DFFSR_PPN_", "$_DFFSR_PPP_",
    "$_DFF_NN0_", "$_DFF_NN1_", "$_DFF_NP0_", "$_DFF_NP1_", "$_DFF_N_",
    "$_DFF_PN0_", "$_DFF_PN1_", "$_DFF_PP0_", "$_DFF_PP1_", "$_DFF_P_",
    "$_DLATCHSR_NNN_", "$_DLATCHSR_NNP_", "$_DLATCHSR_NPN_", "$_DLATCHSR_NPP_",
    "$_DLATCHSR_PNN_", "$_DLATCHSR_PNP_", "$_DLATCHSR_PPN_", "$_DLATCHSR_PPP_",
    "$_DLATCH_N_", "$_DLATCH_P_", "$_FF_"
  }

  /** The canonical bits of the `Q` outputs of the flip-flops among `cells`. */
  function FFOutputs(cells: seq<Cell>, sigmap: SigBit -> SigBit): set<SigBit>
  {
    if cells == [] then {}
    else
      var last := cells[|cells| - 1];
      FFOutputs(cells[..|cells| - 1], sigmap)
      + if last.cellType in FF_TYPES then Elements(Canon(sigmap, GetPort(last, "\\Q"))) else {}
  }

  function Elements(q: SigSpec): set<SigBit>
  {
    set b | b in q
  }

  method EraseFFOutputs(bits: set<SigBit>, cells: seq<Cell>, sigmap: SigBit -> SigBit) returns (r: set<SigBit>)
    ensures r == bits - FFOutputs(cells, sigmap)
  {
    r := bits;
    for k := 0 to |cells|
      invariant r == bits - FFOutputs(cells[..k], sigmap)
    {
      var cell := cells[k];
      assert cells[..k + 1][..k] == cells[..k];
      if cell.cellType in FF_TYPES {
        var q := Canon(sigmap, GetPort(cell, "\\Q"));
        ghost var r0 := r;
        for i := 0 to |q|
          invariant r == r0 - Elements(q[..i])
        {
          r := r - {q[i]};
          assert q[..i + 1] == q[..i] + [q[i]];
          assert Elements(q[..i + 1]) == Elements(q[..i]) + {q[i]};
        }
        assert q[..|q|] == q;
      }
    }
    assert cells[..|cells|] == cells;
  }

  /**
   * Where a chunk of the sorted bits begins: a wire bit whose predecessor in
   * the same wire is absent. The constant bits, sorted first, form one chunk.
   */
  function ChunkStarts(bits: set<SigBit>): set<SigBit>
  {
    set b | b in bits && b.WireBit? && (b.offset == 0 || WireBit(b.wire, b.offset - 1) !in bits)
  }

  predicate HasConstBit(bits: set<SigBit>)
  {
    exists b :: b in bits && b.ConstBit?
  }

  /** One warning per chunk of the bits left: one per chunk start and one for the constants. */
  ghost predicate ReportsChunks(problems: seq<Problem>, bits: set<SigBit>)
  {
    (forall i | 0 <= i < |problems| ::
       (problems[i].InitNotFF? && problems[i].start in bits
        && (problems[i].start in ChunkStarts(bits) || problems[i].start.ConstBit?)))
    && (forall b | b in ChunkStarts(bits) :: InitNotFF(b) in problems)
    && (forall i, j | 0 <= i < j < |problems| :: problems[i] != problems[j])
    && (forall i, j | 0 <= i < j < |problems| :: !(problems[i].start.ConstBit? && problems[j].start.ConstBit?))
    && (HasConstBit(bits) <==> exists i | 0 <= i < |problems| :: problems[i].start.ConstBit?)
  }

  /** The walk over the chunks of the sorted bits, one warning per chunk. */
  method ReportChunks(bits: set<SigBit>) returns (problems: seq<Problem>)
    ensures ReportsChunks(problems, bits)
  {
    problems := [];
    var todo := bits;
    var constSeen := false;
    while todo != {}
      invariant todo <= bits
      invariant forall i | 0 <= i < |problems| ::
        (problems[i].InitNotFF? && problems[i].start in bits - todo
         && (problems[i].start in ChunkStarts(bits) || problems[i].start.ConstBit?))
      invariant forall b | b in ChunkStarts(bits) - todo :: InitNotFF(b) in problems
      invariant forall i, j | 0 <= i < j < |problems| :: problems[i] != problems[j]
      invariant forall i, j | 0 <= i < j < |problems| :: !(problems[i].start.ConstBit? && problems[j].start.ConstBit?)
      invariant constSeen <==> exists i | 0 <= i < |problems| :: problems[i].start.ConstBit?
      invariant constSeen <==> exists b :: b in bits - todo && b.ConstBit?
      decreases |todo|
    {
      var b :| b in todo;
      ghost var p0 := problems;
      if b.ConstBit? {
        if !constSeen {
          problems := problems + [InitNotFF(b)];
          assert problems[|p0|].start == b;
          constSeen := true;
        }
        assert b in bits - (todo - {b});
      } else if b in ChunkStarts(bits) {
        problems := problems + [InitNotFF(b)];
        assert problems[|p0|].start == b;
        assert forall i | 0 <= i < |p0| :: problems[i] == p0[i];
      }
      todo := todo - {b};
    }
  }

  // ---- one module, and the pass ----

  /** What the pass reports for one module, kind by kind, in the order it reports them. */
  datatype Report = Report(unmapped: seq<Problem>, uninit: seq<Problem>, conflicts: seq<Problem>,
                           undriven: seq<Problem>, loops: seq<Problem>, initNotFF: seq<Problem>)
  {
    function All(): seq<Problem>
    {
      unmapped + uninit + conflicts + undriven + loops + initNotFF
    }
  }

  /** Every kind of problem of one module, as `execute` reports it. */
  ghost predicate Reported(design: Design, flags: Flags, m: Module, sigmap: SigBit -> SigBit, loops: nat, report: Report)
  {
    && report.unmapped == UnmappedProblems(design, flags, m.cells)
    && report.uninit == NoinitProblems(flags, m.wires)
    && ReportsConflicts(report.conflicts, ScanModule(m, sigmap), ConflictBits(ScanModule(m, sigmap)))
    && ReportsUndriven(report.undriven, UndrivenBits(ScanModule(m, sigmap)))
    && report.loops == seq(loops, i requires 0 <= i < loops => LogicLoop(i))
    && (flags.initdrv ==> ReportsChunks(report.initNotFF, InitBits(m.wires, sigmap) - FFOutputs(m.cells, sigmap)))
    && (!flags.initdrv ==> report.initNotFF == [])
  }

  /**
   * One module. `loops` is the number of logic loops the topological sort
   * finds; the sort itself is not modelled.
   */
  method CheckModule(design: Design, flags: Flags, m: Module, sigmap: SigBit -> SigBit, loops: nat)
    returns (report: Report)
    ensures Reported(design, flags, m, sigmap, loops, report)
  {
    var s, unmapped := ScanModuleCells(design, flags, m, sigmap);
    var initBits, uninit;
    s, initBits, uninit := ScanModuleWires(flags, s, m.wires, sigmap);
    var conflicts := ReportConflicts(s);
    var undriven := ReportUndriven(s);
    var loopProblems := seq(loops, i requires 0 <= i < loops => LogicLoop(i));
    var initNotFF := [];
    if flags.initdrv {
      initBits := EraseFFOutputs(initBits, m.cells, sigmap);
      initNotFF := ReportChunks(initBits);
    }
    report := Report(unmapped, uninit, conflicts, undriven, loopProblems, initNotFF);
  }

  /** The modules the pass looks at: those without processes. */
  function CheckedModules(modules: seq<Module>): seq<Module>
  {
    if modules == [] then []
    else
      CheckedModules(modules[..|modules| - 1])
      + if modules[|modules| - 1].hasProcesses then [] else [modules[|modules| - 1]]
  }

  function TotalProblems(reports: seq<Report>): nat
  {
    if reports == [] then 0 else TotalProblems(reports[..|reports| - 1]) + |reports[|reports| - 1].All()|
  }

  /** `reports[i]` is the report on the `i`-th of the modules `checked`. */
  ghost predicate ReportsFor(design: Design, flags: Flags, checked: seq<Module>, sigmaps: Module -> (SigBit -> SigBit),
                             loops: Module -> nat, reports: seq<Report>)
  {
    |reports| == |checked|
    && forall i | 0 <= i < |reports| :: Reported(design, flags, checked[i], sigmaps(checked[i]), loops(checked[i]), reports[i])
  }

  lemma ReportsForSnoc(design: Design, flags: Flags, checked: seq<Module>, sigmaps: Module -> (SigBit -> SigBit),
                       loops: Module -> nat, reports: seq<Report>, m: Module, report: Report)
    requires ReportsFor(design, flags, checked, sigmaps, loops, reports)
    requires Reported(design, flags, m, sigmaps(m), loops(m), report)
    ensures ReportsFor(design, flags, checked + [m], sigmaps, loops, reports + [report])
  {
    forall i | 0 <= i < |reports| + 1
      ensures Reported(design, flags, (checked + [m])[i], sigmaps((checked + [m])[i]), loops((checked + [m])[i]), (reports + [report])[i])
    {
      if i < |reports| {
        assert (checked + [m])[i] == checked[i] && (reports + [report])[i] == reports[i];
      }
    }
  }

  /** One turn of the loop over the modules: module `k` is checked unless it has processes. */
  method CheckNext(design: Design, flags: Flags, k: nat, sigmaps: Module -> (SigBit -> SigBit), loops: Module -> nat,
                   ghost reports: seq<Report>, counter: nat)
    returns (ghost reports': seq<Report>, counter': nat)
    requires k < |design.modules|
    requires ReportsFor(design, flags, CheckedModules(design.modules[..k]), sigmaps, loops, reports)
    requires counter == TotalProblems(reports)
    ensures ReportsFor(design, flags, CheckedModules(design.modules[..k + 1]), sigmaps, loops, reports')
    ensures counter' == TotalProblems(reports')
  {
    var m := design.modules[k];
    assert design.modules[..k + 1][..k] == design.modules[..k];
    assert CheckedModules(design.modules[..k + 1])
      == CheckedModules(design.modules[..k]) + if m.hasProcesses then [] else [m];
    reports', counter' := reports, counter;
    if !m.hasProcesses {
      var report := CheckModule(design, flags, m, sigmaps(m), loops(m));
      ReportsForSnoc(design, flags, CheckedModules(design.modules[..k]), sigmaps, loops, reports, m, report);
      assert (reports + [report])[..|reports|] == reports;
      assert TotalProblems(reports + [report]) == TotalProblems(reports) + |report.All()|;
      reports' := reports + [report];
      counter' := counter + |report.All()|;
    }
  }

  /**
   * `execute`: parse the options, hand the rest to `extra_args`, which rejects
   * a leftover option, check every module without processes under that
   * module's own `SigMap`, and fail exactly when `-assert` was given and a
   * problem was found.
   */
  method Execute(args: seq<string>, design: Design, sigmaps: Module -> (SigBit -> SigBit), loops: Module -> nat)
    returns (r: Result<nat>, ghost reports: seq<Report>)
    ensures LeftoverOption(args) ==> r == Fatal(UNKNOWN_OPTION) && reports == []
    ensures !LeftoverOption(args) ==> |reports| == |CheckedModules(design.modules)|
    ensures !LeftoverOption(args) ==> forall k | 0 <= k < |reports| ::
      Reported(design, FlagsOf(args), CheckedModules(design.modules)[k], sigmaps(CheckedModules(design.modules)[k]), loops(CheckedModules(design.modules)[k]), reports[k])
    ensures !LeftoverOption(args) ==> (r.Fatal? <==> OptionGiven(args, "-assert") && TotalProblems(reports) > 0)
    ensures !LeftoverOption(args) && r.Fatal? ==>
      r.message == "Found " + NatToString(TotalProblems(reports)) + " problems in 'check -assert'."
    ensures r.Ok? ==> r.value == TotalProblems(reports)
  {
    var flags, argidx := ParseFlags(args);
    LeftoverAtStop(args, argidx);
    if UnknownOption(args, argidx) {
      return Fatal(UNKNOWN_OPTION), [];
    }
    var counter := 0;
    reports := [];
    for k := 0 to |design.modules|
      invariant ReportsFor(design, flags, CheckedModules(design.modules[..k]), sigmaps, loops, reports)
      invariant counter == TotalProblems(reports)
    {
      reports, counter := CheckNext(design, flags, k, sigmaps, loops, reports, counter);
    }
    assert design.modules[..|design.modules|] == design.modules;
    assert ReportsFor(design, FlagsOf(args), CheckedModules(design.modules), sigmaps, loops, reports);
    if flags.assertMode && counter > 0 {
      r := Fatal("Found " + NatToString(counter) + " problems in 'check -assert'.");
    } else {
      r := Ok(counter);
    }
  }
}
