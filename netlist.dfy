/**
 * The abstract netlist (RTLIL) that the three passes read: wires, signal bits,
 * cells with parameters and port connections, modules and the design.
 * Only the parts the passes look at are represented.
 */
module Netlist {
  import opened Wrappers

  /** `RTLIL::State`: the value of one constant bit. */
  datatype State = S0 | S1 | Sx | Sz | Sa | Sm

  /** A wire with its name (an IdString such as "\\a" or "$auto$12"), width and port flags. */
  datatype Wire = Wire(name: string, width: nat, portId: nat, portInput: bool, portOutput: bool,
                       init: Option<seq<State>>)

  /** `RTLIL::SigBit`: a constant bit, or bit `offset` of a wire. */
  datatype SigBit = ConstBit(state: State) | WireBit(wire: Wire, offset: nat)

  /** `RTLIL::SigSpec`, least-significant bit first. */
  type SigSpec = seq<SigBit>

  /**
   * A port connection of a cell. `isInput` and `isOutput` are what the cell-type
   * library answers for `cell->input(port)` and `cell->output(port)`.
   */
  datatype Conn = Conn(port: string, sig: SigSpec, isInput: bool, isOutput: bool)

  /**
   * A cell: integer and boolean parameters in `params`, bit-vector parameters
   * (`Const`) in `consts`, connections in the order the netlist iterates them.
   */
  datatype Cell = Cell(name: string, cellType: string, params: map<string, int>,
                       consts: map<string, seq<State>>, conns: seq<Conn>)

  datatype Module = Module(name: string, wires: seq<Wire>, cells: seq<Cell>,
                           connections: seq<(SigSpec, SigSpec)>, topAttr: bool, hasProcesses: bool)

  /** The design; `designatedTop` is what `design->top_module()` answers. */
  datatype Design = Design(modules: seq<Module>, designatedTop: Option<string>)

  /** `cell->parameters.at(p)`; a parameter a checked netlist always carries reads as 0 when absent. */
  function Param(cell: Cell, p: string): int
  {
    if p in cell.params then cell.params[p] else 0
  }

  /** `cell->parameters.at(p).as_bool()`. */
  predicate ParamBool(cell: Cell, p: string)
  {
    Param(cell, p) != 0
  }

  /** An integer parameter used as a bit count or index bound; a negative value selects nothing. */
  function Count(x: int): nat
  {
    if x < 0 then 0 else x
  }

  /** A bit-vector parameter; absent reads as the empty vector. */
  function ConstParam(cell: Cell, p: string): seq<State>
  {
    if p in cell.consts then cell.consts[p] else []
  }

  /** Bit `i` of a Const; a bit beyond the end reads as x. */
  function ConstBitAt(c: seq<State>, i: int): State
  {
    if 0 <= i < |c| then c[i] else Sx
  }

  /** `cell->getPort(p)`: the first connection named `p`, or the empty signal. */
  function GetPort(cell: Cell, p: string): SigSpec
  {
    PortOf(cell.conns, p)
  }

  function PortOf(conns: seq<Conn>, p: string): SigSpec
  {
    if conns == [] then []
    else if conns[0].port == p then conns[0].sig
    else PortOf(conns[1..], p)
  }

  predicate HasPort(cell: Cell, p: string)
  {
    exists k | 0 <= k < |cell.conns| :: cell.conns[k].port == p
  }

  /** `SigSpec::extract(offset, length)`, clipped to the signal. */
  function Extract(sig: SigSpec, offset: nat, length: nat): (r: SigSpec)
    ensures |r| <= length
    ensures offset + length <= |sig| ==> r == sig[offset..offset + length]
  {
    if offset >= |sig| then []
    else if offset + length <= |sig| then sig[offset..offset + length]
    else sig[offset..]
  }

  /** The `i`-th run of `width` bits of `sig`: `extract(i * width, width)`. */
  function Slice(sig: SigSpec, i: nat, width: nat): (r: SigSpec)
    ensures |r| <= width
  {
    Extract(sig, i * width, width)
  }

  /** `SigSpec::is_fully_const()`. */
  predicate IsFullyConst(sig: SigSpec)
  {
    forall i | 0 <= i < |sig| :: sig[i].ConstBit?
  }

  /** `design->module(name)`. */
  function FindModule(modules: seq<Module>, name: string): (r: Option<Module>)
    ensures r.Some? ==> r.value in modules && r.value.name == name
    ensures r.None? ==> forall k | 0 <= k < |modules| :: modules[k].name != name
  {
    if modules == [] then None
    else if modules[0].name == name then Some(modules[0])
    else FindModule(modules[1..], name)
  }

  /** `module->wires_.at(name)`, absent when no wire has that name. */
  function FindWire(wires: seq<Wire>, name: string): (r: Option<Wire>)
    ensures r.Some? ==> r.value in wires && r.value.name == name
    ensures r.None? ==> forall k | 0 <= k < |wires| :: wires[k].name != name
  {
    if wires == [] then None
    else if wires[0].name == name then Some(wires[0])
    else FindWire(wires[1..], name)
  }

  /** The complaint `Pass::extra_args` raises about an argument it does not take. */
  const UNKNOWN_OPTION := "Unknown option or option in arguments."

  /**
   * `Pass::extra_args(args, argidx, design)` aborts when the argument left at
   * `argidx` starts with `-`; any other arguments from there on are a selection.
   */
  predicate UnknownOption(args: seq<string>, argidx: nat)
  {
    argidx < |args| && |args[argidx]| > 0 && args[argidx][0] == '-'
  }

  /** `sigmap(sig)`: `SigMap` canonicalisation, given as a function on bits. */
  function Canon(sigmap: SigBit -> SigBit, sig: SigSpec): (r: SigSpec)
    ensures |r| == |sig|
  {
    seq(|sig|, i requires 0 <= i < |sig| => sigmap(sig[i]))
  }
}
