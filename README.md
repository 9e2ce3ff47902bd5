# Yosys FIRRTL backend, `check` pass and `coolrunner2_sop` pass, in Dafny

This project models three parts of Yosys, the open-source synthesis suite, and
proves properties of the model.

- **`write_firrtl`** (`backends/firrtl/firrtl.cc`) lowers every module of an
  RTLIL design to FIRRTL text. The parts modelled are:
  - the identifier allocator: `make_id`, `next_id`, and the globals
    `used_names`, `namecache` and `autoid_counter`;
  - `make_expr`, which turns a signal into a FIRRTL expression;
  - the per-cell rules, including `gen_dshl` and `getPortFDirection`;
  - `process_instance`;
  - the reverse wire map and the resolver for output wires;
  - `FirrtlWorker::run`;
  - `FirrtlBackend::execute`, with its choice of the circuit's top module.
- **`check`** (`passes/cmds/check.cc`) counts obvious netlist problems and
  fails under `-assert` when it finds any. The problems are:
  - unmapped internal cells;
  - unprocessed `init` attributes;
  - conflicting drivers;
  - used bits without a driver;
  - logic loops;
  - `init` bits that no flip-flop drives.
- **`coolrunner2_sop`** (`techlibs/coolrunner2/coolrunner2_sop.cc`) replaces
  each `$sop` cell with:
  - one `ANDTERM` cell per product term;
  - an `ORTERM` cell when there is more than one term;
  - a `MACROCELL_XOR` cell.

  A `$_NOT_` on the output is folded into the XOR. A single product term that
  feeds a flip-flop or latch pin is wired to that pin directly, flipping the
  clock polarity when the term is inverted.

Files:

| file | contents |
|---|---|
| `wrappers.dfy` | `Option` and `Result`. `Fatal` is an aborted run. |
| `text.dfy` | `%d` rendering and its inverse |
| `netlist.dfy` | wires, signal bits, cells, modules, designs |
| `chunks.dfy` | `SigSpec::chunks()` |
| `firrtl_names.dfy` | class `NameAllocator`: `make_id`, `next_id` |
| `firrtl_expr.dfy` | FIRRTL expressions, hex literals, `make_expr` |
| `firrtl_cells.dfy` | per-cell rules as functions |
| `firrtl_lowering.dfy` | specification functions for the lines `run` emits, the reverse wire map and the resolver |
| `firrtl_worker.dfy` | class `Worker` (`FirrtlWorker`), proved against `firrtl_lowering.dfy` |
| `firrtl_backend.dfy` | `FirrtlBackend::execute` |
| `check_pass.dfy` | `CheckPass::execute` |
| `sop_pass.dfy` | class `SopRewrite` (one module being rewritten) and the pass |

Modelling choices:

- The stateful parts are Dafny classes whose methods mirror the source's loops:
  - the name allocator;
  - the FIRRTL worker with its four line lists and its reverse wire map;
  - the module being rewritten by `coolrunner2_sop`.
- Each method is proved against a specification function. For example,
  `Worker.Run` produces exactly `LoweredText` of `LowerModule`.
- The `SigMap` that `check` and `coolrunner2_sop` build for each module is a
  parameter `sigmaps: Module -> (SigBit -> SigBit)`. A module's own analysis
  sees `sigmaps(m)` as `sigmap: SigBit -> SigBit`.
- A cell's port directions come with each connection, as the cell-type
  library would answer them.
- The number of logic loops that `TopoSort` finds is a parameter.
- The name allocator keeps a ghost set `drawnIds` of every name `next_id`
  handed out. Its invariant says no cached name is among them, which is how
  `FirrtlBackend.Execute` shows that no `_N` wire shares a `make_id` name.

## Model

| member | source | states |
|---|---|---|
| FirrtlNames.LogId | backends/firrtl/firrtl.cc:79 | `log_id` drops at most one character, the leading backslash of a public name. |
| FirrtlNames.SanitizedIsId | backends/firrtl/firrtl.cc:81-89 | After the character scrub, any name is a FIRRTL identifier: letters, digits and `_`, with no leading digit. |
| FirrtlNames.SanitizedChanges | backends/firrtl/firrtl.cc:81-89 | The scrub changes exactly the characters FIRRTL rejects, and each becomes `_`. |
| FirrtlNames.SanitizedFixesIds | backends/firrtl/firrtl.cc:81-89 | A valid FIRRTL name passes the scrub unchanged, so the scrub is idempotent. |
| FirrtlNames.UnderscoresKeepId | backends/firrtl/firrtl.cc:91-92 | Appending underscores keeps a name valid. |
| FirrtlNames.AutoName | backends/firrtl/firrtl.cc:66 | `_<n>` is a FIRRTL identifier. |
| FirrtlNames.AutoNameRoundTrip | backends/firrtl/firrtl.cc:66 | The counter can be read back from `_<n>`, so distinct counters give distinct names. |
| FirrtlNames.NameAllocator.constructor | backends/firrtl/firrtl.cc:35-37 | The globals start empty with the counter at 0, and the allocator invariant holds. |
| FirrtlNames.NameAllocator.ResetForRun | backends/firrtl/firrtl.cc:863-864 | The name cache is cleared and the counter reset; `used_names` is kept. |
| FirrtlNames.NameAllocator.NextId | backends/firrtl/firrtl.cc:61-72 | Returns the first `_<n>` at or after the counter that is not in use. Every skipped name was in use. The result becomes used, is recorded as drawn, and the counter moves past it. |
| FirrtlNames.NameAllocator.MakeId | backends/firrtl/firrtl.cc:74-97 | A cached id returns its cached name and changes nothing. Otherwise the result is the scrubbed `log_id(id)` plus the fewest underscores that make it unused; it is cached and marked used. Cached names stay distinct and none is a name `next_id` handed out. |
| Text.NatToString | backends/firrtl/firrtl.cc:66 | `%d` of a natural number is a non-empty string of digits, one digit exactly for values below 10. |
| Text.DecimalRoundTrip | backends/firrtl/firrtl.cc:66 | Parsing the decimal text gives the number back. |
| Text.NatToStringInjective | backends/firrtl/firrtl.cc:66 | Distinct numbers print differently. |
| Netlist.Extract | backends/firrtl/firrtl.cc:575-576 | `extract(offset, length)` within the signal is that slice; outside it, the result is clipped. |
| Netlist.FindModule | backends/firrtl/firrtl.cc:239 | `design->module(name)` finds a module of that name, or reports that none exists. |
| Netlist.FindWire | backends/firrtl/firrtl.cc:49 | `wires_.at(name)` finds a wire of that name, or reports that none exists. |
| Netlist.Canon | passes/cmds/check.cc:166 | `sigmap(sig)` maps bit by bit and keeps the length. |
| Chunking.ChunksFlatten | backends/firrtl/firrtl.cc:154 | Concatenating the chunks of `sig.chunks()` gives `sig` back. |
| Chunking.ChunksPositive | backends/firrtl/firrtl.cc:154 | No chunk is empty. |
| Chunking.ChunksMaximal | backends/firrtl/firrtl.cc:154 | No two neighbouring chunks could have been one. |
| Chunking.ChunkWiresInSig | backends/firrtl/firrtl.cc:154 | Every wire chunk starts at a bit of the signal. |
| FirrtlExpr.PrintEmpty | backends/firrtl/firrtl.cc:188-191 | Only the empty atom prints as "", so `expr.empty()` is exactly the first-chunk test. |
| FirrtlExpr.HexDigitsRoundTrip | backends/firrtl/firrtl.cc:158-177 | A constant chunk gives ceil(w/4) hex digits. Read back, they equal the chunk's value, with every bit other than 1 counted as 0. |
| FirrtlExpr.HexLiteral | backends/firrtl/firrtl.cc:158-177 | The constant branch of `make_expr` produces `UInt<w>("h…")` over the padded nibbles, most significant first. |
| FirrtlExpr.PadToNibbles | backends/firrtl/firrtl.cc:163-164 | The padding loop appends S0 up to a multiple of four. |
| FirrtlExpr.NibblesToHex | backends/firrtl/firrtl.cc:166-174 | The downward nibble loop emits the digits of the nibbles, from the highest one down. |
| FirrtlExpr.NibbleAt | backends/firrtl/firrtl.cc:168-172 | Weights 1, 2, 4 and 8 give the nibble's value, with only S1 counting. |
| FirrtlExpr.MakeExpr | backends/firrtl/firrtl.cc:150-195 | The result is the chunk expressions folded as `cat(new, old)`, lowest chunk first, with cached wire names. Names are only added, and `next_id` is not called. |
| FirrtlExpr.MakeChunkExpr | backends/firrtl/firrtl.cc:156-186 | A chunk becomes a hex literal, a whole wire's name, or `bits(name, hi, lo)`. |
| FirrtlExpr.SigExprStable | backends/firrtl/firrtl.cc:76-77 | Names added later do not change an expression built earlier, because cached names never change. |
| FirrtlCells.GenDshlClamp | backends/firrtl/firrtl.cc:283-293 | Below 20 bits the shift amount passes through. From 20 bits on it becomes `mux(gt(b, m), m, bits(b, 18, 0))` with `m = UInt<19>(524287)`. |
| FirrtlCells.GenDshlMentions | backends/firrtl/firrtl.cc:283-293 | The clamp adds only `mux`, `gt` and `bits` around the amount. |
| FirrtlCells.UnaryResultCast | backends/firrtl/firrtl.cc:376-377 | A unary result is wrapped in `asUInt` exactly when A is signed. |
| FirrtlCells.UnaryOperandShape | backends/firrtl/firrtl.cc:334-374 | The operand is cast to SInt when signed. It is padded to Y_WIDTH unless the cell is a one-bit `$logic_not`/`$reduce_bool`. `$reduce_xnor` is `not(xorr(..))`, `$logic_not` is `eq(.., UInt(0))`, and `$reduce_bool` compares against a zero of A's sign and width. |
| FirrtlCells.BinaryResultCast | backends/firrtl/firrtl.cc:508-509 | A binary result is wrapped in `asUInt` exactly when (A is signed and the op is not bitwise, comparison or logic) or the op is `$sub`. |
| FirrtlCells.BinaryOperands | backends/firrtl/firrtl.cc:384-506 | The primitive and both operands as built. A is SInt-cast when A_SIGNED, and cast back for `$shr`. B is SInt-cast only for a non-shift with B_SIGNED, and UInt-cast when !B_SIGNED. Logic ops compare each operand with zero. A constant B selects shl/shr, otherwise dshl (through `gen_dshl`) or dshr. Left shifts are cut back to `bits(.., Y_WIDTH-1, 0)`. |
| FirrtlCells.BinaryNoPad | backends/firrtl/firrtl.cc:399-408 | Binary cells never pad: the B_WIDTH update at 404-407 has no effect on the text. |
| FirrtlCells.UnsignedAddText | backends/firrtl/firrtl.cc:497-501 | An unsigned `$add` (line 418) prints as `add(a, asUInt(b))`. |
| FirrtlCells.MuxExpr | backends/firrtl/firrtl.cc:526 | The `$mux` expression prints as `mux(` S `, ` B `, ` A `)`: the select, then the true branch B, then A. |
| FirrtlCells.ShiftxShape | backends/firrtl/firrtl.cc:669-691 | `$shiftx` is `dshr(A, B)`. A signed B is guarded as `validif(not(bits(B, w-1, w-1)), B)`. |
| FirrtlCells.ShiftAsWritten | backends/firrtl/firrtl.cc:692-720 | An unsigned `$shift` is `dshr(A, B)`. A signed one is `mux(B < 0, bits(dshl(A, gen_dshl(B)), 0, Y_WIDTH), dshr(A, B))`, exactly as written: it shifts left by B itself, never negated, and the `bits` indices are reversed. |
| FirrtlCells.PlainNoNeg | backends/firrtl/firrtl.cc:150-195 | A `make_expr` result never contains `neg`. |
| FirrtlCells.WritePortsFatalNone | backends/firrtl/firrtl.cc:585-602 | No write-port error from port i on exactly when each of those ports is clocked, has positive polarity, and has a uniform enable. |
| FirrtlCells.MemFatalIff | backends/firrtl/firrtl.cc:543-602 | A `$mem` aborts exactly when it has a non-x INIT bit, a nonzero OFFSET, a clocked read port, or an unclocked, negedge or complex-enable write port. |
| FirrtlCells.PortFDirection | backends/firrtl/firrtl.cc:47-59 | `getPortFDirection` is fatal exactly when the module has no wire of that name (`wires_.at` throws). |
| FirrtlCells.PortFDirectionFlags | backends/firrtl/firrtl.cc:50-57 | FD_IN is set exactly for an input port and FD_OUT exactly for an output port; a non-port has no direction. |
| FirrtlCells.MangleParamod | backends/firrtl/firrtl.cc:216-225 | The mangled name has the same length, with each of backslash, `=`, quote and `$` replaced by `_`. |
| FirrtlCells.MangleTypeName | backends/firrtl/firrtl.cc:213-226 | The character loop computes `MangleParamod`. |
| FirrtlCells.MangleFixesIds | backends/firrtl/firrtl.cc:210-226 | Applied to a `make_id` name, the mangling changes nothing. |
| FirrtlLowering.KindOfInstance | backends/firrtl/firrtl.cc:329-333 | A cell is lowered as an instance exactly when its type does not start with `$`, or starts with `$paramod` (lines 663-668). |
| FirrtlLowering.LastIndex | backends/firrtl/firrtl.cc:142-143 | The last position of a bit in a signal. |
| FirrtlLowering.RegisterLookup | backends/firrtl/firrtl.cc:140-144 | After `register_reverse_wire_map(id, sig)`, each bit of sig maps to `(id, its last index in sig)` (last write wins). Other bits keep their entry. |
| FirrtlLowering.RegisterAllSnoc | backends/firrtl/firrtl.cc:140-144 | Registering one more signal applies `register_reverse_wire_map` once more. |
| FirrtlLowering.RegisterAllConcat | backends/firrtl/firrtl.cc:140-144 | Registering two lists of drivers in turn equals registering their concatenation. |
| FirrtlLowering.EmitConcat | backends/firrtl/firrtl.cc:322-733 | Appending the lines of two steps in turn equals appending their concatenation, and likewise for their drivers. |
| FirrtlLowering.CellsLoweringStep | backends/firrtl/firrtl.cc:322-722 | The lines of the first k+1 cells are those of the first k followed by cell k's. |
| FirrtlLowering.ConnsLoweringStep | backends/firrtl/firrtl.cc:724-733 | The same, for module connections. |
| FirrtlLowering.InstanceConnsStep | backends/firrtl/firrtl.cc:248-276 | The same, for one more instance connection. |
| FirrtlLowering.ReadPortsStep | backends/firrtl/firrtl.cc:570-583 | Read port n adds its three lines after those of ports 0..n-1. |
| FirrtlLowering.WritePortsStep | backends/firrtl/firrtl.cc:585-609 | Write port n adds its five lines after those of ports 0..n-1. |
| FirrtlLowering.InstanceConnsStable | backends/firrtl/firrtl.cc:76-77 | An instance's connection lines do not change when more names are cached later. |
| FirrtlLowering.ReadPortLinesStable | backends/firrtl/firrtl.cc:76-77 | The same, for memory read-port lines. |
| FirrtlLowering.WritePortStable | backends/firrtl/firrtl.cc:76-77 | A write port named under a cache stays named under any extension of it. |
| FirrtlLowering.WritePortBlockStable | backends/firrtl/firrtl.cc:76-77 | The same, for one write port's lines. |
| FirrtlLowering.WritePortLinesStable | backends/firrtl/firrtl.cc:76-77 | The same, for all write-port lines. |
| FirrtlLowering.CellLoweringStable | backends/firrtl/firrtl.cc:76-77 | A cell's lines depend only on names already given. |
| FirrtlLowering.CellsLoweringStable | backends/firrtl/firrtl.cc:76-77 | The same, for all cells of a module. |
| FirrtlLowering.ConnsLoweringStable | backends/firrtl/firrtl.cc:76-77 | The same, for the connections. |
| FirrtlLowering.Extent | backends/firrtl/firrtl.cc:757-771 | The inner loop's chunk width stays within the wire and never shrinks. |
| FirrtlLowering.ExtentDriven | backends/firrtl/firrtl.cc:757-771 | Every bit of the chunk is driven by the consecutive bit of the start driver. |
| FirrtlLowering.ExtentStops | backends/firrtl/firrtl.cc:757-771 | The chunk ends at the wire's end or at a bit that does not continue the start driver. |
| FirrtlLowering.RunsSpellDrivers | backends/firrtl/firrtl.cc:746-792 | The resolver's runs cover each bit of the wire once, in order, with the driver the reverse map gives it (or none). |
| FirrtlLowering.RunHead | backends/firrtl/firrtl.cc:746-792 | The first run from a cursor has width ≥ 1, and its bits carry the map's drivers. |
| FirrtlLowering.RunsMaximal | backends/firrtl/firrtl.cc:757-771 | No two neighbouring driven runs could have been joined. |
| FirrtlLowering.RunsAllUndriven | backends/firrtl/firrtl.cc:777-784 | A wire with no driven bit resolves to one undriven run per bit. |
| FirrtlLowering.RunsExprDrivenOnly | backends/firrtl/firrtl.cc:773-789 | Runs that are all driven give the same expression whatever the placeholder. |
| FirrtlLowering.RunsExprStep | backends/firrtl/firrtl.cc:786-789 | One more run wraps the expression as `cat(new, old)`. |
| FirrtlLowering.AnySnoc | backends/firrtl/firrtl.cc:775-782 | `is_valid` and the need for a placeholder each grow with one more run. |
| FirrtlLowering.UndrivenWireInvalid | backends/firrtl/firrtl.cc:800-805 | An output wire with no driven bit is declared `is invalid`. If it drew the placeholder, the name is dropped again (`unconn_id.clear()`). |
| FirrtlLowering.ResolveWiresPrefix | backends/firrtl/firrtl.cc:779-782 | Names drawn beyond those the resolver used do not matter. |
| FirrtlLowering.ResolveWiresUsedGrows | backends/firrtl/firrtl.cc:735-806 | The resolver's count of drawn names only grows over the wires. |
| FirrtlLowering.ResolveWiresStable | backends/firrtl/firrtl.cc:76-77 | The resolver's lines do not depend on names cached later. |
| FirrtlLowering.WireDeclsStable | backends/firrtl/firrtl.cc:76-77 | The same, for the wires' declarations. |
| FirrtlLowering.WireDeclsNext | backends/firrtl/firrtl.cc:300-320 | Wire k adds a port declaration if it is a port and a `wire` line otherwise, under a grown cache. |
| FirrtlLowering.WireDeclsStep | backends/firrtl/firrtl.cc:300-320 | The same, under one cache. |
| FirrtlLowering.LowerModuleSplit | backends/firrtl/firrtl.cc:295-825 | A module's four lists come from four passes: ports, then wires + cells + connections + resolver declarations, then cells + connections statements, then cells + connections + resolver wire statements. |
| FirrtlLowering.LoweredTextStable | backends/firrtl/firrtl.cc:808-824 | A module's text does not change when later modules add names. |
| FirrtlLowering.LoweredAsStable | backends/firrtl/firrtl.cc:808-824 | The same, for the predicate that pairs a module with its text. |
| FirrtlLowering.LoweredAsText | backends/firrtl/firrtl.cc:808-824 | Writing out the four lists gives the module's text: header, ports, blank line, declarations, blank line, statements, blank line, wire statements. |
| FirrtlWorker.MemHeaderLines | backends/firrtl/firrtl.cc:556-568 | The `mem` header: data-type, depth, one reader and one writer per port, and the fixed latencies. |
| FirrtlWorker.PortDeclLines | backends/firrtl/firrtl.cc:560-564 | One `reader => rI` / `writer => wI` line per port. |
| FirrtlWorker.SameEnable | backends/firrtl/firrtl.cc:600-602 | True exactly when every WR_EN bit of the word equals the first. |
| FirrtlWorker.AllUndefined | backends/firrtl/firrtl.cc:543-546 | True exactly when every INIT bit is x. |
| FirrtlWorker.Name | backends/firrtl/firrtl.cc:74-97 | `make_id` as the lowering sees it: the cached name, and the cache only grows. An id already cached changes nothing. |
| FirrtlWorker.InstanceHeader | backends/firrtl/firrtl.cc:210-246 | The `inst name of type` line, mangled for `$paramod`. The comment is always empty, because the second `make_id` hits the cache. |
| FirrtlWorker.InstanceConnection | backends/firrtl/firrtl.cc:249-274 | Fatal exactly when a non-empty connection names a port the module lacks. Otherwise: outputs and inouts drive the actual signal, inputs and no-direction ports are driven by it, and empty connections write nothing. |
| FirrtlWorker.InstanceConnections | backends/firrtl/firrtl.cc:248-276 | Fatal exactly when some connection fails; otherwise the lines of every connection in order. |
| FirrtlWorker.WritePortExprs | backends/firrtl/firrtl.cc:593-598 | Address, data, clock and `wen_sig[0]` expressions, in that naming order. |
| FirrtlWorker.WritePortBlockLines | backends/firrtl/firrtl.cc:585-609 | Fails exactly when the port is unsupported; otherwise the five lines of the port. |
| FirrtlWorker.DeclareWire | backends/firrtl/firrtl.cc:300-320 | Names the wire. An inout port aborts; otherwise a port or a `wire` line is declared. |
| FirrtlWorker.WireDeclLines | backends/firrtl/firrtl.cc:300-320 | Succeeds exactly when no wire is an inout port; the lists are then `PortDecls` and `InternalWireDecls`. |
| FirrtlWorker.ChunkWidth | backends/firrtl/firrtl.cc:757-771 | The inner resolver loop computes `Extent`. |
| FirrtlWorker.RunStep | backends/firrtl/firrtl.cc:748-791 | One run and its expression. On the first undriven bit, one fresh `next_id` name is drawn; otherwise the placeholder is kept. |
| FirrtlWorker.WireRuns | backends/firrtl/firrtl.cc:742-792 | The expression of all runs. `is_valid` holds exactly when some run is driven; `make_unconn_id` exactly when a placeholder had to be drawn, and the drawn name is fresh. |
| FirrtlWorker.ResolveLinesStep | backends/firrtl/firrtl.cc:735-806 | The resolver's lines for wires 0..k follow from those for 0..k-1. |
| FirrtlWorker.ConnsLinesSnoc | backends/firrtl/firrtl.cc:724-733 | The lines of one more connection extend those of the connections before it. |
| FirrtlWorker.ConnsLinesStep | backends/firrtl/firrtl.cc:724-733 | The same, stated on a prefix of the module's connections. |
| FirrtlWorker.FreshConcat | backends/firrtl/firrtl.cc:61-72 | Names from two rounds of `next_id` are all distinct and all fresh. |
| FirrtlWorker.Worker.constructor | backends/firrtl/firrtl.cc:146-148 | A worker starts with empty lists, an empty reverse map and no placeholder. |
| FirrtlWorker.Worker.RegisterReverseWireMap | backends/firrtl/firrtl.cc:140-144 | Adds one driver to the reverse map and nothing else. |
| FirrtlWorker.Worker.DeclareDriven | backends/firrtl/firrtl.cc:379-380 | The `wire` declaration, the `<=` statement and the reverse-map entry of a cell output. |
| FirrtlWorker.Worker.LowerUnary | backends/firrtl/firrtl.cc:334-383 | Emits exactly `UnaryLowering`. |
| FirrtlWorker.Worker.LowerBinary | backends/firrtl/firrtl.cc:384-515 | Emits exactly `BinaryLowering`. |
| FirrtlWorker.Worker.LowerMux | backends/firrtl/firrtl.cc:517-532 | Emits exactly `MuxLowering`. |
| FirrtlWorker.Worker.LowerShiftx | backends/firrtl/firrtl.cc:669-691 | Emits exactly `ShiftxLowering`. |
| FirrtlWorker.Worker.LowerShift | backends/firrtl/firrtl.cc:692-720 | Emits exactly `ShiftLowering`. |
| FirrtlWorker.Worker.LowerDff | backends/firrtl/firrtl.cc:644-661 | Fails exactly on a negative-edge clock, before anything is named. Otherwise a `reg` clocked by CLK and assigned from D, and Q registered. |
| FirrtlWorker.Worker.LowerInstance | backends/firrtl/firrtl.cc:208-279 | Fails exactly on `InstanceFatal`. An unknown module adds nothing; otherwise the `inst` line and its connections. |
| FirrtlWorker.Worker.LowerReadPort | backends/firrtl/firrtl.cc:570-583 | Read port i: address, `en` tied high, `clk` tied low, and RD_DATA driven from `mem.rI.data`. |
| FirrtlWorker.Worker.LowerReadPorts | backends/firrtl/firrtl.cc:570-583 | Fails exactly on a clocked read port; otherwise all read-port lines and drivers. |
| FirrtlWorker.Worker.LowerWritePort | backends/firrtl/firrtl.cc:585-609 | Fails exactly when write port i is unsupported; otherwise its five lines. |
| FirrtlWorker.Worker.WritePortNext | backends/firrtl/firrtl.cc:585-609 | One turn of the write-port loop. |
| FirrtlWorker.Worker.LowerWritePorts | backends/firrtl/firrtl.cc:585-609 | Fails exactly when `WritePortsFatal` does; otherwise all write-port lines. |
| FirrtlWorker.Worker.LowerMemPorts | backends/firrtl/firrtl.cc:556-609 | The `mem` declaration, then read ports, then write ports. |
| FirrtlWorker.Worker.LowerMem | backends/firrtl/firrtl.cc:534-612 | Fails exactly when `MemFatal`; otherwise emits `MemLowering`. |
| FirrtlWorker.Worker.LowerOperator | backends/firrtl/firrtl.cc:334-720 | Cells that become one expression never abort and emit their `CellLowering`. |
| FirrtlWorker.Worker.LowerCell | backends/firrtl/firrtl.cc:322-722 | Dispatches in the source's order. Fails exactly when `CellFatal`; otherwise emits `CellLowering`. Unsupported types add nothing. |
| FirrtlWorker.Worker.DeclareWires | backends/firrtl/firrtl.cc:300-320 | Succeeds exactly when no inout port exists; appends the port and wire declarations and leaves the other lists alone. |
| FirrtlWorker.Worker.LowerCells | backends/firrtl/firrtl.cc:322-722 | Succeeds exactly when no cell is fatal; then emits `CellsLowering` of all cells. |
| FirrtlWorker.Worker.LowerConnection | backends/firrtl/firrtl.cc:724-733 | One fresh `next_id` wire, declared and driven by the right-hand side, driving the left-hand side. The name is recorded as drawn, so no id cached by `make_id` has it. |
| FirrtlWorker.Worker.ConnectionStep | backends/firrtl/firrtl.cc:724-733 | One turn of the connection loop keeps the names fresh and the lines equal to `ConnsLowering`. |
| FirrtlWorker.Worker.LowerConnections | backends/firrtl/firrtl.cc:724-733 | The connections draw one distinct fresh name each, all recorded as drawn, and emit `ConnsLowering`. |
| FirrtlWorker.Worker.ResolveWireLines | backends/firrtl/firrtl.cc:735-806 | The lines of one non-input wire are `ResolveWire` of the reverse map. A placeholder is drawn only when first needed, and it is fresh. |
| FirrtlWorker.Worker.ResolveStep | backends/firrtl/firrtl.cc:735-806 | One turn of the resolver loop. |
| FirrtlWorker.Worker.ResolveOutputs | backends/firrtl/firrtl.cc:735-806 | The resolver over all wires appends `ResolveWires`' lines, drawing distinct fresh names. |
| FirrtlWorker.Worker.Declare | backends/firrtl/firrtl.cc:300-722 | The wires pass and the cells pass. Fails exactly when `ModuleFatal`; otherwise the lists hold the declarations and the cells' lines. |
| FirrtlWorker.Worker.Drive | backends/firrtl/firrtl.cc:724-806 | The connections, then the resolver; every `next_id` name the module draws is fresh, distinct and recorded as drawn, so none is a name `make_id` gave. |
| FirrtlWorker.Worker.Run | backends/firrtl/firrtl.cc:295-825 | `run` aborts exactly on an inout port or a fatal cell. Otherwise its text is `LoweredText` of `LowerModule` under the final cache, and its four lists are those of `LowerModule`. The names it draws are fresh, distinct and recorded as drawn. |
| FirrtlBackend.FirstTopAttrIsFirst | backends/firrtl/firrtl.cc:870-875 | Finds a module with the `top` attribute exactly when one exists, and then the first such. |
| FirrtlBackend.FirstTopAttrStep | backends/firrtl/firrtl.cc:873-875 | The loop keeps the first `top` module it has seen. |
| FirrtlBackend.SelectTopChoice | backends/firrtl/firrtl.cc:866-881 | A module is chosen exactly when the design has one: the designated top, else the first with `top`, else the last module. |
| FirrtlBackend.NamePort | backends/firrtl/firrtl.cc:876-877 | A port wire gets its name. |
| FirrtlBackend.NamePorts | backends/firrtl/firrtl.cc:876-877 | Every port of the module is named. |
| FirrtlBackend.NameModule | backends/firrtl/firrtl.cc:871-877 | The module's name, then its ports'. |
| FirrtlBackend.NameModuleStep | backends/firrtl/firrtl.cc:870-878 | One turn of the naming loop, tracking the top choice. |
| FirrtlBackend.NameModules | backends/firrtl/firrtl.cc:866-881 | All modules named, and the returned top is `SelectTop`. |
| FirrtlBackend.LowerModuleText | backends/firrtl/firrtl.cc:886-890 | One worker run: fails exactly when `ModuleFatal`; otherwise its text is the module's `LoweredText`, and its drawn names are fresh, distinct and recorded as drawn. |
| FirrtlBackend.ModulesLoweredSnoc | backends/firrtl/firrtl.cc:886-890 | Texts of earlier modules stay valid after one more module is lowered. |
| FirrtlBackend.LinesSnoc | backends/firrtl/firrtl.cc:884-890 | The output grows by the new module's text. |
| FirrtlBackend.DrawnSoFarSnoc | backends/firrtl/firrtl.cc:61-97 | One more module's drawn names, fresh against the names in use before it, keep all drawn names distinct, fresh and recorded as drawn, as `used_names` persists across modules. |
| FirrtlBackend.LowerNext | backends/firrtl/firrtl.cc:886-890 | One turn of the module loop; the names drawn so far stay distinct, fresh and recorded as drawn. |
| FirrtlBackend.LowerModules | backends/firrtl/firrtl.cc:886-890 | Succeeds exactly when no module is fatal; the lines are the header followed by every module's `LoweredText`, in design order, and all drawn names are distinct, fresh and recorded as drawn. |
| FirrtlBackend.Execute | backends/firrtl/firrtl.cc:841-894 | Fails exactly on an empty design or a fatal module. Otherwise the output is `circuit <top>:` followed by every module's `LoweredText` under the final cache, and the cache and counter cleared after. The cache gives distinct ids distinct names. The `next_id` names drawn in all modules were unused before the run, are pairwise distinct, and none is a name the cache gives, so no `_N` wire is declared twice or shares a port's name. |
| CheckPass.ParseFlags | passes/cmds/check.cc:73-96 | The option loop stops at the first argument that is not one of the five options; the flags are exactly those in effect. |
| CheckPass.FlagsAtStop | passes/cmds/check.cc:73-96 | The options seen before the stop are the options in effect. |
| CheckPass.OptionBeforeStop | passes/cmds/check.cc:73-96 | An option is seen by the loop exactly when it appears before the first non-option. |
| CheckPass.PortDriversAdd | passes/cmds/check.cc:176-184 | An output port adds one description per occurrence of each wire bit. |
| CheckPass.InputDriversAdd | passes/cmds/check.cc:194-198 | A module input adds a description for each of its bits. |
| CheckPass.InputDriversPresent | passes/cmds/check.cc:194-198 | Every bit of a module input becomes a key of `wire_drivers`, constant or not. |
| CheckPass.InputDriversKeep | passes/cmds/check.cc:194-198 | Existing keys stay. |
| CheckPass.BumpsAdd | passes/cmds/check.cc:185-187 | The driver count grows by the number of occurrences. |
| CheckPass.ScanConnDescribed | passes/cmds/check.cc:165-188 | Each bit keeps at least as many descriptions as counted drivers. |
| CheckPass.ScanConnsDescribed | passes/cmds/check.cc:165-188 | The same, over a cell's connections. |
| CheckPass.ScanCellsDescribed | passes/cmds/check.cc:157-189 | The same, over the cells. |
| CheckPass.ScanWireDescribed | passes/cmds/check.cc:193-204 | The same, for one wire. |
| CheckPass.ScanWiresDescribed | passes/cmds/check.cc:193-215 | The same, over the wires. |
| CheckPass.ScanWiresKeepEntries | passes/cmds/check.cc:193-198 | A described bit stays described through later wires. |
| CheckPass.ConflictsListDrivers | passes/cmds/check.cc:217-224 | A bit counted more than once has at least that many descriptions, so each conflict warning lists at least two drivers, and every counted bit is walked. |
| CheckPass.InoutPortNotCounted | passes/cmds/check.cc:193-204 | An inout port adds descriptions and uses, but no counted driver. |
| CheckPass.InoutDrivenNotUndriven | passes/cmds/check.cc:226-230 | A bit of an inout port is never reported as undriven. |
| CheckPass.AddPortDrivers | passes/cmds/check.cc:176-184 | The loop computes `PortDrivers`. |
| CheckPass.AddInputDrivers | passes/cmds/check.cc:194-198 | The loop computes `InputDrivers`. |
| CheckPass.AddCounts | passes/cmds/check.cc:185-187 | The loop computes `Bumps`. |
| CheckPass.AddUses | passes/cmds/check.cc:168-175 | The used set gains exactly the wire bits of the signal. |
| CheckPass.ScanCellConns | passes/cmds/check.cc:165-188 | The loop over a cell's connections computes `ScanConns`. |
| CheckPass.ScanModuleCells | passes/cmds/check.cc:157-189 | The cell loop computes the cells' scan, and the unmapped-cell problems in cell order (`-mapped`, `-allow-tbuf`). |
| CheckPass.AddInitBits | passes/cmds/check.cc:205-209 | The 0/1 `init` bits below both lengths, canonicalised. |
| CheckPass.ScanModuleWires | passes/cmds/check.cc:193-215 | The wire loop computes the wires' scan, the init bits, and the `-noinit` problems. |
| CheckPass.ReportConflicts | passes/cmds/check.cc:217-224 | One conflict problem, with its descriptions, per bit counted more than once, and nothing else. |
| CheckPass.ReportUndriven | passes/cmds/check.cc:226-230 | One problem per used bit with no description, and nothing else. |
| CheckPass.EraseFFOutputs | passes/cmds/check.cc:243-250 | The init bits less the canonical Q bits of the flip-flop cells. |
| CheckPass.ReportChunks | passes/cmds/check.cc:252-258 | One warning per chunk of the sorted remaining init bits: one per chunk start, and one for the constants. |
| CheckPass.CheckModule | passes/cmds/check.cc:149-259 | A module's report: unmapped cells, noinit, conflicts, undriven, the given loop count, and initdrv chunks (with `-initdrv`). |
| CheckPass.ReportsForSnoc | passes/cmds/check.cc:144-260 | One more checked module extends the reports. |
| CheckPass.CheckNext | passes/cmds/check.cc:144-151 | One turn of the module loop: modules with processes are skipped, each other module is checked under its own `SigMap`, and the counter is the total of the reports. |
| CheckPass.LeftoverAtStop | passes/cmds/check.cc:73-97 | Where the option loop stops, `extra_args` finds an argument starting with `-` exactly when the first argument that is not one of the five options starts with `-`. |
| CheckPass.Execute | passes/cmds/check.cc:64-266 | A first non-option argument that starts with `-` is rejected by `extra_args` (line 97) before any module is checked. Otherwise reports every module without processes, in order, each under its own `SigMap`, and fails exactly when `-assert` is in effect and the total is > 0, with "Found N problems in 'check -assert'."; otherwise returns the total. |
| Coolrunner2Sop.PoolSig | techlibs/coolrunner2/coolrunner2_sop.cc:146-147 | A pool becomes a signal in reverse insertion order. |
| Coolrunner2Sop.PoolSigElements | techlibs/coolrunner2/coolrunner2_sop.cc:146-147 | The same bits, and distinct bits stay distinct. |
| Coolrunner2Sop.TermInputsSpec | techlibs/coolrunner2/coolrunner2_sop.cc:124-137 | A term's inputs are exactly those whose TABLE bit is set, each listed once. |
| Coolrunner2Sop.TermCounts | techlibs/coolrunner2/coolrunner2_sop.cc:143-144 | TRUE_INP and COMP_INP are the sizes of the deduplicated sets. |
| Coolrunner2Sop.DecodeTerm | techlibs/coolrunner2/coolrunner2_sop.cc:127-137 | The inner loop computes both input lists of term i. |
| Coolrunner2Sop.FlipInvolution | techlibs/coolrunner2/coolrunner2_sop.cc:170-181 | The polarity flip is defined exactly on the eight single-edge types, never maps a type to itself, and undoes itself. |
| Coolrunner2Sop.DualEdgeNotFlippable | techlibs/coolrunner2/coolrunner2_sop.cc:170-181 | Among the indexed types, the flip fails exactly on FDDCP, FTDCP and FDDCPE. |
| Coolrunner2Sop.SuffixedInjective | techlibs/coolrunner2/coolrunner2_sop.cc:141 | Distinct uniquify suffixes give distinct names. |
| Coolrunner2Sop.Uniquify | techlibs/coolrunner2/coolrunner2_sop.cc:141 | The result is unused: the name itself when free, else the first free `name_<n>`. |
| Coolrunner2Sop.NotIndexSpec | techlibs/coolrunner2/coolrunner2_sop.cc:46-56 | A bit is indexed exactly when some NOT reads it, and the entry is the last such NOT and its output. |
| Coolrunner2Sop.NotIndexHas | techlibs/coolrunner2/coolrunner2_sop.cc:46-56 | The key half of `NotIndexSpec`. |
| Coolrunner2Sop.NotIndexLast | techlibs/coolrunner2/coolrunner2_sop.cc:54 | The entry half: the last write wins. |
| Coolrunner2Sop.IndexNots | techlibs/coolrunner2/coolrunner2_sop.cc:46-56 | The first cell loop computes `NotIndex`. |
| Coolrunner2Sop.AddPinsSpec | techlibs/coolrunner2/coolrunner2_sop.cc:66-81 | One cell files exactly its listed pins under the bits they read. |
| Coolrunner2Sop.PinIndexSpec | techlibs/coolrunner2/coolrunner2_sop.cc:58-83 | A pin is listed under a bit exactly when an indexed flip-flop or latch has it and it reads that bit. A bit is a key exactly when something is listed under it. |
| Coolrunner2Sop.FileNoInvPins | techlibs/coolrunner2/coolrunner2_sop.cc:66-74 | PRE, CLR and CE are filed. |
| Coolrunner2Sop.FileInvPins | techlibs/coolrunner2/coolrunner2_sop.cc:76-81 | C and G are filed. |
| Coolrunner2Sop.IndexPins | techlibs/coolrunner2/coolrunner2_sop.cc:58-83 | The second loop computes both pin indexes. |
| Coolrunner2Sop.SetPortReads | techlibs/coolrunner2/coolrunner2_sop.cc:167 | After `setPort`, that pin reads the new signal and every other pin, the type and the name are unchanged. |
| Coolrunner2Sop.RewiredScope | techlibs/coolrunner2/coolrunner2_sop.cc:165-183 | Rewiring touches only listed cells and keeps their kinds. Without a flip it never fails; with one it fails exactly on a type that cannot flip. |
| Coolrunner2Sop.RewiredPins | techlibs/coolrunner2/coolrunner2_sop.cc:167 | Every listed pin reads the AND term's output. |
| Coolrunner2Sop.RewiredNames | techlibs/coolrunner2/coolrunner2_sop.cc:165-190 | Rewiring keeps cell names. |
| Coolrunner2Sop.RewiredPrefix | techlibs/coolrunner2/coolrunner2_sop.cc:165-190 | Rewiring the cells below n leaves the rest as they are. |
| Coolrunner2Sop.RewiredFailStays | techlibs/coolrunner2/coolrunner2_sop.cc:181 | Once a flip fails, the whole rewiring fails. |
| Coolrunner2Sop.RewireAllScope | techlibs/coolrunner2/coolrunner2_sop.cc:160-195 | The depth-1 rewiring fails exactly when the term is inverted and a C/G cell cannot flip; otherwise kinds are kept. |
| Coolrunner2Sop.RewireAllPrefix | techlibs/coolrunner2/coolrunner2_sop.cc:160-195 | The same rewiring on a prefix leaves the rest unchanged. |
| Coolrunner2Sop.ExpansionTypes | techlibs/coolrunner2/coolrunner2_sop.cc:117-218 | An expansion adds only ANDTERM, ORTERM and MACROCELL_XOR cells, with the ANDTERMs first. |
| Coolrunner2Sop.ScheduledSpec | techlibs/coolrunner2/coolrunner2_sop.cc:221 | Every `$sop` before n is scheduled, and nothing else is except the NOT read by some `$sop`'s output. |
| Coolrunner2Sop.FlipFailsBelowSpec | techlibs/coolrunner2/coolrunner2_sop.cc:181 | The walk stops before n exactly when some cell before n fails to flip. |
| Coolrunner2Sop.FlipFailsNext | techlibs/coolrunner2/coolrunner2_sop.cc:181 | The same, one cell further. |
| Coolrunner2Sop.FlipFailsGrows | techlibs/coolrunner2/coolrunner2_sop.cc:181 | A failure stays a failure further on. |
| Coolrunner2Sop.IndexesSound | techlibs/coolrunner2/coolrunner2_sop.cc:46-83 | NOT entries are NOT cells, and listed pins belong to flip-flops or latches. |
| Coolrunner2Sop.FlipFailsWhen | techlibs/coolrunner2/coolrunner2_sop.cc:160-183 | During the walk, the rewiring for cell k fails exactly when `FlipFails` holds of the original cells. |
| Coolrunner2Sop.EvolvedStep | techlibs/coolrunner2/coolrunner2_sop.cc:86-222 | A rewiring plus new cells keeps the walk's shape. |
| Coolrunner2Sop.ExpansionEvolves | techlibs/coolrunner2/coolrunner2_sop.cc:117-218 | The same, for one expansion. |
| Coolrunner2Sop.EvolvedSop | techlibs/coolrunner2/coolrunner2_sop.cc:88 | An original cell is a `$sop` exactly when it was one, and then it is unchanged. |
| Coolrunner2Sop.ExpandedStep | techlibs/coolrunner2/coolrunner2_sop.cc:117-218 | One more expansion follows the earlier ones, and a single term's rewiring applies to the rewired cells. |
| Coolrunner2Sop.WalkStep | techlibs/coolrunner2/coolrunner2_sop.cc:86-222 | The walk's record moves over one `$sop`. |
| Coolrunner2Sop.ExpandStep | techlibs/coolrunner2/coolrunner2_sop.cc:86-222 | One `$sop` succeeds exactly when it does not fail to flip, and keeps `WalkState`. |
| Coolrunner2Sop.KeptSpec | techlibs/coolrunner2/coolrunner2_sop.cc:225-229 | A cell survives removal exactly when it sits at an unscheduled index. |
| Coolrunner2Sop.KeptAppend | techlibs/coolrunner2/coolrunner2_sop.cc:225-229 | Cells after the scheduled ones are untouched. |
| Coolrunner2Sop.KeptSplit | techlibs/coolrunner2/coolrunner2_sop.cc:225-229 | The same, split at n. |
| Coolrunner2Sop.WalkResult | techlibs/coolrunner2/coolrunner2_sop.cc:86-229 | After the walk and the removal: no `$sop` is left; every unscheduled non-flip-flop cell survives; every other surviving cell is a flip-flop/latch or of a new type. |
| Coolrunner2Sop.RemovalKeepsAdded | techlibs/coolrunner2/coolrunner2_sop.cc:225-229 | The removal drops the scheduled original cells and keeps every appended cell. |
| Coolrunner2Sop.SopRewrite.constructor | techlibs/coolrunner2/coolrunner2_sop.cc:41-44 | Starts from the module's cells and wires, with nothing scheduled. |
| Coolrunner2Sop.SopRewrite.AddWire | techlibs/coolrunner2/coolrunner2_sop.cc:117-119 | A fresh one-bit wire named by `uniquify`, appended. |
| Coolrunner2Sop.SopRewrite.AddCell | techlibs/coolrunner2/coolrunner2_sop.cc:140-147 | A fresh cell named by `uniquify`, with its parameters and pins, appended. |
| Coolrunner2Sop.SopRewrite.BuildAndTerms | techlibs/coolrunner2/coolrunner2_sop.cc:116-148 | One output wire and ANDTERM per product term, reading the term's true and complemented inputs. |
| Coolrunner2Sop.SopRewrite.AddAndTerm | techlibs/coolrunner2/coolrunner2_sop.cc:118-147 | One turn of the AND loop. |
| Coolrunner2Sop.SopRewrite.BuildOutput | techlibs/coolrunner2/coolrunner2_sop.cc:150-218 | With depth 1, an XOR on IN_PTC. Otherwise an OR wire, an ORTERM of WIDTH depth over all terms, and an XOR on IN_ORTERM. INVERT_OUT is the folded NOT. |
| Coolrunner2Sop.SopRewrite.Rewire | techlibs/coolrunner2/coolrunner2_sop.cc:165-190 | The pin loop computes `Rewired`. |
| Coolrunner2Sop.SopRewrite.BuildReplacement | techlibs/coolrunner2/coolrunner2_sop.cc:116-218 | Appends `SopExpansion`. |
| Coolrunner2Sop.SopRewrite.RewireSpecial | techlibs/coolrunner2/coolrunner2_sop.cc:160-195 | Computes `RewireAll` on the cells before the new ones. |
| Coolrunner2Sop.SopRewrite.Replace | techlibs/coolrunner2/coolrunner2_sop.cc:116-218 | Expansion, then the single-term rewiring; fails exactly when the rewiring does. |
| Coolrunner2Sop.SopRewrite.FoldNot | techlibs/coolrunner2/coolrunner2_sop.cc:99-110 | A NOT on the output becomes the target and is scheduled. |
| Coolrunner2Sop.SopRewrite.ExpandSop | techlibs/coolrunner2/coolrunner2_sop.cc:88-222 | One `$sop`: `Expands` its cells, schedules `Removed`, and fails exactly when the single-term rewiring fails. |
| Coolrunner2Sop.SopRewrite.SkipStep | techlibs/coolrunner2/coolrunner2_sop.cc:88 | A non-`$sop` cell changes nothing. |
| Coolrunner2Sop.SopRewrite.Step | techlibs/coolrunner2/coolrunner2_sop.cc:88-222 | A `$sop` succeeds exactly when it does not fail to flip, and keeps `Progress`. |
| Coolrunner2Sop.SopRewrite.Visit | techlibs/coolrunner2/coolrunner2_sop.cc:86-223 | One turn of the walk. |
| Coolrunner2Sop.SopRewrite.Walk | techlibs/coolrunner2/coolrunner2_sop.cc:86-223 | Succeeds exactly when no original cell fails to flip; then `Progress` holds at the end. |
| Coolrunner2Sop.SopRewrite.Process | techlibs/coolrunner2/coolrunner2_sop.cc:46-223 | Builds the indexes, then walks. |
| Coolrunner2Sop.SopRewrite.RemoveScheduled | techlibs/coolrunner2/coolrunner2_sop.cc:225-229 | The cells become `Kept(cells, toRemove)`. |
| Coolrunner2Sop.RewriteModule | techlibs/coolrunner2/coolrunner2_sop.cc:41-229 | Fails exactly on `SopFails`; otherwise the module is `Rewritten`. |
| Coolrunner2Sop.UnreadableCellsSpec | techlibs/coolrunner2/coolrunner2_sop.cc:41-97 | The pass's read check finds exactly the cells that lack a bit, parameter or `TABLE` entry the pass reads. |
| Coolrunner2Sop.SparseSopReadable | techlibs/coolrunner2/coolrunner2_sop.cc:127-136 | A `$sop` reads input `j` only where a TABLE bit selects it: a two-input term that selects only input 0 is readable with a one-bit `A`. |
| Coolrunner2Sop.ShortSopUnreadable | techlibs/coolrunner2/coolrunner2_sop.cc:127-136 | A TABLE bit that selects an input beyond `A` makes the cell unreadable. |
| Coolrunner2Sop.EmptySopReadable | techlibs/coolrunner2/coolrunner2_sop.cc:117-137 | A `$sop` with no product terms reads neither `A` nor `TABLE`. |
| Coolrunner2Sop.FirstStopSpec | techlibs/coolrunner2/coolrunner2_sop.cc:41-230 | `FirstStop` finds a module exactly when one stops the pass, and then the first one that does. |
| Coolrunner2Sop.FirstStopAfter | techlibs/coolrunner2/coolrunner2_sop.cc:41-230 | Modules after the first stopping one do not change which module stops the pass. |
| Coolrunner2Sop.RewriteOrStop | techlibs/coolrunner2/coolrunner2_sop.cc:42-229 | One module under its own `SigMap`: it fails exactly when the module stops the pass, with that module's message; otherwise the module is `Rewritten`. |
| Coolrunner2Sop.RewriteNext | techlibs/coolrunner2/coolrunner2_sop.cc:41-230 | One turn of the module loop: module `i` is the first to stop the pass, or the first `i + 1` modules are rewritten. |
| Coolrunner2Sop.RewriteAll | techlibs/coolrunner2/coolrunner2_sop.cc:41-230 | Each module is rewritten under its own `SigMap` (line 44). The loop fails exactly when some module stops it, with the message of the first such module (a failed read or the bad-cell-type assert). Otherwise each module is `Rewritten`, in order. |
| Coolrunner2Sop.Execute | techlibs/coolrunner2/coolrunner2_sop.cc:36-231 | An argument after the pass name that starts with `-` is rejected by `extra_args` (line 39), since the pass has no options. Otherwise it is `RewriteAll`: it fails exactly when some module stops the pass, with the first such module's message, and otherwise each module is `Rewritten` under its own `SigMap`. |

## Left out

- Netlist.Param: an absent parameter reads as 0. The source's `parameters.at` / `getParam` throws instead (backends/firrtl/firrtl.cc:646, 650; techlibs/coolrunner2/coolrunner2_sop.cc:93-95). A checked RTLIL cell always carries these parameters.
- Netlist.ConstParam: an absent `Const` parameter reads as empty, where the source throws (backends/firrtl/firrtl.cc:543, 548-550).
- Netlist.GetPort: an absent port reads as the empty signal, where `getPort` throws (passes/cmds/check.cc:248; techlibs/coolrunner2/coolrunner2_sop.cc:52-53, 91-92). In `coolrunner2_sop`, every read the source does by index is covered by `Coolrunner2Sop.Unreadable`.
- FirrtlBackend.SelectTopChoice: `design->top_module()` is the free input `designatedTop` (backends/firrtl/firrtl.cc:867). How it is computed is not modelled. The real call already answers a module with the `top` attribute when there is one, so the model's second choice, the first module with `top`, is reached only when `designatedTop` is `None` while such a module exists.
- Coolrunner2Sop.Rewritten: does not state that the added wires and cells have fresh, distinct names. `AddWire`, `AddCell` and `BuildReplacement` state it for each call, since `uniquify` avoids every existing name. Carrying it through the walk is not done because the expansion proofs are already near the resource limit.
- `Pass::extra_args` lives in kernel/register.cc, which is not part of this model. It reads the arguments after the options as a selection, and selections are not modelled. Only its rejection of a leftover option is modelled, as `Netlist.UnknownOption`, with the message but not the command line `cmd_error` prints around it.
- Netlist.Extract: a slice that runs past the end of the signal is clipped to the bits that exist. `SigSpec::extract` does not allow such a slice. It is used for the `$mem` ports (backends/firrtl/firrtl.cc:575-576, 593-597), whose port widths a checked netlist makes long enough.
- Netlist.ConstBitAt: a bit past the end of a `Const` reads as x. The source's `Const::operator[]` is out of range there (backends/firrtl/firrtl.cc:572, 587, 590).
- FirrtlLowering.WrEnBit: an empty WR_EN slice gives the empty expression, where `wen_sig[0]` is out of range (backends/firrtl/firrtl.cc:598).
- FirrtlNames.Sanitized: works per Dafny `char`, where `make_id` scrubs per byte (backends/firrtl/firrtl.cc:81-89). A non-ASCII character becomes one `_` here, not one `_` per UTF-8 byte.
- Coolrunner2Sop.Execute: every read that throws is modelled as `Fatal("out of range")` checked before the module's walk. The source's exception text is not modelled, nor whether a bad-cell-type assert on an earlier `$sop` of the same module would come first.
- FirrtlBackend.Execute: an empty design is `Fatal`, where the source dereferences a null top module (backends/firrtl/firrtl.cc:883).
- FirrtlBackend.Execute and FirrtlWorker.Worker.Run: on an abort the result is only `Fatal`. The text already streamed is not modelled: the `circuit` header, earlier modules, and the `  module X:` line (backends/firrtl/firrtl.cc:297, 884).
- FirrtlBackend.Execute: the `Fatal` message is not the source's `log_error` text ("Module port %s.%s is inout!", "Negative edge clock on FF %s.%s.", the memory errors, backends/firrtl/firrtl.cc:312, 546-602, 648).
- Coolrunner2Sop.Execute: cells added before the `log_assert` are not kept in the result, since the run aborts (techlibs/coolrunner2/coolrunner2_sop.cc:181).
- Warnings and log output are not modelled:
  - firrtl.cc: the `init` warning (304-308), the missing-instance warning (243), the INOUT and NODIRECTION warnings (258, 264), the unsupported-cell warning (721), and the `printf` of `$memwr`/`$memrd` (633-636);
  - check.cc: the text of every warning.
- CheckPass.CheckModule: the logic loops are given as a count; `TopoSort` itself and its loop lists are not modelled (passes/cmds/check.cc:232-239).
- CheckPass.ReportConflicts and CheckPass.ReportUndriven: the iteration order of `dict`/`pool` is not modelled. The reports are stated as sets of bits.
- Hash-container order is otherwise modelled as sequences:
  - module wires, cells and connections in list order;
  - `Coolrunner2Sop.PoolSig` as newest-first, the order `hashlib` pools iterate in (kernel/hashlib.h is not part of this model);
  - `cells_to_remove` as a set of indices.
- `SigMap` is the parameter `sigmaps`, one per module (passes/cmds/check.cc:151, techlibs/coolrunner2/coolrunner2_sop.cc:44). How it is built from the module's connections is not modelled.
- Cell input/output directions come with each connection; the `celltypes` library is not part of this model.
- Coolrunner2Sop.TableBit: any TABLE state other than 0 counts as set, as `Const::operator[]` converted to bool does. This is modelled, not left out, and is noted here because x, z, - and m bits select inputs.
- Coolrunner2Sop.Uniquify: the exact suffix scheme of `Module::uniquify` is taken as `name_<n>` for the first free n ≥ 1.
- Coolrunner2Sop.RewriteModule: cells are identified by their index; removal does not renumber anything else.
- `write_firrtl` runs `pmuxtree` first and takes a filename and `extra_args`; neither is modelled (backends/firrtl/firrtl.cc:843-861). Neither is the full-selection check (855-856), nor `selected_modules` / `selected_cells` (the whole design is taken as selected).
- Streams are not modelled: the output is a sequence of lines.
