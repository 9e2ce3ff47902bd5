/**
 * `coolrunner2_sop` (techlibs/coolrunner2/coolrunner2_sop.cc): every `$sop`
 * cell becomes one ANDTERM cell per product term, an ORTERM cell when there
 * is more than one term, and a MACROCELL_XOR cell. A `$_NOT_` cell on the
 * output is folded into the XOR's `INVERT_OUT`; a single product term that
 * feeds the clock, gate, preset, clear or enable pin of a flip-flop or latch
 * is wired to that pin directly, flipping the cell's clock polarity when the
 * term is inverted. Replaced cells are removed after the walk.
 *
 * Cells are named by their index in the module's cell list; a `pool` is the
 * sequence of its entries in insertion order, and `PoolSig` is the order in
 * which it is iterated when it becomes a port's signal.
 */
module Coolrunner2Sop {
  import opened Wrappers
  import opened Text
  import opened Netlist

  // ---- reading the netlist ----

  /** The first bit of a port; the pass reads only ports that have one. */
  function Bit0(sig: SigSpec): SigBit
  {
    if |sig| > 0 then sig[0] else ConstBit(Sx)
  }

  function BitAt(sig: SigSpec, j: nat): SigBit
  {
    if j < |sig| then sig[j] else ConstBit(Sx)
  }

  /**
   * Bit `k` of `TABLE`, as the source tests it: any state other than 0 counts
   * as set, so an x, z, - or m bit selects its input too.
   */
  predicate TableBit(table: seq<State>, k: nat)
  {
    k < |table| && table[k] != S0
  }

  /** Where bit `phase` of input `j` of product term `i` sits in `TABLE`: two bits per input, term after term. */
  function TableIndex(width: nat, i: nat, j: nat, phase: nat): nat
  {
    2 * (i * width + j) + phase
  }

  /** The flip-flops and latches whose pins can take a product term directly. */
  const SPECIAL_TYPES: set<string> := {
    "\\FDCP", "\\FDCP_N", "\\FDDCP", "\\FTCP", "\\FTCP_N", "\\FTDCP",
    "\\FDCPE", "\\FDCPE_N", "\\FDDCPE", "\\LDCP", "\\LDCP_N"
  }

  /** Pins that cannot invert their input. */
  const NO_INV_PORTS: seq<string> := ["\\PRE", "\\CLR", "\\CE"]

  /** Pins whose polarity the cell type selects. */
  const INV_PORTS: seq<string> := ["\\C", "\\G"]

  /** Input `j` of product term `i` is read: one of its two TABLE bits is set. */
  predicate InputRead(table: seq<State>, width: nat, i: nat, j: nat)
  {
    TableBit(table, TableIndex(width, i, j, 0)) || TableBit(table, TableIndex(width, i, j, 1))
  }

  /**
   * What the pass reads with `[0]` or by index, present in every cell it reads
   * it from. A `$sop` reads every TABLE bit of its terms, but input `j` of `A`
   * only for a term whose TABLE bit selects it.
   */
  predicate Readable(c: Cell, sigmap: SigBit -> SigBit)
  {
    && (c.cellType == "$_NOT_" ==> |GetPort(c, "\\A")| >= 1 && |GetPort(c, "\\Y")| >= 1)
    && (c.cellType in SPECIAL_TYPES ==> forall p | p in NO_INV_PORTS + INV_PORTS :: HasPort(c, p) ==> |GetPort(c, p)| >= 1)
    && (c.cellType == "$sop" ==>
          && |GetPort(c, "\\Y")| >= 1 && sigmap(GetPort(c, "\\Y")[0]).WireBit?
          && 2 * (Count(Param(c, "\\DEPTH")) * Count(Param(c, "\\WIDTH"))) <= |ConstParam(c, "\\TABLE")|
          && forall i: nat, j: nat | i < Count(Param(c, "\\DEPTH")) && j < Count(Param(c, "\\WIDTH"))
               && InputRead(ConstParam(c, "\\TABLE"), Count(Param(c, "\\WIDTH")), i, j) ::
               j < |GetPort(c, "\\A")|)
  }

  /** A `$sop` whose TABLE selects only input 0 of its one term reads only `A[0]`: one bit of `A` is enough. */
  lemma SparseSopReadable(y: Wire, a: SigBit)
    ensures Readable(Cell("$s", "$sop", map["\\DEPTH" := 1, "\\WIDTH" := 2], map["\\TABLE" := [S0, S1, S0, S0]],
                          [Conn("\\A", [a], true, false), Conn("\\Y", [WireBit(y, 0)], false, true)]),
                     b => b)
  {
    var c := Cell("$s", "$sop", map["\\DEPTH" := 1, "\\WIDTH" := 2], map["\\TABLE" := [S0, S1, S0, S0]],
                  [Conn("\\A", [a], true, false), Conn("\\Y", [WireBit(y, 0)], false, true)]);
    assert GetPort(c, "\\A") == [a];
    assert "\\A"[1] != "\\Y"[1];
    assert c.conns[1..] == [Conn("\\Y", [WireBit(y, 0)], false, true)];
    assert PortOf(c.conns[1..], "\\Y") == [WireBit(y, 0)];
    assert GetPort(c, "\\Y") == [WireBit(y, 0)];
    assert !InputRead([S0, S1, S0, S0], 2, 0, 1);
  }

  /** A `$sop` whose TABLE selects input 1 reads `A[1]`: one bit of `A` is not enough. */
  lemma ShortSopUnreadable(y: Wire, a: SigBit)
    ensures !Readable(Cell("$s", "$sop", map["\\DEPTH" := 1, "\\WIDTH" := 2], map["\\TABLE" := [S0, S0, S0, S1]],
                           [Conn("\\A", [a], true, false), Conn("\\Y", [WireBit(y, 0)], false, true)]),
                      b => b)
  {
    var c := Cell("$s", "$sop", map["\\DEPTH" := 1, "\\WIDTH" := 2], map["\\TABLE" := [S0, S0, S0, S1]],
                  [Conn("\\A", [a], true, false), Conn("\\Y", [WireBit(y, 0)], false, true)]);
    assert GetPort(c, "\\A") == [a];
    assert InputRead([S0, S0, S0, S1], 2, 0, 1);
  }

  /** A `$sop` without product terms reads neither `A` nor `TABLE`. */
  lemma EmptySopReadable(y: Wire, a: SigBit)
    ensures Readable(Cell("$s", "$sop", map["\\DEPTH" := 0, "\\WIDTH" := 2], map[],
                          [Conn("\\A", [a], true, false), Conn("\\Y", [WireBit(y, 0)], false, true)]),
                     b => b)
  {
    var c := Cell("$s", "$sop", map["\\DEPTH" := 0, "\\WIDTH" := 2], map[],
                  [Conn("\\A", [a], true, false), Conn("\\Y", [WireBit(y, 0)], false, true)]);
    assert "\\A"[1] != "\\Y"[1];
    assert c.conns[1..] == [Conn("\\Y", [WireBit(y, 0)], false, true)];
    assert PortOf(c.conns[1..], "\\Y") == [WireBit(y, 0)];
    assert GetPort(c, "\\Y") == [WireBit(y, 0)];
  }

  // ---- TABLE decoding ----

  /**
   * The signal `setPort` makes of a pool: hashlib containers iterate from the
   * newest entry back to the oldest, so the bits come out in reverse order of
   * insertion.
   */
  function PoolSig(pool: seq<SigBit>): (r: SigSpec)
    ensures |r| == |pool| && forall i | 0 <= i < |pool| :: r[i] == pool[|pool| - 1 - i]
  {
    if pool == [] then [] else [pool[|pool| - 1]] + PoolSig(pool[..|pool| - 1])
  }

  /** A pool's signal holds the same bits, and distinct ones stay distinct. */
  lemma PoolSigElements(pool: seq<SigBit>)
    ensures Elements(PoolSig(pool)) == Elements(pool)
    ensures Distinct(pool) ==> Distinct(PoolSig(pool))
  {
    var r := PoolSig(pool);
    forall b | b in pool
      ensures b in r
    {
      var i :| 0 <= i < |pool| && pool[i] == b;
      assert r[|pool| - 1 - i] == b;
    }
  }

  /** `pool::insert` on a pool kept in insertion order. */
  function AddOnce(s: seq<SigBit>, b: SigBit): seq<SigBit>
  {
    if b in s then s else s + [b]
  }

  /**
   * The inputs of product term `i` among the first `n`: input `j` is taken when
   * TABLE bit `2*(i*width+j) + phase` is set; phase 0 gives the complemented
   * inputs, phase 1 the true ones.
   */
  function TermInputs(inputs: SigSpec, table: seq<State>, width: nat, i: nat, phase: nat, n: nat): seq<SigBit>
  {
    if n == 0 then []
    else
      var r := TermInputs(inputs, table, width, i, phase, n - 1);
      if TableBit(table, TableIndex(width, i, n - 1, phase)) then AddOnce(r, BitAt(inputs, n - 1)) else r
  }

  predicate Distinct(s: seq<SigBit>)
  {
    forall a, b | 0 <= a < b < |s| :: s[a] != s[b]
  }

  function Elements(s: seq<SigBit>): set<SigBit>
  {
    set b | b in s
  }

  /** The set of inputs the TABLE selects for product term `i`, as the source's pool holds them. */
  function TermSet(inputs: SigSpec, table: seq<State>, width: nat, i: nat, phase: nat, n: nat): set<SigBit>
  {
    set j | 0 <= j < n && TableBit(table, TableIndex(width, i, j, phase)) :: BitAt(inputs, j)
  }

  /** A term's inputs are exactly those whose TABLE bit is set, each listed once. */
  lemma {:induction false} TermInputsSpec(inputs: SigSpec, table: seq<State>, width: nat, i: nat, phase: nat, n: nat)
    ensures Elements(TermInputs(inputs, table, width, i, phase, n)) == TermSet(inputs, table, width, i, phase, n)
    ensures Distinct(TermInputs(inputs, table, width, i, phase, n))
  {
    if n > 0 {
      TermInputsSpec(inputs, table, width, i, phase, n - 1);
      var r := TermInputs(inputs, table, width, i, phase, n - 1);
      var b := BitAt(inputs, n - 1);
      if TableBit(table, TableIndex(width, i, n - 1, phase)) {
        assert TermSet(inputs, table, width, i, phase, n) == TermSet(inputs, table, width, i, phase, n - 1) + {b};
        if b !in r {
          assert Elements(r + [b]) == Elements(r) + {b};
        }
      } else {
        assert TermSet(inputs, table, width, i, phase, n) == TermSet(inputs, table, width, i, phase, n - 1);
      }
    }
  }

  lemma {:induction false} DistinctSize(s: seq<SigBit>)
    requires Distinct(s)
    ensures |Elements(s)| == |s|
  {
    if s != [] {
      var p := s[..|s| - 1];
      DistinctSize(p);
      assert Elements(s) == Elements(p) + {s[|s| - 1]};
      assert s[|s| - 1] !in Elements(p);
    }
  }

  /** `TRUE_INP` and `COMP_INP` are the sizes of the deduplicated input sets. */
  lemma TermCounts(inputs: SigSpec, table: seq<State>, width: nat, i: nat, phase: nat)
    ensures |TermInputs(inputs, table, width, i, phase, width)| == |TermSet(inputs, table, width, i, phase, width)|
  {
    TermInputsSpec(inputs, table, width, i, phase, width);
    DistinctSize(TermInputs(inputs, table, width, i, phase, width));
  }

  /** The inner loop over the inputs of one product term. */
  method DecodeTerm(inputs: SigSpec, table: seq<State>, width: nat, i: nat) returns (trueIns: seq<SigBit>, compIns: seq<SigBit>)
    ensures trueIns == TermInputs(inputs, table, width, i, 1, width)
    ensures compIns == TermInputs(inputs, table, width, i, 0, width)
  {
    trueIns, compIns := [], [];
    for j := 0 to width
      invariant trueIns == TermInputs(inputs, table, width, i, 1, j)
      invariant compIns == TermInputs(inputs, table, width, i, 0, j)
    {
      if TableBit(table, TableIndex(width, i, j, 0)) {
        compIns := AddOnce(compIns, BitAt(inputs, j));
      }
      if TableBit(table, TableIndex(width, i, j, 1)) {
        trueIns := AddOnce(trueIns, BitAt(inputs, j));
      }
    }
  }

  // ---- the polarity flip ----

  /** The clock-polarity flip; `None` is the internal error for any other type. */
  function FlipPolarity(t: string): Option<string>
  {
    if t == "\\FDCP" then Some("\\FDCP_N")
    else if t == "\\FDCP_N" then Some("\\FDCP")
    else if t == "\\FTCP" then Some("\\FTCP_N")
    else if t == "\\FTCP_N" then Some("\\FTCP")
    else if t == "\\FDCPE" then Some("\\FDCPE_N")
    else if t == "\\FDCPE_N" then Some("\\FDCPE")
    else if t == "\\LDCP" then Some("\\LDCP_N")
    else if t == "\\LDCP_N" then Some("\\LDCP")
    else None
  }

  const FLIPPABLE: set<string> := {"\\FDCP", "\\FDCP_N", "\\FTCP", "\\FTCP_N", "\\FDCPE", "\\FDCPE_N", "\\LDCP", "\\LDCP_N"}

  /**
   * The flip is defined exactly on the eight single-edge types, stays among
   * them, never maps a type to itself, and undoes itself.
   */
  lemma FlipInvolution(t: string)
    ensures FlipPolarity(t).Some? <==> t in FLIPPABLE
    ensures FlipPolarity(t).Some? ==> var u := FlipPolarity(t).value;
      u in FLIPPABLE && u != t && FlipPolarity(u) == Some(t)
  {
  }

  /**
   * The dual-edge types are indexed like the others but have no flip, so an
   * inverted single term on their clock pin aborts the pass.
   */
  lemma DualEdgeNotFlippable(t: string)
    requires t in SPECIAL_TYPES
    ensures FlipPolarity(t).None? <==> t in {"\\FDDCP", "\\FTDCP", "\\FDDCPE"}
  {
  }

  // ---- fresh names ----

  function Suffixed(base: string, n: nat): string
  {
    base + "_" + NatToString(n)
  }

  lemma SuffixedInjective(base: string, a: nat, b: nat)
    requires Suffixed(base, a) == Suffixed(base, b)
    ensures a == b
  {
    assert Suffixed(base, a)[|base| + 1..] == NatToString(a);
    assert Suffixed(base, b)[|base| + 1..] == NatToString(b);
    NatToStringInjective(a, b);
  }

  /**
   * `module->uniquify(name)`: the name itself when no wire or cell has it,
   * otherwise the first free `name_<n>`.
   */
  method Uniquify(ids: set<string>, base: string) returns (r: string)
    ensures r !in ids
    ensures base !in ids ==> r == base
    ensures base in ids ==> exists n: nat | 1 <= n :: r == Suffixed(base, n) && forall m: nat | 1 <= m < n :: Suffixed(base, m) in ids
  {
    if base !in ids {
      return base;
    }
    var index: nat := 1;
    ghost var seen: set<string> := {};
    while Suffixed(base, index) in ids
      invariant 1 <= index
      invariant seen <= ids
      invariant forall x | x in seen :: exists m: nat | 1 <= m < index :: x == Suffixed(base, m)
      invariant forall m: nat | 1 <= m < index :: Suffixed(base, m) in ids
      decreases ids - seen
    {
      forall x | x in seen
        ensures x != Suffixed(base, index)
      {
        var m: nat :| 1 <= m < index && x == Suffixed(base, m);
        if x == Suffixed(base, index) {
          SuffixedInjective(base, m, index);
        }
      }
      seen := seen + {Suffixed(base, index)};
      index := index + 1;
    }
    r := Suffixed(base, index);
  }

  // ---- the two indexes built before the walk ----

  /** `not_cells`: for each NOT input bit, the output bit and the index of the last NOT cell on it. */
  function NotIndex(cells: seq<Cell>, sigmap: SigBit -> SigBit): map<SigBit, (SigBit, nat)>
  {
    if cells == [] then map[]
    else
      var k := |cells| - 1;
      var r := NotIndex(cells[..k], sigmap);
      if cells[k].cellType == "$_NOT_"
      then r[sigmap(Bit0(GetPort(cells[k], "\\A"))) := (sigmap(Bit0(GetPort(cells[k], "\\Y"))), k)]
      else r
  }

  predicate IsNotOn(cells: seq<Cell>, sigmap: SigBit -> SigBit, k: nat, b: SigBit)
  {
    k < |cells| && cells[k].cellType == "$_NOT_" && sigmap(Bit0(GetPort(cells[k], "\\A"))) == b
  }

  /** A bit is indexed iff a NOT cell reads it, and the entry is the last such cell. */
  lemma NotIndexSpec(cells: seq<Cell>, sigmap: SigBit -> SigBit, b: SigBit)
    ensures b in NotIndex(cells, sigmap) <==> exists k | 0 <= k < |cells| :: IsNotOn(cells, sigmap, k, b)
    ensures b in NotIndex(cells, sigmap) ==>
      && IsNotOn(cells, sigmap, NotIndex(cells, sigmap)[b].1, b)
      && NotIndex(cells, sigmap)[b].0 == sigmap(Bit0(GetPort(cells[NotIndex(cells, sigmap)[b].1], "\\Y")))
      && forall j | NotIndex(cells, sigmap)[b].1 < j < |cells| :: !IsNotOn(cells, sigmap, j, b)
  {
    NotIndexHas(cells, sigmap, b);
    if b in NotIndex(cells, sigmap) {
      NotIndexLast(cells, sigmap, b);
    }
  }

  lemma {:induction false} NotIndexHas(cells: seq<Cell>, sigmap: SigBit -> SigBit, b: SigBit)
    ensures b in NotIndex(cells, sigmap) <==> exists k | 0 <= k < |cells| :: IsNotOn(cells, sigmap, k, b)
  {
    if cells != [] {
      var n := |cells| - 1;
      var p := cells[..n];
      NotIndexHas(p, sigmap, b);
      if exists k | 0 <= k < |cells| :: IsNotOn(cells, sigmap, k, b) {
        var k :| 0 <= k < |cells| && IsNotOn(cells, sigmap, k, b);
        if k < n {
          assert IsNotOn(p, sigmap, k, b);
        }
      }
      if b in NotIndex(cells, sigmap) && b !in NotIndex(p, sigmap) {
        assert IsNotOn(cells, sigmap, n, b);
      }
      if b in NotIndex(p, sigmap) {
        var k :| 0 <= k < n && IsNotOn(p, sigmap, k, b);
        assert IsNotOn(cells, sigmap, k, b);
      }
    }
  }

  lemma {:induction false} NotIndexLast(cells: seq<Cell>, sigmap: SigBit -> SigBit, b: SigBit)
    requires b in NotIndex(cells, sigmap)
    ensures IsNotOn(cells, sigmap, NotIndex(cells, sigmap)[b].1, b)
    ensures NotIndex(cells, sigmap)[b].0 == sigmap(Bit0(GetPort(cells[NotIndex(cells, sigmap)[b].1], "\\Y")))
    ensures forall j | NotIndex(cells, sigmap)[b].1 < j < |cells| :: !IsNotOn(cells, sigmap, j, b)
  {
    var n := |cells| - 1;
    var p := cells[..n];
    if IsNotOn(cells, sigmap, n, b) {
      assert NotIndex(cells, sigmap)[b] == (sigmap(Bit0(GetPort(cells[n], "\\Y"))), n);
    } else {
      assert b in NotIndex(p, sigmap) && NotIndex(cells, sigmap)[b] == NotIndex(p, sigmap)[b];
      NotIndexLast(p, sigmap, b);
      var k := NotIndex(p, sigmap)[b].1;
      assert IsNotOn(p, sigmap, k, b) && cells[k] == p[k];
      forall j | k < j < |cells|
        ensures !IsNotOn(cells, sigmap, j, b)
      {
        if j < n {
          assert cells[j] == p[j];
          assert !IsNotOn(p, sigmap, j, b);
        }
      }
    }
  }

  /** An entry of the special-pterm index: a cell index and one of its pins. */
  type PTerm = (nat, string)

  function Listed(index: map<SigBit, seq<PTerm>>, b: SigBit): seq<PTerm>
  {
    if b in index then index[b] else []
  }

  /** The pins among `pins` that cell `k` has, each filed under the canonical bit it reads. */
  function AddPins(r: map<SigBit, seq<PTerm>>, c: Cell, k: nat, pins: seq<string>, sigmap: SigBit -> SigBit): map<SigBit, seq<PTerm>>
  {
    if pins == [] then r
    else
      var r' := AddPins(r, c, k, pins[..|pins| - 1], sigmap);
      var p := pins[|pins| - 1];
      if HasPort(c, p) then
        var b := sigmap(Bit0(GetPort(c, p)));
        r'[b := Listed(r', b) + [(k, p)]]
      else r'
  }

  /** `special_pterms_no_inv` (pins PRE, CLR, CE) or `special_pterms_inv` (pins C, G). */
  function PinIndex(cells: seq<Cell>, pins: seq<string>, sigmap: SigBit -> SigBit): map<SigBit, seq<PTerm>>
  {
    if cells == [] then map[]
    else
      var k := |cells| - 1;
      var r := PinIndex(cells[..k], pins, sigmap);
      if cells[k].cellType in SPECIAL_TYPES then AddPins(r, cells[k], k, pins, sigmap) else r
  }

  predicate PinReads(cells: seq<Cell>, pins: seq<string>, sigmap: SigBit -> SigBit, x: PTerm, b: SigBit)
  {
    x.0 < |cells| && cells[x.0].cellType in SPECIAL_TYPES && x.1 in pins
    && HasPort(cells[x.0], x.1) && sigmap(Bit0(GetPort(cells[x.0], x.1))) == b
  }

  lemma {:induction false} AddPinsSpec(r: map<SigBit, seq<PTerm>>, c: Cell, k: nat, pins: seq<string>, sigmap: SigBit -> SigBit, b: SigBit)
    ensures forall x :: x in Listed(AddPins(r, c, k, pins, sigmap), b) <==>
      x in Listed(r, b) || (x.0 == k && x.1 in pins && HasPort(c, x.1) && sigmap(Bit0(GetPort(c, x.1))) == b)
    ensures b in AddPins(r, c, k, pins, sigmap) <==> b in r || exists p | p in pins :: HasPort(c, p) && sigmap(Bit0(GetPort(c, p))) == b
  {
    if pins != [] {
      var q := pins[..|pins| - 1];
      AddPinsSpec(r, c, k, q, sigmap, b);
      assert forall p :: p in pins <==> p in q || p == pins[|pins| - 1];
    }
  }

  /**
   * A pin is listed under a bit iff it is a PRE/CLR/CE (or C/G) pin of an
   * indexed cell type that the cell has and that reads that bit; a bit is a key
   * iff something is listed under it.
   */
  lemma {:induction false} PinIndexSpec(cells: seq<Cell>, pins: seq<string>, sigmap: SigBit -> SigBit, b: SigBit)
    ensures forall x :: x in Listed(PinIndex(cells, pins, sigmap), b) <==> PinReads(cells, pins, sigmap, x, b)
    ensures b in PinIndex(cells, pins, sigmap) <==> |Listed(PinIndex(cells, pins, sigmap), b)| > 0
  {
    if cells != [] {
      var n := |cells| - 1;
      var p := cells[..n];
      PinIndexSpec(p, pins, sigmap, b);
      assert forall x: PTerm | x.0 < n :: PinReads(p, pins, sigmap, x, b) == PinReads(cells, pins, sigmap, x, b);
      if cells[n].cellType in SPECIAL_TYPES {
        AddPinsSpec(PinIndex(p, pins, sigmap), cells[n], n, pins, sigmap, b);
        if b in PinIndex(cells, pins, sigmap) && b !in PinIndex(p, pins, sigmap) {
          var q :| q in pins && HasPort(cells[n], q) && sigmap(Bit0(GetPort(cells[n], q))) == b;
          assert PinReads(cells, pins, sigmap, (n, q), b);
        } else if b in PinIndex(p, pins, sigmap) {
          var x := Listed(PinIndex(p, pins, sigmap), b)[0];
          assert x in Listed(PinIndex(cells, pins, sigmap), b);
        }
      }
    }
  }

  /** The first loop over the cells. */
  method IndexNots(cells: seq<Cell>, sigmap: SigBit -> SigBit) returns (nots: map<SigBit, (SigBit, nat)>)
    ensures nots == NotIndex(cells, sigmap)
  {
    nots := map[];
    for k := 0 to |cells|
      invariant nots == NotIndex(cells[..k], sigmap)
    {
      var cell := cells[k];
      assert cells[..k + 1][..k] == cells[..k];
      if cell.cellType == "$_NOT_" {
        var notInput := sigmap(Bit0(GetPort(cell, "\\A")));
        var notOutput := sigmap(Bit0(GetPort(cell, "\\Y")));
        nots := nots[notInput := (notOutput, k)];
      }
    }
    assert cells[..|cells|] == cells;
  }

  /** `special_pterms_*[b].insert((cell, pin))`. */
  function File(index: map<SigBit, seq<PTerm>>, b: SigBit, x: PTerm): map<SigBit, seq<PTerm>>
  {
    index[b := Listed(index, b) + [x]]
  }

  /** A special cell's PRE, CLR and CE pins, filed under the bits they read. */
  method FileNoInvPins(noInv: map<SigBit, seq<PTerm>>, cell: Cell, k: nat, sigmap: SigBit -> SigBit)
    returns (r: map<SigBit, seq<PTerm>>)
    ensures r == AddPins(noInv, cell, k, NO_INV_PORTS, sigmap)
  {
    r := noInv;
    if HasPort(cell, "\\PRE") {
      r := File(r, sigmap(Bit0(GetPort(cell, "\\PRE"))), (k, "\\PRE"));
    }
    assert r == AddPins(noInv, cell, k, NO_INV_PORTS[..1], sigmap);
    if HasPort(cell, "\\CLR") {
      r := File(r, sigmap(Bit0(GetPort(cell, "\\CLR"))), (k, "\\CLR"));
    }
    assert NO_INV_PORTS[..2][..1] == NO_INV_PORTS[..1];
    assert r == AddPins(noInv, cell, k, NO_INV_PORTS[..2], sigmap);
    if HasPort(cell, "\\CE") {
      r := File(r, sigmap(Bit0(GetPort(cell, "\\CE"))), (k, "\\CE"));
    }
    assert NO_INV_PORTS[..2] == NO_INV_PORTS[..3][..2];
    assert NO_INV_PORTS[..3] == NO_INV_PORTS;
  }

  /** A special cell's C and G pins, filed under the bits they read. */
  method FileInvPins(inv: map<SigBit, seq<PTerm>>, cell: Cell, k: nat, sigmap: SigBit -> SigBit)
    returns (r: map<SigBit, seq<PTerm>>)
    ensures r == AddPins(inv, cell, k, INV_PORTS, sigmap)
  {
    r := inv;
    if HasPort(cell, "\\C") {
      r := File(r, sigmap(Bit0(GetPort(cell, "\\C"))), (k, "\\C"));
    }
    assert r == AddPins(inv, cell, k, INV_PORTS[..1], sigmap);
    if HasPort(cell, "\\G") {
      r := File(r, sigmap(Bit0(GetPort(cell, "\\G"))), (k, "\\G"));
    }
    assert INV_PORTS[..2] == INV_PORTS;
  }

  /** The second loop over the cells, filling both special-pterm indexes. */
  method IndexPins(cells: seq<Cell>, sigmap: SigBit -> SigBit)
    returns (noInv: map<SigBit, seq<PTerm>>, inv: map<SigBit, seq<PTerm>>)
    ensures noInv == PinIndex(cells, NO_INV_PORTS, sigmap)
    ensures inv == PinIndex(cells, INV_PORTS, sigmap)
  {
    noInv, inv := map[], map[];
    for k := 0 to |cells|
      invariant noInv == PinIndex(cells[..k], NO_INV_PORTS, sigmap)
      invariant inv == PinIndex(cells[..k], INV_PORTS, sigmap)
    {
      var cell := cells[k];
      assert cells[..k + 1][..k] == cells[..k];
      if cell.cellType in SPECIAL_TYPES {
        noInv := FileNoInvPins(noInv, cell, k, sigmap);
        inv := FileInvPins(inv, cell, k, sigmap);
      }
    }
    assert cells[..|cells|] == cells;
  }

  // ---- rewiring pins ----

  function ReplaceSig(conns: seq<Conn>, p: string, sig: SigSpec): (r: seq<Conn>)
    ensures |r| == |conns|
  {
    if conns == [] then []
    else [if conns[0].port == p then conns[0].(sig := sig) else conns[0]] + ReplaceSig(conns[1..], p, sig)
  }

  /** `cell->setPort(p, sig)`: the pin gets the new signal; a pin the cell lacks is added without a direction. */
  function SetPort(c: Cell, p: string, sig: SigSpec): Cell
  {
    if HasPort(c, p) then c.(conns := ReplaceSig(c.conns, p, sig))
    else c.(conns := c.conns + [Conn(p, sig, false, false)])
  }

  lemma {:induction false} ReplaceSigReads(conns: seq<Conn>, p: string, sig: SigSpec, q: string)
    ensures PortOf(ReplaceSig(conns, p, sig), q) == if q == p && (exists k | 0 <= k < |conns| :: conns[k].port == p) then sig else PortOf(conns, q)
  {
    if conns != [] {
      ReplaceSigReads(conns[1..], p, sig, q);
      assert ReplaceSig(conns, p, sig)[1..] == ReplaceSig(conns[1..], p, sig);
      if q == p && conns[0].port != p {
        assert (exists k | 0 <= k < |conns| :: conns[k].port == p) <==> (exists k | 0 <= k < |conns[1..]| :: conns[1..][k].port == p) by {
          if exists k | 0 <= k < |conns| :: conns[k].port == p {
            var k :| 0 <= k < |conns| && conns[k].port == p;
            assert conns[1..][k - 1].port == p;
          }
        }
      }
    }
  }

  lemma {:induction false} AppendReads(conns: seq<Conn>, x: Conn, q: string)
    requires forall k | 0 <= k < |conns| :: conns[k].port != x.port
    ensures PortOf(conns + [x], q) == if q == x.port then x.sig else PortOf(conns, q)
  {
    if conns != [] {
      assert (conns + [x])[1..] == conns[1..] + [x];
      AppendReads(conns[1..], x, q);
    }
  }

  /** After `setPort`, the pin reads the new signal, every other pin is unchanged, and so is the cell's type. */
  lemma SetPortReads(c: Cell, p: string, sig: SigSpec, q: string)
    ensures GetPort(SetPort(c, p, sig), q) == if q == p then sig else GetPort(c, q)
    ensures HasPort(SetPort(c, p, sig), p)
    ensures SetPort(c, p, sig).cellType == c.cellType && SetPort(c, p, sig).name == c.name
  {
    if HasPort(c, p) {
      ReplaceSigReads(c.conns, p, sig, q);
      var k :| 0 <= k < |c.conns| && c.conns[k].port == p;
      ReplaceSigConn(c.conns, p, sig, k);
    } else {
      AppendReads(c.conns, Conn(p, sig, false, false), q);
      assert (c.conns + [Conn(p, sig, false, false)])[|c.conns|].port == p;
    }
  }

  lemma {:induction false} ReplaceSigConn(conns: seq<Conn>, p: string, sig: SigSpec, k: nat)
    requires k < |conns|
    ensures ReplaceSig(conns, p, sig)[k].port == conns[k].port
  {
    if k > 0 {
      ReplaceSigConn(conns[1..], p, sig, k - 1);
    }
  }

  /**
   * The loop over one list of special pins: each is set to `bit`, and with
   * `flip` its cell's clock polarity is flipped; `None` is the internal error.
   */
  function Rewired(cells: seq<Cell>, pterms: seq<PTerm>, bit: SigBit, flip: bool): (r: Option<seq<Cell>>)
    requires forall x | x in pterms :: x.0 < |cells|
    ensures r.Some? ==> |r.value| == |cells|
  {
    if pterms == [] then Some(cells)
    else
      var x := pterms[|pterms| - 1];
      match Rewired(cells, pterms[..|pterms| - 1], bit, flip)
      case None => None
      case Some(cs) =>
        var c := SetPort(cs[x.0], x.1, [bit]);
        if !flip then Some(cs[x.0 := c])
        else match FlipPolarity(c.cellType)
          case None => None
          case Some(t) => Some(cs[x.0 := c.(cellType := t)])
  }

  /**
   * Rewiring touches only the listed cells, which stay flip-flops or latches;
   * without a flip it never fails; with one it fails exactly when a listed
   * cell has a type the flip does not cover.
   */
  lemma {:induction false} RewiredScope(cells: seq<Cell>, pterms: seq<PTerm>, bit: SigBit, flip: bool)
    requires forall x | x in pterms :: x.0 < |cells| && cells[x.0].cellType in SPECIAL_TYPES
    ensures !flip ==> Rewired(cells, pterms, bit, flip).Some?
    ensures Rewired(cells, pterms, bit, flip).Some? <==> (flip ==> forall x | x in pterms :: cells[x.0].cellType in FLIPPABLE)
    ensures Rewired(cells, pterms, bit, flip).Some? ==> var r := Rewired(cells, pterms, bit, flip).value;
      forall j | 0 <= j < |cells| ::
        && (r[j].cellType in SPECIAL_TYPES <==> cells[j].cellType in SPECIAL_TYPES)
        && (r[j].cellType in FLIPPABLE <==> cells[j].cellType in FLIPPABLE)
        && ((forall x | x in pterms :: x.0 != j) ==> r[j] == cells[j])
  {
    if pterms != [] {
      var q := pterms[..|pterms| - 1];
      var x := pterms[|pterms| - 1];
      RewiredScope(cells, q, bit, flip);
      assert forall y | y in pterms :: y in q || y == x;
      var prev := Rewired(cells, q, bit, flip);
      if prev.Some? {
        var cs := prev.value;
        var c := SetPort(cs[x.0], x.1, [bit]);
        SetPortReads(cs[x.0], x.1, [bit], x.1);
        if flip {
          FlipInvolution(c.cellType);
        }
      }
    }
  }

  /** Every listed pin ends up reading `bit`. */
  lemma {:induction false} RewiredPins(cells: seq<Cell>, pterms: seq<PTerm>, bit: SigBit, flip: bool)
    requires forall x | x in pterms :: x.0 < |cells|
    requires Rewired(cells, pterms, bit, flip).Some?
    ensures forall x | x in pterms :: GetPort(Rewired(cells, pterms, bit, flip).value[x.0], x.1) == [bit]
  {
    if pterms != [] {
      var q := pterms[..|pterms| - 1];
      var x := pterms[|pterms| - 1];
      RewiredPins(cells, q, bit, flip);
      var cs := Rewired(cells, q, bit, flip).value;
      var r := Rewired(cells, pterms, bit, flip).value;
      forall y | y in pterms
        ensures GetPort(r[y.0], y.1) == [bit]
      {
        SetPortReads(cs[x.0], x.1, [bit], y.1);
        if y.0 != x.0 {
          assert y in q;
        }
      }
    }
  }

  /** The depth-1 rewiring: C and G pins always, PRE, CLR and CE only when the term is not inverted. */
  function RewireAll(cells: seq<Cell>, inv: seq<PTerm>, noInv: seq<PTerm>, bit: SigBit, invert: bool): (r: Option<seq<Cell>>)
    requires forall x | x in inv :: x.0 < |cells|
    requires forall x | x in noInv :: x.0 < |cells|
    ensures r.Some? ==> |r.value| == |cells|
  {
    match Rewired(cells, inv, bit, invert)
    case None => None
    case Some(cs) => if invert then Some(cs) else Rewired(cs, noInv, bit, false)
  }

  // ---- the cells that replace a $sop ----

  /**
   * ANDTERM `i`: `TRUE_INP` and `COMP_INP` count the true and complemented
   * inputs it reads on `IN` and `IN_B`, in the order their pools iterate.
   */
  predicate AndTerm(c: Cell, out: SigBit, inputs: SigSpec, table: seq<State>, width: nat, i: nat)
  {
    var t := TermInputs(inputs, table, width, i, 1, width);
    var cm := TermInputs(inputs, table, width, i, 0, width);
    && c.cellType == "\\ANDTERM"
    && c.params == map["\\TRUE_INP" := |t|, "\\COMP_INP" := |cm|] && c.consts == map[]
    && c.conns == [Conn("\\OUT", [out], false, true), Conn("\\IN", PoolSig(t), true, false), Conn("\\IN_B", PoolSig(cm), true, false)]
  }

  predicate OrTerm(c: Cell, depth: int, ins: seq<SigBit>, out: SigBit)
  {
    && c.cellType == "\\ORTERM" && c.params == map["\\WIDTH" := depth] && c.consts == map[]
    && c.conns == [Conn("\\IN", PoolSig(ins), true, false), Conn("\\OUT", [out], false, true)]
  }

  /** The macrocell XOR, fed on `pin` (`IN_PTC` or `IN_ORTERM`); `INVERT_OUT` is the folded NOT. */
  predicate XorCell(c: Cell, pin: string, in0: SigBit, out: SigBit, invert: bool)
  {
    && c.cellType == "\\MACROCELL_XOR" && c.params == map["\\INVERT_OUT" := if invert then 1 else 0] && c.consts == map[]
    && c.conns == [Conn(pin, [in0], true, false), Conn("\\OUT", [out], false, true)]
  }

  const NEW_TYPES: set<string> := {"\\ANDTERM", "\\ORTERM", "\\MACROCELL_XOR"}

  function Outs(ws: seq<Wire>, n: nat): (r: seq<SigBit>)
    requires n <= |ws|
    ensures |r| == n
  {
    seq(n, i requires 0 <= i < n => WireBit(ws[i], 0))
  }

  /**
   * What replaces one `$sop`: the wires and cells added, in order. `Count(depth)`
   * ANDTERMs, then with one term the XOR fed by it, otherwise an ORTERM of
   * width `depth` over all AND outputs and the XOR fed by the OR.
   */
  predicate SopExpansion(added: seq<Cell>, addedWires: seq<Wire>, inputs: SigSpec, table: seq<State>,
                         depth: int, width: nat, target: SigBit, invert: bool)
  {
    var n := Count(depth);
    && |addedWires| == n + (if depth == 1 then 0 else 1)
    && |added| == n + (if depth == 1 then 1 else 2)
    && (forall i | 0 <= i < n :: AndTerm(added[i], WireBit(addedWires[i], 0), inputs, table, width, i))
    && (depth == 1 ==> XorCell(added[n], "\\IN_PTC", WireBit(addedWires[0], 0), target, invert))
    && (depth != 1 ==>
          && OrTerm(added[n], depth, Outs(addedWires, n), WireBit(addedWires[n], 0))
          && XorCell(added[n + 1], "\\IN_ORTERM", WireBit(addedWires[n], 0), target, invert))
  }

  /** `added` and `addedWires` are the expansion of the `$sop` cell `c`, its output folded through `nots`. */
  predicate Expands(added: seq<Cell>, addedWires: seq<Wire>, c: Cell, sigmap: SigBit -> SigBit,
                    nots: map<SigBit, (SigBit, nat)>)
  {
    SopExpansion(added, addedWires, Canon(sigmap, GetPort(c, "\\A")), ConstParam(c, "\\TABLE"),
                 Param(c, "\\DEPTH"), Count(Param(c, "\\WIDTH")), Target(c, sigmap, nots), SopOutput(c, sigmap) in nots)
  }

  /** Every cell of an expansion has one of the three new types. */
  lemma ExpansionTypes(added: seq<Cell>, addedWires: seq<Wire>, inputs: SigSpec, table: seq<State>,
                       depth: int, width: nat, target: SigBit, invert: bool)
    requires SopExpansion(added, addedWires, inputs, table, depth, width, target, invert)
    ensures forall c | c in added :: c.cellType in NEW_TYPES
    ensures forall i | 0 <= i < |added| :: added[i].cellType == "\\ANDTERM" <==> i < Count(depth)
  {
  }

  /** The output bit of a `$sop`, canonicalised. */
  function SopOutput(c: Cell, sigmap: SigBit -> SigBit): SigBit
  {
    sigmap(Bit0(GetPort(c, "\\Y")))
  }

  /** The bit the XOR drives: the NOT's output when a NOT cell reads the `$sop` output. */
  function Target(c: Cell, sigmap: SigBit -> SigBit, nots: map<SigBit, (SigBit, nat)>): SigBit
  {
    if SopOutput(c, sigmap) in nots then nots[SopOutput(c, sigmap)].0 else SopOutput(c, sigmap)
  }

  /** The cells scheduled for removal on account of cell `c`: itself and a folded NOT. */
  function Removed(k: nat, c: Cell, sigmap: SigBit -> SigBit, nots: map<SigBit, (SigBit, nat)>): set<nat>
  {
    {k} + if SopOutput(c, sigmap) in nots then {nots[SopOutput(c, sigmap)].1} else {}
  }

  function WireNames(ws: seq<Wire>): set<string>
  {
    set i | 0 <= i < |ws| :: ws[i].name
  }

  function CellNames(cs: seq<Cell>): set<string>
  {
    set i | 0 <= i < |cs| :: cs[i].name
  }

  /** `cells_to_remove` after the walk has reached cell `n`: each `$sop` before it, with its folded NOT. */
  function Scheduled(cells: seq<Cell>, sigmap: SigBit -> SigBit, nots: map<SigBit, (SigBit, nat)>, n: nat): set<nat>
    requires n <= |cells|
  {
    if n == 0 then {}
    else Scheduled(cells, sigmap, nots, n - 1) + if cells[n - 1].cellType == "$sop" then Removed(n - 1, cells[n - 1], sigmap, nots) else {}
  }

  /**
   * Every `$sop` before `n` is scheduled, and nothing else is but the NOT cell
   * read by some `$sop`'s output (the last NOT on that bit).
   */
  lemma {:induction false} ScheduledSpec(cells: seq<Cell>, sigmap: SigBit -> SigBit, n: nat, k: nat)
    requires n <= |cells|
    ensures k < n && cells[k].cellType == "$sop" ==> k in Scheduled(cells, sigmap, NotIndex(cells, sigmap), n)
    ensures k in Scheduled(cells, sigmap, NotIndex(cells, sigmap), n) ==>
      && k < |cells|
      && (cells[k].cellType == "$sop" || cells[k].cellType == "$_NOT_")
      && (cells[k].cellType != "$sop" ==>
            exists j | 0 <= j < n :: cells[j].cellType == "$sop" && IsNotOn(cells, sigmap, k, SopOutput(cells[j], sigmap)))
  {
    if n > 0 {
      ScheduledSpec(cells, sigmap, n - 1, k);
      var nots := NotIndex(cells, sigmap);
      var c := cells[n - 1];
      if c.cellType == "$sop" && SopOutput(c, sigmap) in nots && k == nots[SopOutput(c, sigmap)].1 {
        NotIndexSpec(cells, sigmap, SopOutput(c, sigmap));
      }
    }
  }

  /**
   * Cell `k` is a single-term `$sop` whose inverted output drives the C or G
   * pin of a cell whose polarity cannot be flipped: the walk stops with
   * "Internal error! Bad cell type!".
   */
  predicate FlipFails(cells: seq<Cell>, sigmap: SigBit -> SigBit, nots: map<SigBit, (SigBit, nat)>,
                      inv: map<SigBit, seq<PTerm>>, k: nat)
    requires k < |cells|
  {
    var c := cells[k];
    && c.cellType == "$sop" && Param(c, "\\DEPTH") == 1 && SopOutput(c, sigmap) in nots
    && exists x | x in Listed(inv, Target(c, sigmap, nots)) :: x.0 < |cells| && cells[x.0].cellType !in FLIPPABLE
  }

  /** Some cell before `n` makes the walk stop. */
  predicate FlipFailsBelow(cells: seq<Cell>, sigmap: SigBit -> SigBit, nots: map<SigBit, (SigBit, nat)>,
                           inv: map<SigBit, seq<PTerm>>, n: nat)
    requires n <= |cells|
  {
    n > 0 && (FlipFailsBelow(cells, sigmap, nots, inv, n - 1) || FlipFails(cells, sigmap, nots, inv, n - 1))
  }

  lemma {:induction false} FlipFailsBelowSpec(cells: seq<Cell>, sigmap: SigBit -> SigBit, nots: map<SigBit, (SigBit, nat)>,
                                              inv: map<SigBit, seq<PTerm>>, n: nat)
    requires n <= |cells|
    ensures FlipFailsBelow(cells, sigmap, nots, inv, n) <==> exists k | 0 <= k < n :: FlipFails(cells, sigmap, nots, inv, k)
  {
    if n > 0 {
      FlipFailsBelowSpec(cells, sigmap, nots, inv, n - 1);
      if exists k | 0 <= k < n :: FlipFails(cells, sigmap, nots, inv, k) {
        var k :| 0 <= k < n && FlipFails(cells, sigmap, nots, inv, k);
        assert k < n - 1 || k == n - 1;
      }
    }
  }

  lemma FlipFailsNext(cells: seq<Cell>, sigmap: SigBit -> SigBit, nots: map<SigBit, (SigBit, nat)>,
                      inv: map<SigBit, seq<PTerm>>, k: nat)
    requires k < |cells|
    ensures FlipFailsBelow(cells, sigmap, nots, inv, k + 1) <==>
      FlipFailsBelow(cells, sigmap, nots, inv, k) || FlipFails(cells, sigmap, nots, inv, k)
  {
  }

  lemma {:induction false} FlipFailsGrows(cells: seq<Cell>, sigmap: SigBit -> SigBit, nots: map<SigBit, (SigBit, nat)>,
                                          inv: map<SigBit, seq<PTerm>>, m: nat, n: nat)
    requires m <= n <= |cells| && FlipFailsBelow(cells, sigmap, nots, inv, m)
    ensures FlipFailsBelow(cells, sigmap, nots, inv, n)
    decreases n
  {
    if m < n {
      FlipFailsGrows(cells, sigmap, nots, inv, m, n - 1);
    }
  }

  /** `b` is `a` after rewiring: each cell keeps its kind, and cells that are not flip-flops or latches are untouched. */
  ghost predicate SameKinds(a: seq<Cell>, b: seq<Cell>)
  {
    && |a| == |b|
    && (forall j | 0 <= j < |a| :: b[j].cellType in SPECIAL_TYPES <==> a[j].cellType in SPECIAL_TYPES)
    && (forall j | 0 <= j < |a| :: b[j].cellType in FLIPPABLE <==> a[j].cellType in FLIPPABLE)
    && (forall j | 0 <= j < |a| :: a[j].cellType !in SPECIAL_TYPES ==> b[j] == a[j])
  }

  /**
   * The depth-1 rewiring of pins of flip-flops and latches fails exactly when
   * the term is inverted and one of the C/G cells cannot flip; otherwise it
   * keeps every cell's kind.
   */
  lemma RewireAllScope(cells: seq<Cell>, inv: seq<PTerm>, noInv: seq<PTerm>, bit: SigBit, invert: bool)
    requires forall x | x in inv :: x.0 < |cells| && cells[x.0].cellType in SPECIAL_TYPES
    requires forall x | x in noInv :: x.0 < |cells| && cells[x.0].cellType in SPECIAL_TYPES
    ensures RewireAll(cells, inv, noInv, bit, invert).Some? <==> (invert ==> forall x | x in inv :: cells[x.0].cellType in FLIPPABLE)
    ensures RewireAll(cells, inv, noInv, bit, invert).Some? ==> SameKinds(cells, RewireAll(cells, inv, noInv, bit, invert).value)
  {
    RewiredScope(cells, inv, bit, invert);
    if !invert {
      var cs := Rewired(cells, inv, bit, invert).value;
      RewiredScope(cs, noInv, bit, false);
    }
  }

  /** The cell list during the walk, against the list `orig` it started from: rewired cells, then new cells. */
  ghost predicate Evolved(orig: seq<Cell>, cells: seq<Cell>)
  {
    && |orig| <= |cells|
    && SameKinds(orig, cells[..|orig|])
    && (forall j | |orig| <= j < |cells| :: cells[j].cellType in NEW_TYPES)
  }

  /** One `$sop` replaced: a rewiring of the list so far, then appended cells of the new types. */
  lemma EvolvedStep(orig: seq<Cell>, before: seq<Cell>, prefix: seq<Cell>, added: seq<Cell>)
    requires Evolved(orig, before) && SameKinds(before, prefix)
    requires forall c | c in added :: c.cellType in NEW_TYPES
    ensures Evolved(orig, prefix + added)
  {
    var cells := prefix + added;
    forall j | |orig| <= j < |cells|
      ensures cells[j].cellType in NEW_TYPES
    {
      if j >= |prefix| {
        assert cells[j] == added[j - |prefix|];
      } else {
        assert before[j].cellType !in SPECIAL_TYPES;
      }
    }
    forall j | 0 <= j < |orig|
      ensures cells[j].cellType in SPECIAL_TYPES <==> orig[j].cellType in SPECIAL_TYPES
      ensures cells[j].cellType in FLIPPABLE <==> orig[j].cellType in FLIPPABLE
      ensures orig[j].cellType !in SPECIAL_TYPES ==> cells[j] == orig[j]
    {
      assert cells[j] == prefix[j] && before[..|orig|][j] == before[j];
    }
  }

  /** The cells that survive `module->remove` of the scheduled ones, in order. */
  function Kept(cells: seq<Cell>, remove: set<nat>): seq<Cell>
  {
    if cells == [] then []
    else Kept(cells[..|cells| - 1], remove) + if |cells| - 1 in remove then [] else [cells[|cells| - 1]]
  }

  /** A cell survives iff it sits at an index that is not scheduled. */
  lemma {:induction false} KeptSpec(cells: seq<Cell>, remove: set<nat>, c: Cell)
    ensures c in Kept(cells, remove) <==> exists k | 0 <= k < |cells| :: k !in remove && cells[k] == c
  {
    if cells != [] {
      var n := |cells| - 1;
      KeptSpec(cells[..n], remove, c);
      if c in Kept(cells[..n], remove) {
        var k :| 0 <= k < n && k !in remove && cells[..n][k] == c;
        assert cells[k] == c;
      }
      if exists k | 0 <= k < |cells| :: k !in remove && cells[k] == c {
        var k :| 0 <= k < |cells| && k !in remove && cells[k] == c;
        if k < n {
          assert cells[..n][k] == c;
        }
      }
    }
  }

  /** What the two indexes guarantee: NOT entries are NOT cells, listed pins belong to flip-flops or latches. */
  ghost predicate IndexesOf(cells: seq<Cell>, nots: map<SigBit, (SigBit, nat)>,
                            noInv: map<SigBit, seq<PTerm>>, inv: map<SigBit, seq<PTerm>>)
  {
    && (forall b | b in nots :: nots[b].1 < |cells| && cells[nots[b].1].cellType == "$_NOT_")
    && (forall b | b in inv :: forall x | x in inv[b] :: x.0 < |cells| && cells[x.0].cellType in SPECIAL_TYPES)
    && (forall b | b in noInv :: forall x | x in noInv[b] :: x.0 < |cells| && cells[x.0].cellType in SPECIAL_TYPES)
  }

  lemma IndexesSound(cells: seq<Cell>, sigmap: SigBit -> SigBit)
    ensures IndexesOf(cells, NotIndex(cells, sigmap), PinIndex(cells, NO_INV_PORTS, sigmap), PinIndex(cells, INV_PORTS, sigmap))
  {
    forall b | b in NotIndex(cells, sigmap)
      ensures NotIndex(cells, sigmap)[b].1 < |cells| && cells[NotIndex(cells, sigmap)[b].1].cellType == "$_NOT_"
    {
      NotIndexSpec(cells, sigmap, b);
    }
    forall b | b in PinIndex(cells, INV_PORTS, sigmap)
      ensures forall x | x in PinIndex(cells, INV_PORTS, sigmap)[b] :: x.0 < |cells| && cells[x.0].cellType in SPECIAL_TYPES
    {
      PinIndexSpec(cells, INV_PORTS, sigmap, b);
    }
    forall b | b in PinIndex(cells, NO_INV_PORTS, sigmap)
      ensures forall x | x in PinIndex(cells, NO_INV_PORTS, sigmap)[b] :: x.0 < |cells| && cells[x.0].cellType in SPECIAL_TYPES
    {
      PinIndexSpec(cells, NO_INV_PORTS, sigmap, b);
    }
  }

  /**
   * During the walk the depth-1 rewiring for cell `k` fails exactly when
   * `FlipFails` holds of the cell list the walk started from.
   */
  lemma FlipFailsWhen(orig: seq<Cell>, before: seq<Cell>, sigmap: SigBit -> SigBit, nots: map<SigBit, (SigBit, nat)>,
                      noInv: map<SigBit, seq<PTerm>>, inv: map<SigBit, seq<PTerm>>, k: nat, bit: SigBit)
    requires IndexesOf(orig, nots, noInv, inv) && Evolved(orig, before) && k < |orig| && before[k] == orig[k]
    ensures var c := orig[k];
      var t := Target(c, sigmap, nots);
      var single := Param(c, "\\DEPTH") == 1 && (t in noInv || t in inv);
      && (forall x | x in Listed(inv, t) :: x.0 < |before|)
      && (forall x | x in Listed(noInv, t) :: x.0 < |before|)
      && (c.cellType == "$sop" ==>
            (FlipFails(orig, sigmap, nots, inv, k) <==>
               single && RewireAll(before, Listed(inv, t), Listed(noInv, t), bit, SopOutput(c, sigmap) in nots).None?))
      && (single && RewireAll(before, Listed(inv, t), Listed(noInv, t), bit, SopOutput(c, sigmap) in nots).Some? ==>
            SameKinds(before, RewireAll(before, Listed(inv, t), Listed(noInv, t), bit, SopOutput(c, sigmap) in nots).value))
  {
    var c := orig[k];
    var t := Target(c, sigmap, nots);
    assert forall x | x in Listed(inv, t) :: before[..|orig|][x.0] == before[x.0];
    assert forall x | x in Listed(noInv, t) :: before[..|orig|][x.0] == before[x.0];
    RewireAllScope(before, Listed(inv, t), Listed(noInv, t), bit, SopOutput(c, sigmap) in nots);
  }

  /** Rewiring the list so far and appending an expansion keeps the walk's shape. */
  lemma ExpansionEvolves(orig: seq<Cell>, before: seq<Cell>, cells: seq<Cell>, addedWires: seq<Wire>, inputs: SigSpec,
                         table: seq<State>, depth: int, width: nat, target: SigBit, invert: bool)
    requires Evolved(orig, before) && |before| <= |cells| && SameKinds(before, cells[..|before|])
    requires SopExpansion(cells[|before|..], addedWires, inputs, table, depth, width, target, invert)
    ensures Evolved(orig, cells)
  {
    ExpansionTypes(cells[|before|..], addedWires, inputs, table, depth, width, target, invert);
    assert cells == cells[..|before|] + cells[|before|..];
    EvolvedStep(orig, before, cells[..|before|], cells[|before|..]);
  }

  /** During the walk, an original cell is a `$sop` exactly when it was one, and then it is unchanged. */
  lemma EvolvedSop(orig: seq<Cell>, cells: seq<Cell>, k: nat)
    requires Evolved(orig, cells) && k < |orig|
    ensures cells[k].cellType == "$sop" <==> orig[k].cellType == "$sop"
    ensures orig[k].cellType == "$sop" ==> cells[k] == orig[k]
  {
    assert cells[..|orig|][k] == cells[k];
  }

  /** How many cells the expansion of the `$sop` cell `c` adds. */
  function ExpansionCells(c: Cell): nat
  {
    Count(Param(c, "\\DEPTH")) + if Param(c, "\\DEPTH") == 1 then 1 else 2
  }

  /** How many wires the expansion of the `$sop` cell `c` adds. */
  function ExpansionWires(c: Cell): nat
  {
    Count(Param(c, "\\DEPTH")) + if Param(c, "\\DEPTH") == 1 then 0 else 1
  }

  /**
   * `added` and `addedWires` are the expansions of the `$sop` cells among the
   * first `k` of `orig`, one after the other in the order of those cells.
   */
  predicate Expanded(orig: seq<Cell>, added: seq<Cell>, addedWires: seq<Wire>, sigmap: SigBit -> SigBit,
                     nots: map<SigBit, (SigBit, nat)>, k: nat)
    requires k <= |orig|
    decreases k
  {
    if k == 0 then added == [] && addedWires == []
    else if orig[k - 1].cellType != "$sop" then Expanded(orig, added, addedWires, sigmap, nots, k - 1)
    else
      var nc, nw := ExpansionCells(orig[k - 1]), ExpansionWires(orig[k - 1]);
      && nc <= |added| && nw <= |addedWires|
      && Expanded(orig, added[..|added| - nc], addedWires[..|addedWires| - nw], sigmap, nots, k - 1)
      && Expands(added[|added| - nc..], addedWires[|addedWires| - nw..], orig[k - 1], sigmap, nots)
  }

  /** Every pin listed in `index` belongs to one of the first `n` cells. */
  predicate PinsBelow(index: map<SigBit, seq<PTerm>>, n: nat)
  {
    forall b | b in index :: forall x | x in index[b] :: x.0 < n
  }

  /**
   * The original cells after the depth-1 rewirings of the `$sop` cells among
   * the first `k`, each to the first wire of its expansion in `addedWires`;
   * `None` once one of them meets a polarity it cannot flip.
   */
  function Rewirings(orig: seq<Cell>, sigmap: SigBit -> SigBit, nots: map<SigBit, (SigBit, nat)>,
                     noInv: map<SigBit, seq<PTerm>>, inv: map<SigBit, seq<PTerm>>, addedWires: seq<Wire>, k: nat)
    : (r: Option<seq<Cell>>)
    requires k <= |orig| && PinsBelow(noInv, |orig|) && PinsBelow(inv, |orig|)
    ensures r.Some? ==> |r.value| == |orig|
    decreases k
  {
    if k == 0 then Some(orig)
    else
      var c := orig[k - 1];
      if c.cellType != "$sop" then Rewirings(orig, sigmap, nots, noInv, inv, addedWires, k - 1)
      else
        var nw := ExpansionWires(c);
        if |addedWires| < nw then None
        else
          var prev := Rewirings(orig, sigmap, nots, noInv, inv, addedWires[..|addedWires| - nw], k - 1);
          var t := Target(c, sigmap, nots);
          if prev.None? || !(Param(c, "\\DEPTH") == 1 && (t in noInv || t in inv)) then prev
          else RewireAll(prev.value, Listed(inv, t), Listed(noInv, t), WireBit(addedWires[|addedWires| - nw], 0),
                         SopOutput(c, sigmap) in nots)
  }

  /** The depth-1 rewiring of pins below `n` leaves the cells from `n` on as they are. */
  lemma RewireAllPrefix(cells: seq<Cell>, n: nat, inv: seq<PTerm>, noInv: seq<PTerm>, bit: SigBit, invert: bool)
    requires n <= |cells|
    requires forall x | x in inv :: x.0 < n
    requires forall x | x in noInv :: x.0 < n
    ensures RewireAll(cells, inv, noInv, bit, invert).Some? <==> RewireAll(cells[..n], inv, noInv, bit, invert).Some?
    ensures RewireAll(cells, inv, noInv, bit, invert).Some? ==>
      RewireAll(cells, inv, noInv, bit, invert).value == RewireAll(cells[..n], inv, noInv, bit, invert).value + cells[n..]
  {
    RewiredPrefix(cells, n, inv, bit, invert);
    if !invert && Rewired(cells, inv, bit, invert).Some? {
      var cs := Rewired(cells, inv, bit, invert).value;
      var ps := Rewired(cells[..n], inv, bit, invert).value;
      assert cs[..n] == ps && cs[n..] == cells[n..];
      RewiredPrefix(cs, n, noInv, bit, false);
    }
  }

  /**
   * One `$sop` expanded: its cells and wires follow those of the earlier
   * ones, and with a single term its rewiring is applied to the original
   * cells as rewired so far.
   */
  lemma {:induction false} ExpandedStep(orig: seq<Cell>, added: seq<Cell>, addedWires: seq<Wire>, more: seq<Cell>,
                                        moreWires: seq<Wire>, prefix: seq<Cell>, sigmap: SigBit -> SigBit,
                                        nots: map<SigBit, (SigBit, nat)>, noInv: map<SigBit, seq<PTerm>>,
                                        inv: map<SigBit, seq<PTerm>>, k: nat)
    requires k < |orig| && orig[k].cellType == "$sop" && PinsBelow(noInv, |orig|) && PinsBelow(inv, |orig|)
    requires Expanded(orig, added, addedWires, sigmap, nots, k)
    requires Rewirings(orig, sigmap, nots, noInv, inv, addedWires, k) == Some(prefix)
    requires Expands(more, moreWires, orig[k], sigmap, nots)
    requires |moreWires| > 0
    ensures Expanded(orig, added + more, addedWires + moreWires, sigmap, nots, k + 1)
    ensures var c := orig[k];
      var t := Target(c, sigmap, nots);
      var single := Param(c, "\\DEPTH") == 1 && (t in noInv || t in inv);
      Rewirings(orig, sigmap, nots, noInv, inv, addedWires + moreWires, k + 1)
        == if single then RewireAll(prefix, Listed(inv, t), Listed(noInv, t), WireBit(moreWires[0], 0), SopOutput(c, sigmap) in nots)
           else Some(prefix)
  {
    var c := orig[k];
    var aw := addedWires + moreWires;
    assert (added + more)[..|added|] == added && (added + more)[|added|..] == more;
    assert aw[..|addedWires|] == addedWires && aw[|addedWires|..] == moreWires;
    assert aw[|addedWires|] == moreWires[0];
  }

  /**
   * The walk's record of expansions and rewirings, carried over one `$sop`:
   * `before`/`wbefore` are the cells and wires before it, `cells`/`wires` after.
   */
  lemma WalkStep(orig: seq<Cell>, w0: seq<Wire>, before: seq<Cell>, wbefore: seq<Wire>, cells: seq<Cell>, wires: seq<Wire>,
                 sigmap: SigBit -> SigBit, nots: map<SigBit, (SigBit, nat)>, noInv: map<SigBit, seq<PTerm>>,
                 inv: map<SigBit, seq<PTerm>>, k: nat)
    requires k < |orig| && orig[k].cellType == "$sop" && PinsBelow(noInv, |orig|) && PinsBelow(inv, |orig|)
    requires |orig| <= |before| <= |cells| && |w0| <= |wbefore| <= |wires| && wires[..|wbefore|] == wbefore
    requires Expanded(orig, before[|orig|..], wbefore[|w0|..], sigmap, nots, k)
    requires Rewirings(orig, sigmap, nots, noInv, inv, wbefore[|w0|..], k) == Some(before[..|orig|])
    requires Expands(cells[|before|..], wires[|wbefore|..], orig[k], sigmap, nots)
    requires var c := orig[k];
      var t := Target(c, sigmap, nots);
      var single := Param(c, "\\DEPTH") == 1 && (t in noInv || t in inv);
      && (!single ==> cells[..|before|] == before)
      && (single ==>
            var r := RewireAll(before, Listed(inv, t), Listed(noInv, t), WireBit(wires[|wbefore|], 0), SopOutput(c, sigmap) in nots);
            r.Some? && cells[..|before|] == r.value)
    ensures Expanded(orig, cells[|orig|..], wires[|w0|..], sigmap, nots, k + 1)
    ensures Rewirings(orig, sigmap, nots, noInv, inv, wires[|w0|..], k + 1) == Some(cells[..|orig|])
  {
    var c := orig[k];
    var t := Target(c, sigmap, nots);
    var bit := WireBit(wires[|wbefore|], 0);
    var invert := SopOutput(c, sigmap) in nots;
    if Param(c, "\\DEPTH") == 1 && (t in noInv || t in inv) {
      RewireAllPrefix(before, |orig|, Listed(inv, t), Listed(noInv, t), bit, invert);
      PrefixSplit(cells, |before|, RewireAll(before[..|orig|], Listed(inv, t), Listed(noInv, t), bit, invert).value,
                  before[|orig|..]);
    } else {
      assert before == before[..|orig|] + before[|orig|..];
      PrefixSplit(cells, |before|, before[..|orig|], before[|orig|..]);
    }
    TailSplit(wires, wbefore, |w0|);
    ExpandedStep(orig, before[|orig|..], wbefore[|w0|..], cells[|before|..], wires[|wbefore|..], before[..|orig|],
                 sigmap, nots, noInv, inv, k);
  }

  /** A prefix of `a` that splits as `y + rest` puts `y` at the head of `a` and `rest` before the remainder. */
  lemma PrefixSplit<T>(a: seq<T>, n: nat, y: seq<T>, rest: seq<T>)
    requires n <= |a| && a[..n] == y + rest
    ensures a[..|y|] == y && a[|y|..] == rest + a[n..]
  {
    assert a[..|y|] == a[..n][..|y|];
  }

  /** When `b` is a prefix of `a`, what follows position `m` in `a` is what follows it in `b`, then the rest of `a`. */
  lemma TailSplit<T>(a: seq<T>, b: seq<T>, m: nat)
    requires |b| <= |a| && a[..|b|] == b && m <= |b|
    ensures a[m..] == b[m..] + a[|b|..]
  {
  }

  /** Removing cells that all sit in `x` leaves whatever follows `x` untouched. */
  lemma {:induction false} KeptAppend(x: seq<Cell>, y: seq<Cell>, remove: set<nat>)
    requires forall r | r in remove :: r < |x|
    ensures Kept(x + y, remove) == Kept(x, remove) + y
  {
    if y != [] {
      var z := y[..|y| - 1];
      KeptAppend(x, z, remove);
      assert (x + y)[..|x + y| - 1] == x + z;
      assert |x + y| - 1 !in remove;
      assert (Kept(x, remove) + z) + [y[|y| - 1]] == Kept(x, remove) + y;
    } else {
      assert x + y == x;
    }
  }

  /**
   * After the walk and the removal, no `$sop` is left; every cell the walk
   * neither scheduled nor could rewire is still there; and every other cell
   * is a flip-flop or latch or of one of the new types.
   */
  lemma {:induction false} WalkResult(orig: seq<Cell>, cells: seq<Cell>, sigmap: SigBit -> SigBit)
    requires Evolved(orig, cells)
    ensures var kept := Kept(cells, Scheduled(orig, sigmap, NotIndex(orig, sigmap), |orig|));
      && (forall c | c in kept :: c.cellType != "$sop")
      && (forall k | 0 <= k < |orig| && orig[k].cellType !in SPECIAL_TYPES
            && k !in Scheduled(orig, sigmap, NotIndex(orig, sigmap), |orig|) :: orig[k] in kept)
      && (forall c | c in kept && c.cellType !in SPECIAL_TYPES && c.cellType !in NEW_TYPES :: c in orig)
  {
    var remove := Scheduled(orig, sigmap, NotIndex(orig, sigmap), |orig|);
    var kept := Kept(cells, remove);
    forall c | c in kept
      ensures c.cellType != "$sop"
      ensures c.cellType !in SPECIAL_TYPES && c.cellType !in NEW_TYPES ==> c in orig
    {
      KeptSpec(cells, remove, c);
      var k :| 0 <= k < |cells| && k !in remove && cells[k] == c;
      if k < |orig| {
        EvolvedSop(orig, cells, k);
        ScheduledSpec(orig, sigmap, |orig|, k);
        assert cells[..|orig|][k] == c;
      }
    }
    forall k | 0 <= k < |orig| && orig[k].cellType !in SPECIAL_TYPES && k !in remove
      ensures orig[k] in kept
    {
      assert cells[..|orig|][k] == cells[k];
      KeptSpec(cells, remove, orig[k]);
    }
  }

  // ---- the rewrite of one module ----

  /** The walk's state after the first `k` original cells, apart from the scheduled set. */
  ghost predicate WalkState(orig: seq<Cell>, w0: seq<Wire>, cells: seq<Cell>, wires: seq<Wire>, sigmap: SigBit -> SigBit,
                            nots: map<SigBit, (SigBit, nat)>, noInv: map<SigBit, seq<PTerm>>,
                            inv: map<SigBit, seq<PTerm>>, k: nat)
  {
    && k <= |orig| && Evolved(orig, cells)
    && |w0| <= |wires| && wires[..|w0|] == w0
    && PinsBelow(noInv, |orig|) && PinsBelow(inv, |orig|)
    && Expanded(orig, cells[|orig|..], wires[|w0|..], sigmap, nots, k)
    && Rewirings(orig, sigmap, nots, noInv, inv, wires[|w0|..], k) == Some(cells[..|orig|])
  }

  /**
   * The expansion of `$sop` cell `k` takes the walk from `before` to `cells`:
   * it stops exactly when the flip fails, and otherwise the state moves on by one.
   */
  lemma ExpandStep(orig: seq<Cell>, w0: seq<Wire>, before: seq<Cell>, wbefore: seq<Wire>, cells: seq<Cell>,
                   wires: seq<Wire>, sigmap: SigBit -> SigBit, nots: map<SigBit, (SigBit, nat)>,
                   noInv: map<SigBit, seq<PTerm>>, inv: map<SigBit, seq<PTerm>>, k: nat, ok: bool)
    requires IndexesOf(orig, nots, noInv, inv)
    requires k < |orig| && orig[k].cellType == "$sop"
    requires WalkState(orig, w0, before, wbefore, sigmap, nots, noInv, inv, k) && before[k] == orig[k]
    requires |wires| >= |wbefore| + Count(Param(orig[k], "\\DEPTH")) && |cells| >= |before|
    requires wires[..|wbefore|] == wbefore
    requires ok ==> Expands(cells[|before|..], wires[|wbefore|..], orig[k], sigmap, nots)
    requires var c := orig[k];
      var t := Target(c, sigmap, nots);
      var single := Param(c, "\\DEPTH") == 1 && (t in noInv || t in inv);
      && (ok <==> !single || RewireAll(before, Listed(inv, t), Listed(noInv, t), WireBit(wires[|wbefore|], 0),
                                       SopOutput(c, sigmap) in nots).Some?)
      && (ok ==> (cells[..|before|] ==
            if single then RewireAll(before, Listed(inv, t), Listed(noInv, t), WireBit(wires[|wbefore|], 0),
                                     SopOutput(c, sigmap) in nots).value
            else before))
    ensures ok <==> !FlipFails(orig, sigmap, nots, inv, k)
    ensures ok ==> WalkState(orig, w0, cells, wires, sigmap, nots, noInv, inv, k + 1)
  {
    var c := orig[k];
    var t := Target(c, sigmap, nots);
    FlipFailsWhen(orig, before, sigmap, nots, noInv, inv, k, WireBit(wires[|wbefore|], 0));
    if ok {
      if !(Param(c, "\\DEPTH") == 1 && (t in noInv || t in inv)) {
        assert cells[..|before|] == before;
      }
      ExpansionEvolves(orig, before, cells, wires[|wbefore|..], Canon(sigmap, GetPort(c, "\\A")),
                       ConstParam(c, "\\TABLE"), Param(c, "\\DEPTH"), Count(Param(c, "\\WIDTH")),
                       t, SopOutput(c, sigmap) in nots);
      assert wires[..|w0|] == wbefore[..|w0|];
      WalkStep(orig, w0, before, wbefore, cells, wires, sigmap, nots, noInv, inv, k);
    }
  }

  /**
   * One module while the pass runs: its cells (new ones appended), its wires,
   * the names in use for `uniquify`, and `cells_to_remove`.
   */
  class SopRewrite {
    var cells: seq<Cell>
    var wires: seq<Wire>
    var ids: set<string>
    var toRemove: set<nat>

    ghost predicate Valid()
      reads this
    {
      && (forall k | k in toRemove :: k < |cells|)
      && (forall i | 0 <= i < |wires| :: wires[i].name in ids)
      && (forall i | 0 <= i < |cells| :: cells[i].name in ids)
    }

    constructor (m: Module)
      ensures Valid()
      ensures cells == m.cells && wires == m.wires && toRemove == {}
      ensures ids == WireNames(m.wires) + CellNames(m.cells)
    {
      cells := m.cells;
      wires := m.wires;
      ids := WireNames(m.wires) + CellNames(m.cells);
      toRemove := {};
    }

    /** `module->addWire(module->uniquify(base))`: a fresh one-bit wire. */
    method AddWire(base: string) returns (w: Wire)
      requires Valid()
      modifies this
      ensures Valid()
      ensures w == Wire(w.name, 1, 0, false, false, None)
      ensures w.name !in old(ids) && (base !in old(ids) ==> w.name == base)
      ensures wires == old(wires) + [w] && ids == old(ids) + {w.name}
      ensures cells == old(cells) && toRemove == old(toRemove)
    {
      var name := Uniquify(ids, base);
      w := Wire(name, 1, 0, false, false, None);
      wires := wires + [w];
      ids := ids + {name};
    }

    /** `module->addCell(module->uniquify(base), type)` with its parameters and pins set. */
    method AddCell(base: string, cellType: string, params: map<string, int>, conns: seq<Conn>) returns (c: Cell)
      requires Valid()
      modifies this
      ensures Valid()
      ensures c == Cell(c.name, cellType, params, map[], conns)
      ensures c.name !in old(ids) && (base !in old(ids) ==> c.name == base)
      ensures cells == old(cells) + [c] && ids == old(ids) + {c.name}
      ensures wires == old(wires) && toRemove == old(toRemove)
    {
      var name := Uniquify(ids, base);
      c := Cell(name, cellType, params, map[], conns);
      cells := cells + [c];
      ids := ids + {name};
    }
  
    /** The loop that builds one ANDTERM per product term, each with its own output wire. */
    method BuildAndTerms(inputs: SigSpec, table: seq<State>, depth: nat, width: nat, wireName: string)
      returns (outs: seq<SigBit>)
      requires Valid()
      modifies this
      ensures Valid()
      ensures |outs| == depth && |wires| == |old(wires)| + depth && |cells| == |old(cells)| + depth
      ensures wires[..|old(wires)|] == old(wires) && cells[..|old(cells)|] == old(cells)
      ensures outs == Outs(wires[|old(wires)|..], depth)
      ensures forall i | 0 <= i < depth :: AndTerm(cells[|old(cells)| + i], outs[i], inputs, table, width, i)
      ensures forall i | |old(wires)| <= i < |wires| :: wires[i].name !in old(ids)
      ensures Distinct(outs)
      ensures toRemove == old(toRemove) && old(ids) <= ids
    {
      outs := [];
      ghost var w0, c0, ids0, tr0 := wires, cells, ids, toRemove;
      for i := 0 to depth
        invariant Valid() && AndTermsUpTo(w0, c0, ids0, tr0, i, outs, inputs, table, width)
      {
        outs := AddAndTerm(inputs, table, width, wireName, i, outs, w0, c0, ids0, tr0);
      }
      assert outs == Outs(wires[|w0|..], depth);
    }

    /** The first `i` ANDTERMs and their output wires were added after `w0` and `c0`. */
    ghost predicate AndTermsUpTo(w0: seq<Wire>, c0: seq<Cell>, ids0: set<string>, tr0: set<nat>, i: nat,
                                 outs: seq<SigBit>, inputs: SigSpec, table: seq<State>, width: nat)
      reads this
    {
      |outs| == i && |wires| == |w0| + i && |cells| == |c0| + i
      && wires[..|w0|] == w0 && cells[..|c0|] == c0
      && (forall a | 0 <= a < i :: outs[a] == WireBit(wires[|w0| + a], 0))
      && (forall a | |w0| <= a < |wires| :: wires[a].name !in ids0)
      && (forall a | |w0| <= a < |wires| :: wires[a].name in ids)
      && (forall a | 0 <= a < i :: AndTerm(cells[|c0| + a], outs[a], inputs, table, width, a))
      && Distinct(outs)
      && toRemove == tr0 && ids0 <= ids
    }

    /** One turn of the AND loop: product term `i`'s wire and ANDTERM. */
    method AddAndTerm(inputs: SigSpec, table: seq<State>, width: nat, wireName: string, i: nat, outs: seq<SigBit>,
                      ghost w0: seq<Wire>, ghost c0: seq<Cell>, ghost ids0: set<string>, ghost tr0: set<nat>)
      returns (outs': seq<SigBit>)
      requires Valid() && AndTermsUpTo(w0, c0, ids0, tr0, i, outs, inputs, table, width)
      modifies this
      ensures Valid() && AndTermsUpTo(w0, c0, ids0, tr0, i + 1, outs', inputs, table, width)
    {
      ghost var ids1, wires1, cells1 := ids, wires, cells;
      var w := AddWire("$xc2sop$" + wireName + "_AND" + IntToString(i) + "_OUT");
      var trueIns, compIns := DecodeTerm(inputs, table, width, i);
      var c := AddCell("$xc2sop$" + wireName + "_AND" + IntToString(i), "\\ANDTERM",
                       map["\\TRUE_INP" := |trueIns|, "\\COMP_INP" := |compIns|],
                       [Conn("\\OUT", [WireBit(w, 0)], false, true), Conn("\\IN", PoolSig(trueIns), true, false),
                        Conn("\\IN_B", PoolSig(compIns), true, false)]);
      forall a | 0 <= a < i
        ensures outs[a] != WireBit(w, 0)
      {
        assert wires1[|w0| + a].name in ids1;
      }
      outs' := outs + [WireBit(w, 0)];
      assert wires == wires1 + [w] && cells == cells1 + [c];
      assert AndTerm(c, WireBit(w, 0), inputs, table, width, i);
      forall a | |w0| <= a < |wires|
        ensures wires[a].name !in ids0 && wires[a].name in ids
      {
        if a < |wires1| {
          assert wires[a] == wires1[a];
        }
      }
      forall a | 0 <= a < i + 1
        ensures outs'[a] == WireBit(wires[|w0| + a], 0) && AndTerm(cells[|c0| + a], outs'[a], inputs, table, width, a)
      {
        if a < i {
          assert cells[|c0| + a] == cells1[|c0| + a] && wires[|w0| + a] == wires1[|w0| + a] && outs'[a] == outs[a];
        }
      }
      assert wires[..|wires1|] == wires1 && cells[..|cells1|] == cells1;
    }

    /** With one term, the XOR fed by it; otherwise an ORTERM over all terms and the XOR fed by the OR. */
    method BuildOutput(depth: int, outs: seq<SigBit>, target: SigBit, invert: bool, wireName: string)
      requires Valid() && |outs| == Count(depth)
      modifies this
      ensures Valid()
      ensures |wires| >= |old(wires)| && |cells| >= |old(cells)|
      ensures wires[..|old(wires)|] == old(wires) && cells[..|old(cells)|] == old(cells)
      ensures depth == 1 ==>
        && wires == old(wires) && |cells| == |old(cells)| + 1
        && XorCell(cells[|old(cells)|], "\\IN_PTC", outs[0], target, invert)
      ensures depth != 1 ==>
        && |wires| == |old(wires)| + 1 && |cells| == |old(cells)| + 2
        && wires[|old(wires)|].name !in old(ids)
        && OrTerm(cells[|old(cells)|], depth, outs, WireBit(wires[|old(wires)|], 0))
        && XorCell(cells[|old(cells)| + 1], "\\IN_ORTERM", WireBit(wires[|old(wires)|], 0), target, invert)
      ensures toRemove == old(toRemove) && old(ids) <= ids
    {
      var invertOut := if invert then 1 else 0;
      if depth == 1 {
        var xor := AddCell("$xc2sop$" + wireName + "_XOR", "\\MACROCELL_XOR", map["\\INVERT_OUT" := invertOut],
                           [Conn("\\IN_PTC", [outs[0]], true, false), Conn("\\OUT", [target], false, true)]);
      } else {
        var orToXor := AddWire("$xc2sop$" + wireName + "_OR_OUT");
        var orCell := AddCell("$xc2sop$" + wireName + "_OR", "\\ORTERM", map["\\WIDTH" := depth],
                              [Conn("\\IN", PoolSig(outs), true, false), Conn("\\OUT", [WireBit(orToXor, 0)], false, true)]);
        var xor := AddCell("$xc2sop$" + wireName + "_XOR", "\\MACROCELL_XOR", map["\\INVERT_OUT" := invertOut],
                           [Conn("\\IN_ORTERM", [WireBit(orToXor, 0)], true, false), Conn("\\OUT", [target], false, true)]);
      }
    }

    /** One list of special pins rewired to `bit`, with the polarity flip when `flip` holds. */
    method Rewire(pterms: seq<PTerm>, bit: SigBit, flip: bool) returns (ok: bool)
      requires Valid() && forall x | x in pterms :: x.0 < |cells|
      modifies this
      ensures ok <==> Rewired(old(cells), pterms, bit, flip).Some?
      ensures ok ==> cells == Rewired(old(cells), pterms, bit, flip).value
      ensures ok ==> Valid()
      ensures |cells| == |old(cells)|
      ensures wires == old(wires) && ids == old(ids) && toRemove == old(toRemove)
    {
      ghost var c0 := cells;
      for i := 0 to |pterms|
        invariant Rewired(c0, pterms[..i], bit, flip).Some?
        invariant cells == Rewired(c0, pterms[..i], bit, flip).value
        invariant |cells| == |c0|
        invariant wires == old(wires) && ids == old(ids) && toRemove == old(toRemove)
      {
        assert pterms[..i + 1][..i] == pterms[..i];
        var x := pterms[i];
        var c := SetPort(cells[x.0], x.1, [bit]);
        if flip {
          var t := FlipPolarity(c.cellType);
          if t.None? {
            RewiredFailStays(c0, pterms, i + 1, bit, flip);
            return false;
          }
          c := c.(cellType := t.value);
        }
        cells := cells[x.0 := c];
      }
      assert pterms[..|pterms|] == pterms;
      RewiredNames(c0, pterms, bit, flip);
      return true;
    }

    /** The ANDTERMs and the OR/XOR that replace one `$sop`, appended to the module. */
    method BuildReplacement(inputs: SigSpec, table: seq<State>, depth: int, width: nat, target: SigBit,
                            invert: bool, wireName: string) returns (outs: seq<SigBit>)
      requires Valid()
      modifies this
      ensures Valid()
      ensures |wires| >= |old(wires)| + Count(depth) && |cells| >= |old(cells)|
      ensures wires[..|old(wires)|] == old(wires) && cells[..|old(cells)|] == old(cells)
      ensures forall i | |old(wires)| <= i < |wires| :: wires[i].name !in old(ids)
      ensures SopExpansion(cells[|old(cells)|..], wires[|old(wires)|..], inputs, table, depth, width, target, invert)
      ensures |outs| == Count(depth) && (depth == 1 ==> outs[0] == WireBit(wires[|old(wires)|], 0))
      ensures toRemove == old(toRemove)
    {
      var n := Count(depth);
      ghost var w0, c0 := wires, cells;
      outs := BuildAndTerms(inputs, table, n, width, wireName);
      ghost var w1, c1 := wires, cells;
      BuildOutput(depth, outs, target, invert, wireName);
      ghost var addC, addW := cells[|c0|..], wires[|w0|..];
      forall i | 0 <= i < n
        ensures AndTerm(addC[i], WireBit(addW[i], 0), inputs, table, width, i)
      {
        assert addC[i] == c1[|c0| + i];
        assert outs[i] == Outs(w1[|w0|..], n)[i] == WireBit(w1[|w0| + i], 0);
        assert addW[i] == w1[|w0| + i];
      }
      if depth != 1 {
        assert addW[n] == wires[|w1|];
        assert Outs(addW, n) == outs;
        assert addC[n] == cells[|c1|] && addC[n + 1] == cells[|c1| + 1];
      } else {
        assert addC[n] == cells[|c1|];
      }
    }

    /**
     * The depth-1 rewiring of the cells before `n`, the cells from `n` on
     * being the ones just added: C and G pins always, PRE, CLR and CE only
     * when the term is not inverted.
     */
    method RewireSpecial(n: nat, invPins: seq<PTerm>, noInvPins: seq<PTerm>, bit: SigBit, invert: bool) returns (ok: bool)
      requires Valid() && n <= |cells|
      requires forall x | x in invPins :: x.0 < n
      requires forall x | x in noInvPins :: x.0 < n
      modifies this
      ensures ok <==> RewireAll(old(cells)[..n], invPins, noInvPins, bit, invert).Some?
      ensures ok ==> cells == RewireAll(old(cells)[..n], invPins, noInvPins, bit, invert).value + old(cells)[n..]
      ensures ok ==> Valid()
      ensures |cells| == |old(cells)|
      ensures wires == old(wires) && ids == old(ids) && toRemove == old(toRemove)
    {
      RewiredPrefix(cells, n, invPins, bit, invert);
      ok := Rewire(invPins, bit, invert);
      if !ok {
        return;
      }
      if !invert {
        ghost var c1 := cells;
        var cs := Rewired(old(cells)[..n], invPins, bit, invert).value;
        assert c1[..n] == cs && c1[n..] == old(cells)[n..];
        RewiredPrefix(c1, n, noInvPins, bit, false);
        ok := Rewire(noInvPins, bit, false);
      }
    }

    /**
     * The replacement of one `$sop` with its target already known: build the
     * new cells, then with a single term rewire the special pins `target` feeds.
     */
    method Replace(inputs: SigSpec, table: seq<State>, depth: int, width: nat, target: SigBit, invert: bool,
                   wireName: string, invPins: seq<PTerm>, noInvPins: seq<PTerm>, isSpecial: bool) returns (ok: bool)
      requires Valid()
      requires forall x | x in invPins :: x.0 < |cells|
      requires forall x | x in noInvPins :: x.0 < |cells|
      modifies this
      ensures |wires| >= |old(wires)| + Count(depth) && |cells| >= |old(cells)|
      ensures wires[..|old(wires)|] == old(wires)
      ensures forall i | |old(wires)| <= i < |wires| :: wires[i].name !in old(ids)
      ensures toRemove == old(toRemove)
      ensures ok ==> Valid()
      ensures ok ==> SopExpansion(cells[|old(cells)|..], wires[|old(wires)|..], inputs, table, depth, width, target, invert)
      ensures var single := depth == 1 && isSpecial;
        && (ok <==> !single || RewireAll(old(cells), invPins, noInvPins, WireBit(wires[|old(wires)|], 0), invert).Some?)
        && (ok ==> (cells[..|old(cells)|] ==
              if single then RewireAll(old(cells), invPins, noInvPins, WireBit(wires[|old(wires)|], 0), invert).value
              else old(cells)))
    {
      var n := |cells|;
      var outs := BuildReplacement(inputs, table, depth, width, target, invert, wireName);
      ghost var built := cells[n..];
      ok := true;
      if depth == 1 && isSpecial {
        assert cells[..n] == old(cells);
        ok := RewireSpecial(n, invPins, noInvPins, outs[0], invert);
        if !ok {
          return;
        }
      }
      assert cells[n..] == built;
    }

    /** A NOT cell reading the `$sop` output is folded: its output becomes the target, and it is scheduled for removal. */
    method FoldNot(cell: Cell, sigmap: SigBit -> SigBit, nots: map<SigBit, (SigBit, nat)>) returns (output: SigBit, hasInvert: bool)
      requires Valid() && forall b | b in nots :: nots[b].1 < |cells|
      modifies this
      ensures Valid() && cells == old(cells) && wires == old(wires) && ids == old(ids)
      ensures output == Target(cell, sigmap, nots) && hasInvert == (SopOutput(cell, sigmap) in nots)
      ensures toRemove == old(toRemove) + if hasInvert then {nots[SopOutput(cell, sigmap)].1} else {}
    {
      output := sigmap(Bit0(GetPort(cell, "\\Y")));
      hasInvert := false;
      if output in nots {
        var notCell := nots[output];
        hasInvert := true;
        output := notCell.0;
        toRemove := toRemove + {notCell.1};
      }
    }

    /**
     * One `$sop` cell, cell `k`: fold a NOT on its output, build the ANDTERMs
     * and the OR/XOR, rewire special pins for a single term, and schedule the
     * `$sop` (and the NOT) for removal.
     */
    method ExpandSop(k: nat, sigmap: SigBit -> SigBit, nots: map<SigBit, (SigBit, nat)>,
                     noInv: map<SigBit, seq<PTerm>>, inv: map<SigBit, seq<PTerm>>) returns (ok: bool)
      requires Valid() && k < |cells|
      requires forall b | b in nots :: nots[b].1 < |cells|
      requires forall b | b in inv :: forall x | x in inv[b] :: x.0 < |cells|
      requires forall b | b in noInv :: forall x | x in noInv[b] :: x.0 < |cells|
      modifies this
      ensures var c := old(cells)[k];
        |wires| >= |old(wires)| + Count(Param(c, "\\DEPTH")) && |cells| >= |old(cells)|
      ensures wires[..|old(wires)|] == old(wires)
      ensures forall i | |old(wires)| <= i < |wires| :: wires[i].name !in old(ids)
      ensures ok ==> Valid()
      ensures ok ==> toRemove == old(toRemove) + Removed(k, old(cells)[k], sigmap, nots)
      ensures ok ==> Expands(cells[|old(cells)|..], wires[|old(wires)|..], old(cells)[k], sigmap, nots)
      ensures var c := old(cells)[k];
        var t := Target(c, sigmap, nots);
        var single := Param(c, "\\DEPTH") == 1 && (t in noInv || t in inv);
        && (ok <==> !single || RewireAll(old(cells), Listed(inv, t), Listed(noInv, t), WireBit(wires[|old(wires)|], 0), SopOutput(c, sigmap) in nots).Some?)
        && (ok ==> (cells[..|old(cells)|] ==
              if single then RewireAll(old(cells), Listed(inv, t), Listed(noInv, t), WireBit(wires[|old(wires)|], 0), SopOutput(c, sigmap) in nots).value
              else old(cells)))
    {
      var cell := cells[k];
      var inputs := Canon(sigmap, GetPort(cell, "\\A"));
      var sopOut := sigmap(Bit0(GetPort(cell, "\\Y")));
      var depth := Param(cell, "\\DEPTH");
      var width := Count(Param(cell, "\\WIDTH"));
      var table := ConstParam(cell, "\\TABLE");
      var wireName := if sopOut.WireBit? then sopOut.wire.name else "";
      var output, hasInvert := FoldNot(cell, sigmap, nots);
      assert toRemove + {k} == old(toRemove) + Removed(k, cell, sigmap, nots);
      ok := Replace(inputs, table, depth, width, output, hasInvert, wireName, Listed(inv, output), Listed(noInv, output),
                    output in noInv || output in inv);
      if !ok {
        return;
      }
      toRemove := toRemove + {k};
    }

    /** The walk has reached cell `k` of `orig`, the cell list it started from. */
    ghost predicate Progress(orig: seq<Cell>, w0: seq<Wire>, sigmap: SigBit -> SigBit, nots: map<SigBit, (SigBit, nat)>,
                             noInv: map<SigBit, seq<PTerm>>, inv: map<SigBit, seq<PTerm>>, k: nat)
      reads this
    {
      && Valid() && WalkState(orig, w0, cells, wires, sigmap, nots, noInv, inv, k)
      && toRemove == Scheduled(orig, sigmap, nots, k)
    }

    /** A cell that is not a `$sop` neither schedules anything nor stops the walk. */
    lemma SkipStep(orig: seq<Cell>, w0: seq<Wire>, sigmap: SigBit -> SigBit, nots: map<SigBit, (SigBit, nat)>,
                   noInv: map<SigBit, seq<PTerm>>, inv: map<SigBit, seq<PTerm>>, k: nat)
      requires k < |orig| && orig[k].cellType != "$sop" && Progress(orig, w0, sigmap, nots, noInv, inv, k)
      requires !FlipFailsBelow(orig, sigmap, nots, inv, k)
      ensures Progress(orig, w0, sigmap, nots, noInv, inv, k + 1) && !FlipFailsBelow(orig, sigmap, nots, inv, k + 1)
    {
      assert Scheduled(orig, sigmap, nots, k + 1) == Scheduled(orig, sigmap, nots, k);
    }

    /** One turn of the walk: cell `k` is a `$sop` and is expanded. */
    method Step(ghost orig: seq<Cell>, ghost w0: seq<Wire>, k: nat, sigmap: SigBit -> SigBit, nots: map<SigBit, (SigBit, nat)>,
                noInv: map<SigBit, seq<PTerm>>, inv: map<SigBit, seq<PTerm>>) returns (ok: bool)
      requires IndexesOf(orig, nots, noInv, inv)
      requires k < |orig| && orig[k].cellType == "$sop" && Progress(orig, w0, sigmap, nots, noInv, inv, k)
      modifies this
      ensures ok <==> !FlipFails(orig, sigmap, nots, inv, k)
      ensures ok ==> Progress(orig, w0, sigmap, nots, noInv, inv, k + 1)
    {
      ghost var before, wbefore := cells, wires;
      EvolvedSop(orig, cells, k);
      ok := ExpandSop(k, sigmap, nots, noInv, inv);
      ExpandStep(orig, w0, before, wbefore, cells, wires, sigmap, nots, noInv, inv, k, ok);
    }


    /** One turn of the walk over the original cells: a `$sop` is expanded, anything else is passed over. */
    method Visit(ghost orig: seq<Cell>, ghost w0: seq<Wire>, k: nat, sigmap: SigBit -> SigBit,
                 nots: map<SigBit, (SigBit, nat)>, noInv: map<SigBit, seq<PTerm>>, inv: map<SigBit, seq<PTerm>>)
      returns (ok: bool)
      requires IndexesOf(orig, nots, noInv, inv)
      requires k < |orig| && Progress(orig, w0, sigmap, nots, noInv, inv, k) && !FlipFailsBelow(orig, sigmap, nots, inv, k)
      modifies this
      ensures ok <==> !FlipFailsBelow(orig, sigmap, nots, inv, k + 1)
      ensures ok ==> Progress(orig, w0, sigmap, nots, noInv, inv, k + 1)
    {
      EvolvedSop(orig, cells, k);
      FlipFailsNext(orig, sigmap, nots, inv, k);
      if cells[k].cellType == "$sop" {
        ok := Step(orig, w0, k, sigmap, nots, noInv, inv);
      } else {
        SkipStep(orig, w0, sigmap, nots, noInv, inv, k);
        ok := true;
      }
    }

    /**
     * The walk over one module: index the NOT cells and the special pins, then
     * expand every `$sop` among the cells present before the walk. It stops at
     * the first inverted single term on a pin whose polarity cannot flip.
     */
    method Process(sigmap: SigBit -> SigBit) returns (ok: bool)
      requires Valid() && toRemove == {}
      modifies this
      ensures ok <==> !FlipFailsBelow(old(cells), sigmap, NotIndex(old(cells), sigmap), PinIndex(old(cells), INV_PORTS, sigmap), |old(cells)|)
      ensures ok ==> Progress(old(cells), old(wires), sigmap, NotIndex(old(cells), sigmap),
                              PinIndex(old(cells), NO_INV_PORTS, sigmap), PinIndex(old(cells), INV_PORTS, sigmap), |old(cells)|)
    {
      ghost var orig, w0 := cells, wires;
      var nots := IndexNots(cells, sigmap);
      var noInv, inv := IndexPins(cells, sigmap);
      IndexesSound(cells, sigmap);
      assert cells[..|orig|] == orig;
      assert Progress(orig, w0, sigmap, nots, noInv, inv, 0);
      ok := Walk(orig, w0, sigmap, nots, noInv, inv);
    }

    /** The loop of the walk: `Visit` on each original cell in turn, until one stops it. */
    method Walk(ghost orig: seq<Cell>, ghost w0: seq<Wire>, sigmap: SigBit -> SigBit,
                nots: map<SigBit, (SigBit, nat)>, noInv: map<SigBit, seq<PTerm>>, inv: map<SigBit, seq<PTerm>>)
      returns (ok: bool)
      requires IndexesOf(orig, nots, noInv, inv) && Progress(orig, w0, sigmap, nots, noInv, inv, 0) && |cells| == |orig|
      modifies this
      ensures ok <==> !FlipFailsBelow(orig, sigmap, nots, inv, |orig|)
      ensures ok ==> Progress(orig, w0, sigmap, nots, noInv, inv, |orig|)
    {
      var n := |cells|;
      var k := 0;
      ok := true;
      while k < n
        invariant k <= n == |orig|
        invariant Progress(orig, w0, sigmap, nots, noInv, inv, k) && !FlipFailsBelow(orig, sigmap, nots, inv, k)
      {
        ok := Visit(orig, w0, k, sigmap, nots, noInv, inv);
        if !ok {
          FlipFailsGrows(orig, sigmap, nots, inv, k + 1, |orig|);
          return;
        }
        k := k + 1;
      }
    }

    /** `module->remove` of every scheduled cell, once the walk is over. */
    method RemoveScheduled()
      modifies this
      ensures cells == Kept(old(cells), old(toRemove))
      ensures wires == old(wires) && ids == old(ids) && toRemove == {}
    {
      var kept := [];
      for k := 0 to |cells|
        invariant kept == Kept(cells[..k], toRemove)
      {
        assert cells[..k + 1][..k] == cells[..k];
        if k !in toRemove {
          kept := kept + [cells[k]];
        }
      }
      assert cells[..|cells|] == cells;
      cells := kept;
      toRemove := {};
    }
  }

  /** Once the flip fails, a longer list fails too. */
  lemma {:induction false} RewiredFailStays(cells: seq<Cell>, pterms: seq<PTerm>, n: nat, bit: SigBit, flip: bool)
    requires forall x | x in pterms :: x.0 < |cells|
    requires n <= |pterms| && Rewired(cells, pterms[..n], bit, flip).None?
    ensures Rewired(cells, pterms, bit, flip).None?
    decreases |pterms| - n
  {
    if n < |pterms| {
      assert pterms[..n + 1][..n] == pterms[..n];
      RewiredFailStays(cells, pterms, n + 1, bit, flip);
    } else {
      assert pterms[..n] == pterms;
    }
  }

  /** Rewiring keeps every cell's name. */
  lemma {:induction false} RewiredNames(cells: seq<Cell>, pterms: seq<PTerm>, bit: SigBit, flip: bool)
    requires forall x | x in pterms :: x.0 < |cells|
    requires Rewired(cells, pterms, bit, flip).Some?
    ensures forall j | 0 <= j < |cells| :: Rewired(cells, pterms, bit, flip).value[j].name == cells[j].name
  {
    if pterms != [] {
      var q := pterms[..|pterms| - 1];
      var x := pterms[|pterms| - 1];
      RewiredNames(cells, q, bit, flip);
      var cs := Rewired(cells, q, bit, flip).value;
      SetPortReads(cs[x.0], x.1, [bit], x.1);
    }
  }

  /** Rewiring cells below `n` leaves the cells from `n` on as they are. */
  lemma {:induction false} RewiredPrefix(cells: seq<Cell>, n: nat, pterms: seq<PTerm>, bit: SigBit, flip: bool)
    requires n <= |cells| && forall x | x in pterms :: x.0 < n
    ensures Rewired(cells, pterms, bit, flip).Some? <==> Rewired(cells[..n], pterms, bit, flip).Some?
    ensures Rewired(cells, pterms, bit, flip).Some? ==>
      Rewired(cells, pterms, bit, flip).value == Rewired(cells[..n], pterms, bit, flip).value + cells[n..]
  {
    if pterms != [] {
      var q := pterms[..|pterms| - 1];
      var x := pterms[|pterms| - 1];
      RewiredPrefix(cells, n, q, bit, flip);
      if Rewired(cells, q, bit, flip).Some? {
        var cs := Rewired(cells, q, bit, flip).value;
        var ps := Rewired(cells[..n], q, bit, flip).value;
        assert cs[x.0] == ps[x.0];
        var c := SetPort(cs[x.0], x.1, [bit]);
        assert cs[x.0 := c] == ps[x.0 := c] + cells[n..];
        if flip && FlipPolarity(c.cellType).Some? {
          assert cs[x.0 := c.(cellType := FlipPolarity(c.cellType).value)]
              == ps[x.0 := c.(cellType := FlipPolarity(c.cellType).value)] + cells[n..];
        }
      }
    }
  }

  // ---- the pass ----

  /** The walk over module `m` stops with "Internal error! Bad cell type!". */
  predicate SopFails(m: Module, sigmap: SigBit -> SigBit)
  {
    FlipFailsBelow(m.cells, sigmap, NotIndex(m.cells, sigmap), PinIndex(m.cells, INV_PORTS, sigmap), |m.cells|)
  }

  /**
   * `after` is the cells `orig` as the depth-1 rewirings left them, less the
   * scheduled ones, followed by the expansions of every `$sop` in order, whose
   * wires are `addedWires`.
   */
  ghost predicate Replaced(orig: seq<Cell>, after: seq<Cell>, addedWires: seq<Wire>, sigmap: SigBit -> SigBit)
  {
    var nots := NotIndex(orig, sigmap);
    var noInv, inv := PinIndex(orig, NO_INV_PORTS, sigmap), PinIndex(orig, INV_PORTS, sigmap);
    && PinsBelow(noInv, |orig|) && PinsBelow(inv, |orig|)
    && (var rewired := Rewirings(orig, sigmap, nots, noInv, inv, addedWires, |orig|);
        && rewired.Some?
        && (var kept := Kept(rewired.value, Scheduled(orig, sigmap, nots, |orig|));
            && |kept| <= |after| && after[..|kept|] == kept
            && Expanded(orig, after[|kept|..], addedWires, sigmap, nots, |orig|)))
  }

  /** `after` is module `before` once the pass is through with it. */
  ghost predicate Rewritten(before: Module, after: Module, sigmap: SigBit -> SigBit)
  {
    var remove := Scheduled(before.cells, sigmap, NotIndex(before.cells, sigmap), |before.cells|);
    && after == before.(wires := after.wires, cells := after.cells)
    && |before.wires| <= |after.wires| && after.wires[..|before.wires|] == before.wires
    && Replaced(before.cells, after.cells, after.wires[|before.wires|..], sigmap)
    && (forall c | c in after.cells :: c.cellType != "$sop")
    && (forall k | 0 <= k < |before.cells| && before.cells[k].cellType !in SPECIAL_TYPES && k !in remove ::
          before.cells[k] in after.cells)
    && (forall c | c in after.cells && c.cellType !in SPECIAL_TYPES && c.cellType !in NEW_TYPES :: c in before.cells)
  }

  /** The removal after the walk: the original cells lose the scheduled ones, the appended cells all stay. */
  lemma RemovalKeepsAdded(orig: seq<Cell>, walked: seq<Cell>, sigmap: SigBit -> SigBit)
    requires |orig| <= |walked|
    ensures var remove := Scheduled(orig, sigmap, NotIndex(orig, sigmap), |orig|);
      Kept(walked, remove) == Kept(walked[..|orig|], remove) + walked[|orig|..]
  {
    var remove := Scheduled(orig, sigmap, NotIndex(orig, sigmap), |orig|);
    forall r | r in remove
      ensures r < |orig|
    {
      ScheduledSpec(orig, sigmap, |orig|, r);
    }
    KeptSplit(walked, |orig|, remove);
  }

  lemma KeptSplit(cells: seq<Cell>, n: nat, remove: set<nat>)
    requires n <= |cells| && forall r | r in remove :: r < n
    ensures Kept(cells, remove) == Kept(cells[..n], remove) + cells[n..]
  {
    assert cells == cells[..n] + cells[n..];
    KeptAppend(cells[..n], cells[n..], remove);
  }

  /** One module: the walk, then the removal; `None` when the walk stops. */
  method RewriteModule(m: Module, sigmap: SigBit -> SigBit) returns (r: Option<Module>)
    ensures r.None? <==> SopFails(m, sigmap)
    ensures r.Some? ==> Rewritten(m, r.value, sigmap)
  {
    var rw := new SopRewrite(m);
    var ok := rw.Process(sigmap);
    if !ok {
      return None;
    }
    ghost var walked := rw.cells;
    rw.RemoveScheduled();
    WalkResult(m.cells, walked, sigmap);
    RemovalKeepsAdded(m.cells, walked, sigmap);
    r := Some(m.(wires := rw.wires, cells := rw.cells));
  }

  /** Some cell of `cells` lacks a bit, parameter or `TABLE` entry the pass reads. */
  predicate UnreadableCells(cells: seq<Cell>, sigmap: SigBit -> SigBit)
  {
    cells != [] && (UnreadableCells(cells[..|cells| - 1], sigmap) || !Readable(cells[|cells| - 1], sigmap))
  }

  /** The recursive test finds exactly the cells whose reads throw. */
  lemma {:induction false} UnreadableCellsSpec(cells: seq<Cell>, sigmap: SigBit -> SigBit)
    ensures UnreadableCells(cells, sigmap) <==> exists c | c in cells :: !Readable(c, sigmap)
  {
    if cells != [] {
      var init := cells[..|cells| - 1];
      UnreadableCellsSpec(init, sigmap);
      assert cells == init + [cells[|cells| - 1]];
    }
  }

  /** Some cell of `m` lacks a bit, parameter or `TABLE` entry the pass reads: the read throws. */
  predicate Unreadable(m: Module, sigmap: SigBit -> SigBit)
  {
    UnreadableCells(m.cells, sigmap)
  }

  /** Module `m` aborts the pass, by a read that throws or by a walk that stops. */
  predicate ModuleStops(m: Module, sigmap: SigBit -> SigBit)
  {
    Unreadable(m, sigmap) || SopFails(m, sigmap)
  }

  const BAD_CELL_TYPE := "Internal error! Bad cell type!"
  const OUT_OF_RANGE := "out of range"

  /** One module of the pass: its rewrite, or the message it stops the pass with. */
  method RewriteOrStop(m: Module, sigmap: SigBit -> SigBit) returns (r: Result<Module>)
    ensures r.Fatal? <==> ModuleStops(m, sigmap)
    ensures r.Fatal? ==> r.message == StopMessage(m, sigmap)
    ensures r.Ok? ==> Rewritten(m, r.value, sigmap)
  {
    if Unreadable(m, sigmap) {
      return Fatal(OUT_OF_RANGE);
    }
    var rewritten := RewriteModule(m, sigmap);
    if rewritten.None? {
      return Fatal(BAD_CELL_TYPE);
    }
    r := Ok(rewritten.value);
  }

  /** The first of the first `n` modules that stops the pass, if any. */
  ghost function FirstStop(modules: seq<Module>, sigmaps: Module -> (SigBit -> SigBit), n: nat): (r: Option<nat>)
    requires n <= |modules|
    ensures r.Some? ==> r.value < n
  {
    if n == 0 then None
    else if FirstStop(modules, sigmaps, n - 1).Some? then FirstStop(modules, sigmaps, n - 1)
    else if ModuleStops(modules[n - 1], sigmaps(modules[n - 1])) then Some(n - 1)
    else None
  }

  /** `FirstStop` finds a module exactly when one stops the pass, and then the first such. */
  lemma {:induction false} FirstStopSpec(modules: seq<Module>, sigmaps: Module -> (SigBit -> SigBit), n: nat)
    requires n <= |modules|
    ensures FirstStop(modules, sigmaps, n).None? <==> forall j | 0 <= j < n :: !ModuleStops(modules[j], sigmaps(modules[j]))
    ensures FirstStop(modules, sigmaps, n).Some? ==>
      && ModuleStops(modules[FirstStop(modules, sigmaps, n).value], sigmaps(modules[FirstStop(modules, sigmaps, n).value]))
      && forall j | 0 <= j < FirstStop(modules, sigmaps, n).value :: !ModuleStops(modules[j], sigmaps(modules[j]))
  {
    if n > 0 {
      FirstStopSpec(modules, sigmaps, n - 1);
    }
  }

  /** Once a module has stopped the pass, later modules do not change which one it was. */
  lemma {:induction false} FirstStopAfter(modules: seq<Module>, sigmaps: Module -> (SigBit -> SigBit), n: nat, m: nat)
    requires n <= m <= |modules| && FirstStop(modules, sigmaps, n).Some?
    ensures FirstStop(modules, sigmaps, m) == FirstStop(modules, sigmaps, n)
  {
    if m > n {
      FirstStopAfter(modules, sigmaps, n, m - 1);
    }
  }

  /** The message the pass stops with at module `m`. */
  function StopMessage(m: Module, sigmap: SigBit -> SigBit): string
  {
    if Unreadable(m, sigmap) then OUT_OF_RANGE else BAD_CELL_TYPE
  }

  /** The first `n` modules went through the pass without stopping it, giving `out`. */
  ghost predicate RanThrough(modules: seq<Module>, sigmaps: Module -> (SigBit -> SigBit), out: seq<Module>, n: nat)
    requires n <= |modules|
  {
    && |out| == n
    && FirstStop(modules, sigmaps, n).None?
    && forall j | 0 <= j < n :: Rewritten(modules[j], out[j], sigmaps(modules[j]))
  }

  /** One turn of the loop over the modules: module `i` is rewritten, or stops the pass. */
  method RewriteNext(modules: seq<Module>, sigmaps: Module -> (SigBit -> SigBit), i: nat, out: seq<Module>)
    returns (r: Result<seq<Module>>)
    requires i < |modules| && RanThrough(modules, sigmaps, out, i)
    ensures r.Fatal? ==> FirstStop(modules, sigmaps, i + 1) == Some(i) && r.message == StopMessage(modules[i], sigmaps(modules[i]))
    ensures r.Ok? ==> RanThrough(modules, sigmaps, r.value, i + 1)
  {
    var step := RewriteOrStop(modules[i], sigmaps(modules[i]));
    if step.Fatal? {
      return Fatal(step.message);
    }
    r := Ok(out + [step.value]);
    assert forall j | 0 <= j < i :: r.value[j] == out[j];
  }

  /**
   * The loop over the modules: each module is rewritten in turn under its own
   * `SigMap`, `sigmaps(m)`, and the pass aborts at the first module that stops
   * it, with that module's message.
   */
  method RewriteAll(design: Design, sigmaps: Module -> (SigBit -> SigBit)) returns (r: Result<Design>)
    ensures r.Fatal? <==> FirstStop(design.modules, sigmaps, |design.modules|).Some?
    ensures r.Fatal? ==> (var i := FirstStop(design.modules, sigmaps, |design.modules|).value;
                          r.message == StopMessage(design.modules[i], sigmaps(design.modules[i])))
    ensures r.Ok? ==> |r.value.modules| == |design.modules| && r.value.designatedTop == design.designatedTop
    ensures r.Ok? ==> forall i | 0 <= i < |design.modules| :: Rewritten(design.modules[i], r.value.modules[i], sigmaps(design.modules[i]))
  {
    var modules := [];
    for i := 0 to |design.modules|
      invariant RanThrough(design.modules, sigmaps, modules, i)
    {
      var step := RewriteNext(design.modules, sigmaps, i, modules);
      if step.Fatal? {
        FirstStopAfter(design.modules, sigmaps, i + 1, |design.modules|);
        return Fatal(step.message);
      }
      modules := step.value;
    }
    r := Ok(design.(modules := modules));
  }

  /**
   * `coolrunner2_sop`: `extra_args` rejects any argument that starts with `-`,
   * since the pass takes no options; then every module is rewritten.
   */
  method Execute(args: seq<string>, design: Design, sigmaps: Module -> (SigBit -> SigBit)) returns (r: Result<Design>)
    ensures UnknownOption(args, 1) ==> r == Fatal(UNKNOWN_OPTION)
    ensures !UnknownOption(args, 1) ==> (r.Fatal? <==> FirstStop(design.modules, sigmaps, |design.modules|).Some?)
    ensures !UnknownOption(args, 1) && r.Fatal? ==>
      (var i := FirstStop(design.modules, sigmaps, |design.modules|).value;
       r.message == StopMessage(design.modules[i], sigmaps(design.modules[i])))
    ensures r.Ok? ==> |r.value.modules| == |design.modules| && r.value.designatedTop == design.designatedTop
    ensures r.Ok? ==> forall i | 0 <= i < |design.modules| :: Rewritten(design.modules[i], r.value.modules[i], sigmaps(design.modules[i]))
  {
    if UnknownOption(args, 1) {
      return Fatal(UNKNOWN_OPTION);
    }
    r := RewriteAll(design, sigmaps);
  }
}
