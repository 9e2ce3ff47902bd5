/**
 * The per-cell lowering rules of the FIRRTL backend (backends/firrtl/firrtl.cc),
 * as functions from the operand expressions and the cell's parameters to the
 * expression the backend writes.
 */
module FirrtlCells {
  import opened Text
  import opened Wrappers
  import opened Netlist
  import opened FirrtlNames
  import opened FirrtlExpr

  /** `FIRRTL_MAX_DSH_WIDTH_ERROR`: one more than the widest shift amount allowed. */
  const MaxDshWidthError: int := 20

  function Pow2(n: nat): (r: nat)
    ensures r >= 1
  {
    if n == 0 then 1 else 2 * Pow2(n - 1)
  }

  predicate Wraps(e: Expr, name: string)
  {
    e.Op? && e.name == name && |e.args| == 1
  }

  /** Whether the operation `name` occurs anywhere in `e`. */
  predicate Mentions(e: Expr, name: string)
  {
    match e
    case Atom(_) => false
    case Op(n, args) => n == name || exists i | 0 <= i < |args| :: Mentions(args[i], name)
  }

  /** What `make_expr` can produce: a name or literal, a `bits` slice, a `cat`. */
  predicate Plain(e: Expr)
  {
    match e
    case Atom(_) => true
    case Op(n, args) => (n == "bits" || n == "cat") && forall i | 0 <= i < |args| :: Plain(args[i])
  }

  // ---- gen_dshl ----

  /** `gen_dshl`: clamps a dynamic left-shift amount wider than 19 bits to 2^19 - 1. */
  function GenDshl(b: Expr, bPaddedWidth: int): Expr
  {
    if bPaddedWidth >= MaxDshWidthError then
      var maxShiftWidthBits := MaxDshWidthError - 1;
      var maxShift := Atom("UInt<" + IntToString(maxShiftWidthBits) + ">(" + IntToString(Pow2(maxShiftWidthBits) - 1) + ")");
      Op("mux", [Op("gt", [b, maxShift]), maxShift, Bits(b, maxShiftWidthBits - 1, 0)])
    else b
  }

  lemma Pow2Of19()
    ensures Pow2(19) == 524288
  {
    assert Pow2(4) == 16;
    assert Pow2(8) == 256;
    assert Pow2(12) == 4096;
    assert Pow2(16) == 65536;
  }

  lemma Decimal524287()
    ensures IntToString(524287) == "524287"
  {
    assert NatToString(5) == "5";
    assert NatToString(52) == "52";
    assert NatToString(524) == "524";
    assert NatToString(5242) == "5242";
    assert NatToString(52428) == "52428";
    assert NatToString(524287) == "524287";
  }

  /** The literal of the largest amount a 19-bit `dshl` accepts. */
  lemma ClampAtom()
    ensures "UInt<" + IntToString(MaxDshWidthError - 1) + ">(" + IntToString(Pow2(MaxDshWidthError - 1) - 1) + ")"
            == "UInt<19>(524287)"
  {
    Pow2Of19();
    Decimal524287();
    assert IntToString(19) == "19";
    assert "UInt<" + "19" + ">(" + "524287" + ")" == "UInt<19>(524287)";
  }

  /**
   * Below 20 bits the amount passes through; from 20 bits on it is clamped:
   * `mux(gt(b, UInt<19>(524287)), UInt<19>(524287), bits(b, 18, 0))`.
   */
  lemma GenDshlClamp(b: Expr, w: int)
    ensures w < 20 ==> GenDshl(b, w) == b
    ensures w >= 20 ==>
      var m := Atom("UInt<19>(524287)");
      GenDshl(b, w) == Op("mux", [Op("gt", [b, m]), m, Bits(b, 18, 0)])
  {
    if w >= 20 {
      ClampAtom();
    }
  }

  lemma MentionsOp1(n: string, x: Expr, p: string)
    ensures Mentions(Op(n, [x]), p) <==> n == p || Mentions(x, p)
  {
    assert [x][0] == x;
  }

  lemma MentionsOp2(n: string, x: Expr, y: Expr, p: string)
    ensures Mentions(Op(n, [x, y]), p) <==> n == p || Mentions(x, p) || Mentions(y, p)
  {
    assert [x, y][0] == x && [x, y][1] == y;
  }

  lemma MentionsOp3(n: string, x: Expr, y: Expr, z: Expr, p: string)
    ensures Mentions(Op(n, [x, y, z]), p) <==> n == p || Mentions(x, p) || Mentions(y, p) || Mentions(z, p)
  {
    assert [x, y, z][0] == x && [x, y, z][1] == y && [x, y, z][2] == z;
  }

  /** The clamp adds only `mux`, `gt` and `bits` around the amount. */
  lemma GenDshlMentions(b: Expr, w: int, p: string)
    requires p !in {"mux", "gt", "bits"}
    ensures Mentions(GenDshl(b, w), p) <==> Mentions(b, p)
  {
    if w >= MaxDshWidthError {
      var m := Atom("UInt<" + IntToString(19) + ">(" + IntToString(Pow2(19) - 1) + ")");
      MentionsOp2("gt", b, m, p);
      MentionsOp3("bits", b, IntAtom(18), IntAtom(0), p);
      MentionsOp3("mux", Op("gt", [b, m]), m, Bits(b, 18, 0), p);
    }
  }

  // ---- unary cells ----

  datatype UnaryOp = Not | LogicNot | Neg | ReduceAnd | ReduceOr | ReduceXor | ReduceBool | ReduceXnor

  function UnaryOpOf(t: string): Option<UnaryOp>
  {
    if t == "$not" then Some(Not)
    else if t == "$logic_not" then Some(LogicNot)
    else if t == "$neg" then Some(Neg)
    else if t == "$reduce_and" then Some(ReduceAnd)
    else if t == "$reduce_or" then Some(ReduceOr)
    else if t == "$reduce_xor" then Some(ReduceXor)
    else if t == "$reduce_bool" then Some(ReduceBool)
    else if t == "$reduce_xnor" then Some(ReduceXnor)
    else None
  }

  /** The cell types whose one-bit result does not drive padding. */
  const LogicResultTypes: set<string> :=
    {"$eq", "$eqx", "$gt", "$ge", "$lt", "$le", "$ne", "$nex", "$reduce_bool", "$logic_not"}

  /** The FIRRTL expression for a unary cell of type `t` (one of the eight unary types). */
  function UnaryExpr(t: string, a: Expr, aSigned: bool, aWidth: int, yWidth: int): Expr
    requires UnaryOpOf(t).Some?
  {
    var a1 := if aSigned then Op("asSInt", [a]) else a;
    var a2 := if !(t in LogicResultTypes && yWidth == 1) then Op("pad", [a1, IntAtom(yWidth)]) else a1;
    var e := match UnaryOpOf(t).value
      case Not => Op("not", [a2])
      case Neg => Op("neg", [a2])
      case LogicNot => Op("eq", [a2, Atom("UInt(0)")])
      case ReduceAnd => Op("andr", [a2])
      case ReduceOr => Op("orr", [a2])
      case ReduceXor => Op("xorr", [a2])
      case ReduceXnor => Op("not", [Op("xorr", [a2])])
      case ReduceBool => Op("neq", [a2, Atom((if aSigned then "SInt<" else "UInt<") + IntToString(aWidth) + ">(0)")]);
    if aSigned then Op("asUInt", [e]) else e
  }

  /** A unary result is cast back to unsigned exactly when the operand is signed. */
  lemma UnaryResultCast(t: string, a: Expr, aSigned: bool, aWidth: int, yWidth: int)
    requires UnaryOpOf(t).Some?
    ensures Wraps(UnaryExpr(t, a, aSigned, aWidth, yWidth), "asUInt") <==> aSigned
  {
  }

  /**
   * The operand as it reaches the primitive is cast to signed when signed and
   * padded to the result width, except for a one-bit `$logic_not` or
   * `$reduce_bool`; `$reduce_xnor` is `not(xorr(…))`, `$logic_not` compares with
   * `UInt(0)` and `$reduce_bool` with a zero of the operand's own sign and width.
   */
  lemma UnaryOperandShape(t: string, a: Expr, aSigned: bool, aWidth: int, yWidth: int)
    requires UnaryOpOf(t).Some?
    ensures var r := UnaryExpr(t, a, aSigned, aWidth, yWidth);
      var op := UnaryOpOf(t).value;
      var core := if aSigned then r.args[0] else r;
      var aCast := if aSigned then Op("asSInt", [a]) else a;
      var padded := !(op in {LogicNot, ReduceBool} && yWidth == 1);
      && core.Op? && |core.args| >= 1
      && (op == ReduceXnor ==> core.name == "not" && Wraps(core.args[0], "xorr"))
      && (op == LogicNot ==> core.name == "eq" && core.args[1..] == [Atom("UInt(0)")])
      && (op == ReduceBool ==>
            core.name == "neq" && core.args[1..] == [Atom((if aSigned then "SInt<" else "UInt<") + IntToString(aWidth) + ">(0)")])
      && (if op == ReduceXnor then core.args[0].args[0] else core.args[0])
         == (if padded then Op("pad", [aCast, IntAtom(yWidth)]) else aCast)
  {
    var r := UnaryExpr(t, a, aSigned, aWidth, yWidth);
    var core := if aSigned then r.args[0] else r;
    var aCast := if aSigned then Op("asSInt", [a]) else a;
    var a2 := if !(t in LogicResultTypes && yWidth == 1) then Op("pad", [aCast, IntAtom(yWidth)]) else aCast;
    assert t in LogicResultTypes <==> UnaryOpOf(t).value in {LogicNot, ReduceBool};
    match UnaryOpOf(t).value
    case LogicNot => assert core.args == [a2, Atom("UInt(0)")];
    case ReduceBool =>
      assert core.args == [a2, Atom((if aSigned then "SInt<" else "UInt<") + IntToString(aWidth) + ">(0)")];
    case _ =>
  }

  // ---- binary cells ----

  datatype BinaryOp = Add | Sub | Mul | Div | Mod | Xor | And | Or | Eq | Eqx | Gt | Ge | Lt | Le | Ne | Nex
                    | Shr | Sshr | Sshl | Shl | LogicAnd | LogicOr

  function BinaryOpOf(t: string): Option<BinaryOp>
  {
    if t == "$add" then Some(Add) else if t == "$sub" then Some(Sub)
    else if t == "$mul" then Some(Mul) else if t == "$div" then Some(Div)
    else if t == "$mod" then Some(Mod) else if t == "$xor" then Some(Xor)
    else if t == "$and" then Some(And) else if t == "$or" then Some(Or)
    else if t == "$eq" then Some(Eq) else if t == "$eqx" then Some(Eqx)
    else if t == "$gt" then Some(Gt) else if t == "$ge" then Some(Ge)
    else if t == "$lt" then Some(Lt) else if t == "$le" then Some(Le)
    else if t == "$ne" then Some(Ne) else if t == "$nex" then Some(Nex)
    else if t == "$shr" then Some(Shr) else if t == "$sshr" then Some(Sshr)
    else if t == "$sshl" then Some(Sshl) else if t == "$shl" then Some(Shl)
    else if t == "$logic_and" then Some(LogicAnd) else if t == "$logic_or" then Some(LogicOr)
    else None
  }

  predicate IsShift(op: BinaryOp) { op in {Shr, Sshr, Shl, Sshl} }

  predicate IsLeftShift(op: BinaryOp) { op in {Shl, Sshl} }

  /** The operations whose FIRRTL result is already unsigned (`always_uint`). */
  predicate AlwaysUint(op: BinaryOp)
  {
    op in {And, Or, Xor, Eq, Eqx, Ne, Nex, Gt, Ge, Lt, Le, LogicAnd, LogicOr}
  }

  function PrimOp(op: BinaryOp, bConst: bool): string
  {
    match op
    case Add => "add" case Sub => "sub" case Mul => "mul" case Div => "div" case Mod => "rem"
    case And => "and" case Or => "or" case Xor => "xor"
    case Eq => "eq" case Eqx => "eq" case Ne => "neq" case Nex => "neq"
    case Gt => "gt" case Ge => "geq" case Lt => "lt" case Le => "leq"
    case Shl => if bConst then "shl" else "dshl"
    case Sshl => if bConst then "shl" else "dshl"
    case Shr => if bConst then "shr" else "dshr"
    case Sshr => if bConst then "shr" else "dshr"
    case LogicAnd => "and" case LogicOr => "or"
  }

  /**
   * The FIRRTL expression for a binary cell. `bConst` is whether the B signal is
   * fully constant; `bWidth` is B_WIDTH.
   */
  function BinaryExpr(op: BinaryOp, a: Expr, b: Expr, aSigned: bool, bSigned: bool, bWidth: int, yWidth: int,
                      bConst: bool): Expr
  {
    var a1 := if aSigned then Op("asSInt", [a]) else a;
    var b1 := if !IsShift(op) && bSigned then Op("asSInt", [b]) else b;
    // the bump of b_padded_width for non-shifts never reaches gen_dshl, which only shifts call
    var bPaddedWidth := if !IsShift(op) && bWidth < yWidth then yWidth else bWidth;
    var a2 := if aSigned && op == Shr then Op("asUInt", [a1]) else a1;
    var a3 := if op in {LogicAnd, LogicOr} then Op("neq", [a2, Atom("UInt(0)")]) else a2;
    var b2 :=
      if op in {LogicAnd, LogicOr} then Op("neq", [b1, Atom("UInt(0)")])
      else if IsLeftShift(op) && !bConst then GenDshl(b1, bPaddedWidth)
      else b1;
    var b3 := if !bSigned then Op("asUInt", [b2]) else b2;
    var e := Op(PrimOp(op, bConst), [a3, b3]);
    var e2 := if IsLeftShift(op) then Bits(e, yWidth - 1, 0) else e;
    if (aSigned && !AlwaysUint(op)) || op == Sub then Op("asUInt", [e2]) else e2
  }

  /** The primitive application inside the optional `asUInt` and the left-shift `bits`. */
  function BinaryCore(r: Expr, op: BinaryOp, aSigned: bool): Expr
  {
    var e2 := if ((aSigned && !AlwaysUint(op)) || op == Sub) && Wraps(r, "asUInt") then r.args[0] else r;
    if IsLeftShift(op) && e2.Op? && |e2.args| == 3 then e2.args[0] else e2
  }

  /** The result is cast to unsigned iff A is signed and the op is not bitwise/compare/logic, or the op is `$sub`. */
  lemma BinaryResultCast(op: BinaryOp, a: Expr, b: Expr, aSigned: bool, bSigned: bool, bWidth: int, yWidth: int, bConst: bool)
    ensures var r := BinaryExpr(op, a, b, aSigned, bSigned, bWidth, yWidth, bConst);
      Wraps(r, "asUInt") <==> (aSigned && !AlwaysUint(op)) || op == Sub
  {
  }

  /**
   * The operands as they reach the primitive. A is cast to signed iff A_SIGNED
   * (and for `$shr` cast back); B is cast to unsigned iff !B_SIGNED, and to
   * signed only for a non-shift with B_SIGNED; logic ops compare each with zero.
   * A constant amount selects shl/shr, otherwise dshl (with `gen_dshl`) or dshr,
   * and left shifts are cut back to Y_WIDTH bits.
   */
  lemma BinaryOperands(op: BinaryOp, a: Expr, b: Expr, aSigned: bool, bSigned: bool, bWidth: int, yWidth: int, bConst: bool)
    ensures var r := BinaryExpr(op, a, b, aSigned, bSigned, bWidth, yWidth, bConst);
      var core := BinaryCore(r, op, aSigned);
      var aCast := if aSigned then Op("asSInt", [a]) else a;
      var aArg := if aSigned && op == Shr then Op("asUInt", [aCast]) else aCast;
      var bCast := if !IsShift(op) && bSigned then Op("asSInt", [b]) else b;
      var bAmount := if IsLeftShift(op) && !bConst then GenDshl(bCast, bWidth) else bCast;
      && core.Op? && |core.args| == 2
      && core.name == PrimOp(op, bConst)
      && (IsLeftShift(op) ==> (if Wraps(r, "asUInt") then r.args[0] else r) == Bits(core, yWidth - 1, 0))
      && core.args[0] == (if op in {LogicAnd, LogicOr} then Op("neq", [aArg, Atom("UInt(0)")]) else aArg)
      && core.args[1] == (if bSigned then (if op in {LogicAnd, LogicOr} then Op("neq", [bAmount, Atom("UInt(0)")]) else bAmount)
                          else Op("asUInt", [if op in {LogicAnd, LogicOr} then Op("neq", [bAmount, Atom("UInt(0)")]) else bAmount]))
  {
  }

  /** No binary primitive is `pad`. */
  lemma PrimOpNotPad(op: BinaryOp, bConst: bool)
    ensures PrimOp(op, bConst) != "pad"
  {
    var n := PrimOp(op, bConst);
    assert n[0] != 'p' || n[1] != 'a';
  }

  /** A binary cell never pads: `pad` appears in its expression only if an operand already held it. */
  lemma BinaryNoPad(op: BinaryOp, a: Expr, b: Expr, aSigned: bool, bSigned: bool, bWidth: int, yWidth: int, bConst: bool)
    requires !Mentions(a, "pad") && !Mentions(b, "pad")
    ensures !Mentions(BinaryExpr(op, a, b, aSigned, bSigned, bWidth, yWidth, bConst), "pad")
  {
    var zero := Atom("UInt(0)");
    assert !Mentions(zero, "pad");
    var a1 := if aSigned then Op("asSInt", [a]) else a;
    assert !Mentions(a1, "pad") by { MentionsOp1("asSInt", a, "pad"); }
    var b1 := if !IsShift(op) && bSigned then Op("asSInt", [b]) else b;
    assert !Mentions(b1, "pad") by { MentionsOp1("asSInt", b, "pad"); }
    var bPaddedWidth := if !IsShift(op) && bWidth < yWidth then yWidth else bWidth;
    var a2 := if aSigned && op == Shr then Op("asUInt", [a1]) else a1;
    assert !Mentions(a2, "pad") by { MentionsOp1("asUInt", a1, "pad"); }
    var a3 := if op in {LogicAnd, LogicOr} then Op("neq", [a2, zero]) else a2;
    assert !Mentions(a3, "pad") by { MentionsOp2("neq", a2, zero, "pad"); }
    var b2 :=
      if op in {LogicAnd, LogicOr} then Op("neq", [b1, zero])
      else if IsLeftShift(op) && !bConst then GenDshl(b1, bPaddedWidth)
      else b1;
    assert !Mentions(b2, "pad") by {
      GenDshlMentions(b1, bPaddedWidth, "pad");
      MentionsOp2("neq", b1, zero, "pad");
    }
    var b3 := if !bSigned then Op("asUInt", [b2]) else b2;
    assert !Mentions(b3, "pad") by { MentionsOp1("asUInt", b2, "pad"); }
    var e := Op(PrimOp(op, bConst), [a3, b3]);
    assert !Mentions(e, "pad") by {
      PrimOpNotPad(op, bConst);
      MentionsOp2(PrimOp(op, bConst), a3, b3, "pad");
    }
    var e2 := if IsLeftShift(op) then Bits(e, yWidth - 1, 0) else e;
    assert !Mentions(e2, "pad") by { MentionsOp3("bits", e, IntAtom(yWidth - 1), IntAtom(0), "pad"); }
    assert !Mentions(Op("asUInt", [e2]), "pad") by { MentionsOp1("asUInt", e2, "pad"); }
  }

  /** An unsigned `$add` of `a` and `b` is written `add(a, asUInt(b))`. */
  lemma UnsignedAddText()
    ensures Print(BinaryExpr(Add, Atom("a"), Atom("b"), false, false, 4, 5, false)) == "add(a, asUInt(b))"
  {
    var ub := Op("asUInt", [Atom("b")]);
    assert BinaryExpr(Add, Atom("a"), Atom("b"), false, false, 4, 5, false) == Op("add", [Atom("a"), ub]);
    PrintOp1("asUInt", Atom("b"));
    assert Print(ub) == "asUInt(b)";
    PrintOp2("add", Atom("a"), ub);
    assert Print(Op("add", [Atom("a"), ub])) == "add" + "(" + "a" + ", " + "asUInt(b)" + ")";
  }

  // ---- $mux, $shiftx, $shift ----

  /** `$mux`: FIRRTL takes the true branch (B) first, so the text is `mux(S, B, A)`. */
  function MuxExpr(s: Expr, a: Expr, b: Expr): (r: Expr)
    ensures r.Op? && r.name == "mux" && |r.args| == 3
    ensures r.args[0] == s && r.args[1] == b && r.args[2] == a
    ensures Print(r) == "mux(" + Print(s) + ", " + Print(b) + ", " + Print(a) + ")"
  {
    PrintOp3("mux", s, b, a);
    Op("mux", [s, b, a])
  }

  /** `$shiftx`: a dynamic right shift, guarded by the sign bit of B when B is signed. */
  function ShiftxExpr(a: Expr, b: Expr, bSigned: bool, bWidth: int): Expr
  {
    var bSign := bWidth - 1;
    var amount := if bSigned then Op("validif", [Op("not", [Bits(b, bSign, bSign)]), b]) else b;
    Op("dshr", [a, amount])
  }

  lemma ShiftxShape(a: Expr, b: Expr, bSigned: bool, bWidth: int)
    ensures var r := ShiftxExpr(a, b, bSigned, bWidth);
      && r.name == "dshr" && r.args[0] == a
      && (r.args[1] == b <==> !bSigned)
      && (bSigned ==>
            r.args[1].name == "validif" && r.args[1].args[1] == b
            && r.args[1].args[0] == Op("not", [Bits(b, bWidth - 1, bWidth - 1)]))
  {
    var r := ShiftxExpr(a, b, bSigned, bWidth);
    if bSigned {
      assert r.args[1].args[1] == b;
    }
  }

  /** `$shift`: for a signed amount, the text the source writes, literally. */
  function ShiftExpr(a: Expr, b: Expr, bSigned: bool, bWidth: int, yWidth: int): Expr
  {
    if bSigned then
      var dshl := Bits(Op("dshl", [a, GenDshl(b, bWidth)]), 0, yWidth);
      var dshr := Op("dshr", [a, b]);
      Op("mux", [Atom(Print(b) + " < 0"), dshl, dshr])
    else Op("dshr", [a, b])
  }

  /**
   * As written, a signed `$shift` shifts left by the (negative) amount itself,
   * not by its negation, and its `bits` has the high index 0 below the low index
   * Y_WIDTH; an unsigned amount is a plain `dshr`.
   */
  lemma ShiftAsWritten(a: Expr, b: Expr, bSigned: bool, bWidth: int, yWidth: int)
    requires Plain(b)
    ensures var r := ShiftExpr(a, b, bSigned, bWidth, yWidth);
      && (!bSigned ==> r == Op("dshr", [a, b]))
      && (bSigned ==>
            && r.name == "mux" && |r.args| == 3
            && r.args[0] == Atom(Print(b) + " < 0")
            && r.args[1] == Bits(Op("dshl", [a, GenDshl(b, bWidth)]), 0, yWidth)
            && !Mentions(GenDshl(b, bWidth), "neg")
            && r.args[2] == Op("dshr", [a, b]))
  {
    PlainNoNeg(b);
    GenDshlMentions(b, bWidth, "neg");
  }

  lemma PlainNoNeg(e: Expr)
    requires Plain(e)
    ensures !Mentions(e, "neg")
  {
    if e.Op? {
      forall i | 0 <= i < |e.args|
        ensures !Mentions(e.args[i], "neg")
      {
        PlainNoNeg(e.args[i]);
      }
    }
  }

  // ---- $mem ----

  /** `log_error` conditions of a `$mem` cell, first one in source order. */
  function MemFatal(cell: Cell): Option<string>
  {
    var init := ConstParam(cell, "\\INIT");
    if exists k | 0 <= k < |init| :: init[k] != Sx then Some("Memory with initialization data")
    else if Param(cell, "\\OFFSET") != 0 then Some("Memory with nonzero offset")
    else if exists i | 0 <= i < Param(cell, "\\RD_PORTS") :: ConstBitAt(ConstParam(cell, "\\RD_CLK_ENABLE"), i) != S0
      then Some("Clocked read port")
    else WritePortsFatal(cell, 0)
  }

  /** The write-port checks of port `i` and above. */
  function WritePortsFatal(cell: Cell, i: nat): Option<string>
    decreases if Param(cell, "\\WR_PORTS") > i then Param(cell, "\\WR_PORTS") - i else 0
  {
    if i >= Param(cell, "\\WR_PORTS") then None
    else if ConstBitAt(ConstParam(cell, "\\WR_CLK_ENABLE"), i) != S1 then Some("Unclocked write port")
    else if ConstBitAt(ConstParam(cell, "\\WR_CLK_POLARITY"), i) != S1 then Some("Negedge write port")
    else if !UniformEnable(cell, i) then Some("Complex write enable")
    else WritePortsFatal(cell, i + 1)
  }

  /** The enable bits of write port `i` all equal its first. */
  predicate UniformEnable(cell: Cell, i: nat)
  {
    var width := Count(Param(cell, "\\WIDTH"));
    var wen := Slice(GetPort(cell, "\\WR_EN"), i, width);
    forall k | 1 <= k < |wen| :: wen[k] == wen[0]
  }

  /** Write port `i` is clocked on the rising edge and enables its word as a whole. */
  predicate WritePortSupported(cell: Cell, i: nat)
  {
    ConstBitAt(ConstParam(cell, "\\WR_CLK_ENABLE"), i) == S1
    && ConstBitAt(ConstParam(cell, "\\WR_CLK_POLARITY"), i) == S1
    && UniformEnable(cell, i)
  }

  /** What a memory must look like to be lowered. */
  predicate MemSupported(cell: Cell)
  {
    && (forall k | 0 <= k < |ConstParam(cell, "\\INIT")| :: ConstParam(cell, "\\INIT")[k] == Sx)
    && Param(cell, "\\OFFSET") == 0
    && ReadPortsUnclocked(cell)
    && (forall i: nat | i < Param(cell, "\\WR_PORTS") :: WritePortSupported(cell, i))
  }

  /** Write ports `0 .. n - 1` can all be lowered. */
  predicate WritePortsSupported(cell: Cell, n: nat)
  {
    forall j: nat | j < n :: WritePortSupported(cell, j)
  }

  lemma WritePortsSupportedNext(cell: Cell, n: nat)
    requires WritePortsSupported(cell, n) && WritePortSupported(cell, n)
    ensures WritePortsSupported(cell, n + 1)
  {
  }

  /** No read port has a clock enable. */
  predicate ReadPortsUnclocked(cell: Cell)
  {
    forall i | 0 <= i < Param(cell, "\\RD_PORTS") :: ConstBitAt(ConstParam(cell, "\\RD_CLK_ENABLE"), i) == S0
  }

  lemma {:induction false} WritePortsFatalNone(cell: Cell, i: nat)
    ensures WritePortsFatal(cell, i).None? <==>
      forall j: nat | i <= j < Param(cell, "\\WR_PORTS") :: WritePortSupported(cell, j)
    decreases if Param(cell, "\\WR_PORTS") > i then Param(cell, "\\WR_PORTS") - i else 0
  {
    if i < Param(cell, "\\WR_PORTS") {
      WritePortsFatalNone(cell, i + 1);
      assert WritePortsFatal(cell, i).None? <==> WritePortSupported(cell, i) && WritePortsFatal(cell, i + 1).None?;
    }
  }

  /**
   * A memory aborts the run iff it has an INIT bit that is not x, a nonzero
   * OFFSET, a read port with a clock enable, a write port without clock enable
   * or with negative polarity, or a write port whose enable differs within the word.
   */
  lemma MemFatalIff(cell: Cell)
    ensures MemFatal(cell).None? <==> MemSupported(cell)
  {
    WritePortsFatalNone(cell, 0);
  }

  // ---- instances ----

  /** `FDirection`: the bits FD_IN = 1 and FD_OUT = 2. */
  datatype FDirection = NoDirection | In | Out | InOut

  /** `getPortFDirection`; `wires_.at` throws when the module has no such wire. */
  function PortFDirection(m: Module, port: string): (r: Result<FDirection>)
    ensures r.Fatal? <==> FindWire(m.wires, port).None?
  {
    match FindWire(m.wires, port)
    case None => Fatal("no such port")
    case Some(w) =>
      if w.portId == 0 then Ok(NoDirection)
      else if w.portInput && w.portOutput then Ok(InOut)
      else if w.portInput then Ok(In)
      else if w.portOutput then Ok(Out)
      else Ok(NoDirection)
  }

  lemma PortFDirectionFlags(m: Module, port: string)
    requires FindWire(m.wires, port).Some?
    ensures var w := FindWire(m.wires, port).value;
      var d := PortFDirection(m, port).value;
      && (d in {In, InOut} <==> w.portId != 0 && w.portInput)
      && (d in {Out, InOut} <==> w.portId != 0 && w.portOutput)
  {
  }

  /** Whether a cell type names a parameterised module (`type.substr(0, 8) == "$paramod"`). */
  predicate IsParamod(t: string)
  {
    |t| >= 8 && t[..8] == "$paramod"
  }

  function ParamodChar(c: char): char
  {
    if c == '\\' || c == '=' || c == '\'' || c == '$' then '_' else c
  }

  /** The `$paramod` mangling: backslash, '=', quote and '$' become '_'. */
  function MangleParamod(s: string): (r: string)
    ensures |r| == |s|
    ensures forall i | 0 <= i < |s| :: r[i] == ParamodChar(s[i])
  {
    seq(|s|, i requires 0 <= i < |s| => ParamodChar(s[i]))
  }

  /** The character loop of `process_instance` that builds `instanceOf`. */
  method MangleTypeName(cellType: string) returns (instanceOf: string)
    ensures instanceOf == MangleParamod(cellType)
  {
    instanceOf := "";
    var i := 0;
    while i < |cellType|
      invariant 0 <= i <= |cellType|
      invariant instanceOf == MangleParamod(cellType[..i])
    {
      var c := cellType[i];
      if c == '\\' || c == '=' || c == '\'' || c == '$' {
        instanceOf := instanceOf + "_";
      } else {
        instanceOf := instanceOf + [c];
      }
      assert MangleParamod(cellType[..i + 1]) == MangleParamod(cellType[..i]) + [ParamodChar(c)];
      i := i + 1;
    }
    assert cellType[..i] == cellType;
  }

  /**
   * The mangling runs on the name `make_id` already gave the type, and such a
   * name holds none of the four characters, so it comes back unchanged.
   */
  lemma MangleFixesIds(s: string)
    requires IsFirrtlId(s)
    ensures MangleParamod(s) == s
  {
  }

  /** The connection line for one instance port: outputs (and inouts) drive the actual signal. */
  function InstanceConnLine(dir: FDirection, portRef: string, actual: string): string
  {
    match dir
    case Out => "\n    " + actual + " <= " + portRef
    case InOut => "\n    " + actual + " <= " + portRef
    case In => "\n    " + portRef + " <= " + actual
    case NoDirection => "\n    " + portRef + " <= " + actual
  }
}
