/**
 * FIRRTL expressions as the backend writes them, and `make_expr`, which turns
 * a signal into one (backends/firrtl/firrtl.cc).
 */
module FirrtlExpr {
  import opened Text
  import opened Netlist
  import opened Chunking
  import opened FirrtlNames

  /**
   * An expression: a piece of text (a name, a literal, a number) or a primitive
   * operation applied to arguments. `Print` gives the exact text the backend writes.
   */
  datatype Expr = Atom(text: string) | Op(name: string, args: seq<Expr>)

  function Join(parts: seq<string>): string
  {
    if |parts| == 0 then ""
    else if |parts| == 1 then parts[0]
    else parts[0] + ", " + Join(parts[1..])
  }

  function Print(e: Expr): string
  {
    match e
    case Atom(t) => t
    case Op(n, args) => n + "(" + Join(seq(|args|, i requires 0 <= i < |args| => Print(args[i]))) + ")"
  }

  /** Only the empty text prints as "", so `expr.empty()` in the source is `e == Atom("")` here. */
  lemma PrintEmpty(e: Expr)
    ensures Print(e) == "" <==> e == Atom("")
  {
    if e.Op? {
      assert Print(e)[|e.name|] == '(';
    }
  }

  lemma PrintOp1(n: string, x: Expr)
    ensures Print(Op(n, [x])) == n + "(" + Print(x) + ")"
  {
    var args := [x];
    assert seq(|args|, i requires 0 <= i < |args| => Print(args[i])) == [Print(x)];
  }

  lemma PrintOp2(n: string, x: Expr, y: Expr)
    ensures Print(Op(n, [x, y])) == n + "(" + Print(x) + ", " + Print(y) + ")"
  {
    var args := [x, y];
    assert seq(|args|, i requires 0 <= i < |args| => Print(args[i])) == [Print(x), Print(y)];
    assert Join([Print(x), Print(y)]) == Print(x) + ", " + Join([Print(y)]);
  }

  lemma PrintOp3(n: string, x: Expr, y: Expr, z: Expr)
    ensures Print(Op(n, [x, y, z])) == n + "(" + Print(x) + ", " + Print(y) + ", " + Print(z) + ")"
  {
    var args := [x, y, z];
    var parts := [Print(x), Print(y), Print(z)];
    assert seq(|args|, i requires 0 <= i < |args| => Print(args[i])) == parts;
    assert parts[1..] == [Print(y), Print(z)];
    assert [Print(y), Print(z)][1..] == [Print(z)];
    assert Join(parts[1..]) == Print(y) + ", " + Print(z);
    assert Join(parts) == Print(x) + ", " + (Print(y) + ", " + Print(z));
  }

  function IntAtom(i: int): Expr
  {
    Atom(IntToString(i))
  }

  /** `bits(e, hi, lo)`. */
  function Bits(e: Expr, hi: int, lo: int): Expr
  {
    Op("bits", [e, IntAtom(hi), IntAtom(lo)])
  }

  /** The accumulation step shared by `make_expr` and the output-wire resolver. */
  function Accumulate(acc: Expr, next: Expr): Expr
  {
    if acc == Atom("") then next else Op("cat", [next, acc])
  }

  // ---- constant chunks: `UInt<w>("h…")` ----

  /** The value of the bits, least significant first, with any bit other than 1 read as 0. */
  function BitsValue(bits: seq<State>): nat
  {
    if bits == [] then 0 else (if bits[0] == S1 then 1 else 0) + 2 * BitsValue(bits[1..])
  }

  predicate IsHexDigit(c: char)
  {
    IsDigit(c) || 'a' <= c <= 'f'
  }

  function HexDigit(v: nat): (c: char)
    requires v < 16
    ensures IsHexDigit(c)
  {
    if v < 10 then (48 + v) as char else (97 + v - 10) as char
  }

  function HexDigitValue(c: char): nat
    requires IsHexDigit(c)
  {
    if IsDigit(c) then c as int - 48 else c as int - 87
  }

  /** The value of a string of hex digits, most significant first. */
  function HexValue(s: string): nat
    requires forall i | 0 <= i < |s| :: IsHexDigit(s[i])
  {
    if s == [] then 0 else 16 * HexValue(s[..|s| - 1]) + HexDigitValue(s[|s| - 1])
  }

  function Zeros(k: nat): (r: seq<State>)
    ensures |r| == k
  {
    seq(k, _ => S0)
  }

  /** The bits padded with S0 to a multiple of 4. */
  function Padded(bits: seq<State>): (r: seq<State>)
    ensures |r| % 4 == 0 && |r| == |bits| + (4 - |bits| % 4) % 4
  {
    bits + Zeros((4 - |bits| % 4) % 4)
  }

  function NibbleValue(b0: State, b1: State, b2: State, b3: State): (v: nat)
    ensures v < 16
  {
    (if b0 == S1 then 1 else 0) + (if b1 == S1 then 2 else 0) +
    (if b2 == S1 then 4 else 0) + (if b3 == S1 then 8 else 0)
  }

  /** Hex digits of bits already padded to a multiple of 4, most significant nibble first. */
  function NibbleDigits(p: seq<State>): (s: string)
    requires |p| % 4 == 0
    ensures |s| == |p| / 4 && forall i | 0 <= i < |s| :: IsHexDigit(s[i])
    decreases |p|
  {
    if p == [] then "" else NibbleDigits(p[4..]) + [HexDigit(NibbleValue(p[0], p[1], p[2], p[3]))]
  }

  function HexDigits(bits: seq<State>): string
  {
    NibbleDigits(Padded(bits))
  }

  /** The text of a constant chunk. */
  function ConstText(bits: seq<State>): string
  {
    "UInt<" + NatToString(|bits|) + ">(\"h" + HexDigits(bits) + "\")"
  }

  lemma HexDigitValueOf(v: nat)
    requires v < 16
    ensures HexDigitValue(HexDigit(v)) == v
  {
  }

  lemma BitsValueNibble(p: seq<State>)
    requires |p| >= 4
    ensures BitsValue(p) == NibbleValue(p[0], p[1], p[2], p[3]) + 16 * BitsValue(p[4..])
  {
    var p1, p2, p3 := p[1..], p[2..], p[3..];
    assert p1[1..] == p2 && p2[1..] == p3 && p3[1..] == p[4..];
    assert BitsValue(p) == (if p[0] == S1 then 1 else 0) + 2 * BitsValue(p1);
    assert BitsValue(p1) == (if p[1] == S1 then 1 else 0) + 2 * BitsValue(p2);
    assert BitsValue(p2) == (if p[2] == S1 then 1 else 0) + 2 * BitsValue(p3);
    assert BitsValue(p3) == (if p[3] == S1 then 1 else 0) + 2 * BitsValue(p[4..]);
  }

  lemma {:induction false} NibbleDigitsValue(p: seq<State>)
    requires |p| % 4 == 0
    ensures HexValue(NibbleDigits(p)) == BitsValue(p)
    decreases |p|
  {
    if p != [] {
      NibbleDigitsValue(p[4..]);
      var v := NibbleValue(p[0], p[1], p[2], p[3]);
      var s := NibbleDigits(p);
      assert s == NibbleDigits(p[4..]) + [HexDigit(v)];
      assert s[..|s| - 1] == NibbleDigits(p[4..]);
      assert s[|s| - 1] == HexDigit(v);
      HexDigitValueOf(v);
      BitsValueNibble(p);
    }
  }

  lemma {:induction false} BitsValueZeros(bits: seq<State>, k: nat)
    ensures BitsValue(bits + Zeros(k)) == BitsValue(bits)
    decreases |bits| + k
  {
    if bits != [] {
      assert (bits + Zeros(k))[1..] == bits[1..] + Zeros(k);
      BitsValueZeros(bits[1..], k);
    } else if k > 0 {
      assert bits + Zeros(k) == Zeros(k);
      assert Zeros(k)[0] == S0;
      assert Zeros(k)[1..] == [] + Zeros(k - 1);
      BitsValueZeros([], k - 1);
    }
  }

  /**
   * A constant chunk's hex digits number ceil(w/4), and read back in hex they
   * give the chunk's value with every bit other than 1 taken as 0.
   */
  lemma HexDigitsRoundTrip(bits: seq<State>)
    ensures |HexDigits(bits)| == (|bits| + 3) / 4
    ensures forall i | 0 <= i < |HexDigits(bits)| :: IsHexDigit(HexDigits(bits)[i])
    ensures HexValue(HexDigits(bits)) == BitsValue(bits)
  {
    NibbleDigitsValue(Padded(bits));
    BitsValueZeros(bits, (4 - |bits| % 4) % 4);
  }

  /**
   * The constant branch of `make_expr`: pads a copy of the bits with S0 in place,
   * then emits one hex digit per nibble, most significant first.
   */
  method HexLiteral(data: seq<State>) returns (s: string)
    ensures s == ConstText(data)
  {
    var bits := PadToNibbles(data);
    var digits := NibblesToHex(bits);
    s := "UInt<" + NatToString(|data|) + ">(\"h" + digits + "\")";
  }

  /** The loop over the nibbles from the top one down. */
  method NibblesToHex(bits: seq<State>) returns (digits: string)
    requires |bits| % 4 == 0
    ensures digits == NibbleDigits(bits)
  {
    ghost var q := |bits| / 4;
    assert |bits| == 4 * q;
    digits := "";
    var i := |bits| - 4;
    ghost var n := q;
    while i >= 0
      invariant 0 <= n <= q && i == 4 * n - 4
      invariant digits == NibbleDigits(bits[4 * n..])
      decreases i + 4
    {
      var val := NibbleAt(bits, i);
      NibbleStep(bits, q, n - 1);
      digits := digits + [HexDigit(val)];
      i := i - 4;
      n := n - 1;
    }
    assert bits[0..] == bits;
  }

  /** The value of the nibble at `i`, one bit at a time. */
  method NibbleAt(bits: seq<State>, i: nat) returns (val: nat)
    requires i + 4 <= |bits|
    ensures val == NibbleValue(bits[i], bits[i + 1], bits[i + 2], bits[i + 3])
  {
    val := 0;
    if bits[i + 0] == S1 { val := val + 1; }
    if bits[i + 1] == S1 { val := val + 2; }
    if bits[i + 2] == S1 { val := val + 4; }
    if bits[i + 3] == S1 { val := val + 8; }
  }

  /** `while (GetSize(bits) % 4 != 0) bits.push_back(State::S0);` */
  method PadToNibbles(data: seq<State>) returns (bits: seq<State>)
    ensures bits == Padded(data)
  {
    bits := data;
    ghost var pad := (4 - |data| % 4) % 4;
    while |bits| % 4 != 0
      invariant |data| <= |bits| <= |data| + pad
      invariant bits == data + Zeros(|bits| - |data|)
      decreases |data| + pad - |bits|
    {
      PadShort(|data|, |bits| - |data|);
      bits := bits + [S0];
      assert Zeros(|bits| - |data|) == Zeros(|bits| - 1 - |data|) + [S0];
    }
    PadLength(|data|, |bits| - |data|);
  }

  lemma PadShort(n: nat, j: nat)
    requires j <= (4 - n % 4) % 4 && (n + j) % 4 != 0
    ensures j < (4 - n % 4) % 4
  {
    PadCompletes(n);
  }

  /** Padding by `(4 - n % 4) % 4` reaches a multiple of four. */
  lemma PadCompletes(n: nat)
    ensures (n + (4 - n % 4) % 4) % 4 == 0
  {
    var r := n % 4;
    assert n == 4 * (n / 4) + r;
    if r != 0 {
      assert n + (4 - r) % 4 == 4 * (n / 4 + 1);
    }
  }

  lemma PadLength(n: nat, j: nat)
    requires j <= (4 - n % 4) % 4 && (n + j) % 4 == 0
    ensures j == (4 - n % 4) % 4
  {
  }

  /** Nibble `m` of a `q`-nibble signal is the last digit of those from `m` up. */
  lemma NibbleStep(bits: seq<State>, q: nat, m: nat)
    requires |bits| == 4 * q && m < q
    ensures |bits[4 * m..]| % 4 == 0 && |bits[4 * m + 4..]| % 4 == 0
    ensures NibbleDigits(bits[4 * m..])
      == NibbleDigits(bits[4 * m + 4..]) + [HexDigit(NibbleValue(bits[4 * m], bits[4 * m + 1], bits[4 * m + 2], bits[4 * m + 3]))]
  {
    assert |bits[4 * m..]| == 4 * (q - m) && |bits[4 * m + 4..]| == 4 * (q - m - 1);
    assert bits[4 * m..][4..] == bits[4 * m + 4..];
  }

  // ---- whole signals ----

  /** Every wire bit of `sig` has a cached name. */
  ghost predicate Covers(cache: map<string, string>, sig: SigSpec)
  {
    forall b | b in sig && b.WireBit? :: b.wire.name in cache
  }

  /** The expression for one chunk, with wire names as cached. */
  function ChunkExpr(c: Chunk, cache: map<string, string>): Expr
    requires c.WireChunk? ==> c.wire.name in cache
  {
    match c
    case ConstChunk(data) => Atom(ConstText(data))
    case WireChunk(w, off, width) =>
      if off == 0 && width == w.width then Atom(cache[w.name])
      else Bits(Atom(cache[w.name]), off + width - 1, off)
  }

  ghost predicate ChunksCovered(cache: map<string, string>, cs: seq<Chunk>)
  {
    forall k | 0 <= k < |cs| :: cs[k].WireChunk? ==> cs[k].wire.name in cache
  }

  /** The chunks combined lowest first, each later one wrapping the text so far as `cat(new, old)`. */
  function FoldChunks(cs: seq<Chunk>, cache: map<string, string>): Expr
    requires ChunksCovered(cache, cs)
    decreases |cs|
  {
    if cs == [] then Atom("")
    else Accumulate(FoldChunks(cs[..|cs| - 1], cache), ChunkExpr(cs[|cs| - 1], cache))
  }

  lemma CoversChunks(cache: map<string, string>, sig: SigSpec)
    requires Covers(cache, sig)
    ensures ChunksCovered(cache, Chunks(sig))
  {
    ChunkWiresInSig(sig);
    forall k | 0 <= k < |Chunks(sig)| && Chunks(sig)[k].WireChunk?
      ensures Chunks(sig)[k].wire.name in cache
    {
      var c := Chunks(sig)[k];
      assert WireBit(c.wire, c.offset) in sig;
    }
  }

  /** The expression `make_expr` builds for `sig`. */
  function SigExpr(sig: SigSpec, cache: map<string, string>): Expr
    requires Covers(cache, sig)
  {
    CoversChunks(cache, sig);
    FoldChunks(Chunks(sig), cache)
  }

  lemma {:induction false} FoldChunksStable(cs: seq<Chunk>, c1: map<string, string>, c2: map<string, string>)
    requires ChunksCovered(c1, cs) && Extends(c2, c1)
    ensures ChunksCovered(c2, cs) && FoldChunks(cs, c1) == FoldChunks(cs, c2)
    decreases |cs|
  {
    if cs != [] {
      FoldChunksStable(cs[..|cs| - 1], c1, c2);
    }
  }

  /** Names only get added to the cache, so an expression built earlier stays what it was. */
  lemma SigExprStable(sig: SigSpec, c1: map<string, string>, c2: map<string, string>)
    requires Covers(c1, sig) && Extends(c2, c1)
    ensures Covers(c2, sig) && SigExpr(sig, c1) == SigExpr(sig, c2)
  {
    CoversChunks(c1, sig);
    FoldChunksStable(Chunks(sig), c1, c2);
  }

  /**
   * `make_expr`: walks the chunks, asks `make_id` for each wire chunk's name,
   * and accumulates the expression.
   */
  method MakeExpr(names: NameAllocator, sig: SigSpec) returns (e: Expr)
    requires names.Valid()
    modifies names
    ensures names.Grown() && names.autoidCounter == old(names.autoidCounter)
    ensures Covers(names.nameCache, sig) && e == SigExpr(sig, names.nameCache)
  {
    var cs := Chunks(sig);
    e := Atom("");
    var i := 0;
    while i < |cs|
      invariant 0 <= i <= |cs|
      invariant names.Grown() && names.autoidCounter == old(names.autoidCounter)
      invariant ChunksCovered(names.nameCache, cs[..i])
      invariant e == FoldChunks(cs[..i], names.nameCache)
    {
      ghost var before := names.nameCache;
      var newExpr := MakeChunkExpr(names, cs[i]);
      FoldChunksStable(cs[..i], before, names.nameCache);
      PrintEmpty(e);
      e := if e == Atom("") then newExpr else Op("cat", [newExpr, e]);
      FoldChunksStep(cs, i, names.nameCache);
      i := i + 1;
    }
    assert cs[..i] == cs;
    forall b | b in sig && b.WireBit? ensures b.wire.name in names.nameCache {
      CoverBit(sig, b, names.nameCache);
    }
  }

  lemma FoldChunksStep(cs: seq<Chunk>, i: nat, cache: map<string, string>)
    requires i < |cs| && ChunksCovered(cache, cs[..i]) && (cs[i].WireChunk? ==> cs[i].wire.name in cache)
    ensures ChunksCovered(cache, cs[..i + 1])
    ensures FoldChunks(cs[..i + 1], cache) == Accumulate(FoldChunks(cs[..i], cache), ChunkExpr(cs[i], cache))
  {
    assert cs[..i + 1][..i] == cs[..i];
  }

  /** One chunk of `make_expr`: a literal, the bare wire name, or a `bits` slice of it. */
  method MakeChunkExpr(names: NameAllocator, chunk: Chunk) returns (e: Expr)
    requires names.Valid()
    modifies names
    ensures names.Grown() && names.autoidCounter == old(names.autoidCounter)
    ensures chunk.WireChunk? ==> chunk.wire.name in names.nameCache
    ensures e == ChunkExpr(chunk, names.nameCache)
  {
    if chunk.ConstChunk? {
      var text := HexLiteral(chunk.data);
      e := Atom(text);
      assert FreshSince(names.nameCache, old(names.nameCache), old(names.usedNames));
    } else {
      var wireId := names.MakeId(chunk.wire.name);
      assert wireId == names.nameCache[chunk.wire.name];
      if chunk.offset == 0 && chunk.width == chunk.wire.width {
        e := Atom(wireId);
      } else {
        e := Bits(Atom(wireId), chunk.offset + chunk.width - 1, chunk.offset);
      }
    }
  }

  /** A bit of the signal lies in some chunk, and the chunk's wire is the bit's wire. */
  lemma CoverBit(sig: SigSpec, b: SigBit, cache: map<string, string>)
    requires b in sig && b.WireBit? && ChunksCovered(cache, Chunks(sig))
    ensures b.wire.name in cache
  {
    BitInChunk(sig, b);
  }

  lemma {:induction false} BitInChunk(sig: SigSpec, b: SigBit)
    requires b in sig && b.WireBit?
    ensures exists k | 0 <= k < |Chunks(sig)| :: Chunks(sig)[k].WireChunk? && Chunks(sig)[k].wire == b.wire
    decreases |sig|
  {
    var rest := Chunks(sig[1..]);
    if sig[0] == b {
      ChunksHeadWire(sig);
    } else {
      BitInChunk(sig[1..], b);
      var k :| 0 <= k < |rest| && rest[k].WireChunk? && rest[k].wire == b.wire;
      if rest != [] && ContinuesDown(sig[0], rest[0]) {
        if k == 0 {
          assert Chunks(sig)[0].wire == b.wire;
        } else {
          assert Chunks(sig)[k] == rest[k];
        }
      } else {
        assert Chunks(sig)[k + 1] == rest[k];
      }
    }
  }

  lemma ChunksHeadWire(sig: SigSpec)
    requires sig != [] && sig[0].WireBit?
    ensures Chunks(sig) != [] && Chunks(sig)[0].WireChunk? && Chunks(sig)[0].wire == sig[0].wire
  {
  }
}
