/**
 * Maximal-run chunking of a signal, the part of `SigSpec::chunks()` the passes
 * rely on: constant bits are grouped together, and wire bits are grouped while
 * they come from the same wire at consecutive offsets.
 */
module Chunking {
  import opened Netlist

  datatype Chunk = ConstChunk(data: seq<State>) | WireChunk(wire: Wire, offset: nat, width: nat)

  function ChunkWidth(c: Chunk): nat
  {
    match c
    case ConstChunk(data) => |data|
    case WireChunk(_, _, width) => width
  }

  /** The bits a chunk stands for. */
  function ChunkBits(c: Chunk): (r: SigSpec)
    ensures |r| == ChunkWidth(c)
  {
    match c
    case ConstChunk(data) => seq(|data|, i requires 0 <= i < |data| => ConstBit(data[i]))
    case WireChunk(w, off, width) => seq(width, i requires 0 <= i < width => WireBit(w, off + i))
  }

  function Flatten(cs: seq<Chunk>): SigSpec
  {
    if cs == [] then [] else ChunkBits(cs[0]) + Flatten(cs[1..])
  }

  /** Two neighbouring chunks that one chunk could have held. */
  predicate Joinable(lo: Chunk, hi: Chunk)
  {
    (lo.ConstChunk? && hi.ConstChunk?) ||
    (lo.WireChunk? && hi.WireChunk? && lo.wire == hi.wire && lo.offset + lo.width == hi.offset)
  }

  function Single(b: SigBit): Chunk
  {
    match b
    case ConstBit(s) => ConstChunk([s])
    case WireBit(w, off) => WireChunk(w, off, 1)
  }

  /** Whether bit `b` directly below chunk `c` extends it. */
  predicate ContinuesDown(b: SigBit, c: Chunk)
  {
    (b.ConstBit? && c.ConstChunk?) ||
    (b.WireBit? && c.WireChunk? && b.wire == c.wire && b.offset + 1 == c.offset)
  }

  function Prepend(b: SigBit, c: Chunk): Chunk
    requires ContinuesDown(b, c)
  {
    match c
    case ConstChunk(data) => ConstChunk([b.state] + data)
    case WireChunk(w, _, width) => WireChunk(w, b.offset, width + 1)
  }

  /** The chunks of `sig`, least significant first. */
  function Chunks(sig: SigSpec): seq<Chunk>
    decreases |sig|
  {
    if sig == [] then []
    else
      var rest := Chunks(sig[1..]);
      if rest != [] && ContinuesDown(sig[0], rest[0]) then [Prepend(sig[0], rest[0])] + rest[1..]
      else [Single(sig[0])] + rest
  }

  lemma PrependBits(b: SigBit, c: Chunk)
    requires ContinuesDown(b, c)
    ensures ChunkBits(Prepend(b, c)) == [b] + ChunkBits(c)
  {
    var r, t := ChunkBits(Prepend(b, c)), [b] + ChunkBits(c);
    forall i | 0 <= i < |r|
      ensures r[i] == t[i]
    {
      if i > 0 {
        assert t[i] == ChunkBits(c)[i - 1];
      }
    }
  }

  lemma FlattenCons(c: Chunk, cs: seq<Chunk>)
    ensures Flatten([c] + cs) == ChunkBits(c) + Flatten(cs)
  {
    assert ([c] + cs)[1..] == cs;
  }

  /** Chunking loses nothing: the chunks spell out the signal again. */
  lemma {:induction false} ChunksFlatten(sig: SigSpec)
    ensures Flatten(Chunks(sig)) == sig
    decreases |sig|
  {
    if sig != [] {
      ChunksFlatten(sig[1..]);
      var rest := Chunks(sig[1..]);
      if rest != [] && ContinuesDown(sig[0], rest[0]) {
        FlattenMerged(sig[0], rest, sig[1..]);
      } else {
        assert ChunkBits(Single(sig[0])) == [sig[0]];
        FlattenCons(Single(sig[0]), rest);
      }
      assert [sig[0]] + sig[1..] == sig;
    }
  }

  /** The step of `ChunksFlatten` where the lowest bit joins the chunk above it. */
  lemma FlattenMerged(b: SigBit, rest: seq<Chunk>, tail: SigSpec)
    requires rest != [] && ContinuesDown(b, rest[0]) && Flatten(rest) == tail
    ensures Flatten([Prepend(b, rest[0])] + rest[1..]) == [b] + tail
  {
    var c, r := rest[0], rest[1..];
    assert [c] + r == rest;
    FlattenCons(c, r);
    FlattenCons(Prepend(b, c), r);
    PrependBits(b, c);
    ConsAssoc(b, ChunkBits(c), Flatten(r));
  }

  lemma ConsAssoc(b: SigBit, x: SigSpec, y: SigSpec)
    ensures ([b] + x) + y == [b] + (x + y)
  {
  }

  /** No chunk is empty. */
  lemma {:induction false} ChunksPositive(sig: SigSpec)
    ensures forall k | 0 <= k < |Chunks(sig)| :: ChunkWidth(Chunks(sig)[k]) >= 1
    decreases |sig|
  {
    if sig != [] {
      ChunksPositive(sig[1..]);
      var rest := Chunks(sig[1..]);
      if rest != [] && ContinuesDown(sig[0], rest[0]) {
        assert forall k | 1 <= k < |Chunks(sig)| :: Chunks(sig)[k] == rest[k];
      } else {
        assert forall k | 1 <= k < |Chunks(sig)| :: Chunks(sig)[k] == rest[k - 1];
      }
    }
  }

  /** Chunks are maximal: no two neighbours could have been one chunk. */
  lemma {:induction false} ChunksMaximal(sig: SigSpec)
    ensures forall k | 0 <= k < |Chunks(sig)| - 1 :: !Joinable(Chunks(sig)[k], Chunks(sig)[k + 1])
    decreases |sig|
  {
    if sig != [] {
      var rest := Chunks(sig[1..]);
      ChunksMaximal(sig[1..]);
      if rest != [] && ContinuesDown(sig[0], rest[0]) {
        var cs := [Prepend(sig[0], rest[0])] + rest[1..];
        forall k | 0 <= k < |cs| - 1 ensures !Joinable(cs[k], cs[k + 1]) {
          if k == 0 {
            assert !Joinable(rest[0], rest[1]);
          } else {
            assert cs[k] == rest[k] && cs[k + 1] == rest[k + 1];
          }
        }
      } else {
        var cs := [Single(sig[0])] + rest;
        forall k | 0 <= k < |cs| - 1 ensures !Joinable(cs[k], cs[k + 1]) {
          if k == 0 {
            assert !ContinuesDown(sig[0], rest[0]);
          } else {
            assert cs[k] == rest[k - 1] && cs[k + 1] == rest[k];
          }
        }
      }
    }
  }

  /** Every wire chunk starts at a bit that occurs in the signal. */
  lemma {:induction false} ChunkWiresInSig(sig: SigSpec)
    ensures forall c | c in Chunks(sig) && c.WireChunk? :: WireBit(c.wire, c.offset) in sig
    decreases |sig|
  {
    if sig != [] {
      ChunkWiresInSig(sig[1..]);
      var rest := Chunks(sig[1..]);
      forall c | c in Chunks(sig) && c.WireChunk? ensures WireBit(c.wire, c.offset) in sig {
        if c in rest {
          assert WireBit(c.wire, c.offset) in sig[1..];
        }
      }
    }
  }
}
