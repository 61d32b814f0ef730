/**
 SpookyHash: hashing a message in one call, and piece by piece. The mixing functions are left
 uninterpreted; what is modelled is how the message is cut into blocks, what is kept between the
 pieces, and how the last partial block is padded.
 */
module Spooky {
  import opened Basics

  type Word = w: int | 0 <= w < 0x1_0000_0000_0000_0000

  /** The twelve lane variables. */
  type Lanes = h: seq<Word> | |h| == 12 witness [0, 0, 0, 0, 0, 0, 0, 0, 0, 0, 0, 0]

  const BLOCK := 96
  const BUF := 192
  const CONST: Word := 0xdeadbeefdeadbeef

  type Hash = (Word, Word)

  /** `mix` absorbs a block, `end` finishes, `short` hashes a message below 192 bytes. */
  datatype Mixer = Mixer(
    mix: (seq<Byte>, Lanes) -> Lanes,
    end: Lanes -> Hash,
    short: (seq<Byte>, Word, Word) -> Hash)

  // ----- what is computed

  function Start(seed1: Word, seed2: Word): Lanes {
    [seed1, seed2, CONST, seed1, seed2, CONST, seed1, seed2, CONST, seed1, seed2, CONST]
  }

  /** The lanes after the first `n` blocks of the message. */
  function Absorb(m: Mixer, h: Lanes, msg: seq<Byte>, n: nat): Lanes
    requires BLOCK * n <= |msg|
  {
    if n == 0 then h else m.mix(msg[BLOCK * (n - 1)..BLOCK * n], Absorb(m, h, msg, n - 1))
  }

  /** The last partial block: zeroes up to the last byte, which holds the length. */
  function Padded(tail: seq<Byte>): (r: seq<Byte>)
    requires |tail| < BLOCK
    ensures |r| == BLOCK
  {
    tail + Zeroes(BLOCK - 1 - |tail|) + [|tail| as Byte]
  }

  function Zeroes(n: nat): (r: seq<Byte>)
    ensures |r| == n && forall i :: 0 <= i < n ==> r[i] == 0
  {
    seq(n, _ => 0)
  }

  /** The hash of a message under two seeds. */
  function Digest(m: Mixer, msg: seq<Byte>, seed1: Word, seed2: Word): Hash {
    if |msg| < BUF then m.short(msg, seed1, seed2)
    else
      var q := |msg| / BLOCK;
      m.end(m.mix(Padded(msg[BLOCK * q..]), Absorb(m, Start(seed1, seed2), msg, q)))
  }

  // ----- nothing of the message is lost

  /** The blocks that a long message is mixed in as. */
  function BlocksFed(msg: seq<Byte>, n: nat): (r: seq<seq<Byte>>)
    requires BLOCK * n <= |msg|
    ensures |r| == n && forall i :: 0 <= i < n ==> r[i] == msg[BLOCK * i..BLOCK * (i + 1)]
  {
    if n == 0 then [] else BlocksFed(msg, n - 1) + [msg[BLOCK * (n - 1)..BLOCK * n]]
  }

  function AllBlocks(msg: seq<Byte>): seq<seq<Byte>> {
    var q := |msg| / BLOCK;
    BlocksFed(msg, q) + [Padded(msg[BLOCK * q..])]
  }

  function MixAll(m: Mixer, h: Lanes, blocks: seq<seq<Byte>>): Lanes {
    if blocks == [] then h else m.mix(blocks[|blocks| - 1], MixAll(m, h, blocks[..|blocks| - 1]))
  }

  lemma {:induction false} AbsorbMixes(m: Mixer, h: Lanes, msg: seq<Byte>, n: nat)
    requires BLOCK * n <= |msg|
    ensures Absorb(m, h, msg, n) == MixAll(m, h, BlocksFed(msg, n))
  {
    if n > 0 {
      AbsorbMixes(m, h, msg, n - 1);
      assert BlocksFed(msg, n)[..n - 1] == BlocksFed(msg, n - 1);
    }
  }

  /** A long message is hashed by mixing in its blocks, the padded one last, and finishing. */
  lemma DigestMixes(m: Mixer, msg: seq<Byte>, seed1: Word, seed2: Word)
    requires |msg| >= BUF
    ensures Digest(m, msg, seed1, seed2) == m.end(MixAll(m, Start(seed1, seed2), AllBlocks(msg)))
  {
    var q := |msg| / BLOCK;
    AbsorbMixes(m, Start(seed1, seed2), msg, q);
    assert AllBlocks(msg)[..q] == BlocksFed(msg, q);
  }

  lemma PaddedDiffers(a: seq<Byte>, b: seq<Byte>)
    requires |a| < BLOCK && |b| < BLOCK && Padded(a) == Padded(b)
    ensures a == b
  {
    assert Padded(a)[BLOCK - 1] == |a| && Padded(b)[BLOCK - 1] == |b|;
    assert Padded(a)[..|a|] == a && Padded(b)[..|b|] == b;
  }

  lemma WholeAgain(msg: seq<Byte>, i: nat, q: nat)
    requires q == |msg| / BLOCK && i < |msg|
    ensures BLOCK * q <= |msg| && i / BLOCK <= q
    ensures i < BLOCK * q ==> i / BLOCK < q && msg[i] == BlocksFed(msg, q)[i / BLOCK][i % BLOCK]
    ensures i >= BLOCK * q ==> msg[i] == msg[BLOCK * q..][i - BLOCK * q]
  {
    if i < BLOCK * q {
      assert BLOCK * (i / BLOCK) + i % BLOCK == i;
    }
  }

  /** Different messages are mixed in as different blocks: the padding says where the message ends. */
  lemma BlocksDiffer(a: seq<Byte>, b: seq<Byte>)
    requires AllBlocks(a) == AllBlocks(b)
    ensures a == b
  {
    var q := |a| / BLOCK;
    var as', bs := AllBlocks(a), AllBlocks(b);
    assert |as'| == q + 1 && |bs| == |b| / BLOCK + 1;
    assert as'[..q] == BlocksFed(a, q) && bs[..q] == BlocksFed(b, q);
    assert as'[q] == Padded(a[BLOCK * q..]) && bs[q] == Padded(b[BLOCK * q..]);
    PaddedDiffers(a[BLOCK * q..], b[BLOCK * q..]);
    assert |a| == BLOCK * q + |a[BLOCK * q..]| && |b| == BLOCK * q + |b[BLOCK * q..]|;
    forall i | 0 <= i < |a|
      ensures a[i] == b[i]
    {
      WholeAgain(a, i, q);
      WholeAgain(b, i, q);
    }
  }

  // ----- in one call

  /** The whole hash in one call. */
  method Hash128(m: Mixer, msg: seq<Byte>, seed1: Word, seed2: Word) returns (r: Hash)
    ensures r == Digest(m, msg, seed1, seed2)
  {
    if |msg| < BUF {
      return m.short(msg, seed1, seed2);
    }
    var h := Start(seed1, seed2);
    var n := |msg| / BLOCK;
    var i := 0;
    while i < n
      invariant 0 <= i <= n
      invariant h == Absorb(m, Start(seed1, seed2), msg, i)
    {
      h := m.mix(msg[BLOCK * i..BLOCK * (i + 1)], h);
      i := i + 1;
    }
    h := m.mix(Padded(msg[BLOCK * n..]), h);
    return m.end(h);
  }

  /** Blocks that lie inside the message do not see what follows it. */
  lemma {:induction false} AbsorbPrefix(m: Mixer, h: Lanes, msg: seq<Byte>, more: seq<Byte>, n: nat)
    requires BLOCK * n <= |msg|
    ensures Absorb(m, h, msg + more, n) == Absorb(m, h, msg, n)
  {
    if n > 0 {
      AbsorbPrefix(m, h, msg, more, n - 1);
      assert (msg + more)[BLOCK * (n - 1)..BLOCK * n] == msg[BLOCK * (n - 1)..BLOCK * n];
    }
  }

  /** Copies bytes into a buffer at an offset. */
  method CopyInto(data: array<Byte>, at: nat, bytes: seq<Byte>)
    requires at + |bytes| <= data.Length
    modifies data
    ensures data[..at] == old(data[..at]) && data[at..at + |bytes|] == bytes
    ensures data[at + |bytes|..] == old(data[at + |bytes|..])
  {
    var i := 0;
    while i < |bytes|
      invariant 0 <= i <= |bytes|
      invariant forall j :: 0 <= j < at ==> data[j] == old(data[j])
      invariant forall j :: 0 <= j < i ==> data[at + j] == bytes[j]
      invariant forall j :: at + |bytes| <= j < data.Length ==> data[j] == old(data[j])
    {
      data[at + i] := bytes[i];
      i := i + 1;
    }
  }

  // ----- piece by piece

  /** What the fields say about the message so far: `n` whole blocks are absorbed, the rest is
      stashed. */
  ghost predicate Holds(m: Mixer, msg: seq<Byte>, seed1: Word, seed2: Word, stash: seq<Byte>, state: Lanes, n: nat) {
    && |stash| < BUF && BLOCK * n + |stash| == |msg| && stash == msg[BLOCK * n..]
    && (|msg| < BUF ==> n == 0 && state[0] == seed1 && state[1] == seed2)
    && (|msg| >= BUF ==> state == Absorb(m, Start(seed1, seed2), msg, n))
  }

  lemma Stashed(m: Mixer, msg: seq<Byte>, seed1: Word, seed2: Word, stash: seq<Byte>, state: Lanes, n: nat, more: seq<Byte>)
    requires Holds(m, msg, seed1, seed2, stash, state, n) && |stash| + |more| < BUF
    ensures Holds(m, msg + more, seed1, seed2, stash + more, state, n)
  {
    if |msg| >= BUF {
      AbsorbPrefix(m, Start(seed1, seed2), msg, more, n);
    }
  }

  /** The lanes with which absorbing goes on. */
  function Resume(msgLen: nat, state: Lanes): Lanes {
    if msgLen < BUF then Start(state[0], state[1]) else state
  }

  lemma Resumes(m: Mixer, msg: seq<Byte>, seed1: Word, seed2: Word, stash: seq<Byte>, state: Lanes, n: nat, more: seq<Byte>)
    requires Holds(m, msg, seed1, seed2, stash, state, n)
    ensures Resume(|msg|, state) == Absorb(m, Start(seed1, seed2), msg + more, n)
  {
    if |msg| >= BUF {
      AbsorbPrefix(m, Start(seed1, seed2), msg, more, n);
    }
  }

  /** One more block of the message. */
  lemma OneMore(m: Mixer, h0: Lanes, h: Lanes, msg: seq<Byte>, n: nat, block: seq<Byte>)
    requires BLOCK * (n + 1) <= |msg| && h == Absorb(m, h0, msg, n) && block == msg[BLOCK * n..BLOCK * (n + 1)]
    ensures m.mix(block, h) == Absorb(m, h0, msg, n + 1)
  {
  }

  /** A stash of at least one block starts with the last whole block of the message. */
  lemma LastWholeBlock(m: Mixer, h0: Lanes, msg: seq<Byte>, stash: seq<Byte>, h: Lanes, n: nat)
    requires BLOCK <= |stash| < BUF && BLOCK * n + |stash| == |msg| && stash == msg[BLOCK * n..]
    requires h == Absorb(m, h0, msg, n)
    ensures m.mix(stash[..BLOCK], h) == Absorb(m, h0, msg, n + 1)
  {
    assert stash[..BLOCK] == msg[BLOCK * n..BLOCK * (n + 1)];
    OneMore(m, h0, h, msg, n, stash[..BLOCK]);
  }

  lemma RestHolds(m: Mixer, message: seq<Byte>, seed1: Word, seed2: Word, piece: seq<Byte>, pos: nat, h: Lanes, n: nat)
    requires |message + piece| >= BUF && pos <= |piece| && |piece| - pos < BLOCK && |message| + pos == BLOCK * n
    requires h == Absorb(m, Start(seed1, seed2), message + piece, n)
    ensures Holds(m, message + piece, seed1, seed2, piece[pos..], h, n)
  {
  }

  lemma StashThenPiece(message: seq<Byte>, stash: seq<Byte>, piece: seq<Byte>, pos: nat, n: nat)
    requires BLOCK * n + |stash| == |message| && stash == message[BLOCK * n..]
    requires pos <= |piece| && |stash| + pos == BUF
    ensures var all := stash + piece[..pos];
            && all[..BLOCK] == (message + piece)[BLOCK * n..BLOCK * (n + 1)]
            && all[BLOCK..] == (message + piece)[BLOCK * (n + 1)..BLOCK * (n + 2)]
  {
  }

  /** The number of whole blocks is determined by the length. */
  lemma BlocksOf(len: nat, n: nat, rest: nat)
    requires BLOCK * n + rest == len && rest < BLOCK
    ensures n == len / BLOCK
  {
  }

  class SpookyHash {
    const m: Mixer
    const data: array<Byte>
    var state: Lanes
    var length: nat
    var remainder: nat
    ghost var seed1: Word
    ghost var seed2: Word
    ghost var message: seq<Byte>
    ghost var blocks: nat

    ghost predicate Valid()
      reads this, data
    {
      && data.Length == BUF && remainder < BUF && length == |message|
      && Holds(m, message, seed1, seed2, data[..remainder], state, blocks)
    }

    constructor (m: Mixer, seed1: Word, seed2: Word)
      ensures Valid() && fresh(data) && this.m == m && message == [] && this.seed1 == seed1 && this.seed2 == seed2
    {
      this.m := m;
      data := new Byte[BUF](_ => 0);
      state := [seed1, seed2, 0, 0, 0, 0, 0, 0, 0, 0, 0, 0];
      length, remainder := 0, 0;
      message, blocks := [], 0;
      this.seed1, this.seed2 := seed1, seed2;
    }

    /** A piece that does not fill the buffer is stashed. */
    method Stash(piece: seq<Byte>)
      requires Valid() && |piece| + remainder < BUF
      modifies this, data
      ensures Valid() && message == old(message) + piece && seed1 == old(seed1) && seed2 == old(seed2)
    {
      Stashed(m, message, seed1, seed2, data[..remainder], state, blocks, piece);
      CopyInto(data, remainder, piece);
      assert data[..remainder + |piece|] == old(data[..remainder]) + piece;
      length := length + |piece|;
      remainder := remainder + |piece|;
      message := message + piece;
    }

    /** Fills the stash up with the start of the piece and absorbs its two blocks. */
    method AbsorbStash(piece: seq<Byte>, h1: Lanes, ghost h0: Lanes) returns (h: Lanes, pos: nat)
      requires Valid() && |piece| + remainder >= BUF && remainder != 0
      requires h1 == Absorb(m, h0, message + piece, blocks)
      modifies data
      ensures pos == BUF - remainder && h == Absorb(m, h0, message + piece, blocks + 2)
    {
      ghost var n := blocks;
      pos := BUF - remainder;
      ghost var msg, stash := message + piece, data[..remainder];
      CopyInto(data, remainder, piece[..pos]);
      assert data[..] == stash + piece[..pos];
      StashThenPiece(message, stash, piece, pos, n);
      OneMore(m, h0, h1, msg, n, data[..BLOCK]);
      h := m.mix(data[..BLOCK], h1);
      OneMore(m, h0, h, msg, n + 1, data[BLOCK..]);
      h := m.mix(data[BLOCK..], h);
    }

    /** Adds a piece of the message. */
    method Update(piece: seq<Byte>)
      requires Valid()
      modifies this, data
      ensures Valid() && message == old(message) + piece && seed1 == old(seed1) && seed2 == old(seed2)
    {
      if |piece| + remainder < BUF {
        Stash(piece);
        return;
      }
      ghost var msg, h0 := message + piece, Start(seed1, seed2);
      Resumes(m, message, seed1, seed2, data[..remainder], state, blocks, piece);
      var h, pos := Resume(length, state), 0;
      ghost var n := blocks;
      if remainder != 0 {
        h, pos := AbsorbStash(piece, h, h0);
        n := n + 2;
      }
      h, pos, n := AbsorbRest(piece, pos, h, msg, h0, n);
      RestHolds(m, message, seed1, seed2, piece, pos, h, n);
      Keep(piece[pos..], |piece|, h, msg, n);
    }

    /** Stashes the last few bytes and the lanes. */
    method Keep(tail: seq<Byte>, more: nat, h: Lanes, ghost msg: seq<Byte>, ghost n: nat)
      requires data.Length == BUF && length + more == |msg| && Holds(m, msg, seed1, seed2, tail, h, n)
      modifies this, data
      ensures Valid() && message == msg && seed1 == old(seed1) && seed2 == old(seed2)
    {
      CopyInto(data, 0, tail);
      length := length + more;
      remainder := |tail|;
      state := h;
      message, blocks := msg, n;
      assert data[..remainder] == tail;
    }

    /** Absorbs the whole blocks of the piece from `from` on; `n` blocks of the message precede. */
    method AbsorbRest(piece: seq<Byte>, from: nat, h1: Lanes, ghost msg: seq<Byte>, ghost h0: Lanes, ghost n: nat)
      returns (h: Lanes, pos: nat, ghost k: nat)
      requires from <= |piece| <= |msg| && msg[|msg| - |piece|..] == piece && BLOCK * n == |msg| - |piece| + from
      requires h1 == Absorb(m, h0, msg, n)
      ensures from <= pos <= |piece| && |piece| - pos < BLOCK && BLOCK * k == |msg| - |piece| + pos
      ensures h == Absorb(m, h0, msg, k)
    {
      h, pos, k := h1, from, n;
      while pos + BLOCK <= |piece|
        invariant from <= pos <= |piece| && BLOCK * k == |msg| - |piece| + pos
        invariant h == Absorb(m, h0, msg, k)
      {
        assert piece[pos..pos + BLOCK] == msg[BLOCK * k..BLOCK * (k + 1)];
        OneMore(m, h0, h, msg, k, piece[pos..pos + BLOCK]);
        h := m.mix(piece[pos..pos + BLOCK], h);
        pos, k := pos + BLOCK, k + 1;
      }
    }

    /** The hash of the message so far. A message below 192 bytes is hashed under whatever the
        outputs held before the call; a longer one under the seeds. */
    method Final(out1: Word, out2: Word) returns (r: Hash)
      requires Valid()
      modifies data
      ensures Valid()
      ensures r == if |message| < BUF then m.short(message, out1, out2) else Digest(m, message, seed1, seed2)
    {
      if length < BUF {
        assert data[..length] == message;
        return m.short(data[..length], out1, out2);
      }
      ghost var n := blocks;
      var h, rest, from := state, remainder, 0;
      if rest >= BLOCK {
        LastWholeBlock(m, Start(seed1, seed2), message, data[..remainder], state, n);
        assert data[..remainder][..BLOCK] == data[..BLOCK];
        h := m.mix(data[..BLOCK], h);
        from, rest, n := BLOCK, rest - BLOCK, n + 1;
      }
      BlocksOf(|message|, n, rest);
      assert data[from..from + rest] == message[BLOCK * n..];
      PadTail(from, rest);
      h := m.mix(data[from..from + BLOCK], h);
      return m.end(h);
    }

    /** Zeroes what follows the last bytes and stores their number; the stash itself stays. */
    method PadTail(from: nat, rest: nat)
      requires data.Length == BUF && from + rest == remainder < BUF && rest < BLOCK && (from == 0 || from == BLOCK)
      modifies data
      ensures data[..remainder] == old(data[..remainder])
      ensures data[from..from + BLOCK] == Padded(old(data[from..from + rest]))
    {
      var zeroes := Zeroes(BLOCK - rest);
      ghost var tail := data[from..from + rest];
      CopyInto(data, remainder, zeroes);
      assert data[from..remainder] == tail && data[remainder..from + BLOCK] == zeroes;
      data[from + BLOCK - 1] := rest;
      assert data[from..from + BLOCK] == tail + zeroes[..BLOCK - 1 - rest] + [rest];
    }
  }

  // ----- any split of a message

  function Concat(pieces: seq<seq<Byte>>): seq<Byte> {
    if pieces == [] then [] else Concat(pieces[..|pieces| - 1]) + pieces[|pieces| - 1]
  }

  /** Hashing a message piece by piece, asking for the hash after every piece with the outputs
      preloaded with the seeds, gives each time what one call on the pieces so far gives; asking
      does not disturb what follows. */
  method HashPieces(m: Mixer, pieces: seq<seq<Byte>>, seed1: Word, seed2: Word) returns (hashes: seq<Hash>)
    ensures |hashes| == |pieces|
    ensures forall i :: 0 <= i < |pieces| ==> hashes[i] == Digest(m, Concat(pieces[..i + 1]), seed1, seed2)
  {
    var spooky := new SpookyHash(m, seed1, seed2);
    hashes := [];
    var i := 0;
    while i < |pieces|
      invariant 0 <= i <= |pieces| && |hashes| == i
      invariant fresh(spooky) && fresh(spooky.data) && spooky.Valid() && spooky.m == m
      invariant spooky.seed1 == seed1 && spooky.seed2 == seed2 && spooky.message == Concat(pieces[..i])
      invariant forall j :: 0 <= j < i ==> hashes[j] == Digest(m, Concat(pieces[..j + 1]), seed1, seed2)
    {
      assert pieces[..i + 1][..i] == pieces[..i];
      spooky.Update(pieces[i]);
      var r := spooky.Final(seed1, seed2);
      hashes := hashes + [r];
      i := i + 1;
    }
  }

  /** Below 192 bytes the outputs are inputs too: unless they hold the seeds, some `short` tells the
      difference. */
  lemma PreloadMatters(msg: seq<Byte>, seed1: Word, seed2: Word, out1: Word, out2: Word)
    requires |msg| < BUF
    ensures (forall m: Mixer :: m.short(msg, out1, out2) == Digest(m, msg, seed1, seed2)) <==> (out1, out2) == (seed1, seed2)
  {
    if (out1, out2) != (seed1, seed2) {
      var m := Mixer((_, h) => h, h => (h[0], h[1]), (_, a, b) => (a, b));
      assert m.short(msg, out1, out2) != Digest(m, msg, seed1, seed2);
    }
  }
}
