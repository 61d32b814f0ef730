/**
 The two byte streams of a connection: commands that arrive in pieces and are taken line by line,
 and responses that the kernel takes in parts. What the kernel does is a parameter of each call.
 */
module Connection {
  import opened Basics
  import opened Ring

  /** How many response buffers one `writev` takes. */
  const IOV_MAX := 1024

  // ----- input

  /** A line as it arrived: the NUL is the terminator again. */
  function AsReceived(line: seq<Byte>, term: Byte): seq<Byte>
    requires |line| > 0
  {
    line[..|line| - 1] + [term]
  }

  /** The size of the buffer before a read: it is grown if less than half of it is free. */
  function Roomy(size: nat, used: nat): nat {
    if size - 1 - used < size / 2 then size * MULTIPLIER else size
  }

  /** What the client sent, and what of it was taken so far. */
  class Input {
    const ring: CircBuf
    ghost var received: seq<Byte>
    ghost var taken: seq<Byte>

    ghost predicate Valid()
      reads this, ring, ring.buffer
    {
      && ring.Valid() && ring.buffer.Length >= INIT_SIZE && ring.writeCursor < ring.buffer.Length
      && received == taken + ring.Contents()
    }

    constructor ()
      ensures Valid() && fresh(ring) && fresh(ring.buffer) && received == taken == []
    {
      ring := new CircBuf();
      received, taken := [], [];
    }

    /** Reads once from the socket, where `incoming` waits and the kernel hands over at most `limit`
        bytes of it; 0 bytes mean that the client has gone. The buffer is grown first if less than
        half of it is free, so that something can always be read. */
    method ReadClientData(incoming: seq<Byte>, limit: nat) returns (status: int, n: nat)
      requires Valid()
      modifies this, ring, ring.buffer
      ensures Valid() && (ring.buffer == old(ring.buffer) || fresh(ring.buffer))
      ensures taken == old(taken) && n <= |incoming| && received == old(received) + incoming[..n]
      ensures status == if n == 0 then 1 else 0
      ensures n == MinOf(ring.buffer.Length - 1 - |old(ring.Contents())|, MinOf(|incoming|, limit))
      ensures n == 0 <==> limit == 0 || incoming == []
      ensures ring.buffer.Length == Roomy(old(ring.buffer.Length), |old(ring.Contents())|)
    {
      var avail := PrepareRead();
      n := MinOf(avail, MinOf(|incoming|, limit));
      if n == 0 {
        assert incoming[..n] == [];
        return 1, 0;
      }
      ring.Receive(incoming[..n]);
      received := received + incoming[..n];
      return 0, n;
    }

    method PrepareRead() returns (avail: nat)
      requires Valid()
      modifies ring
      ensures Valid() && (ring.buffer == old(ring.buffer) || fresh(ring.buffer)) && ring.Contents() == old(ring.Contents())
      ensures 0 < avail == ring.buffer.Length - 1 - |ring.Contents()|
      ensures ring.buffer.Length == Roomy(old(ring.buffer.Length), |old(ring.Contents())|)
    {
      avail := ring.Avail();
      if avail < ring.buffer.Length / 2 {
        ring.Grow();
        avail := ring.Avail();
      }
    }

    /** Takes the next line, if there is a whole one. */
    method ExtractToTerminator(term: Byte) returns (found: bool, line: seq<Byte>)
      requires Valid()
      modifies this, ring, ring.buffer
      ensures Valid() && received == old(received) && ring.buffer == old(ring.buffer)
      ensures found <==> term in old(received)[|old(taken)|..]
      ensures found ==> |line| > 0 && term !in line[..|line| - 1] && taken == old(taken) + AsReceived(line, term)
      ensures !found ==> taken == old(taken)
    {
      assert received[|taken|..] == ring.Contents();
      found, line := ring.ExtractToTerminator(term);
      if found {
        taken := taken + AsReceived(line, term);
      }
    }
  }

  // ----- output

  /** What one `writev` does: takes some bytes, takes none for now, or fails for good. */
  datatype Kernel = Took(n: nat) | Busy | Broken

  /** How many of `total` bytes a write takes. */
  function Accepted(kernel: Kernel, total: nat): (k: nat)
    ensures k <= total
  {
    if kernel.Took? then MinOf(kernel.n, total) else 0
  }

  predicate TakesAll(kernel: Kernel, total: nat) {
    kernel.Took? && kernel.n >= total
  }

  function Flat(bufs: seq<seq<Byte>>): seq<Byte> {
    if bufs == [] then [] else Flat(bufs[..|bufs| - 1]) + bufs[|bufs| - 1]
  }

  /** The bytes before buffer `i`. */
  function Before(bufs: seq<seq<Byte>>, i: nat): (n: nat)
    requires i <= |bufs|
  {
    |Flat(bufs[..i])|
  }

  lemma FlatStep(bufs: seq<seq<Byte>>, i: nat)
    requires i < |bufs|
    ensures Flat(bufs[..i + 1]) == Flat(bufs[..i]) + bufs[i]
    ensures Before(bufs, i + 1) == Before(bufs, i) + |bufs[i]|
  {
    assert bufs[..i + 1][..i] == bufs[..i];
  }

  lemma {:induction false} FlatPrefix(bufs: seq<seq<Byte>>, i: nat)
    requires i <= |bufs|
    ensures Flat(bufs[..i]) <= Flat(bufs)
    decreases |bufs| - i
  {
    if i < |bufs| {
      FlatPrefix(bufs, i + 1);
      FlatStep(bufs, i);
    } else {
      assert bufs[..i] == bufs;
    }
  }

  lemma {:induction false} FlatJoin(a: seq<seq<Byte>>, b: seq<seq<Byte>>)
    ensures Flat(a + b) == Flat(a) + Flat(b)
    decreases |b|
  {
    if b == [] {
      assert a + b == a;
    } else {
      var n := |b| - 1;
      FlatJoin(a, b[..n]);
      assert (a + b)[..|a| + n] == a + b[..n];
    }
  }

  lemma ChunkJoins(bufs: seq<seq<Byte>>, offset: nat, chunk: seq<seq<Byte>>, next: nat, was: seq<Byte>, goal: seq<Byte>)
    requires offset <= next <= |bufs| && chunk == bufs[offset..next] && goal == was + Flat(bufs[..offset])
    ensures goal + Flat(chunk) == was + Flat(bufs[..next])
  {
    assert bufs[..next] == bufs[..offset] + chunk;
    FlatJoin(bufs[..offset], chunk);
  }

  /** From byte `from` on, the part that buffer `i` holds. */
  lemma FlatPart(bufs: seq<seq<Byte>>, i: nat, from: nat)
    requires i < |bufs| && Before(bufs, i) <= from <= Before(bufs, i + 1)
    ensures Before(bufs, i + 1) == Before(bufs, i) + |bufs[i]| <= |Flat(bufs)|
    ensures Flat(bufs)[from..Before(bufs, i + 1)] == bufs[i][from - Before(bufs, i)..]
  {
    FlatStep(bufs, i);
    FlatPrefix(bufs, i + 1);
    var all := Flat(bufs);
    assert all[..Before(bufs, i + 1)] == Flat(bufs[..i]) + bufs[i];
    assert all[from..Before(bufs, i + 1)] == all[..Before(bufs, i + 1)][from..];
  }

  lemma PartStep(bufs: seq<seq<Byte>>, all: seq<Byte>, i: nat, from: nat, pos: nat, offset: nat)
    requires i < |bufs| && all == Flat(bufs) && from <= pos <= |all|
    requires pos == Before(bufs, i) + offset && pos <= Before(bufs, i + 1)
    ensures offset <= |bufs[i]| && pos <= Before(bufs, i + 1) <= |all|
    ensures all[from..pos] + bufs[i][offset..] == all[from..Before(bufs, i + 1)]
  {
    FlatPart(bufs, i, pos);
  }

  method TotalBytes(bufs: seq<seq<Byte>>) returns (total: nat)
    ensures total == |Flat(bufs)|
  {
    total := 0;
    var i := 0;
    while i < |bufs|
      invariant 0 <= i <= |bufs| && total == Before(bufs, i)
    {
      FlatStep(bufs, i);
      total := total + |bufs[i]|;
      i := i + 1;
    }
    assert bufs[..i] == bufs;
  }

  /** The buffer at which a partial write left off, and the bytes before it; a write that was
      refused counts as -1 bytes. */
  method LeftOff(bufs: seq<seq<Byte>>, n: int) returns (index: nat, skip: nat)
    requires -1 <= n < |Flat(bufs)|
    ensures index <= |bufs| && skip == Before(bufs, index) && skip <= Max0(n)
    ensures index < |bufs| ==> n < Before(bufs, index + 1)
    ensures index == |bufs| ==> bufs == []
  {
    index, skip := 0, 0;
    while index < |bufs|
      invariant 0 <= index <= |bufs| && skip == Before(bufs, index) && skip <= Max0(n)
      invariant index > 0 ==> skip <= n
    {
      FlatStep(bufs, index);
      if skip + |bufs[index]| > n {
        return;
      }
      skip := skip + |bufs[index]|;
      index := index + 1;
    }
    assert bufs[..index] == bufs;
  }

  ghost predicate AskedUpTo(bufs: seq<seq<Byte>>, i: nat, was: seq<Byte>, asked: seq<Byte>)
    requires i <= |bufs|
  {
    asked == was + Flat(bufs[..i])
  }

  lemma AskedNone(bufs: seq<seq<Byte>>, was: seq<Byte>)
    ensures AskedUpTo(bufs, 0, was, was)
  {
    assert bufs[..0] == [] && was + [] == was;
  }

  lemma AskedOneMore(bufs: seq<seq<Byte>>, i: nat, was: seq<Byte>, asked: seq<Byte>)
    requires i < |bufs| && AskedUpTo(bufs, i, was, asked)
    ensures AskedUpTo(bufs, i + 1, was, asked + bufs[i])
  {
    FlatStep(bufs, i);
  }

  function Max0(n: int): nat { if n < 0 then 0 else n }

  // ----- what goes over the wire

  /** The buffers of the chunk at `offset`. */
  function Chunk(bufs: seq<seq<Byte>>, offset: nat): seq<seq<Byte>>
    requires offset < |bufs|
  {
    bufs[offset..offset + MinOf(|bufs| - offset, IOV_MAX)]
  }

  /** What the kernel takes of the buffers from `offset` on while none is queued: whole chunks, then
      part of one; what follows that is queued and not offered again. */
  function OnWire(bufs: seq<seq<Byte>>, kernel: nat -> Kernel, offset: nat): seq<Byte>
    decreases |bufs| - offset
  {
    if offset >= |bufs| then []
    else
      var bytes := Flat(Chunk(bufs, offset));
      if TakesAll(kernel(offset), |bytes|) then bytes + OnWire(bufs, kernel, offset + IOV_MAX)
      else bytes[..Accepted(kernel(offset), |bytes|)]
  }

  /** What the kernel is still going to take, if the connection has neither begun to queue nor failed. */
  function ToCome(bufs: seq<seq<Byte>>, kernel: nat -> Kernel, offset: nat, stopped: bool): seq<Byte> {
    if stopped then [] else OnWire(bufs, kernel, offset)
  }

  lemma WireStep(bufs: seq<seq<Byte>>, kernel: nat -> Kernel, offset: nat, chunk: seq<seq<Byte>>, before: seq<Byte>)
    requires offset < |bufs| && chunk == Chunk(bufs, offset)
    ensures var bytes := Flat(chunk); var all := TakesAll(kernel(offset), |bytes|);
            before + bytes[..Accepted(kernel(offset), |bytes|)] + ToCome(bufs, kernel, offset + IOV_MAX, !all) ==
              before + OnWire(bufs, kernel, offset)
  {
    var bytes, next := Flat(chunk), offset + IOV_MAX;
    var k := Accepted(kernel(offset), |bytes|);
    if TakesAll(kernel(offset), |bytes|) {
      assert k == |bytes| && bytes[..k] == bytes;
      WireJoins(before, bytes, OnWire(bufs, kernel, next));
      assert OnWire(bufs, kernel, offset) == bytes + OnWire(bufs, kernel, next);
    } else {
      assert OnWire(bufs, kernel, offset) == bytes[..k];
    }
  }

  lemma WireJoins(a: seq<Byte>, b: seq<Byte>, c: seq<Byte>)
    ensures a + b + c == a + (b + c)
  {
  }

  /** The chunks before `offset` have been asked for, and what was sent and is still to come makes up
      `wire`. */
  ghost predicate SentSoFar(bufs: seq<seq<Byte>>, kernel: nat -> Kernel, offset: nat, fine: bool, queueing: bool,
                            was: seq<Byte>, asked: seq<Byte>, wire: seq<Byte>, sent: seq<Byte>) {
    && (fine ==> asked == was + Flat(bufs[..MinOf(offset, |bufs|)]))
    && sent + ToCome(bufs, kernel, offset, !fine || queueing) == wire
  }

  lemma NothingSent(bufs: seq<seq<Byte>>, kernel: nat -> Kernel, was: seq<Byte>, sent: seq<Byte>, queueing: bool)
    ensures SentSoFar(bufs, kernel, 0, true, queueing, was, was, sent + ToCome(bufs, kernel, 0, queueing), sent)
  {
    assert bufs[..0] == [] && was + [] == was;
  }

  lemma AllSent(bufs: seq<seq<Byte>>, kernel: nat -> Kernel, offset: nat, fine: bool, queueing: bool,
                was: seq<Byte>, asked: seq<Byte>, wire: seq<Byte>, sent: seq<Byte>)
    requires SentSoFar(bufs, kernel, offset, fine, queueing, was, asked, wire, sent) && (!fine || offset >= |bufs|)
    ensures sent == wire && (fine ==> asked == was + Flat(bufs))
  {
    assert bufs[..|bufs|] == bufs;
  }

  /** The rest of the buffers, chunk by chunk. */
  lemma ChunkThenRest(bufs: seq<seq<Byte>>, offset: nat)
    requires offset < |bufs|
    ensures Flat(bufs[offset..]) == Flat(Chunk(bufs, offset)) + if offset + IOV_MAX < |bufs| then Flat(bufs[offset + IOV_MAX..]) else []
  {
    if offset + IOV_MAX < |bufs| {
      assert bufs[offset..] == Chunk(bufs, offset) + bufs[offset + IOV_MAX..];
      FlatJoin(Chunk(bufs, offset), bufs[offset + IOV_MAX..]);
    } else {
      assert bufs[offset..] == Chunk(bufs, offset);
    }
  }

  /** The wire carries the start of the response, and all of it if every write takes all it is given. */
  lemma {:induction false} WireIsPrefix(bufs: seq<seq<Byte>>, kernel: nat -> Kernel, offset: nat)
    requires offset <= |bufs|
    ensures OnWire(bufs, kernel, offset) <= Flat(bufs[offset..])
    ensures (forall i :: TakesAll(kernel(i), |Flat(bufs)|)) ==> OnWire(bufs, kernel, offset) == Flat(bufs[offset..])
    decreases |bufs| - offset
  {
    if offset < |bufs| {
      var bytes := Flat(Chunk(bufs, offset));
      ChunkThenRest(bufs, offset);
      PartLength(bufs, offset);
      if offset + IOV_MAX < |bufs| {
        WireIsPrefix(bufs, kernel, offset + IOV_MAX);
      }
    }
  }

  lemma PartLength(bufs: seq<seq<Byte>>, offset: nat)
    requires offset < |bufs|
    ensures |Flat(Chunk(bufs, offset))| <= |Flat(bufs)|
  {
    assert bufs == bufs[..offset] + bufs[offset..];
    FlatJoin(bufs[..offset], bufs[offset..]);
    ChunkThenRest(bufs, offset);
  }

  /** `asked` is every response handed over, `sent` what the kernel took; `sound` says that no drain
      has ended with the write cursor at the end of the buffer. */
  class Output {
    const ring: CircBuf
    var useWriteBuf: bool
    var active: bool
    ghost var asked: seq<Byte>
    ghost var sent: seq<Byte>
    ghost var sound: bool

    ghost predicate Valid()
      reads this, ring, ring.buffer
    {
      && (sound ==> ring.Valid() && ring.readCursor < ring.buffer.Length)
      && (sound && active ==> asked == sent + ring.Contents() && (!useWriteBuf ==> ring.Contents() == []))
    }

    constructor ()
      ensures Valid() && fresh(ring) && fresh(ring.buffer) && sound && active && asked == sent == []
    {
      ring := new CircBuf();
      useWriteBuf, active := false, true;
      asked, sent, sound := [], [], true;
    }

    method Queue(buf: seq<Byte>)
      requires Valid() && sound && active && useWriteBuf
      modifies this`asked, ring, ring.buffer
      ensures Valid() && asked == old(asked) + buf
      ensures ring.buffer == old(ring.buffer) || fresh(ring.buffer)
    {
      ring.Write(buf);
      asked := asked + buf;
    }

    /** Queues every buffer. */
    method SendBuffered(bufs: seq<seq<Byte>>)
      requires Valid() && sound && active && useWriteBuf
      modifies this`asked, ring, ring.buffer
      ensures Valid() && asked == old(asked) + Flat(bufs)
      ensures ring.buffer == old(ring.buffer) || fresh(ring.buffer)
    {
      var i := 0;
      ghost var was := asked;
      AskedNone(bufs, was);
      while i < |bufs|
        invariant 0 <= i <= |bufs| && Valid() && AskedUpTo(bufs, i, was, asked)
        invariant ring.buffer == old(ring.buffer) || fresh(ring.buffer)
      {
        AskedOneMore(bufs, i, was, asked);
        Queue(bufs[i]);
        i := i + 1;
      }
      assert bufs[..i] == bufs;
    }

    /** Queues what follows the first `n` bytes of the buffers. */
    method QueueRest(bufs: seq<seq<Byte>>, index: nat, skip: nat, n: int)
      requires sound && ring.Valid() && ring.readCursor < ring.buffer.Length && ring.Contents() == []
      requires -1 <= n < |Flat(bufs)| || bufs == []
      requires index <= |bufs| && skip == Before(bufs, index) && skip <= Max0(n)
      requires index < |bufs| ==> n < Before(bufs, index + 1)
      requires index == |bufs| ==> bufs == []
      modifies ring, ring.buffer
      ensures ring.Valid() && ring.readCursor < ring.buffer.Length
      ensures bufs != [] ==> 0 <= Max0(n) <= |Flat(bufs)| && ring.Contents() == Flat(bufs)[Max0(n)..]
      ensures bufs == [] ==> ring.Contents() == []
      ensures ring.buffer == old(ring.buffer) || fresh(ring.buffer)
    {
      var i := index;
      ghost var all, from, pos := Flat(bufs), Max0(n), Max0(n);
      while i < |bufs|
        invariant index <= i <= |bufs| && ring.Valid() && ring.readCursor < ring.buffer.Length
        invariant bufs != [] ==> from <= pos <= |all| && ring.Contents() == all[from..pos]
        invariant bufs == [] ==> ring.Contents() == []
        invariant pos == if i == index then from else Before(bufs, i)
        invariant ring.buffer == old(ring.buffer) || fresh(ring.buffer)
      {
        var offset := if i == index && skip < n then n - skip else 0;
        FlatStep(bufs, i);
        PartStep(bufs, all, i, from, pos, offset);
        ring.Write(bufs[i][offset..]);
        i, pos := i + 1, Before(bufs, i + 1);
      }
      if bufs != [] {
        assert bufs[..i] == bufs;
      }
    }

    /** Hands the buffers to the kernel and queues what it does not take. */
    method SendDirect(bufs: seq<seq<Byte>>, kernel: Kernel) returns (res: int)
      requires Valid() && sound && active && !useWriteBuf
      modifies this`asked, this`sent, this`useWriteBuf, ring, ring.buffer
      ensures Valid() && (ring.buffer == old(ring.buffer) || fresh(ring.buffer))
      ensures res == if kernel.Broken? then 1 else 0
      ensures asked == old(asked) + if res == 0 then Flat(bufs) else []
      ensures sent == old(sent) + Flat(bufs)[..Accepted(kernel, |Flat(bufs)|)]
      ensures useWriteBuf <==> res == 0 && !TakesAll(kernel, |Flat(bufs)|)
    {
      var total := TotalBytes(bufs);
      if kernel.Broken? {
        return 1;
      }
      var n: int := if kernel.Took? then MinOf(kernel.n, total) else -1;
      ghost var all := Flat(bufs);
      asked := asked + all;
      if n == total {
        sent := sent + all;
        return 0;
      }
      var index, skip := LeftOff(bufs, n);
      QueueRest(bufs, index, skip, n);
      useWriteBuf := true;
      sent := sent + all[..Max0(n)];
      return 0;
    }

    method SendChunk(bufs: seq<seq<Byte>>, kernel: Kernel) returns (res: int)
      requires Valid() && sound && active
      modifies this`asked, this`sent, this`useWriteBuf, ring, ring.buffer
      ensures Valid() && (ring.buffer == old(ring.buffer) || fresh(ring.buffer))
      ensures res == if !old(useWriteBuf) && kernel.Broken? then 1 else 0
      ensures asked == old(asked) + if res == 0 then Flat(bufs) else []
      ensures sent == old(sent) + if old(useWriteBuf) then [] else Flat(bufs)[..Accepted(kernel, |Flat(bufs)|)]
      ensures useWriteBuf <==> old(useWriteBuf) || (res == 0 && !TakesAll(kernel, |Flat(bufs)|))
    {
      if useWriteBuf {
        SendBuffered(bufs);
        res := 0;
      } else {
        res := SendDirect(bufs, kernel);
      }
    }

    /** Sends a response in chunks of at most `IOV_MAX` buffers; `kernel` tells what the write of
        each chunk does. A connection that fails is no longer active. */
    method SendResponse(bufs: seq<seq<Byte>>, kernel: nat -> Kernel) returns (res: int)
      requires Valid() && sound
      modifies this, ring, ring.buffer
      ensures Valid() && sound && (ring.buffer == old(ring.buffer) || fresh(ring.buffer))
      ensures !old(active) ==> res == 0 && !active
      ensures old(active) ==> (active <==> res == 0)
      ensures active ==> asked == old(asked) + Flat(bufs)
      ensures sent == old(sent) + ToCome(bufs, kernel, 0, !old(active) || old(useWriteBuf))
    {
      if !active {
        return 0;
      }
      res := SendChunks(bufs, kernel);
      if res != 0 {
        active := false;
      }
    }

    method SendChunks(bufs: seq<seq<Byte>>, kernel: nat -> Kernel) returns (res: int)
      requires Valid() && sound && active
      modifies this`asked, this`sent, this`useWriteBuf, ring, ring.buffer
      ensures Valid() && (ring.buffer == old(ring.buffer) || fresh(ring.buffer))
      ensures res == 0 ==> asked == old(asked) + Flat(bufs)
      ensures sent == old(sent) + ToCome(bufs, kernel, 0, old(useWriteBuf))
    {
      res := 0;
      var offset := 0;
      ghost var was, wire := asked, sent + ToCome(bufs, kernel, 0, useWriteBuf);
      NothingSent(bufs, kernel, was, sent, useWriteBuf);
      while offset < |bufs| && res == 0
        invariant Valid() && (ring.buffer == old(ring.buffer) || fresh(ring.buffer)) && 0 <= offset
        invariant SentSoFar(bufs, kernel, offset, res == 0, useWriteBuf, was, asked, wire, sent)
        decreases |bufs| - offset
      {
        res := SendNext(bufs, kernel, offset, was, wire);
        offset := offset + IOV_MAX;
      }
      AllSent(bufs, kernel, offset, res == 0, useWriteBuf, was, asked, wire, sent);
    }

    /** Sends the chunk at `offset`. */
    method SendNext(bufs: seq<seq<Byte>>, kernel: nat -> Kernel, offset: nat, ghost was: seq<Byte>, ghost wire: seq<Byte>)
      returns (res: int)
      requires Valid() && sound && active && offset < |bufs|
      requires SentSoFar(bufs, kernel, offset, true, useWriteBuf, was, asked, wire, sent)
      modifies this`asked, this`sent, this`useWriteBuf, ring, ring.buffer
      ensures Valid() && (ring.buffer == old(ring.buffer) || fresh(ring.buffer))
      ensures SentSoFar(bufs, kernel, offset + IOV_MAX, res == 0, useWriteBuf, was, asked, wire, sent)
    {
      var count := MinOf(|bufs| - offset, IOV_MAX);
      var chunk := bufs[offset..offset + count];
      ChunkJoins(bufs, offset, chunk, offset + count, was, asked);
      if !useWriteBuf {
        WireStep(bufs, kernel, offset, chunk, sent);
      }
      res := SendChunk(chunk, kernel(offset));
    }

    /** The socket takes queued bytes again. The queue survives unless the write takes everything
        while the write cursor stands at the end of the buffer: then all that was asked for has been
        sent, but the buffering stays on and the whole buffer counts as queued. */
    method HandleWritebuf(kernel: Kernel)
      requires Valid() && sound
      modifies this, ring
      ensures Valid() && asked == old(asked)
      ensures sound <==> !(old(active) && kernel.Took? && kernel.n > 0 && |old(ring.Contents())| > 0 &&
                           old(ring.writeCursor) == ring.buffer.Length && kernel.n >= |old(ring.Contents())|)
      ensures active <==> old(active) && !kernel.Broken?
      ensures !sound ==> sent == asked && useWriteBuf && ring.readCursor == 0 && ring.writeCursor == ring.buffer.Length
      ensures var queue := old(ring.Contents()); var k := if old(active) then Accepted(kernel, |queue|) else 0;
              && sent == old(sent) + queue[..k]
              && (sound ==> ring.Contents() == queue[k..] && (useWriteBuf <==> old(useWriteBuf) && !(0 < k == |queue|)))
    {
      if !active {
        return;
      }
      var v := ring.WriteVectors();
      if kernel.Broken? {
        active := false;
        return;
      }
      var n := if kernel.Took? then MinOf(kernel.n, TotalLen(v)) else 0;
      if n > 0 {
        Drain(n);
      }
    }

    method Drain(n: nat)
      requires Valid() && sound && active && 0 < n <= |ring.Contents()|
      modifies this`sent, this`sound, this`useWriteBuf, ring
      ensures Valid() && ring.buffer == old(ring.buffer)
      ensures sound <==> !(old(ring.writeCursor) == ring.buffer.Length && n == |old(ring.Contents())|)
      ensures !sound ==> sent == asked && useWriteBuf && ring.readCursor == 0 && ring.writeCursor == ring.buffer.Length
      ensures var queue := old(ring.Contents());
              && sent == old(sent) + queue[..n]
              && (sound ==> ring.Contents() == queue[n..] && (useWriteBuf <==> old(useWriteBuf) && n < |queue|))
    {
      ghost var queue := ring.Contents();
      ring.AdvanceRead(n);
      assert queue == queue[..n] + queue[n..];
      sent := sent + queue[..n];
      sound := ring.Valid();
      if ring.readCursor == ring.writeCursor {
        useWriteBuf := false;
      }
    }
  }
}
