/** The circular buffers of a connection, as byte queues. */
module Ring {
  import opened Basics

  const INIT_SIZE := 4096
  const MULTIPLIER := 8

  /** A piece of the buffer handed to the kernel, and the one or two pieces of a call. */
  datatype Vector = Vector(base: nat, len: nat)

  datatype Vectors = One(first: Vector) | Two(first: Vector, second: Vector)

  function TotalLen(v: Vectors): nat {
    v.first.len + if v.Two? then v.second.len else 0
  }

  predicate Inside(v: Vectors, size: nat) {
    v.first.base + v.first.len <= size && (v.Two? ==> v.second.base + v.second.len <= size)
  }

  /** What the kernel takes from the vectors, in order. */
  function Gathered(b: seq<Byte>, v: Vectors): seq<Byte>
    requires Inside(v, |b|)
  {
    b[v.first.base..v.first.base + v.first.len] +
    if v.Two? then b[v.second.base..v.second.base + v.second.len] else []
  }

  /** `(a % size)` where the cursor can pass the end once. */
  lemma WrapOnce(a: nat, size: nat)
    requires 0 < size && a < 2 * size
    ensures a % size == if a < size then a else a - size
  {
    if size <= a {
      assert a == (a - size) + size;
    }
  }

  /** What lies between the cursors. */
  function Queue(buffer: seq<Byte>, r: nat, w: nat): (q: seq<Byte>)
    requires r <= |buffer| && w <= |buffer|
    ensures |q| == if w < r then |buffer| - r + w else w - r
  {
    if w < r then buffer[r..] + buffer[..w] else buffer[r..w]
  }

  /** Whether the cursors stand for a queue that leaves a byte free. */
  predicate Sound(size: nat, r: nat, w: nat) {
    size > 0 && r <= size && w <= size && !(r == 0 && w == size)
  }

  /** Copies bytes to one place of the buffer. */
  method CopyTo(buffer: array<Byte>, at: nat, bytes: seq<Byte>)
    requires at + |bytes| <= buffer.Length
    modifies buffer
    ensures buffer[..] == old(buffer[..at]) + bytes + old(buffer[at + |bytes|..])
  {
    var i := 0;
    while i < |bytes|
      invariant 0 <= i <= |bytes|
      invariant forall j :: 0 <= j < at ==> buffer[j] == old(buffer[j])
      invariant forall j :: 0 <= j < i ==> buffer[at + j] == bytes[j]
      invariant forall j :: at + |bytes| <= j < buffer.Length ==> buffer[j] == old(buffer[j])
    {
      buffer[at + i] := bytes[i];
      i := i + 1;
    }
  }

  /** Copies the first `k` bytes up to the end of the buffer and the others to its start. */
  method CopyAround(buffer: array<Byte>, at: nat, bytes: seq<Byte>, k: nat)
    requires at + k == buffer.Length && k <= |bytes| <= buffer.Length
    modifies buffer
    ensures buffer[..] == bytes[k..] + old(buffer[..])[|bytes| - k..at] + bytes[..k]
  {
    ghost var b := buffer[..];
    CopyTo(buffer, at, bytes[..k]);
    assert buffer[..] == b[..at] + bytes[..k];
    CopyTo(buffer, 0, bytes[k..]);
    assert buffer[..] == bytes[k..] + (b[..at] + bytes[..k])[|bytes| - k..];
  }

  /** The first position of `c` in a stretch of the buffer, or its end. */
  method Find(buffer: array<Byte>, from: nat, end: nat, c: Byte) returns (i: nat)
    requires from <= end <= buffer.Length
    ensures from <= i <= end && (i < end ==> buffer[i] == c)
    ensures c !in buffer[from..i]
  {
    i := from;
    while i < end && buffer[i] != c
      invariant from <= i <= end
      invariant forall j :: from <= j < i ==> buffer[j] != c
    {
      i := i + 1;
    }
  }

  // ----- appending, on values

  /** Where the write cursor stands after `n` more bytes; it may be the end of the buffer. */
  function Moved(size: nat, r: nat, w: nat, n: nat): int {
    if w < r || n <= size - w then w + n else n - (size - w)
  }

  /** Bytes written over the free space in one stretch, the write cursor not passing the end. */
  lemma AppendStraight(b: seq<Byte>, b': seq<Byte>, r: nat, w: nat, bytes: seq<Byte>)
    requires Sound(|b|, r, w) && w + |bytes| <= |b| && (w < r ==> w + |bytes| < r)
    requires b' == b[..w] + bytes + b[w + |bytes|..]
    ensures Queue(b', r, w + |bytes|) == Queue(b, r, w) + bytes
  {
    if w < r {
      assert b'[r..] == b[r..];
      assert b'[..w + |bytes|] == b[..w] + bytes;
    } else {
      assert b'[r..w + |bytes|] == b[r..w] + bytes;
    }
  }

  /** Bytes written up to the end of the buffer and on from its start. */
  lemma AppendWrapped(b: seq<Byte>, b': seq<Byte>, r: nat, w: nat, bytes: seq<Byte>, k: nat)
    requires Sound(|b|, r, w) && r <= w && k == |b| - w <= |bytes| && |bytes| - k < r
    requires b' == bytes[k..] + b[|bytes| - k..w] + bytes[..k]
    ensures Queue(b', r, |bytes| - k) == Queue(b, r, w) + bytes
  {
    assert b'[r..] == b[r..w] + bytes[..k];
    assert b'[..|bytes| - k] == bytes[k..];
    assert bytes == bytes[..k] + bytes[k..];
  }

  /** The buffer after the kernel has put `data` at the write cursor, going on from the start. */
  ghost predicate Scattered(b: seq<Byte>, b': seq<Byte>, w: nat, data: seq<Byte>) {
    && w <= |b| && |data| <= |b|
    && var k := |b| - w;
       if |data| <= k then b' == b[..w] + data + b[w + |data|..]
       else |data| - k <= w && b' == data[k..] + b[|data| - k..w] + data[..k]
  }

  lemma AppendAround(b: seq<Byte>, b': seq<Byte>, r: nat, w: nat, data: seq<Byte>)
    requires Sound(|b|, r, w) && |data| < |b| - |Queue(b, r, w)| && Scattered(b, b', w, data)
    ensures |b'| == |b| && Sound(|b|, r, (w + |data|) % |b|)
    ensures Queue(b', r, (w + |data|) % |b|) == Queue(b, r, w) + data
  {
    WrapOnce(w + |data|, |b|);
    if w + |data| < |b| {
      AppendStraight(b, b', r, w, data);
    } else {
      assert w + |data| == |b| ==> data == data[..|data|] && b' == [] + b[..w] + data;
      AppendWrapped(b, b', r, w, data, |b| - w);
    }
  }

  // ----- taking a line, on values

  lemma SplitStraight(b: seq<Byte>, b': seq<Byte>, r: nat, w: nat, i: nat)
    requires r <= i < (if w < r then |b| else w) && w <= |b| && b' == b[i := 0]
    ensures Queue(b, r, w) == b[r..i] + [b[i]] + Queue(b', i + 1, w)
    ensures b'[r..i + 1] == b[r..i] + [0]
  {
    if w < r {
      assert b'[i + 1..] == b[i + 1..] && b'[..w] == b[..w];
    }
  }

  lemma SplitWrapped(b: seq<Byte>, b': seq<Byte>, r: nat, w: nat, j: nat)
    requires j < w < r <= |b| && b' == b[j := 0]
    ensures Queue(b, r, w) == b[r..] + b[..j] + [b[j]] + Queue(b', j + 1, w)
    ensures b'[r..] + b'[..j + 1] == b[r..] + b[..j] + [0]
  {
    assert b[..w] == b[..j] + [b[j]] + b[j + 1..w];
  }

  /** `line` is `q` up to and with its first terminator, which is replaced by NUL; `rest` follows. */
  ghost predicate FirstLine(q: seq<Byte>, line: seq<Byte>, rest: seq<Byte>, term: Byte) {
    && |line| > 0 && line[|line| - 1] == 0 && term !in line[..|line| - 1]
    && q == line[..|line| - 1] + [term] + rest
  }

  lemma IsFirstLine(q: seq<Byte>, front: seq<Byte>, term: Byte, rest: seq<Byte>)
    requires q == front + [term] + rest && term !in front
    ensures FirstLine(q, front + [0], rest, term) && term in q
  {
    assert (front + [0])[..|front|] == front;
    assert q[|front|] == term;
  }

  lemma StraightLine(b: seq<Byte>, b': seq<Byte>, r: nat, w: nat, i: nat, term: Byte)
    requires r <= i < (if w < r then |b| else w) && w <= |b| && b' == b[i := 0] && b[i] == term && term !in b[r..i]
    ensures FirstLine(Queue(b, r, w), b'[r..i + 1], Queue(b', i + 1, w), term) && term in Queue(b, r, w)
  {
    SplitStraight(b, b', r, w, i);
    IsFirstLine(Queue(b, r, w), b[r..i], term, Queue(b', i + 1, w));
  }

  lemma WrappedLine(b: seq<Byte>, b': seq<Byte>, r: nat, w: nat, j: nat, term: Byte)
    requires j < w < r <= |b| && b' == b[j := 0] && b[j] == term && term !in b[r..] && term !in b[..j]
    ensures FirstLine(Queue(b, r, w), b'[r..] + b'[..j + 1], Queue(b', j + 1, w), term) && term in Queue(b, r, w)
  {
    SplitWrapped(b, b', r, w, j);
    IsFirstLine(Queue(b, r, w), b[r..] + b[..j], term, Queue(b', j + 1, w));
  }

  class CircBuf {
    var buffer: array<Byte>
    var readCursor: nat
    var writeCursor: nat

    ghost predicate Valid()
      reads this
    {
      Sound(buffer.Length, readCursor, writeCursor)
    }

    ghost function Contents(): (q: seq<Byte>)
      requires Valid()
      reads this, buffer
      ensures |q| < buffer.Length
    {
      Queue(buffer[..], readCursor, writeCursor)
    }

    constructor ()
      ensures Valid() && fresh(buffer) && Contents() == [] && buffer.Length == INIT_SIZE
      ensures readCursor == writeCursor == 0
    {
      buffer := new Byte[INIT_SIZE];
      readCursor, writeCursor := 0, 0;
    }

    /** How many more bytes fit. */
    method Avail() returns (n: nat)
      requires Valid()
      ensures n == buffer.Length - 1 - |Contents()|
    {
      if writeCursor < readCursor {
        n := readCursor - writeCursor - 1;
      } else {
        n := buffer.Length - writeCursor + readCursor - 1;
      }
    }

    /** Moves the contents to the start of a buffer eight times the size. */
    method Grow()
      requires Valid()
      modifies this
      ensures Valid() && fresh(buffer) && buffer.Length == MULTIPLIER * old(buffer.Length)
      ensures Contents() == old(Contents()) && readCursor == 0 && writeCursor < buffer.Length
    {
      var bigger := new Byte[MULTIPLIER * buffer.Length];
      var written := 0;
      if writeCursor < readCursor {
        CopyTo(bigger, 0, buffer[readCursor..]);
        written := buffer.Length - readCursor;
        CopyTo(bigger, written, buffer[..writeCursor]);
        written := written + writeCursor;
      } else {
        CopyTo(bigger, 0, buffer[readCursor..writeCursor]);
        written := writeCursor - readCursor;
      }
      assert bigger[..written] == Contents();
      buffer, readCursor, writeCursor := bigger, 0, written;
    }

    /** The free space, as at most two vectors for `readv`. */
    method ReadVectors() returns (v: Vectors)
      requires Valid()
      ensures Inside(v, buffer.Length) && TotalLen(v) == buffer.Length - 1 - |Contents()|
      ensures v.first.base == writeCursor
      ensures v.Two? ==> v.second.base == 0 && v.first.len == buffer.Length - writeCursor
    {
      if writeCursor < readCursor {
        v := One(Vector(writeCursor, readCursor - writeCursor - 1));
      } else if readCursor > 0 {
        v := Two(Vector(writeCursor, buffer.Length - writeCursor), Vector(0, readCursor - 1));
      } else {
        v := One(Vector(writeCursor, buffer.Length - writeCursor - 1));
      }
    }

    /** The contents, as at most two vectors for `writev`. */
    method WriteVectors() returns (v: Vectors)
      requires readCursor <= buffer.Length && writeCursor <= buffer.Length
      ensures Inside(v, buffer.Length) && Gathered(buffer[..], v) == Queue(buffer[..], readCursor, writeCursor)
      ensures TotalLen(v) == |Queue(buffer[..], readCursor, writeCursor)|
    {
      if writeCursor < readCursor {
        v := Two(Vector(readCursor, buffer.Length - readCursor), Vector(0, writeCursor));
      } else {
        v := One(Vector(readCursor, writeCursor - readCursor));
      }
    }

    /** `readv` puts `data` into the vectors, then the write cursor moves on. */
    method Receive(data: seq<Byte>)
      requires Valid() && |data| <= buffer.Length - 1 - |Contents()|
      modifies this`writeCursor, buffer
      ensures Valid() && Contents() == old(Contents()) + data
      ensures old(writeCursor) < buffer.Length ==> writeCursor < buffer.Length
    {
      var v := ReadVectors();
      ghost var b := buffer[..];
      ReadV(v, data);
      AppendAround(b, buffer[..], readCursor, writeCursor, data);
      AdvanceWrite(|data|);
    }

    /** The kernel fills the vectors in order. */
    method ReadV(v: Vectors, data: seq<Byte>)
      requires Inside(v, buffer.Length) && |data| <= TotalLen(v) && v.first.base == writeCursor
      requires v.Two? ==> v.second.base == 0 && v.first.len == buffer.Length - writeCursor && |data| <= buffer.Length
      modifies buffer
      ensures Scattered(old(buffer[..]), buffer[..], writeCursor, data)
    {
      if |data| <= v.first.len {
        CopyTo(buffer, v.first.base, data);
      } else {
        CopyAround(buffer, v.first.base, data, v.first.len);
      }
    }

    method AdvanceWrite(n: nat)
      requires buffer.Length > 0
      modifies this`writeCursor
      ensures writeCursor == (old(writeCursor) + n) % buffer.Length
    {
      writeCursor := (writeCursor + n) % buffer.Length;
    }

    /** Drops `n` bytes from the front. This goes wrong exactly if the write cursor stands at the
        end of the buffer and everything is taken: the read cursor wraps, the write cursor does not,
        and an empty queue looks like a full buffer. */
    method AdvanceRead(n: nat)
      requires Valid() && n <= |Contents()|
      modifies this`readCursor, this`writeCursor
      ensures Valid() <==> !(old(writeCursor) == buffer.Length && n == |old(Contents())|)
      ensures Valid() ==> Contents() == old(Contents())[n..]
      ensures !Valid() ==> readCursor == 0 && writeCursor == buffer.Length
      ensures readCursor < buffer.Length
      ensures n < |old(Contents())| ==>
                writeCursor == old(writeCursor) && readCursor == (old(readCursor) + n) % buffer.Length
    {
      WrapOnce(readCursor + n, buffer.Length);
      readCursor := (readCursor + n) % buffer.Length;
      if readCursor == writeCursor {
        readCursor, writeCursor := 0, 0;
      }
    }

    /** Appends bytes, growing the buffer until they fit. */
    method Write(bytes: seq<Byte>)
      requires Valid()
      modifies this, buffer
      ensures Valid() && Contents() == old(Contents()) + bytes
      ensures buffer == old(buffer) || fresh(buffer)
      ensures old(readCursor < buffer.Length) ==> readCursor < buffer.Length
      ensures |bytes| <= old(buffer.Length - 1 - |Contents()|) ==>
                buffer == old(buffer) && readCursor == old(readCursor) &&
                writeCursor == Moved(buffer.Length, readCursor, old(writeCursor), |bytes|)
    {
      MakeRoom(|bytes|);
      Append(bytes);
    }

    method MakeRoom(n: nat)
      requires Valid()
      modifies this
      ensures Valid() && Contents() == old(Contents()) && n <= buffer.Length - 1 - |Contents()|
      ensures buffer == old(buffer) || fresh(buffer)
      ensures buffer == old(buffer) ==> buffer[..] == old(buffer[..])
      ensures old(readCursor < buffer.Length) ==> readCursor < buffer.Length
      ensures n <= old(buffer.Length - 1 - |Contents()|) ==>
                buffer == old(buffer) && readCursor == old(readCursor) && writeCursor == old(writeCursor)
    {
      var avail := Avail();
      while avail < n
        invariant Valid() && Contents() == old(Contents()) && avail == buffer.Length - 1 - |Contents()|
        invariant buffer == old(buffer) || fresh(buffer)
        invariant buffer == old(buffer) ==> buffer[..] == old(buffer[..])
        invariant old(readCursor < buffer.Length) ==> readCursor < buffer.Length
        invariant n <= old(buffer.Length - 1 - |Contents()|) ==>
                    buffer == old(buffer) && readCursor == old(readCursor) && writeCursor == old(writeCursor)
        decreases n - avail
      {
        Grow();
        avail := Avail();
      }
    }

    /** Appends bytes that fit; a stretch that ends exactly at the end leaves the cursor there. */
    method Append(bytes: seq<Byte>)
      requires Valid() && |bytes| <= buffer.Length - 1 - |Contents()|
      modifies this`writeCursor, buffer
      ensures Valid() && Contents() == old(Contents()) + bytes
      ensures writeCursor == Moved(buffer.Length, readCursor, old(writeCursor), |bytes|)
    {
      ghost var b := buffer[..];
      if writeCursor < readCursor || |bytes| <= buffer.Length - writeCursor {
        CopyTo(buffer, writeCursor, bytes);
        AppendStraight(b, buffer[..], readCursor, writeCursor, bytes);
        writeCursor := writeCursor + |bytes|;
      } else {
        var k := buffer.Length - writeCursor;
        CopyAround(buffer, writeCursor, bytes, k);
        AppendWrapped(b, buffer[..], readCursor, writeCursor, bytes, k);
        writeCursor := |bytes| - k;
      }
    }

    /** Takes the bytes up to the next terminator, which is overwritten with NUL. */
    method ExtractToTerminator(term: Byte) returns (found: bool, line: seq<Byte>)
      requires Valid()
      modifies this`readCursor, this`writeCursor, buffer
      ensures Valid() && (found <==> term in old(Contents()))
      ensures found ==> FirstLine(old(Contents()), line, Contents(), term)
      ensures !found ==> Contents() == old(Contents())
      ensures writeCursor <= old(writeCursor)
    {
      found, line := false, [];
      if writeCursor < readCursor {
        var i := Find(buffer, readCursor, buffer.Length, term);
        if i < buffer.Length {
          line := TakeStraight(i, term);
          return true, line;
        }
        var j := Find(buffer, 0, writeCursor, term);
        if j < writeCursor {
          line := TakeWrapped(j, term);
          found := true;
        }
      } else {
        var i := Find(buffer, readCursor, writeCursor, term);
        if i < writeCursor {
          line := TakeStraight(i, term);
          found := true;
        }
      }
      if readCursor == writeCursor {
        readCursor, writeCursor := 0, 0;
      }
    }

    /** The line lies in one stretch. */
    method TakeStraight(i: nat, term: Byte) returns (line: seq<Byte>)
      requires Valid() && readCursor <= i < (if writeCursor < readCursor then buffer.Length else writeCursor)
      requires buffer[i] == term && term !in buffer[readCursor..i]
      modifies this`readCursor, buffer
      ensures Valid() && readCursor == i + 1 && term in old(Contents())
      ensures FirstLine(old(Contents()), line, Contents(), term)
    {
      ghost var b := buffer[..];
      assert b[readCursor..i] == buffer[readCursor..i];
      buffer[i] := 0;
      assert buffer[..] == b[i := 0];
      StraightLine(b, buffer[..], readCursor, writeCursor, i, term);
      line := buffer[..][readCursor..i + 1];
      readCursor := i + 1;
    }

    /** The line goes on at the start of the buffer and is joined. */
    method TakeWrapped(j: nat, term: Byte) returns (line: seq<Byte>)
      requires Valid() && j < writeCursor < readCursor
      requires buffer[j] == term && term !in buffer[readCursor..] && term !in buffer[..j]
      modifies this`readCursor, buffer
      ensures Valid() && readCursor == j + 1 && term in old(Contents())
      ensures FirstLine(old(Contents()), line, Contents(), term)
    {
      ghost var b := buffer[..];
      assert b[readCursor..] == buffer[readCursor..] && b[..j] == buffer[..j];
      buffer[j] := 0;
      assert buffer[..] == b[j := 0];
      WrappedLine(b, buffer[..], readCursor, writeCursor, j, term);
      line := buffer[..][readCursor..] + buffer[..][..j + 1];
      readCursor := j + 1;
    }
  }

  function Filler(n: nat): (r: seq<Byte>)
    ensures |r| == n
  {
    seq(n, _ => 0)
  }

  /** A queue that is drained when its last append ended exactly at the end of the buffer comes out
      as a full buffer instead of an empty queue. */
  method DrainedAtTheEnd() returns (r: CircBuf)
    ensures !r.Valid() && r.readCursor == 0 && r.writeCursor == r.buffer.Length
  {
    r := new CircBuf();
    r.Write(Filler(100));
    r.AdvanceRead(50);
    r.Write(Filler(3996));
    r.AdvanceRead(4046);
  }
}
