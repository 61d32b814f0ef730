/**
 Bit arrays in memory, backed by a file. In persistent mode the memory is private and the pages
 that were written to are tracked, so that a flush writes only those; page 0 holds the header of
 the filter, which is written without tracking, and is always flushed.
 */
module Bitmap {

  type Bytes = seq<bv8>

  const PAGE := 4096

  // ----- bits

  predicate BitOf(b: bv8, i: nat)
    requires i < 8
  {
    (b >> (i as bv4)) & 1 == 1
  }

  function WithBitOf(b: bv8, i: nat): bv8
    requires i < 8
  {
    b | (1 << (i as bv4))
  }

  lemma BitOfWith(b: bv8, i: nat, j: nat)
    requires i < 8 && j < 8
    ensures BitOf(WithBitOf(b, i), j) <==> i == j || BitOf(b, j)
  {
  }

  /** Bit `idx`: the high bit of a byte comes first. */
  predicate Bit(bytes: Bytes, idx: nat)
    requires idx / 8 < |bytes|
  {
    BitOf(bytes[idx / 8], 7 - idx % 8)
  }

  function WithBit(bytes: Bytes, idx: nat): (r: Bytes)
    requires idx / 8 < |bytes|
    ensures |r| == |bytes|
  {
    bytes[idx / 8 := WithBitOf(bytes[idx / 8], 7 - idx % 8)]
  }

  /** Setting a bit sets that bit and no other. */
  lemma WithBitBits(bytes: Bytes, idx: nat, j: nat)
    requires idx / 8 < |bytes| && j / 8 < |bytes|
    ensures Bit(WithBit(bytes, idx), j) <==> j == idx || Bit(bytes, j)
  {
    if j / 8 == idx / 8 {
      BitOfWith(bytes[idx / 8], 7 - idx % 8, 7 - j % 8);
    }
  }

  predicate NoBits(bytes: Bytes) {
    forall i :: 0 <= i < |bytes| ==> bytes[i] == 0
  }

  // ----- pages

  function Pages(size: nat): nat {
    size / PAGE + if size % PAGE != 0 then 1 else 0
  }

  /** One bit per page, in whole bytes. */
  function DirtyLen(size: nat): nat { (Pages(size) + 7) / 8 }

  lemma PageHasBit(size: nat, i: nat)
    requires i < size
    ensures i / PAGE < Pages(size) && i / PAGE / 8 < DirtyLen(size)
  {
  }

  /** The page that a bit index leads to is the page of its byte. */
  lemma PageOfBit(idx: nat)
    ensures idx / 32768 == idx / 8 / PAGE
  {
  }

  datatype Mode = Shared | Persistent | Anonymous

  /** A mapped bitmap: its memory, its page tracking and the file behind it. */
  datatype Map = Map(mode: Mode, mem: Bytes, dirty: Bytes, file: Bytes)

  /** Every byte that differs from the file lies in page 0 or in a tracked page; a shared map is the
      file. */
  predicate Tracked(m: Map) {
    match m.mode
    case Anonymous => true
    case Shared => m.file == m.mem
    case Persistent =>
      && |m.file| == |m.mem| && |m.dirty| == DirtyLen(|m.mem|)
      && forall i :: 0 <= i < |m.mem| && m.mem[i] != m.file[i] ==> Stale(m, i)
  }

  /** Whether the flush would write the page of byte `i`. */
  predicate Stale(m: Map, i: nat)
    requires |m.dirty| == DirtyLen(|m.mem|) && i < |m.mem|
  {
    PageHasBit(|m.mem|, i);
    i / PAGE == 0 || Bit(m.dirty, i / PAGE)
  }

  function BitSet(m: Map, idx: nat): (r: Map)
    requires Tracked(m) && idx / 8 < |m.mem|
    ensures r.mode == m.mode && |r.mem| == |m.mem|
  {
    PageHasBit(|m.mem|, idx / 8);
    PageOfBit(idx);
    var mem := WithBit(m.mem, idx);
    match m.mode
    case Anonymous => m.(mem := mem)
    case Shared => m.(mem := mem, file := mem)
    case Persistent => m.(mem := mem, dirty := WithBit(m.dirty, idx / 32768))
  }

  /** Setting a bit keeps the tracking right. */
  lemma BitSetTracked(m: Map, idx: nat)
    requires Tracked(m) && idx / 8 < |m.mem|
    ensures Tracked(BitSet(m, idx))
  {
    if m.mode == Persistent {
      var r := BitSet(m, idx);
      PageHasBit(|m.mem|, idx / 8);
      PageOfBit(idx);
      forall i | 0 <= i < |m.mem| && r.mem[i] != r.file[i]
        ensures Stale(r, i)
      {
        PageHasBit(|m.mem|, i);
        WithBitBits(m.dirty, idx / 32768, i / PAGE);
      }
    }
  }

  /** Writes a byte of page 0 without tracking, as the header fields are. */
  function Poke(m: Map, i: nat, b: bv8): (r: Map)
    requires i < |m.mem|
    ensures |r.mem| == |m.mem|
  {
    var mem := m.mem[i := b];
    if m.mode == Shared then m.(mem := mem, file := mem) else m.(mem := mem)
  }

  lemma PokeTracked(m: Map, i: nat, b: bv8)
    requires Tracked(m) && i < |m.mem| && i < PAGE
    ensures Tracked(Poke(m, i, b))
  {
    if m.mode == Persistent {
      var r := Poke(m, i, b);
      forall j | 0 <= j < |m.mem| && r.mem[j] != r.file[j]
        ensures Stale(r, j)
      {
        assert j != i ==> Stale(m, j);
      }
    }
  }

  /** What a flush leaves: the stale pages are copied to the file and the tracking starts afresh. */
  function FlushedFile(m: Map): (r: Bytes)
    requires |m.file| == |m.mem| && |m.dirty| == DirtyLen(|m.mem|)
    ensures |r| == |m.mem|
    ensures forall i :: 0 <= i < |r| ==> r[i] == if Stale(m, i) then m.mem[i] else m.file[i]
  {
    seq(|m.mem|, i requires 0 <= i < |m.mem| => if Stale(m, i) then m.mem[i] else m.file[i])
  }

  function Flushed(m: Map): (r: Map)
    requires Tracked(m)
  {
    match m.mode
    case Persistent => m.(file := FlushedFile(m), dirty := seq(DirtyLen(|m.mem|), _ => 0))
    case _ => m
  }

  /** A flush makes the file equal to the memory, short last page included, and changes no bit. */
  lemma FlushSaves(m: Map)
    requires Tracked(m) && m.mode != Anonymous
    ensures Flushed(m).file == Flushed(m).mem == m.mem && Tracked(Flushed(m))
  {
    if m.mode == Persistent {
      assert FlushedFile(m) == m.mem;
    }
  }

  // ----- the object

  class BitmapFile {
    const mode: Mode
    var mem: array<bv8>
    var dirty: array<bv8>
    var file: Bytes

    ghost function State(): Map
      reads this, mem, dirty
    {
      Map(mode, mem[..], dirty[..], file)
    }

    ghost predicate Valid()
      reads this, mem, dirty
    {
      Tracked(State()) && mem != dirty
    }

    /** Maps `contents`; in persistent mode they are read into private memory in pieces. */
    constructor (mode: Mode, contents: Bytes, piece: nat -> nat)
      ensures Valid() && fresh(mem) && fresh(dirty) && this.mode == mode
      ensures mem[..] == contents && file == contents && NoBits(dirty[..])
    {
      this.mode := mode;
      mem := new bv8[|contents|](_ => 0);
      dirty := new bv8[if mode == Persistent then DirtyLen(|contents|) else 0](_ => 0);
      file := contents;
      new;
      FillBuffer(piece);
    }

    /** Reads the file into memory, as much at a time as the kernel hands over. */
    method FillBuffer(piece: nat -> nat)
      requires mem.Length == |file|
      modifies mem
      ensures mem[..] == file
    {
      var total := 0;
      while total < mem.Length
        invariant 0 <= total <= mem.Length && mem[..total] == file[..total]
      {
        var more := piece(total);
        if more == 0 || total + more > mem.Length {
          more := mem.Length - total;
        }
        forall i | total <= i < total + more { mem[i] := file[i]; }
        total := total + more;
      }
    }

    method GetBit(idx: nat) returns (r: bool)
      requires idx / 8 < mem.Length
      ensures r == Bit(mem[..], idx)
    {
      r := (mem[idx / 8] >> ((7 - idx % 8) as bv4)) & 1 == 1;
    }

    method SetBit(idx: nat)
      requires Valid() && idx / 8 < mem.Length
      modifies this`file, mem, dirty
      ensures Valid() && State() == BitSet(old(State()), idx)
    {
      BitSetTracked(State(), idx);
      mem[idx / 8] := mem[idx / 8] | (1 << ((7 - idx % 8) as bv4));
      if mode == Persistent {
        var page := idx / 32768;
        PageHasBit(mem.Length, idx / 8);
        PageOfBit(idx);
        dirty[page / 8] := dirty[page / 8] | (1 << ((7 - page % 8) as bv4));
      } else if mode == Shared {
        // the kernel keeps a shared mapping and its file the same
        file := mem[..];
      }
    }

    /** Writes one page to the file, as much at a time as the kernel takes. */
    method FlushPage(page: nat, piece: nat -> nat)
      requires |file| == mem.Length && page < Pages(mem.Length)
      modifies this`file
      ensures |file| == mem.Length
      ensures forall i :: 0 <= i < mem.Length ==> file[i] == if i / PAGE == page then mem[i] else old(file)[i]
    {
      var offset, total := page * PAGE, 0;
      var shouldWrite := PAGE;
      if page == Pages(mem.Length) - 1 && mem.Length % PAGE != 0 {
        shouldWrite := mem.Length % PAGE;
      }
      while total < shouldWrite
        invariant 0 <= total <= shouldWrite && offset + shouldWrite <= mem.Length && |file| == mem.Length
        invariant forall i :: 0 <= i < mem.Length ==>
                    file[i] == if offset <= i < offset + total then mem[i] else old(file)[i]
      {
        var n := piece(total);
        if n == 0 || total + n > shouldWrite {
          n := shouldWrite - total;
        }
        var at := offset + total;
        file := file[..at] + mem[at..at + n] + file[at + n..];
        total := total + n;
      }
    }

    /** Flushes page 0 and every tracked page. */
    method FlushDirtyPages(piece: nat -> nat)
      requires Valid() && mode == Persistent
      modifies this`file, this`dirty
      ensures Valid() && fresh(dirty) && State() == Flushed(old(State()))
      ensures file == mem[..] == old(mem[..])
    {
      ghost var s := State();
      FlushSaves(s);
      var marks := dirty;
      dirty := new bv8[DirtyLen(mem.Length)](_ => 0);
      FlushMarked(marks, piece, s);
      forall j | 0 <= j < mem.Length ensures file[j] == s.mem[j] { PageHasBit(mem.Length, j); }
      assert file == s.mem;
      assert dirty[..] == Flushed(s).dirty;
    }

    /** The loop over the pages, by the marks that were swapped out. */
    method FlushMarked(marks: array<bv8>, piece: nat -> nat, ghost s: Map)
      requires mem[..] == s.mem && file == s.file && marks[..] == s.dirty
      requires |s.file| == |s.mem| && |s.dirty| == DirtyLen(|s.mem|)
      modifies this`file
      ensures file == FlushedFile(s)
    {
      var pages := Pages(mem.Length);
      var i := 0;
      while i < pages
        invariant 0 <= i <= pages && |file| == mem.Length
        invariant forall j :: 0 <= j < mem.Length ==> file[j] == if j / PAGE < i && Stale(s, j) then s.mem[j] else s.file[j]
      {
        var isDirty := (marks[i / 8] >> ((7 - i % 8) as bv4)) & 1 == 1;
        if isDirty || i == 0 {
          FlushPage(i, piece);
        }
        i := i + 1;
      }
      forall j | 0 <= j < mem.Length ensures j / PAGE < pages { PageHasBit(mem.Length, j); }
    }
  }
}
