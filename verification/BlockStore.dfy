/** A flat file kept as numbered blocks of at most bs bytes, which may be short or missing. */
module BlockStore {
  import opened FlatFile

  type Blocks = map<nat, Bytes>

  predicate ValidBlocks(b: Blocks, bs: nat) {
    bs > 0 && forall id :: id in b ==> 1 <= |b[id]| <= bs
  }

  ghost function TopId(ids: set<nat>): (top: nat)
    requires ids != {}
    ensures top in ids && forall id :: id in ids ==> id <= top
  {
    var id :| id in ids;
    if ids == {id} then id
    else
      assert ids == (ids - {id}) + {id};
      Max(id, TopId(ids - {id}))
  }

  /** The block a position falls in. */
  function Index(bs: nat, i: nat): nat
    requires bs > 0
    decreases i
  {
    if i < bs then 0 else 1 + Index(bs, i - bs)
  }

  /** Its offset within that block. */
  function Within(bs: nat, i: nat): (o: nat)
    requires bs > 0
    ensures o < bs
    decreases i
  {
    if i < bs then i else Within(bs, i - bs)
  }

  /** Where byte o of block id lies in the file. */
  function Place(bs: nat, id: nat, o: nat): nat
    decreases id
  {
    if id == 0 then o else bs + Place(bs, id - 1, o)
  }

  /** The file ends where its highest block ends. */
  ghost function Size(b: Blocks, bs: nat): nat {
    if b.Keys == {} then 0 else Place(bs, TopId(b.Keys), |b[TopId(b.Keys)]|)
  }

  function BlockOr(b: Blocks, id: nat): Bytes { if id in b then b[id] else [] }

  /** Missing blocks and the missing ends of short ones read as zeros. */
  function LookAt(b: Blocks, bs: nat, i: nat): Byte
    requires bs > 0
  {
    ByteOr(BlockOr(b, Index(bs, i)), Within(bs, i))
  }

  function ByteOr(d: Bytes, j: nat): Byte { if j < |d| then d[j] else 0 }

  ghost function View(b: Blocks, bs: nat): (f: Bytes)
    requires bs > 0
    ensures |f| == Size(b, bs)
    ensures forall i :: 0 <= i < |f| ==> f[i] == LookAt(b, bs, i)
  {
    seq(Size(b, bs), (i: nat) => LookAt(b, bs, i))
  }

  // ------------------------------------------------------------------ arithmetic

  lemma {:induction false} PlaceIsProduct(bs: nat, id: nat, o: nat)
    ensures Place(bs, id, o) == id * bs + o
    decreases id
  {
    if id > 0 { PlaceIsProduct(bs, id - 1, o); }
  }

  lemma {:induction false} PlaceShift(bs: nat, id: nat, o: nat)
    ensures Place(bs, id, o) == Place(bs, id, 0) + o
    decreases id
  {
    if id > 0 { PlaceShift(bs, id - 1, o); }
  }

  /** Every position is some byte of some block. */
  lemma {:induction false} Split(bs: nat, i: nat)
    requires bs > 0
    ensures i == Place(bs, Index(bs, i), Within(bs, i))
    decreases i
  {
    if bs <= i { Split(bs, i - bs); }
  }

  /** getBlockId divides, getBlockOffset subtracts; they find the block and the offset within it. */
  lemma IndexIsQuotient(bs: nat, i: nat)
    requires bs > 0
    ensures i / bs == Index(bs, i) && i - (i / bs) * bs == Within(bs, i)
  {
    Split(bs, i);
    PlaceIsProduct(bs, Index(bs, i), Within(bs, i));
    QuotientUnique(bs, i, Index(bs, i), Within(bs, i));
  }

  lemma QuotientUnique(bs: nat, i: nat, q: nat, r: nat)
    requires r < bs && i == q * bs + r
    ensures i / bs == q
  {
    var p := i / bs;
    assert p * bs <= i < p * bs + bs;
    if p < q { assert (p + 1) * bs <= q * bs by { MulMono(p + 1, q, bs); } }
    if q < p { assert (q + 1) * bs <= p * bs by { MulMono(q + 1, p, bs); } }
  }

  lemma MulMono(a: nat, b: nat, c: nat)
    requires a <= b
    ensures a * c <= b * c
  {
    assert (b - a) * c >= 0;
  }

  /** A block past `id` starts at or after the end of `id`. */
  lemma {:induction false} LaterBlock(bs: nat, id: nat, later: nat)
    requires id < later
    ensures Place(bs, id, bs) <= Place(bs, later, 0)
    decreases later
  {
    PlaceShift(bs, id, bs);
    if id < later - 1 { LaterBlock(bs, id, later - 1); }
  }

  // ------------------------------------------------------------------------ view

  lemma SizeFromTop(b: Blocks, bs: nat, top: nat)
    requires top in b && forall id :: id in b ==> id <= top
    ensures Size(b, bs) == Place(bs, top, |b[top]|)
  {
    assert TopId(b.Keys) == top;
  }

  lemma PastEnd(b: Blocks, bs: nat, i: nat)
    requires ValidBlocks(b, bs) && Size(b, bs) <= i
    ensures LookAt(b, bs, i) == 0
  {
    Split(bs, i);
    if Index(bs, i) in b {
      var top := TopId(b.Keys);
      PlaceShift(bs, Index(bs, i), Within(bs, i));
      PlaceShift(bs, Index(bs, i), bs);
      PlaceShift(bs, top, |b[top]|);
      if Index(bs, i) < top { LaterBlock(bs, Index(bs, i), top); }
    }
  }

  /** The end of any block lies within the file. */
  lemma BlockWithin(b: Blocks, bs: nat, id: nat)
    requires ValidBlocks(b, bs) && id in b
    ensures Place(bs, id, |b[id]|) <= Size(b, bs)
  {
    var top := TopId(b.Keys);
    PlaceShift(bs, id, |b[id]|);
    PlaceShift(bs, id, bs);
    PlaceShift(bs, top, |b[top]|);
    if id < top { LaterBlock(bs, id, top); }
  }

  lemma PutSize(b: Blocks, bs: nat, id: nat, d: Bytes)
    requires ValidBlocks(b, bs) && 1 <= |d| <= bs && |BlockOr(b, id)| <= |d|
    ensures Size(b[id := d], bs) == Max(Size(b, bs), Place(bs, id, |d|))
  {
    var b' := b[id := d];
    PlaceShift(bs, id, |d|);
    PlaceShift(bs, id, bs);
    if b.Keys == {} {
      SizeFromTop(b', bs, id);
    } else {
      var top := TopId(b.Keys);
      PlaceShift(bs, top, |b[top]|);
      PlaceShift(bs, top, bs);
      SizeFromTop(b', bs, Max(top, id));
      if top < id { LaterBlock(bs, top, id); } else if id < top { LaterBlock(bs, id, top); }
    }
  }

  lemma NotInBlock(bs: nat, i: nat, id: nat)
    requires bs > 0 && Index(bs, i) != id
    ensures i < Place(bs, id, 0) || Place(bs, id, bs) <= i
    ensures Index(bs, i) < id <==> i < Place(bs, id, 0)
  {
    Split(bs, i);
    PlaceShift(bs, Index(bs, i), Within(bs, i));
    PlaceShift(bs, Index(bs, i), bs);
    PlaceShift(bs, id, bs);
    if Index(bs, i) < id { LaterBlock(bs, Index(bs, i), id); } else { LaterBlock(bs, id, Index(bs, i)); }
  }

  lemma InBlock(bs: nat, id: nat, o: nat, n: nat, i: nat)
    requires bs > 0 && o + n <= bs
    ensures Place(bs, id, o) <= i < Place(bs, id, o) + n <==> Index(bs, i) == id && o <= Within(bs, i) < o + n
    ensures Index(bs, i) == id ==> i - Place(bs, id, o) == Within(bs, i) - o
  {
    Split(bs, i);
    PlaceShift(bs, id, o);
    PlaceShift(bs, id, bs);
    PlaceShift(bs, id, Within(bs, i));
    if Index(bs, i) != id { NotInBlock(bs, i, id); }
  }

  lemma WriteByteOr(d: Bytes, o: nat, c: Bytes, j: nat)
    ensures ByteOr(Write(d, o, c), j) == if o <= j < o + |c| then c[j - o] else ByteOr(d, j)
  {
  }

  lemma GrownSize(b: Blocks, bs: nat, id: nat, d: Bytes, o: nat, n: nat)
    requires ValidBlocks(b, bs) && 1 <= |d| <= bs && |d| == Max(|BlockOr(b, id)|, o + n)
    ensures Size(b[id := d], bs) == Max(Size(b, bs), Place(bs, id, o) + n)
  {
    PutSize(b, bs, id, d);
    PlaceShift(bs, id, o);
    PlaceShift(bs, id, |d|);
    PlaceShift(bs, id, |BlockOr(b, id)|);
    if id in b { BlockWithin(b, bs, id); }
  }

  lemma PutBlockSize(b: Blocks, bs: nat, id: nat, o: nat, c: Bytes)
    requires ValidBlocks(b, bs) && c != [] && o + |c| <= bs
    ensures Size(b[id := Write(BlockOr(b, id), o, c)], bs) == Max(Size(b, bs), Place(bs, id, o) + |c|)
  {
    GrownSize(b, bs, id, Write(BlockOr(b, id), o, c), o, |c|);
  }

  /** A byte of the file is the byte of its block. */
  lemma ViewByte(b: Blocks, bs: nat, i: nat)
    requires ValidBlocks(b, bs)
    ensures ByteOr(View(b, bs), i) == LookAt(b, bs, i)
  {
    if Size(b, bs) <= i { PastEnd(b, bs, i); }
  }

  /** With byte j of block `in_` at position i of the file, and byte o of block id at `at`. */
  lemma PutByte(b: Blocks, id: nat, d: Bytes, o: nat, c: Bytes, f: Bytes, at: nat, i: nat, in_: nat, j: nat)
    requires ByteOr(d, j) == if o <= j < o + |c| then c[j - o] else ByteOr(BlockOr(b, id), j)
    requires ByteOr(f, i) == ByteOr(BlockOr(b, in_), j)
    requires at <= i < at + |c| <==> in_ == id && o <= j < o + |c|
    requires in_ == id ==> i - at == j - o
    ensures ByteOr(BlockOr(b[id := d], in_), j) == WrittenAt(f, at, c, i)
  {
  }

  lemma PutBlockByte(b: Blocks, bs: nat, id: nat, o: nat, c: Bytes, i: nat)
    requires ValidBlocks(b, bs) && o + |c| <= bs
    ensures LookAt(b[id := Write(BlockOr(b, id), o, c)], bs, i)
         == WrittenAt(View(b, bs), Place(bs, id, o), c, i)
  {
    InBlock(bs, id, o, |c|, i);
    ViewByte(b, bs, i);
    WriteByteOr(BlockOr(b, id), o, c, Within(bs, i));
    PutByte(b, id, Write(BlockOr(b, id), o, c), o, c, View(b, bs), Place(bs, id, o), i, Index(bs, i), Within(bs, i));
  }

  lemma ViewIsWrite(b: Blocks, bs: nat, f: Bytes, at: nat, c: Bytes)
    requires bs > 0 && c != [] && Size(b, bs) == Max(|f|, at + |c|)
    requires forall i :: 0 <= i < Size(b, bs) ==> LookAt(b, bs, i) == WrittenAt(f, at, c, i)
    ensures View(b, bs) == Write(f, at, c)
  {
  }

  /** Writing inside one block is the flat write at the block's place in the file. */
  lemma PutBlock(b: Blocks, bs: nat, id: nat, o: nat, c: Bytes)
    requires ValidBlocks(b, bs) && c != [] && o + |c| <= bs
    ensures var b' := b[id := Write(BlockOr(b, id), o, c)];
            ValidBlocks(b', bs) && View(b', bs) == Write(View(b, bs), Place(bs, id, o), c)
  {
    var b', at := b[id := Write(BlockOr(b, id), o, c)], Place(bs, id, o);
    PutBlockSize(b, bs, id, o, c);
    forall i | 0 <= i < Size(b', bs) ensures LookAt(b', bs, i) == WrittenAt(View(b, bs), at, c, i) {
      PutBlockByte(b, bs, id, o, c, i);
    }
    ViewIsWrite(b', bs, View(b, bs), at, c);
  }

  function BlocksBelow(b: Blocks, first: nat): Blocks { map k | k in b && k < first :: b[k] }

  lemma BelowAfterPut(b: Blocks, id: nat, d: Bytes)
    ensures BlocksBelow(b[id := d], id + 1) == BlocksBelow(b, id)[id := d]
  {
  }

  lemma CutByte(b: Blocks, bs: nat, id: nat, n: nat, i: nat)
    requires ValidBlocks(b, bs) && n <= bs && i < Place(bs, id, n)
    ensures LookAt(BlocksBelow(b, id)[id := Truncate(BlockOr(b, id), n)], bs, i) == LookAt(b, bs, i)
  {
    PlaceShift(bs, id, n);
    InBlock(bs, id, 0, n, i);
    if Index(bs, i) != id { NotInBlock(bs, i, id); PlaceShift(bs, id, bs); }
  }

  lemma ViewIsTruncate(b: Blocks, bs: nat, f: Bytes, n: nat)
    requires bs > 0 && Size(b, bs) == n && forall i :: 0 <= i < n ==> LookAt(b, bs, i) == ByteOr(f, i)
    ensures View(b, bs) == Truncate(f, n)
  {
  }

  /** Keeping the blocks below `id`, and block `id` itself cut or padded to n bytes, is truncation. */
  lemma CutBlocks(b: Blocks, bs: nat, id: nat, n: nat)
    requires ValidBlocks(b, bs) && 1 <= n <= bs
    ensures var b' := BlocksBelow(b, id)[id := Truncate(BlockOr(b, id), n)];
            ValidBlocks(b', bs) && View(b', bs) == Truncate(View(b, bs), Place(bs, id, n))
  {
    var b' := BlocksBelow(b, id)[id := Truncate(BlockOr(b, id), n)];
    SizeFromTop(b', bs, id);
    forall i | 0 <= i < Place(bs, id, n) ensures LookAt(b', bs, i) == ByteOr(View(b, bs), i) {
      CutByte(b, bs, id, n, i);
      ViewByte(b, bs, i);
    }
    ViewIsTruncate(b', bs, View(b, bs), Place(bs, id, n));
  }

  lemma NoBlocks(b: Blocks, bs: nat)
    requires bs > 0
    ensures View(map[], bs) == [] == Truncate(View(b, bs), 0)
  {
  }

  // ------------------------------------------------------------------------ read

  /** Position i is stored, not merely implied to be zero. */
  predicate HasByte(b: Blocks, bs: nat, i: nat)
    requires bs > 0
  {
    Within(bs, i) < |BlockOr(b, Index(bs, i))|
  }

  /** A read from `off` on leaves the caller's byte i alone: the position has no stored byte, and no missing
      object's window, zeroed by a storage that wipes, covers it. The window of the first object reached starts
      with the buffer and is a whole block long. */
  predicate Keeps(b: Blocks, bs: nat, wipes: bool, off: nat, i: nat)
    requires bs > 0
  {
    && !HasByte(b, bs, off + i)
    && !(wipes && (Index(bs, off + i) !in b || (i < bs && Index(bs, off) !in b)))
  }

  function ReadByte(b: Blocks, bs: nat, wipes: bool, buf: Bytes, off: nat, i: nat): Byte
    requires bs > 0 && i < |buf|
  {
    if Keeps(b, bs, wipes, off, i) then buf[i] else LookAt(b, bs, off + i)
  }

  /** What a read leaves in the caller's buffer. */
  ghost function ReadInto(b: Blocks, bs: nat, wipes: bool, buf: Bytes, off: nat): (r: Bytes)
    requires bs > 0
    ensures |r| == if off < Size(b, bs) then Min(|buf|, Size(b, bs) - off) else 0
  {
    seq(if off < Size(b, bs) then Min(|buf|, Size(b, bs) - off) else 0,
        (i: nat) requires i < |buf| => ReadByte(b, bs, wipes, buf, off, i))
  }

  /** The answer is the flat file's exactly when the buffer was zero wherever its bytes are left alone. */
  lemma ReadExactly(b: Blocks, bs: nat, wipes: bool, buf: Bytes, off: nat)
    requires bs > 0
    ensures ReadInto(b, bs, wipes, buf, off) == Read(View(b, bs), off, |buf|) <==>
            forall i :: 0 <= i < |ReadInto(b, bs, wipes, buf, off)| && Keeps(b, bs, wipes, off, i) ==> buf[i] == 0
  {
    var l, r := ReadInto(b, bs, wipes, buf, off), Read(View(b, bs), off, |buf|);
    assert |l| == |r|;
    forall i | 0 <= i < |l| ensures l[i] == r[i] <==> (Keeps(b, bs, wipes, off, i) ==> buf[i] == 0) {
      assert r[i] == View(b, bs)[off + i];
    }
  }

  lemma SizeOfTwo(b: Blocks)
    requires 1 in b && |b[1]| == 1 && forall id :: id in b ==> id <= 1
    ensures Size(b, 2) == 3
  {
    SizeFromTop(b, 2, 1);
    PlaceIsProduct(2, 1, 1);
  }

  /** Blocks of two bytes, the first holding one: whatever the storage, its hole shows the caller's byte. */
  lemma ShortBlockExample(wipes: bool)
    ensures var b: Blocks := map[0 := [5], 1 := [7]];
            ReadInto(b, 2, wipes, [9, 9, 9], 0) == [5, 9, 7] && Read(View(b, 2), 0, 3) == [5, 0, 7]
  {
    var b: Blocks := map[0 := [5], 1 := [7]];
    SizeOfTwo(b);
    assert Index(2, 0) == 0 && Within(2, 0) == 0 && Index(2, 1) == 0 && Within(2, 1) == 1;
    assert Index(2, 2) == 1 && Within(2, 2) == 0;
    assert View(b, 2) == [5, 0, 7];
  }

  /** The first block missing: the caller's bytes show, unless the storage wipes. */
  lemma MissingBlockExample(wipes: bool)
    ensures var b: Blocks := map[1 := [7]];
            && ReadInto(b, 2, wipes, [9, 9, 9], 0) == (if wipes then [0, 0, 7] else [9, 9, 7])
            && Read(View(b, 2), 0, 3) == [0, 0, 7]
  {
    var b: Blocks := map[1 := [7]];
    SizeOfTwo(b);
    assert Index(2, 0) == 0 && Within(2, 0) == 0 && Index(2, 1) == 0 && Within(2, 1) == 1;
    assert Index(2, 2) == 1 && Within(2, 2) == 0;
    assert View(b, 2) == [0, 0, 7];
  }

  // ----------------------------------------------------------------------- write

  /** asio::buffer_copy(dst + at, src). */
  function Overlay(dst: Bytes, at: nat, src: Bytes): (r: Bytes)
    requires at <= |dst|
    ensures |r| == |dst|
    ensures forall i :: 0 <= i < |r| ==> r[i] == if at <= i < at + |src| then src[i - at] else dst[i]
  {
    seq(|dst|, (i: nat) requires i < |dst| => if at <= i < at + |src| then src[i - at] else dst[i])
  }

  lemma NextPlace(bs: nat, id: nat, o: nat)
    requires o <= bs
    ensures Place(bs, id + 1, 0) == Place(bs, id, o) + (bs - o)
  {
    PlaceShift(bs, id, o);
  }

  lemma LastBlock(bs: nat, size: nat, last: nat, kept: nat)
    requires size == Place(bs, last, kept) && 1 <= kept <= bs && size <= 1000000 * bs
    ensures last <= 999999
  {
    PlaceShift(bs, last, kept);
    PlaceShift(bs, last, kept - 1);
    BlockIdBound(bs, last, kept - 1);
  }

  lemma LastWholeBlock(bs: nat, size: nat, id: nat)
    requires size == Place(bs, id, 0) && id > 0 && 1 <= bs && size <= 1000000 * bs
    ensures id - 1 <= 999999 && size == Place(bs, id - 1, bs)
  {
    PlaceShift(bs, id - 1, bs);
    LastBlock(bs, size, id - 1, bs);
  }

  lemma BlockIdBound(bs: nat, id: nat, o: nat)
    requires Place(bs, id, o) < 1000000 * bs
    ensures id <= 999999
  {
    PlaceIsProduct(bs, 1000000, 0);
    PlaceShift(bs, id, o);
    if 1000000 < id { LaterBlock(bs, 1000000, id); PlaceShift(bs, 1000000, bs); }
  }

  lemma FetchIntoZeros(was: Bytes, bs: nat, target: nat)
    requires |was| <= target <= bs
    ensures Overlay(Zeros(bs), 0, was)[..target] == ZeroExtend(was, target)
  {
  }

  /** Fetching into zeros, patching and cutting to size is a write within the block. */
  lemma PatchIsWrite(was: Bytes, bs: nat, o: nat, src: Bytes)
    requires |was| <= bs && o < bs && src != []
    ensures var n := Min(bs - o, |src|);
            var target := Max(|was|, o + n);
            Overlay(Overlay(Zeros(bs), 0, was)[..target], o, src) == Write(was, o, src[..n])
  {
    var n := Min(bs - o, |src|);
    var target := Max(|was|, o + n);
    FetchIntoZeros(was, bs, target);
    if o + n < target { assert n == |src|; }
    var l, r := Overlay(ZeroExtend(was, target), o, src), Write(was, o, src[..n]);
    forall i | 0 <= i < target ensures l[i] == r[i] {}
  }

  lemma WholeBlockIsWrite(was: Bytes, bs: nat, src: Bytes)
    requires |was| <= bs == |src| && bs > 0
    ensures src == Write(was, 0, src)
  {
  }

  /** The new content of a block; a block that is wholly covered is not fetched. */
  function NewBlock(was: Bytes, bs: nat, o: nat, rest: Bytes): (block: Bytes)
    requires |was| <= bs && o < bs && rest != []
    ensures |block| == Max(|was|, o + Min(bs - o, |rest|))
  {
    var n := Min(bs - o, |rest|);
    if n == bs then rest[..n]
    else Overlay(Overlay(Zeros(bs), 0, was)[..Max(|was|, o + n)], o, rest)
  }

  lemma NewBlockIsWrite(was: Bytes, bs: nat, o: nat, rest: Bytes)
    requires |was| <= bs && o < bs && rest != []
    ensures NewBlock(was, bs, o, rest) == Write(was, o, rest[..Min(bs - o, |rest|)])
  {
    if Min(bs - o, |rest|) == bs {
      WholeBlockIsWrite(was, bs, rest[..bs]);
    } else {
      PatchIsWrite(was, bs, o, rest);
    }
  }

  /** How many blocks a write of len bytes from offset o of a block touches. */
  function Turns(bs: nat, o: nat, len: nat): nat
    requires o < bs
    decreases len
  {
    if len == 0 then 0 else 1 + Turns(bs, 0, len - Min(bs - o, len))
  }

  lemma FirstIdBound(bs: nat, offset: nat, len: nat)
    requires bs > 0 && offset + len <= 1000000 * bs
    ensures Index(bs, offset) <= 1000000
  {
    var id := Index(bs, offset);
    Split(bs, offset);
    PlaceShift(bs, id, Within(bs, offset));
    if id > 1000000 {
      LaterBlock(bs, 1000000, id);
      PlaceIsProduct(bs, 1000000, bs);
    }
  }

  /** A write that ends within a million blocks touches no block id beyond them. */
  lemma {:induction false} TurnsBound(bs: nat, id: nat, o: nat, len: nat)
    requires o < bs && Place(bs, id, o) + len <= 1000000 * bs && id <= 1000000
    ensures id + Turns(bs, o, len) <= 1000000
    decreases len
  {
    if len > 0 {
      BlockIdBound(bs, id, o);
      NextPlace(bs, id, o);
      var n := Min(bs - o, len);
      if n < len {
        TurnsBound(bs, id + 1, 0, len - n);
      }
    }
  }

  predicate BlocksFit(b: Blocks, bs: nat) { forall id :: id in b ==> |b[id]| <= bs }

  /** The blocks after one turn of the write loop. */
  function StoreChunk(b: Blocks, bs: nat, id: nat, o: nat, rest: Bytes): (after: Blocks)
    requires BlocksFit(b, bs) && o < bs && rest != []
    ensures BlocksFit(after, bs)
  {
    b[id := NewBlock(BlockOr(b, id), bs, o, rest)]
  }

  /** The blocks after writing buf[k..] from byte o of block id on, block by block. */
  function StoreChunks(b: Blocks, bs: nat, id: nat, o: nat, buf: Bytes, k: nat): Blocks
    requires BlocksFit(b, bs) && o < bs && k <= |buf|
    decreases |buf| - k
  {
    if k == |buf| then b
    else StoreChunks(StoreChunk(b, bs, id, o, buf[k..]), bs, id + 1, 0, buf, k + Min(bs - o, |buf| - k))
  }

  lemma StoreChunkIsWrite(b: Blocks, bs: nat, id: nat, o: nat, rest: Bytes)
    requires ValidBlocks(b, bs) && o < bs && rest != []
    ensures ValidBlocks(StoreChunk(b, bs, id, o, rest), bs)
    ensures View(StoreChunk(b, bs, id, o, rest), bs)
         == Write(View(b, bs), Place(bs, id, o), rest[..Min(bs - o, |rest|)])
  {
    NewBlockIsWrite(BlockOr(b, id), bs, o, rest);
    PutBlock(b, bs, id, o, rest[..Min(bs - o, |rest|)]);
  }

  /** Block by block, the write is the flat write of the whole buffer. */
  lemma {:induction false} StoreChunksIsWrite(b: Blocks, bs: nat, id: nat, o: nat, buf: Bytes, k: nat)
    requires ValidBlocks(b, bs) && o < bs && k <= |buf|
    ensures ValidBlocks(StoreChunks(b, bs, id, o, buf, k), bs)
    ensures View(StoreChunks(b, bs, id, o, buf, k), bs) == Write(View(b, bs), Place(bs, id, o), buf[k..])
    decreases |buf| - k
  {
    if k < |buf| {
      var n, next := Min(bs - o, |buf| - k), StoreChunk(b, bs, id, o, buf[k..]);
      StoreChunkIsWrite(b, bs, id, o, buf[k..]);
      StoreChunksIsWrite(next, bs, id + 1, 0, buf, k + n);
      NextPlace(bs, id, o);
      SliceSlice(buf, k, n);
      if k + n < |buf| {
        WriteSplit(View(b, bs), Place(bs, id, o), buf[k..], n, Place(bs, id + 1, 0));
      } else {
        WholeSlice(buf[k..], n);
      }
    }
  }

  lemma SliceSlice(d: Bytes, k: nat, n: nat)
    requires k + n <= |d|
    ensures d[k..][n..] == d[k + n..]
  {
  }

  // ------------------------------------------------------------------- read loop

  /** The buffer with `got` laid over it at position k. */
  function Fill(buf: Bytes, k: nat, got: Bytes): (r: Bytes)
    requires k + |got| <= |buf|
    ensures |r| == |buf|
    ensures forall i :: 0 <= i < |r| ==> r[i] == if k <= i < k + |got| then got[i - k] else buf[i]
  {
    seq(|buf|, (i: nat) requires i < |buf| => if k <= i < k + |got| then got[i - k] else buf[i])
  }

  /** What arrives in a window of n bytes for the bytes of block id from o on. */
  function Delivered(b: Blocks, wipes: bool, id: nat, o: nat, n: nat): (got: Bytes)
    ensures |got| <= n
  {
    if id in b then Read(b[id], o, n) else if wipes then Zeros(n) else []
  }

  /** The buffer after the read loop has gone on from byte o of block id, at buffer position k. */
  function FillBlocks(b: Blocks, bs: nat, wipes: bool, id: nat, o: nat, buf: Bytes, k: nat, size: nat): (r: Bytes)
    requires o < bs && size <= |buf|
    ensures |r| == |buf|
    decreases size - k
  {
    if k >= size then buf
    else FillBlocks(b, bs, wipes, id + 1, 0, Fill(buf, k, Delivered(b, wipes, id, o, Min(bs, size - k))),
                    k + (bs - o), size)
  }

  /** One turn of the loop. */
  lemma FillOneMore(b: Blocks, bs: nat, wipes: bool, id: nat, o: nat, buf: Bytes, k: nat, size: nat, next: Bytes)
    requires o < bs && k < size <= |buf| && next == Fill(buf, k, Delivered(b, wipes, id, o, Min(bs, size - k)))
    ensures FillBlocks(b, bs, wipes, id, o, buf, k, size)
         == FillBlocks(b, bs, wipes, id + 1, 0, next, k + (bs - o), size)
  {
  }

  /** One window: stored bytes arrive, zeros for a missing object if the storage wipes, nothing else. */
  lemma FillByte(b: Blocks, wipes: bool, id: nat, o: nat, n: nat, buf: Bytes, k: nat, i: nat)
    requires k + n <= |buf| && i < |buf|
    ensures Fill(buf, k, Delivered(b, wipes, id, o, n))[i] ==
            if !(k <= i < k + n) then buf[i]
            else if id !in b then (if wipes then 0 else buf[i])
            else if o + (i - k) < |b[id]| then b[id][o + (i - k)] else buf[i]
  {
    var got := Delivered(b, wipes, id, o, n);
    if id in b && k <= i < k + |got| { assert got[i - k] == b[id][o + (i - k)]; }
  }

  /** The byte aligned windows leave at buffer position i, for position `at` of the file. */
  function ByteInto(b: Blocks, bs: nat, wipes: bool, buf: Bytes, at: nat, i: nat): Byte
    requires bs > 0 && i < |buf|
  {
    if HasByte(b, bs, at) then LookAt(b, bs, at) else if wipes && Index(bs, at) !in b then 0 else buf[i]
  }

  lemma AlignedByte(b: Blocks, bs: nat, wipes: bool, id: nat, buf: Bytes, k: nat, size: nat, i: nat, at: nat)
    requires BlocksFit(b, bs) && bs > 0 && k <= i < size <= |buf| && i < k + bs
    requires at == Place(bs, id, 0) + (i - k)
    ensures Fill(buf, k, Delivered(b, wipes, id, 0, Min(bs, size - k)))[i] == ByteInto(b, bs, wipes, buf, at, i)
  {
    InBlock(bs, id, 0, bs, at);
    FillByte(b, wipes, id, 0, Min(bs, size - k), buf, k, i);
  }

  lemma {:induction false} AlignedBlocks(b: Blocks, bs: nat, wipes: bool, id: nat, buf: Bytes, k: nat, size: nat,
                                         i: nat, at: nat)
    requires BlocksFit(b, bs) && bs > 0 && size <= |buf| && i < |buf|
    requires k <= i ==> at == Place(bs, id, 0) + (i - k)
    ensures FillBlocks(b, bs, wipes, id, 0, buf, k, size)[i] ==
            if k <= i < size then ByteInto(b, bs, wipes, buf, at, i) else buf[i]
    decreases size - k
  {
    if k < size {
      var filled := Fill(buf, k, Delivered(b, wipes, id, 0, Min(bs, size - k)));
      if k + bs <= i { NextPlace(bs, id, 0); }
      AlignedBlocks(b, bs, wipes, id + 1, filled, k + bs, size, i, at);
      if k <= i < size && i < k + bs {
        AlignedByte(b, bs, wipes, id, buf, k, size, i, at);
      } else {
        FillByte(b, wipes, id, 0, Min(bs, size - k), buf, k, i);
      }
    }
  }

  /** The first window, which may start inside its block. */
  lemma FirstWindow(b: Blocks, bs: nat, wipes: bool, id: nat, o: nat, buf: Bytes, size: nat, i: nat)
    requires BlocksFit(b, bs) && o < bs && i < size <= |buf|
    ensures Fill(buf, 0, Delivered(b, wipes, id, o, Min(bs, size)))[i] ==
            if id in b then (if o + i < |b[id]| then b[id][o + i] else buf[i])
            else if wipes && i < bs then 0 else buf[i]
  {
    FillByte(b, wipes, id, o, Min(bs, size), buf, 0, i);
  }

  lemma FirstBlockByte(b: Blocks, bs: nat, wipes: bool, off: nat, buf: Bytes, size: nat, i: nat)
    requires BlocksFit(b, bs) && bs > 0 && i < size <= |buf| && i < bs - Within(bs, off)
    ensures Fill(buf, 0, Delivered(b, wipes, Index(bs, off), Within(bs, off), Min(bs, size)))[i]
         == ReadByte(b, bs, wipes, buf, off, i)
  {
    var id, o := Index(bs, off), Within(bs, off);
    Split(bs, off);
    InBlock(bs, id, o, bs - o, off + i);
    FirstWindow(b, bs, wipes, id, o, buf, size, i);
  }

  lemma LaterBlockByte(b: Blocks, bs: nat, wipes: bool, off: nat, buf: Bytes, size: nat, i: nat)
    requires BlocksFit(b, bs) && bs > 0 && i < size <= |buf| && i >= bs - Within(bs, off)
    ensures var filled := Fill(buf, 0, Delivered(b, wipes, Index(bs, off), Within(bs, off), Min(bs, size)));
            ByteInto(b, bs, wipes, filled, off + i, i) == ReadByte(b, bs, wipes, buf, off, i)
  {
    FirstWindow(b, bs, wipes, Index(bs, off), Within(bs, off), buf, size, i);
  }

  /** The first window, then aligned ones. */
  lemma AfterFirst(b: Blocks, bs: nat, wipes: bool, id: nat, o: nat, buf: Bytes, size: nat, i: nat, at: nat)
    requires BlocksFit(b, bs) && o < bs && 0 < size <= |buf| && i < |buf| && at == Place(bs, id, o) + i
    ensures var filled := Fill(buf, 0, Delivered(b, wipes, id, o, Min(bs, size)));
            FillBlocks(b, bs, wipes, id, o, buf, 0, size)[i]
            == if bs - o <= i < size then ByteInto(b, bs, wipes, filled, at, i) else filled[i]
  {
    NextPlace(bs, id, o);
    AlignedBlocks(b, bs, wipes, id + 1, Fill(buf, 0, Delivered(b, wipes, id, o, Min(bs, size))), bs - o, size, i,
                  at);
  }

  lemma FillFromStart(b: Blocks, bs: nat, wipes: bool, buf: Bytes, off: nat, size: nat, i: nat)
    requires BlocksFit(b, bs) && bs > 0 && size <= |buf| && i < |buf|
    ensures FillBlocks(b, bs, wipes, Index(bs, off), Within(bs, off), buf, 0, size)[i]
         == if i < size then ReadByte(b, bs, wipes, buf, off, i) else buf[i]
  {
    if size > 0 {
      Split(bs, off);
      AfterFirst(b, bs, wipes, Index(bs, off), Within(bs, off), buf, size, i, off + i);
      if i >= size {
        FillByte(b, wipes, Index(bs, off), Within(bs, off), Min(bs, size), buf, 0, i);
      } else if i < bs - Within(bs, off) {
        FirstBlockByte(b, bs, wipes, off, buf, size, i);
      } else {
        LaterBlockByte(b, bs, wipes, off, buf, size, i);
      }
    }
  }

  /** A block that holds a position of the file is not past the highest one. */
  lemma IdWithinFile(b: Blocks, bs: nat, id: nat, o: nat, top: nat)
    requires ValidBlocks(b, bs) && Place(bs, id, o) < Size(b, bs) && forall j :: j in b ==> j <= top
    ensures id <= top
  {
    var t := TopId(b.Keys);
    PlaceShift(bs, id, o);
    PlaceShift(bs, t, |b[t]|);
    PlaceShift(bs, t, bs);
    if t < id { LaterBlock(bs, t, id); }
  }

  /** The blocks that hold so many bytes from byte o of block id on have ids up to a bound. */
  predicate IdsWithin(bs: nat, id: nat, o: nat, left: int, top: nat)
    requires o < bs
    decreases left
  {
    left <= 0 || (id <= top && IdsWithin(bs, id + 1, 0, left - (bs - o), top))
  }

  lemma {:induction false} ReachedIds(b: Blocks, bs: nat, id: nat, o: nat, left: int, top: nat)
    requires ValidBlocks(b, bs) && o < bs && forall j :: j in b ==> j <= top
    requires left > 0 ==> Place(bs, id, o) + left <= Size(b, bs)
    ensures IdsWithin(bs, id, o, left, top)
    decreases left
  {
    if left > 0 {
      IdWithinFile(b, bs, id, o, top);
      NextPlace(bs, id, o);
      ReachedIds(b, bs, id + 1, 0, left - (bs - o), top);
    }
  }

  /** The read loop leaves the bytes ReadInto says, and the rest of the buffer alone. */
  lemma FillBlocksIsReadInto(b: Blocks, bs: nat, wipes: bool, buf: Bytes, off: nat)
    requires ValidBlocks(b, bs)
    ensures var read := ReadInto(b, bs, wipes, buf, off);
            FillBlocks(b, bs, wipes, Index(bs, off), Within(bs, off), buf, 0, |read|) == read + buf[|read|..]
  {
    var read := ReadInto(b, bs, wipes, buf, off);
    var n := |read|;
    var l := FillBlocks(b, bs, wipes, Index(bs, off), Within(bs, off), buf, 0, n);
    forall i | 0 <= i < |buf| ensures l[i] == (if i < n then read[i] else buf[i]) {
      FillFromStart(b, bs, wipes, buf, off, n, i);
    }
    Overlaid(l, read, buf);
  }

  lemma Overlaid(l: Bytes, front: Bytes, buf: Bytes)
    requires |front| <= |buf| == |l|
    requires forall i :: 0 <= i < |buf| ==> l[i] == if i < |front| then front[i] else buf[i]
    ensures l == front + buf[|front|..]
  {
  }
}
