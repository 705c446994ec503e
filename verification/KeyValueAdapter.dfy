/** POSIX read, write and truncate over a key-value storage, one object per block of a file. */
module KeyValueAdapter {
  import opened FlatFile
  import opened BlockStore
  import opened KeyScheme
  import opened KeyedObjects

  /** The file under this prefix is well-formed and reads as f. */
  ghost predicate Holds(objects: Objects, adj: string, bs: nat, f: Bytes) {
    FileOk(objects, adj, bs) && FileAt(objects, adj, bs) == f
  }

  function Stored(objects: Objects, key: string): Bytes { if key in objects then objects[key] else [] }

  /** Every object fits a block. */
  predicate ObjectsFit(objects: Objects, bs: nat) { forall k :: k in objects ==> |objects[k]| <= bs }

  /** The objects after one turn of the write loop. */
  function PutChunk(objects: Objects, adj: string, bs: nat, id: nat, o: nat, rest: Bytes): (after: Objects)
    requires ObjectsFit(objects, bs) && o < bs && rest != []
    ensures ObjectsFit(after, bs)
  {
    objects[KeyOf(adj, id) := NewBlock(Stored(objects, KeyOf(adj, id)), bs, o, rest)]
  }

  /** The objects after the whole write loop. */
  function PutChunks(objects: Objects, adj: string, bs: nat, id: nat, o: nat, buf: Bytes, k: nat): (after: Objects)
    requires ObjectsFit(objects, bs) && o < bs && k <= |buf|
    ensures ObjectsFit(after, bs)
    decreases |buf| - k
  {
    if k == |buf| then objects
    else PutChunks(PutChunk(objects, adj, bs, id, o, buf[k..]), adj, bs, id + 1, 0,
                   buf, k + Min(bs - o, |buf| - k))
  }

  lemma PutChunkBlocks(objects: Objects, b: Blocks, adj: string, bs: nat, id: nat, o: nat, rest: Bytes)
    requires Represents(objects, adj, b) && BlocksFit(b, bs) && ObjectsFit(objects, bs)
    requires o < bs && rest != [] && id <= MAX_OBJECT_ID
    ensures Represents(PutChunk(objects, adj, bs, id, o, rest), adj, StoreChunk(b, bs, id, o, rest))
  {
    forall j: nat | j <= MAX_OBJECT_ID && j != id ensures KeyOf(adj, j) != KeyOf(adj, id) {
      if KeyOf(adj, j) == KeyOf(adj, id) { KeyOfInjective(adj, j, adj, id); }
    }
  }

  /** Under its keys, the loop does to a file's blocks what StoreChunks does. */
  lemma {:induction false} PutChunksBlocks(objects: Objects, b: Blocks, adj: string, bs: nat,
                                           id: nat, o: nat, buf: Bytes, k: nat)
    requires Represents(objects, adj, b) && BlocksFit(b, bs) && ObjectsFit(objects, bs)
    requires o < bs && k <= |buf| && id + Turns(bs, o, |buf| - k) <= 1000000
    ensures Represents(PutChunks(objects, adj, bs, id, o, buf, k), adj, StoreChunks(b, bs, id, o, buf, k))
    decreases |buf| - k
  {
    if k < |buf| {
      PutChunkBlocks(objects, b, adj, bs, id, o, buf[k..]);
      PutChunksBlocks(PutChunk(objects, adj, bs, id, o, buf[k..]), StoreChunk(b, bs, id, o, buf[k..]),
                      adj, bs, id + 1, 0, buf, k + Min(bs - o, |buf| - k));
    }
  }

  /** It touches no other file. */
  lemma {:induction false} PutChunksOthers(objects: Objects, adj: string, bs: nat, id: nat, o: nat,
                                           buf: Bytes, k: nat)
    requires ObjectsFit(objects, bs) && o < bs && k <= |buf|
    ensures OthersKept(objects, PutChunks(objects, adj, bs, id, o, buf, k), adj)
    decreases |buf| - k
  {
    if k < |buf| {
      var next := PutChunk(objects, adj, bs, id, o, buf[k..]);
      KeyIsListed(adj, id);
      PutChunksOthers(next, adj, bs, id + 1, 0, buf, k + Min(bs - o, |buf| - k));
    }
  }

  /** It keeps keys well-formed. */
  lemma {:induction false} PutChunksKeys(objects: Objects, adj: string, bs: nat, id: nat, o: nat,
                                         buf: Bytes, k: nat)
    requires IsPrefix(adj) && ObjectsFit(objects, bs) && o < bs && WellKeyed(objects) && k <= |buf|
    requires id + Turns(bs, o, |buf| - k) <= 1000000
    ensures WellKeyed(PutChunks(objects, adj, bs, id, o, buf, k))
    decreases |buf| - k
  {
    if k < |buf| {
      KeyShape(adj, id);
      PutChunksKeys(PutChunk(objects, adj, bs, id, o, buf[k..]), adj, bs, id + 1, 0,
                    buf, k + Min(bs - o, |buf| - k));
    }
  }

  function WrittenObjects(objects: Objects, adj: string, bs: nat, offset: nat, buf: Bytes): Objects
    requires bs > 0 && ObjectsFit(objects, bs)
  {
    PutChunks(objects, adj, bs, Index(bs, offset), Within(bs, offset), buf, 0)
  }

  lemma WrittenBlocks(objects: Objects, adj: string, bs: nat, offset: nat, buf: Bytes)
    requires bs > 0 && ObjectsFit(objects, bs) && BlocksFit(BlocksOf(objects, adj), bs)
    requires Index(bs, offset) + Turns(bs, Within(bs, offset), |buf|) <= 1000000
    ensures BlocksOf(WrittenObjects(objects, adj, bs, offset, buf), adj)
         == StoreChunks(BlocksOf(objects, adj), bs, Index(bs, offset), Within(bs, offset), buf, 0)
  {
    var b, id, o := BlocksOf(objects, adj), Index(bs, offset), Within(bs, offset);
    RepresentsIffBlocksOf(objects, adj, b);
    PutChunksBlocks(objects, b, adj, bs, id, o, buf, 0);
    RepresentsIffBlocksOf(WrittenObjects(objects, adj, bs, offset, buf), adj,
                          StoreChunks(b, bs, id, o, buf, 0));
  }

  lemma TurnsFrom(bs: nat, offset: nat, len: nat)
    requires bs > 0 && offset + len <= 1000000 * bs
    ensures Index(bs, offset) + Turns(bs, Within(bs, offset), len) <= 1000000
  {
    Split(bs, offset);
    FirstIdBound(bs, offset, len);
    TurnsBound(bs, Index(bs, offset), Within(bs, offset), len);
  }

  lemma StoredView(b: Blocks, bs: nat, offset: nat, buf: Bytes)
    requires ValidBlocks(b, bs)
    ensures var after := StoreChunks(b, bs, Index(bs, offset), Within(bs, offset), buf, 0);
            ValidBlocks(after, bs) && View(after, bs) == Write(View(b, bs), offset, buf)
  {
    Split(bs, offset);
    StoreChunksIsWrite(b, bs, Index(bs, offset), Within(bs, offset), buf, 0);
    assert buf[0..] == buf;
  }

  /** ash_write refines the flat write: the file reads as the old one, zero-extended to the offset,
      with the buffer spliced in; its objects keep fitting their blocks, and no other file changes. */
  lemma WriteRefinesFlat(objects: Objects, adj: string, bs: nat, offset: nat, buf: Bytes)
    requires FileOk(objects, adj, bs) && ObjectsFit(objects, bs)
    requires offset + |buf| <= 1000000 * bs
    ensures var after := WrittenObjects(objects, adj, bs, offset, buf);
            && Holds(after, adj, bs, Write(FileAt(objects, adj, bs), offset, buf))
            && OthersKept(objects, after, adj)
  {
    TurnsFrom(bs, offset, |buf|);
    WrittenBlocks(objects, adj, bs, offset, buf);
    StoredView(BlocksOf(objects, adj), bs, offset, buf);
    PutChunksOthers(objects, adj, bs, Index(bs, offset), Within(bs, offset), buf, 0);
    PutChunksKeys(objects, adj, bs, Index(bs, offset), Within(bs, offset), buf, 0);
  }

  class Adapter {
    const blockSize: nat
    /** Whether the storage helper zeroes the whole window asked for when the object is missing. */
    const wipes: bool
    var objects: Objects

    constructor (bs: nat, wipes: bool)
      ensures blockSize == bs && this.wipes == wipes && objects == map[]
    {
      blockSize, objects := bs, map[];
      this.wipes := wipes;
    }

    function GetBlockId(offset: nat): (id: nat)
      requires blockSize > 0
      ensures id == Index(blockSize, offset)
    {
      IndexIsQuotient(blockSize, offset);
      offset / blockSize
    }

    function GetBlockOffset(offset: nat): (o: nat)
      requires blockSize > 0
      ensures o == Within(blockSize, offset)
    {
      IndexIsQuotient(blockSize, offset);
      offset - GetBlockId(offset) * blockSize
    }

    /** Object bytes from `offset`, at most `want`; none if the object is missing or too short. */
    method GetBlock(key: string, want: nat, offset: nat) returns (got: Bytes)
      ensures got == Read(Stored(objects, key), offset, want)
    {
      got := if key in objects then Read(objects[key], offset, want) else [];
    }

    /** The size of a file, told by the first key of its listing. */
    method GetObjectsSize(adj: string) returns (size: nat)
      requires FileOk(objects, adj, blockSize)
      ensures size == Size(BlocksOf(objects, adj), blockSize)
    {
      var keys := Listing(objects, adj);
      if keys == {} {
        NothingListed(objects, adj, blockSize);
        return 0;
      }
      LeastExists(keys);
      var key :| IsLeast(keys, key);
      FirstKeyIsTop(objects, adj, blockSize, key);
      size := Place(blockSize, GetObjectId(key).value, |objects[key]|);
    }

    /** The loop of ash_write. */
    method WriteBlocks(adj: string, buf: Bytes, firstId: nat, firstOffset: nat)
      requires firstOffset < blockSize && ObjectsFit(objects, blockSize)
      modifies this
      ensures objects == PutChunks(old(objects), adj, blockSize, firstId, firstOffset, buf, 0)
    {
      var blockId, blockOffset := firstId, firstOffset;
      var bufOffset := 0;
      while bufOffset < |buf|
        invariant 0 <= bufOffset <= |buf| && 0 <= blockOffset < blockSize && 0 <= blockId
        invariant ObjectsFit(objects, blockSize)
        invariant PutChunks(old(objects), adj, blockSize, firstId, firstOffset, buf, 0)
               == PutChunks(objects, adj, blockSize, blockId, blockOffset, buf, bufOffset)
      {
        var n := Min(blockSize - blockOffset, |buf| - bufOffset);
        PutBlockObject(adj, blockId, blockOffset, buf[bufOffset..], n);
        bufOffset := bufOffset + n;
        blockOffset := 0;
        blockId := blockId + 1;
      }
    }

    /** Fetches, patches and stores one block; a block that is wholly covered is not fetched. */
    method PutBlockObject(adj: string, blockId: nat, blockOffset: nat, rest: Bytes, n: nat)
      requires blockOffset < blockSize && rest != [] && n == Min(blockSize - blockOffset, |rest|)
      requires ObjectsFit(objects, blockSize)
      modifies this
      ensures objects == PutChunk(old(objects), adj, blockSize, blockId, blockOffset, rest)
    {
      var key := KeyOf(adj, blockId);
      var block;
      if n != blockSize {
        var fetched := GetBlock(key, blockSize, 0);
        assert fetched == Stored(objects, key);
        var target := Max(|fetched|, blockOffset + n);
        block := Overlay(Overlay(Zeros(blockSize), 0, fetched)[..target], blockOffset, rest);
      } else {
        block := rest[..n];
      }
      objects := objects[key := block];
    }

    /** ash_write: the flat write of the whole buffer; other files keep their bytes. */
    method WriteFile(p: string, buf: Bytes, offset: nat) returns (ok: bool)
      requires blockSize > 0 && offset + |buf| <= 1000000 * blockSize
      requires ObjectsFit(objects, blockSize)
      requires AdjustPrefix(p).Some? ==> FileOk(objects, AdjustPrefix(p).value, blockSize)
      modifies this
      ensures ok <==> buf == [] || AdjustPrefix(p).Some?
      ensures AdjustPrefix(p).None? ==> objects == old(objects)
      ensures AdjustPrefix(p).Some? ==>
                var adj := AdjustPrefix(p).value;
                && objects == WrittenObjects(old(objects), adj, blockSize, offset, buf)
                && Holds(objects, adj, blockSize, Write(old(FileAt(objects, adj, blockSize)), offset, buf))
                && ObjectsFit(objects, blockSize)
                && OthersKept(old(objects), objects, adj)
      ensures PathsKept(old(objects), objects, p)
    {
      if AdjustPrefix(p).None? {
        return buf == [];
      }
      var adj := AdjustPrefix(p).value;
      WriteRefinesFlat(objects, adj, blockSize, offset, buf);
      WriteBlocks(adj, buf, GetBlockId(offset), GetBlockOffset(offset));
      AllPathsKept(old(objects), objects, p);
      ok := true;
    }

    // -------------------------------------------------------------------- truncate

    /** The listed keys past the new end: ids above blockId, and blockId itself when nothing of it
        is kept. */
    method KeysToDelete(adj: string, blockId: nat, blockOffset: nat) returns (doomed: set<string>)
      requires FileOk(objects, adj, blockSize)
      ensures doomed == KeysFrom(objects, adj, if blockOffset == 0 then blockId else blockId + 1)
    {
      var keys := Listing(objects, adj);
      var todo := keys;
      doomed := {};
      while todo != {}
        invariant todo <= keys
        invariant doomed == KeysFrom(objects, adj, if blockOffset == 0 then blockId else blockId + 1) - todo
        decreases todo
      {
        var key :| key in todo;
        var objectId := GetObjectId(key);
        ListedId(objects, adj, key);
        if objectId.value > blockId || (objectId.value == blockId && blockOffset == 0) {
          doomed := doomed + {key};
        }
        todo := todo - {key};
      }
    }

    /** Rewrites a block to hold its first n bytes, padded with zeros. */
    method RewriteBlock(adj: string, id: nat, n: nat)
      requires id <= MAX_OBJECT_ID
      modifies this
      ensures objects == old(objects)[KeyOf(adj, id) :=
                           Truncate(BlockOr(BlocksOf(old(objects), adj), id), n)]
    {
      var key := KeyOf(adj, id);
      var got := GetBlock(key, n, 0);
      var block := Overlay(Zeros(n), 0, got);
      assert block == Truncate(BlockOr(BlocksOf(objects, adj), id), n);
      objects := objects[key := block];
    }

    /** Rewrites the last kept block, then deletes the keys past it. */
    method CutAt(adj: string, ghost size: nat, last: nat, kept: nat, doomed: set<string>)
      requires FileOk(objects, adj, blockSize) && last <= MAX_OBJECT_ID && 1 <= kept <= blockSize
      requires doomed == KeysFrom(objects, adj, last + 1) && size == Place(blockSize, last, kept)
      modifies this
      ensures Truncated(old(objects), objects, adj, blockSize, size)
      ensures ObjectsFit(old(objects), blockSize) ==> ObjectsFit(objects, blockSize)
    {
      CutFile(objects, adj, blockSize, last, kept);
      RewriteBlock(adj, last, kept);
      objects := objects - doomed;
    }

    method TruncateBlocks(adj: string, size: nat, blockId: nat, blockOffset: nat)
      requires FileOk(objects, adj, blockSize) && size <= 1000000 * blockSize
      requires blockOffset < blockSize && size == Place(blockSize, blockId, blockOffset)
      modifies this
      ensures Truncated(old(objects), objects, adj, blockSize, size)
      ensures ObjectsFit(old(objects), blockSize) ==> ObjectsFit(objects, blockSize)
    {
      var doomed := KeysToDelete(adj, blockId, blockOffset);
      if blockOffset > 0 {
        LastBlock(blockSize, size, blockId, blockOffset);
        CutAt(adj, size, blockId, blockOffset, doomed);
      } else if blockId > 0 {
        LastWholeBlock(blockSize, size, blockId);
        CutAt(adj, size, blockId - 1, blockSize, doomed);
      } else {
        EmptyFile(objects, adj, blockSize);
        objects := objects - doomed;
      }
    }

    /** ash_truncate: the flat truncation, for every size the six-digit ids can hold. */
    method TruncateFile(p: string, size: nat) returns (ok: bool)
      requires blockSize > 0 && size <= 1000000 * blockSize
      requires AdjustPrefix(p).Some? ==> FileOk(objects, AdjustPrefix(p).value, blockSize)
      modifies this
      ensures ok <==> AdjustPrefix(p).Some?
      ensures !ok ==> objects == old(objects)
      ensures ok ==> Truncated(old(objects), objects, AdjustPrefix(p).value, blockSize, size)
      ensures PathsKept(old(objects), objects, p)
      ensures ObjectsFit(old(objects), blockSize) ==> ObjectsFit(objects, blockSize)
    {
      if AdjustPrefix(p).None? {
        return false;
      }
      Split(blockSize, size);
      TruncateBlocks(AdjustPrefix(p).value, size, GetBlockId(size), GetBlockOffset(size));
      AllPathsKept(old(objects), objects, p);
      ok := true;
    }

    // ------------------------------------------------------------------------ read

    method CopyInto(buf: array<Byte>, k: nat, got: Bytes)
      requires k + |got| <= buf.Length
      modifies buf
      ensures buf[..] == Fill(old(buf[..]), k, got)
    {
      var j := 0;
      while j < |got|
        invariant 0 <= j <= |got|
        invariant forall i :: 0 <= i < buf.Length ==>
                    buf[i] == if k <= i < k + j then got[i - k] else old(buf[i])
      {
        buf[k + j] := got[j];
        j := j + 1;
      }
    }

    /** One turn of the read loop: the window of a block at buffer position k. */
    method ReadBlock(adj: string, ghost b: Blocks, id: nat, o: nat, buf: array<Byte>, k: nat, size: nat)
      requires Represents(objects, adj, b) && id <= MAX_OBJECT_ID
      requires k < size <= buf.Length && o < blockSize
      modifies buf
      ensures buf[..] == Fill(old(buf[..]), k, Delivered(b, wipes, id, o, Min(blockSize, size - k)))
    {
      var key := KeyOf(adj, id);
      var n := Min(blockSize, size - k);
      if key in objects {
        var got := GetBlock(key, n, o);
        CopyInto(buf, k, got);
      } else if wipes {
        CopyInto(buf, k, Zeros(n));
      } else {
        CopyInto(buf, k, []);
      }
    }

    /** What is left to read shrinks by one block. */
    method ReadTurn(adj: string, ghost b: Blocks, id: nat, o: nat, buf: array<Byte>, k: nat, size: nat,
                    ghost goal: Bytes)
      requires Represents(objects, adj, b) && id <= MAX_OBJECT_ID
      requires k < size <= buf.Length && o < blockSize
      requires goal == FillBlocks(b, blockSize, wipes, id, o, buf[..], k, size)
      modifies buf
      ensures goal == FillBlocks(b, blockSize, wipes, id + 1, 0, buf[..], k + (blockSize - o), size)
    {
      ghost var was := buf[..];
      ReadBlock(adj, b, id, o, buf, k, size);
      FillOneMore(b, blockSize, wipes, id, o, was, k, size, buf[..]);
    }

    /** The loop of ash_read. */
    method ReadBlocks(adj: string, ghost b: Blocks, buf: array<Byte>, firstId: nat, firstOffset: nat, size: nat)
      requires Represents(objects, adj, b) && firstOffset < blockSize && size <= buf.Length
      requires IdsWithin(blockSize, firstId, firstOffset, size, MAX_OBJECT_ID)
      modifies buf
      ensures buf[..] == FillBlocks(b, blockSize, wipes, firstId, firstOffset, old(buf[..]), 0, size)
    {
      var blockId, blockOffset := firstId, firstOffset;
      var bufOffset := 0;
      ghost var goal := FillBlocks(b, blockSize, wipes, blockId, blockOffset, buf[..], 0, size);
      while bufOffset < size
        invariant 0 <= bufOffset && 0 <= blockOffset < blockSize && 0 <= blockId
        invariant IdsWithin(blockSize, blockId, blockOffset, size - bufOffset, MAX_OBJECT_ID)
        invariant goal == FillBlocks(b, blockSize, wipes, blockId, blockOffset, buf[..], bufOffset, size)
      {
        ReadTurn(adj, b, blockId, blockOffset, buf, bufOffset, size, goal);
        blockId, bufOffset := blockId + 1, bufOffset + (blockSize - blockOffset);
        blockOffset := 0;
      }
    }

    method ReadObjects(adj: string, buf: array<Byte>, offset: nat) returns (n: nat)
      requires FileOk(objects, adj, blockSize)
      modifies buf
      ensures var r := ReadInto(BlocksOf(objects, adj), blockSize, wipes, old(buf[..]), offset);
              n == |r| && buf[..] == r + old(buf[n..])
    {
      ghost var b := BlocksOf(objects, adj);
      RepresentsIffBlocksOf(objects, adj, b);
      FillBlocksIsReadInto(b, blockSize, wipes, buf[..], offset);
      var fileSize := GetObjectsSize(adj);
      if offset >= fileSize {
        return 0;
      }
      n := Min(buf.Length, fileSize - offset);
      Split(blockSize, offset);
      ReachedIds(b, blockSize, GetBlockId(offset), GetBlockOffset(offset), n, MAX_OBJECT_ID);
      ReadBlocks(adj, b, buf, GetBlockId(offset), GetBlockOffset(offset), n);
    }

    /** ash_read: as many bytes as the file has there, and the flat file's bytes exactly when the buffer was
        zero wherever they are left alone; so always from a zero-filled one. */
    method ReadFile(p: string, buf: array<Byte>, offset: nat) returns (ok: bool, n: nat)
      requires AdjustPrefix(p).Some? ==> FileOk(objects, AdjustPrefix(p).value, blockSize)
      modifies buf
      ensures ok <==> AdjustPrefix(p).Some?
      ensures !ok ==> buf[..] == old(buf[..])
      ensures ok ==>
                var adj := AdjustPrefix(p).value;
                var flat := Read(FileAt(objects, adj, blockSize), offset, buf.Length);
                && n == |flat| && buf[n..] == old(buf[n..])
                && (buf[..n] == flat <==>
                      forall i :: 0 <= i < n && Keeps(BlocksOf(objects, adj), blockSize, wipes, offset, i) ==>
                        old(buf[i]) == 0)
                && (old(buf[..]) == Zeros(buf.Length) ==> buf[..n] == flat)
    {
      if AdjustPrefix(p).None? {
        return false, 0;
      }
      ok := true;
      var adj := AdjustPrefix(p).value;
      ghost var was := buf[..];
      ReadExactly(BlocksOf(objects, adj), blockSize, wipes, was, offset);
      n := ReadObjects(adj, buf, offset);
      ghost var r := ReadInto(BlocksOf(objects, adj), blockSize, wipes, was, offset);
      assert buf[..][..n] == r && buf[..][n..] == was[n..];
    }
  }
}
