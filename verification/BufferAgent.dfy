/** The buffering classes in their stateful form. Each call is proved to be the step of BufferModel it
    stands for, so every theorem about runs is about sequences of these calls. A call that waits on a
    condition variable is split in two at the wait. */
module BufferAgent {
  import opened Options
  import opened FlatFile
  import opened BufferModel
  import opened BufferProofs
  import opened BufferEffects

  class ReadCache {
    var lastReadOffset: nat
    var lastRead: Bytes
    var pendingReadOffset: nat
    var pendingRead: Option<Prefetch>
    var clear: bool

    function Value(): Cache
      reads this
    {
      Cache(lastReadOffset, lastRead, pendingReadOffset, pendingRead, clear)
    }

    constructor ()
      ensures Value() == Init([]).cache
    {
      lastReadOffset, lastRead, pendingReadOffset, pendingRead, clear := 0, [], 0, None, false;
    }

    method Clear()
      modifies this`clear
      ensures clear
    {
      clear := true;
    }

    /** Requires only that a prefetch the read must wait for has been answered. */
    method Read(offset: nat, size: nat, env: ReadEnv) returns (r: Bytes)
      requires NeedsPrefetch(Refresh(Value(), env.expired), offset) ==>
                 Refresh(Value(), env.expired).pending.value.Ready?
      modifies this
      ensures (Value(), r) == CacheRead(old(Value()), offset, size, env)
    {
      if clear || env.expired {
        lastRead := [];
        pendingRead := None;
        clear := false;
      }
      if lastReadOffset <= offset < lastReadOffset + |lastRead| {
        return FlatFile.Read(lastRead, offset - lastReadOffset, size);
      }
      if pendingRead.Some? && pendingReadOffset <= offset {
        lastReadOffset := pendingReadOffset;
        lastRead := pendingRead.value.data;
        pendingReadOffset := lastReadOffset + |lastRead|;
        pendingRead := Some(InFlight(env.ahead, false));
        if offset < lastReadOffset + |lastRead| {
          return FlatFile.Read(lastRead, offset - lastReadOffset, size);
        }
      }
      pendingReadOffset := offset + size;
      pendingRead := Some(InFlight(env.directAhead, false));
      lastReadOffset := offset;
      lastRead := env.direct;
      r := FlatFile.Read(lastRead, 0, size);
    }
  }

  class WriteBuffer {
    var buffers: seq<Chunk>
    var bufferedSize: nat
    var pendingConfirmation: int

    constructor ()
      ensures buffers == [] && bufferedSize == 0 && pendingConfirmation == 0
    {
      buffers, bufferedSize, pendingConfirmation := [], 0, 0;
    }

    method Emplace(offset: nat, buf: Bytes)
      modifies this`buffers
      ensures buffers == old(buffers) + [Chunk(offset, buf)]
    {
      buffers := buffers + [Chunk(offset, buf)];
    }

    method Append(buf: Bytes)
      requires buffers != []
      modifies this`buffers
      ensures |buffers| == |old(buffers)|
      ensures buffers[..|buffers| - 1] == old(buffers)[..|buffers| - 1]
      ensures buffers[|buffers| - 1].offset == old(buffers)[|buffers| - 1].offset
      ensures buffers[|buffers| - 1].data == old(buffers)[|buffers| - 1].data + buf
    {
      var last := buffers[|buffers| - 1];
      buffers := buffers[|buffers| - 1 := last.(data := last.data + buf)];
    }

    /** Queues the bytes; AcceptReplays says what the buffers then replay to. */
    method Queue(offset: nat, buf: Bytes)
      modifies this`buffers, this`bufferedSize
      ensures buffers == Accept(old(buffers), offset, buf)
      ensures bufferedSize == old(bufferedSize) + |buf|
    {
      if buffers == [] || buffers[|buffers| - 1].offset + |buffers[|buffers| - 1].data| != offset {
        Emplace(offset, buf);
      } else {
        Append(buf);
        assert buffers == buffers[..|buffers| - 1] + [buffers[|buffers| - 1]];
      }
      bufferedSize := bufferedSize + |buf|;
    }

    /** Hands everything buffered to the storage as one multiwrite. */
    method PushBuffer() returns (issued: seq<Flight>)
      modifies this
      ensures bufferedSize == 0
      ensures pendingConfirmation == old(pendingConfirmation) + old(bufferedSize)
      ensures if old(bufferedSize) == 0 then issued == [] && buffers == old(buffers)
              else issued == [Flight(old(buffers), 0, false, old(bufferedSize))] && buffers == []
    {
      if bufferedSize == 0 { return []; }
      issued := [Flight(buffers, 0, false, bufferedSize)];
      pendingConfirmation := pendingConfirmation + bufferedSize;
      bufferedSize := 0;
      buffers := [];
    }
  }

  /** One open file: its two buffers, the storage behind them, and the state of the context lock. */
  class BufferAgentCTX {
    const readCache: ReadCache
    const writeBuffer: WriteBuffer
    var file: Bytes
    var flights: seq<Flight>
    var op: Op

    function Value(): State
      reads this, readCache, writeBuffer
    {
      State(file, writeBuffer.buffers, writeBuffer.bufferedSize, flights,
            writeBuffer.pendingConfirmation, readCache.Value(), op)
    }

    /** sh_open. */
    constructor (stored: Bytes)
      ensures Value() == Init(stored) && Inv(Value()) && fresh(readCache) && fresh(writeBuffer)
    {
      readCache := new ReadCache();
      writeBuffer := new WriteBuffer();
      file, flights, op := stored, [], Idle;
    }

    method PushIntoStorage()
      modifies this`flights, writeBuffer
      ensures Value() == Push(old(Value()))
    {
      var issued := writeBuffer.PushBuffer();
      flights := flights + issued;
    }

    /** sh_write up to its wait. */
    method WriteFile(offset: nat, buf: Bytes, flushThreshold: nat) returns (n: nat)
      requires Inv(Value()) && Enabled(Value(), WriteCall(offset, buf, flushThreshold))
      modifies this, writeBuffer
      ensures Value() == Next(old(Value()), WriteCall(offset, buf, flushThreshold))
      ensures Inv(Value()) && n == |buf|
      ensures Logical(Value()) == Write(old(Logical(Value())), offset, buf)
    {
      ghost var s := Value();
      writeBuffer.Queue(offset, buf);
      if writeBuffer.bufferedSize > flushThreshold {
        PushIntoStorage();
        op := Backpressure(false);
      }
      assert Value() == Next(s, WriteCall(offset, buf, flushThreshold));
      StepKeeps(s, WriteCall(offset, buf, flushThreshold));
      n := |buf|;
    }

    /** sh_flush up to its wait. */
    method Flush()
      requires Inv(Value()) && Enabled(Value(), FlushCall)
      modifies this, writeBuffer
      ensures Value() == Next(old(Value()), FlushCall)
      ensures Inv(Value()) && Logical(Value()) == old(Logical(Value()))
    {
      StepKeeps(Value(), FlushCall);
      PushIntoStorage();
      op := Backpressure(true);
    }

    /** sh_read, sh_fsync and sh_release up to the end of their fsync wait. */
    method BeginSync(request: Request)
      requires Inv(Value()) && Enabled(Value(), SyncCall(request))
      modifies this, writeBuffer
      ensures Value() == Next(old(Value()), SyncCall(request))
      ensures Inv(Value()) && Logical(Value()) == old(Logical(Value()))
    {
      StepKeeps(Value(), SyncCall(request));
      PushIntoStorage();
      op := Syncing(request);
    }

    method FinishSync()
      requires Inv(Value()) && Enabled(Value(), SyncReturn)
      modifies this, readCache
      ensures Value() == Next(old(Value()), SyncReturn)
      ensures Inv(Value()) && file == old(Logical(Value()))
    {
      StepKeeps(Value(), SyncReturn);
      SyncedFile(Value());
      if op.request.FsyncRequest? {
        readCache.Clear();
      }
      op := Idle;
    }

    /** The rest of sh_read: the answer comes from the file all earlier writes made. */
    method FinishRead(env: ReadEnv) returns (r: Bytes)
      requires Inv(Value()) && Enabled(Value(), ReadReturn(env))
      modifies this, readCache
      ensures Value() == Next(old(Value()), ReadReturn(env))
      ensures Inv(Value())
      ensures IsReadResult(old(Logical(Value())), old(op.request.offset), old(op.request.size), r)
      ensures |r| == AnswerSize(old(readCache.Value()), old(op.request.offset), old(op.request.size), env)
    {
      ReadAnswersExactly(readCache.Value(), op.request.offset, op.request.size, env);
      StepKeeps(Value(), ReadReturn(env));
      ReadIsFresh(Value(), ReadReturn(env));
      r := readCache.Read(op.request.offset, op.request.size, env);
      op := Idle;
    }

    /** The completion callback: first it clears the read cache, then it confirms under the lock. */
    method CallbackFirstHalf(i: nat)
      requires Inv(Value()) && Enabled(Value(), CallbackClear(i))
      modifies this, readCache
      ensures Value() == Next(old(Value()), CallbackClear(i)) && Inv(Value())
    {
      StepKeeps(Value(), CallbackClear(i));
      readCache.Clear();
      flights := flights[i := flights[i].(cleared := true)];
    }

    method CallbackSecondHalf(i: nat)
      requires Inv(Value()) && Enabled(Value(), CallbackConfirm(i))
      modifies this, writeBuffer
      ensures Value() == Next(old(Value()), CallbackConfirm(i)) && Inv(Value())
      ensures writeBuffer.pendingConfirmation >= 0
    {
      ConfirmKeeps(Value(), i);
      writeBuffer.pendingConfirmation := writeBuffer.pendingConfirmation - flights[i].size;
      flights := flights[..i] + flights[i + 1..];
    }
  }
}
