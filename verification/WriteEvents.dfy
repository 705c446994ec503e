/** Write and truncate events of one file, their aggregation, and what the aggregate reports about the file.
    An interval map is modelled by what it says of each offset. */
module WriteEvents {
  import opened Options

  datatype FileBlock = FileBlock(storageId: string, fileId: string)

  /** A block keeps its own identity unless it has none. */
  function Combine(a: FileBlock, b: FileBlock): FileBlock { if a.fileId == "" || a.storageId == "" then b else a }

  type Blocks = map<nat, FileBlock>

  datatype WriteEvent = WriteEvent(counter: nat, size: nat, fileSize: Option<nat>, blocks: Blocks)

  function At(a: Blocks, b: Blocks, o: nat): FileBlock
    requires o in a || o in b
  {
    if o !in b then a[o] else if o !in a then b[o] else Combine(a[o], b[o])
  }

  /** m_blocks += event->m_blocks. */
  function Merge(a: Blocks, b: Blocks): Blocks { map o | o in a.Keys + b.Keys :: At(a, b, o) }

  predicate IsEnd(b: Blocks, e: nat) { (forall o :: o in b ==> o < e) && (e == 0 || e - 1 in b) }

  lemma {:induction false} EndExists(b: Blocks)
    ensures exists e :: IsEnd(b, e)
    decreases |b|
  {
    if b == map[] {
      assert IsEnd(b, 0);
    } else {
      assert b.Keys != {};
      var o :| o in b;
      var rest := b - {o};
      assert rest.Keys == b.Keys - {o};
      EndExists(rest);
      var e :| IsEnd(rest, e);
      assert forall p :: p in b ==> p == o || p in rest;
      assert IsEnd(b, if e > o then e else o + 1);
    }
  }

  /** One past the last offset: last(blocks) + 1, or 0 for no blocks. */
  ghost function End(b: Blocks): (e: nat)
    ensures IsEnd(b, e)
  {
    EndExists(b);
    var e :| IsEnd(b, e);
    e
  }

  /** The size a known file size grows to. */
  function Raise(fileSize: Option<nat>, end: nat): Option<nat> {
    if fileSize.Some? && fileSize.value < end then Some(end) else fileSize
  }

  ghost function Aggregate(a: WriteEvent, b: WriteEvent): WriteEvent {
    WriteEvent(a.counter + b.counter, a.size + b.size,
               if b.fileSize.Some? then b.fileSize else Raise(a.fileSize, End(b.blocks)),
               Merge(a.blocks, b.blocks))
  }

  /** What of the blocks goes into the message. */
  function Emitted(e: WriteEvent): Blocks {
    if e.fileSize.None? then e.blocks else map o | o in e.blocks && o < e.fileSize.value :: e.blocks[o]
  }

  // ------------------------------------------------------------------ associativity

  lemma EndIs(b: Blocks, e: nat)
    requires IsEnd(b, e)
    ensures End(b) == e
  {
  }

  lemma EndOfMerge(a: Blocks, b: Blocks)
    ensures End(Merge(a, b)) == if End(a) > End(b) then End(a) else End(b)
  {
    EndIs(Merge(a, b), if End(a) > End(b) then End(a) else End(b));
  }

  lemma MergeAssociates(a: Blocks, b: Blocks, c: Blocks)
    ensures Merge(Merge(a, b), c) == Merge(a, Merge(b, c))
  {
  }

  /** Aggregation may be regrouped in any way. */
  lemma AggregateAssociates(a: WriteEvent, b: WriteEvent, c: WriteEvent)
    ensures Aggregate(Aggregate(a, b), c) == Aggregate(a, Aggregate(b, c))
  {
    MergeAssociates(a.blocks, b.blocks, c.blocks);
    EndOfMerge(b.blocks, c.blocks);
  }

  /** Events in order, as one. */
  ghost function Fold(es: seq<WriteEvent>): Option<WriteEvent> {
    if es == [] then None else Join(Fold(es[..|es| - 1]), Some(es[|es| - 1]))
  }

  ghost function Join(a: Option<WriteEvent>, b: Option<WriteEvent>): Option<WriteEvent> {
    if a.None? then b else if b.None? then a else Some(Aggregate(a.value, b.value))
  }

  lemma JoinAssociates(a: Option<WriteEvent>, b: Option<WriteEvent>, c: Option<WriteEvent>)
    ensures Join(Join(a, b), c) == Join(a, Join(b, c))
  {
    if a.Some? && b.Some? && c.Some? { AggregateAssociates(a.value, b.value, c.value); }
  }

  /** Folding batches and then the results is folding everything. */
  lemma {:induction false} FoldConcat(xs: seq<WriteEvent>, ys: seq<WriteEvent>)
    ensures Fold(xs + ys) == Join(Fold(xs), Fold(ys))
  {
    if ys == [] {
      assert xs + ys == xs;
    } else {
      var n := |ys| - 1;
      assert (xs + ys)[..|xs + ys| - 1] == xs + ys[..n];
      FoldConcat(xs, ys[..n]);
      JoinAssociates(Fold(xs), Fold(ys[..n]), Some(ys[n]));
    }
  }

  // ------------------------------------------------------------------------- replay

  /** What an application does to one file. */
  datatype Op = Write(offset: nat, length: nat, block: FileBlock) | Truncate(size: nat)

  predicate OpOk(op: Op) { op.Write? ==> op.length > 0 }

  predicate Covers(op: Op, o: nat) { op.Write? && op.offset <= o < op.offset + op.length }

  /** One block over a right-open interval. */
  function Span(offset: nat, length: nat, block: FileBlock): (b: Blocks)
    ensures forall o :: o in b <==> offset <= o < offset + length
    ensures forall o :: o in b ==> b[o] == block
    decreases length
  {
    if length == 0 then map[] else Span(offset, length - 1, block)[offset + length - 1 := block]
  }

  function EventOf(op: Op): WriteEvent {
    match op
    case Write(offset, length, block) =>
      WriteEvent(1, length, None, Span(offset, length, block))
    case Truncate(size) => WriteEvent(1, 0, Some(size), map[])
  }

  function Events(ops: seq<Op>): seq<WriteEvent> { seq(|ops|, i requires 0 <= i < |ops| => EventOf(ops[i])) }

  /** The file's size after the operations. */
  function ReplaySize(size: nat, ops: seq<Op>): nat {
    if ops == [] then size
    else
      var before := ReplaySize(size, ops[..|ops| - 1]);
      match ops[|ops| - 1]
      case Write(offset, length, _) => if before < offset + length then offset + length else before
      case Truncate(sz) => sz
  }

  /** The offset was written and not cut off since. */
  predicate Survives(ops: seq<Op>, o: nat) {
    ops != [] &&
    var op := ops[|ops| - 1];
    Covers(op, o) || (Survives(ops[..|ops| - 1], o) && (op.Truncate? ==> o < op.size))
  }

  function TotalSize(ops: seq<Op>): nat {
    if ops == [] then 0
    else TotalSize(ops[..|ops| - 1]) + (if ops[|ops| - 1].Write? then ops[|ops| - 1].length else 0)
  }

  lemma EventsSnoc(ops: seq<Op>)
    requires ops != []
    ensures var n := |ops| - 1;
            Events(ops) != [] && Events(ops)[..n] == Events(ops[..n]) && Events(ops)[n] == EventOf(ops[n])
  {
  }

  lemma FoldSnoc(ops: seq<Op>)
    requires ops != []
    ensures Fold(Events(ops)) == Join(Fold(Events(ops[..|ops| - 1])), Some(EventOf(ops[|ops| - 1])))
  {
    EventsSnoc(ops);
  }

  lemma EndOfWrite(op: Op)
    requires OpOk(op) && op.Write?
    ensures End(EventOf(op).blocks) == op.offset + op.length
  {
    EndIs(EventOf(op).blocks, op.offset + op.length);
  }

  /** What the aggregate of a history says. */
  ghost predicate Reports(ops: seq<Op>, size: nat, e: WriteEvent) {
    && e.counter == |ops| && e.size == TotalSize(ops)
    && (e.fileSize.Some? <==> exists i :: 0 <= i < |ops| && ops[i].Truncate?)
    && (e.fileSize.Some? ==> e.fileSize.value == ReplaySize(size, ops))
    && (forall o :: o in e.blocks <==> exists i :: 0 <= i < |ops| && Covers(ops[i], o))
  }

  lemma ReportsStep(ops: seq<Op>, size: nat, before: WriteEvent)
    requires ops != [] && OpOk(ops[|ops| - 1]) && Reports(ops[..|ops| - 1], size, before)
    ensures Reports(ops, size, Aggregate(before, EventOf(ops[|ops| - 1])))
  {
    var n := |ops| - 1;
    var e := Aggregate(before, EventOf(ops[n]));
    if ops[n].Write? { EndOfWrite(ops[n]); }
    forall o ensures o in e.blocks <==> exists i :: 0 <= i < |ops| && Covers(ops[i], o) {
      assert o in EventOf(ops[n]).blocks <==> Covers(ops[n], o);
      assert forall i :: 0 <= i < n ==> ops[i] == ops[..n][i];
    }
    assert forall i :: 0 <= i < n ==> ops[i] == ops[..n][i];
  }

  /** The aggregate counts every operation, sums every size, and knows the file size exactly when something
      was truncated - then it is the size replaying the operations gives, whatever it was before. */
  lemma {:induction false} FoldReports(ops: seq<Op>, size: nat)
    requires ops != [] && forall i :: 0 <= i < |ops| ==> OpOk(ops[i])
    ensures Fold(Events(ops)).Some? && Reports(ops, size, Fold(Events(ops)).value)
  {
    var n := |ops| - 1;
    FoldSnoc(ops);
    if n == 0 {
      assert Fold(Events(ops[..0])).None?;
      FirstReport(ops, size);
    } else {
      FoldReports(ops[..n], size);
      ReportsStep(ops, size, Fold(Events(ops[..n])).value);
    }
  }

  lemma FirstReport(ops: seq<Op>, size: nat)
    requires |ops| == 1 && OpOk(ops[0])
    ensures Reports(ops, size, EventOf(ops[0]))
  {
    assert ops[..0] == [];
    assert TotalSize(ops[..0]) == 0 && ReplaySize(size, ops[..0]) == size;
  }

  ghost predicate Written(ops: seq<Op>, o: nat) { exists i :: 0 <= i < |ops| && Covers(ops[i], o) }

  ghost predicate Truncated(ops: seq<Op>) { exists i :: 0 <= i < |ops| && ops[i].Truncate? }

  lemma WrittenSnoc(ops: seq<Op>, o: nat)
    requires ops != []
    ensures Written(ops, o) <==> Written(ops[..|ops| - 1], o) || Covers(ops[|ops| - 1], o)
  {
    var n := |ops| - 1;
    assert forall i :: 0 <= i < n ==> ops[i] == ops[..n][i];
  }

  /** Surviving offsets were written and lie within the file. */
  lemma {:induction false} SurvivorsWritten(ops: seq<Op>, size: nat, o: nat)
    requires Survives(ops, o)
    ensures Written(ops, o) && o < ReplaySize(size, ops)
  {
    WrittenSnoc(ops, o);
    if !Covers(ops[|ops| - 1], o) { SurvivorsWritten(ops[..|ops| - 1], size, o); }
  }

  /** The message names exactly the written offsets below the size it reports, so it covers every offset that
      survives replay. */
  lemma EmittedExactly(ops: seq<Op>, size: nat, o: nat)
    requires ops != [] && forall i :: 0 <= i < |ops| ==> OpOk(ops[i])
    ensures Fold(Events(ops)).Some?
    ensures o in Emitted(Fold(Events(ops)).value) <==>
            Written(ops, o) && (Truncated(ops) ==> o < ReplaySize(size, ops))
    ensures Survives(ops, o) ==> o in Emitted(Fold(Events(ops)).value)
  {
    FoldReports(ops, size);
    if Survives(ops, o) { SurvivorsWritten(ops, size, o); }
  }

  // ---------------------------------------------------------------- stale offsets

  /** Written, cut off by a later truncate, and not written again. */
  ghost predicate CutOff(ops: seq<Op>, o: nat, i: nat)
    requires i < |ops|
  {
    && ops[i].Truncate? && ops[i].size <= o && Written(ops[..i], o)
    && forall j :: i < j < |ops| ==> !Covers(ops[j], o)
  }

  lemma {:induction false} GoneExactly(ops: seq<Op>, o: nat)
    ensures Written(ops, o) && !Survives(ops, o) <==> exists i :: 0 <= i < |ops| && CutOff(ops, o, i)
  {
    if ops != [] {
      var n := |ops| - 1;
      GoneExactly(ops[..n], o);
      WrittenSnoc(ops, o);
      assert forall i :: 0 <= i < n ==> ops[i] == ops[..n][i] && ops[..n][..i] == ops[..i];
      if Written(ops, o) && !Survives(ops, o) {
        if Survives(ops[..n], o) {
          GoneWasWritten(ops[..n], o);
          assert CutOff(ops, o, n);
        } else {
          var i :| 0 <= i < n && CutOff(ops[..n], o, i);
          assert CutOff(ops, o, i);
        }
      }
      if i :| 0 <= i < |ops| && CutOff(ops, o, i) {
        if i < n { assert CutOff(ops[..n], o, i); }
        WrittenPrefix(ops, o, i);
      }
    }
  }

  lemma GoneWasWritten(ops: seq<Op>, o: nat)
    requires Survives(ops, o)
    ensures Written(ops, o)
  {
    SurvivorsWritten(ops, 0, o);
  }

  lemma WrittenPrefix(ops: seq<Op>, o: nat, i: nat)
    requires i <= |ops| && Written(ops[..i], o)
    ensures Written(ops, o)
  {
    var j :| 0 <= j < i && Covers(ops[..i][j], o);
    assert Covers(ops[j], o);
  }

  /** The message also names an offset that is gone exactly when it was cut off, not rewritten, and the file
      has grown past it again. */
  lemma StaleExactly(ops: seq<Op>, size: nat, o: nat)
    requires ops != [] && forall i :: 0 <= i < |ops| ==> OpOk(ops[i])
    ensures Fold(Events(ops)).Some?
    ensures o in Emitted(Fold(Events(ops)).value) && !Survives(ops, o) <==>
            (exists i :: 0 <= i < |ops| && CutOff(ops, o, i)) && o < ReplaySize(size, ops)
  {
    EmittedExactly(ops, size, o);
    GoneExactly(ops, o);
    if i :| 0 <= i < |ops| && CutOff(ops, o, i) { assert Truncated(ops); }
  }

  /** Write ten bytes, truncate to five, write at twenty: offset 7 is reported though it is gone. */
  lemma StaleExample(b: FileBlock)
    ensures var ops := [Write(0, 10, b), Truncate(5), Write(20, 10, b)];
            Fold(Events(ops)).Some? && 7 in Emitted(Fold(Events(ops)).value) && !Survives(ops, 7)
  {
    var ops := [Write(0, 10, b), Truncate(5), Write(20, 10, b)];
    assert Covers(ops[..1][0], 7);
    assert CutOff(ops, 7, 1);
    assert ops[|ops| - 1] == Write(20, 10, b);
    assert ReplaySize(0, ops) >= 30;
    StaleExactly(ops, 0, 7);
  }

  // --------------------------------------------------------------------- ownership

  predicate Complete(b: FileBlock) { b.storageId != "" && b.fileId != "" }

  /** The first complete identity written to the offset, or else the last one. */
  ghost predicate Owns(ops: seq<Op>, o: nat, i: nat)
    requires i < |ops|
  {
    && Covers(ops[i], o)
    && if Complete(ops[i].block) then forall j :: 0 <= j < i && Covers(ops[j], o) ==> !Complete(ops[j].block)
       else (forall j :: 0 <= j < |ops| && Covers(ops[j], o) ==> !Complete(ops[j].block) && j <= i)
  }

  /** The message names each of its offsets for that owner. */
  lemma EmittedOwner(ops: seq<Op>, o: nat) returns (i: nat)
    requires ops != [] && forall i :: 0 <= i < |ops| ==> OpOk(ops[i])
    requires Fold(Events(ops)).Some? && o in Emitted(Fold(Events(ops)).value)
    ensures i < |ops| && Owns(ops, o, i) && Emitted(Fold(Events(ops)).value)[o] == ops[i].block
  {
    EmittedExactly(ops, 0, o);
    i := FoldOwner(ops, o);
  }

  lemma OwnerStep(ops: seq<Op>, o: nat, i: nat)
    requires ops != [] && i < |ops| - 1 && Owns(ops[..|ops| - 1], o, i)
    ensures var n := |ops| - 1;
            Owns(ops, o, if Covers(ops[n], o) && !Complete(ops[i].block) then n else i)
  {
    var n := |ops| - 1;
    assert forall j :: 0 <= j < n ==> ops[j] == ops[..n][j];
  }

  lemma BlocksSnoc(ops: seq<Op>, o: nat)
    requires |ops| > 1 && forall i :: 0 <= i < |ops| ==> OpOk(ops[i])
    ensures var n := |ops| - 1;
            && Fold(Events(ops)).Some? && Fold(Events(ops[..n])).Some?
            && var before, after := Fold(Events(ops[..n])).value.blocks, Fold(Events(ops)).value.blocks;
               && (o in before <==> Written(ops[..n], o)) && (o in after <==> o in before || Covers(ops[n], o))
               && (o in after ==>
                     after[o] == if !Covers(ops[n], o) then before[o]
                                 else if o in before then Combine(before[o], ops[n].block) else ops[n].block)
  {
    FoldSnoc(ops);
    FoldReports(ops[..|ops| - 1], 0);
  }

  /** An offset is reported for the first storage and file that were both known when it was written. */
  lemma {:induction false} FoldOwner(ops: seq<Op>, o: nat) returns (i: nat)
    requires Written(ops, o) && forall i :: 0 <= i < |ops| ==> OpOk(ops[i])
    ensures i < |ops| && Owns(ops, o, i) && Fold(Events(ops)).Some?
    ensures o in Fold(Events(ops)).value.blocks && Fold(Events(ops)).value.blocks[o] == ops[i].block
  {
    var n := |ops| - 1;
    WrittenSnoc(ops, o);
    if n == 0 {
      FoldSnoc(ops);
      assert Fold(Events(ops[..0])).None?;
      return 0;
    }
    BlocksSnoc(ops, o);
    assert forall j :: 0 <= j < n ==> ops[j] == ops[..n][j];
    if Written(ops[..n], o) {
      i := FoldOwner(ops[..n], o);
      OwnerStep(ops, o, i);
      if Covers(ops[n], o) && !Complete(ops[i].block) { i := n; }
    } else {
      i := n;
    }
  }
}
