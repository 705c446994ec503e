/** The default multiwrite: a chain of single writes, each started by the callback of the one before.
    The chain runs in the intended order: buffer i is written, then the rest from i + 1. */
module Multiwrite {
  import opened FlatFile

  /** The storage's answer to one write: how many bytes it stored, and whether it reports an error. */
  datatype Answer = Answer(wrote: nat, failed: bool)

  /** The file afterwards, and what the caller's callback is told. */
  datatype Outcome = Outcome(file: Bytes, reported: nat, failed: bool)

  predicate Answers(buffs: seq<Chunk>, answers: seq<Answer>) {
    |answers| == |buffs| && forall i :: 0 <= i < |buffs| ==> answers[i].wrote <= |buffs[i].data|
  }

  /** The write of buffer i, its callback, and everything the callback starts. The callback of the last
      write is the caller's own, without the running total. */
  function Chain(f: Bytes, buffs: seq<Chunk>, answers: seq<Answer>, i: nat, wroteSoFar: nat): Outcome
    requires Answers(buffs, answers) && i < |buffs|
    decreases |buffs| - i
  {
    var a := answers[i];
    var f' := Write(f, buffs[i].offset, buffs[i].data[..a.wrote]);
    if i + 1 >= |buffs| then Outcome(f', a.wrote, a.failed)
    else if a.failed || a.wrote < |buffs[i].data| then Outcome(f', wroteSoFar + a.wrote, a.failed)
    else Chain(f', buffs, answers, i + 1, wroteSoFar + a.wrote)
  }

  function Multiwrite(f: Bytes, buffs: seq<Chunk>, answers: seq<Answer>): Outcome
    requires Answers(buffs, answers) && buffs != []
  {
    Chain(f, buffs, answers, 0, 0)
  }

  predicate Full(buffs: seq<Chunk>, answers: seq<Answer>, i: nat)
    requires Answers(buffs, answers) && i < |buffs|
  {
    !answers[i].failed && answers[i].wrote == |buffs[i].data|
  }

  /** k is the last write issued: everything before it was stored whole, and it was not, or is last. */
  predicate StopsAt(buffs: seq<Chunk>, answers: seq<Answer>, k: nat)
    requires Answers(buffs, answers)
  {
    k < |buffs| && (forall j :: 0 <= j < k ==> Full(buffs, answers, j)) &&
    (k + 1 == |buffs| || !Full(buffs, answers, k))
  }

  lemma {:induction false} ChainFrom(f: Bytes, buffs: seq<Chunk>, answers: seq<Answer>,
                                     i: nat, wroteSoFar: nat, k: nat)
    requires Answers(buffs, answers) && StopsAt(buffs, answers, k) && i <= k
    ensures var o := Chain(f, buffs, answers, i, wroteSoFar);
            var last := Chunk(buffs[k].offset, buffs[k].data[..answers[k].wrote]);
            && o.file == ApplyAll(f, buffs[i..k] + [last])
            && o.failed == answers[k].failed
            && o.reported == answers[k].wrote
                + if k + 1 < |buffs| then wroteSoFar + Total(buffs[i..k]) else 0
    decreases k - i
  {
    if i < k {
      assert Full(buffs, answers, i);
      assert buffs[i].data[..answers[i].wrote] == buffs[i].data;
      assert buffs[i..k] == [buffs[i]] + buffs[i + 1..k];
      var last := Chunk(buffs[k].offset, buffs[k].data[..answers[k].wrote]);
      assert (buffs[i..k] + [last])[1..] == buffs[i + 1..k] + [last];
      ChainFrom(Apply(f, buffs[i]), buffs, answers, i + 1, wroteSoFar + answers[i].wrote, k);
    } else {
      assert buffs[i..k] == [];
    }
  }

  /** Whatever the answers, the chain stops somewhere. */
  lemma {:induction false} StopsSomewhere(buffs: seq<Chunk>, answers: seq<Answer>, i: nat) returns (k: nat)
    requires Answers(buffs, answers) && i < |buffs| && forall j :: 0 <= j < i ==> Full(buffs, answers, j)
    ensures StopsAt(buffs, answers, k)
    decreases |buffs| - i
  {
    if i + 1 == |buffs| || !Full(buffs, answers, i) { k := i; } else { k := StopsSomewhere(buffs, answers, i + 1); }
  }

  /** However the storage answers, exactly the issued writes land, in order; and the reported count is
      the number of bytes that landed if and only if the chain broke off before the last buffer or the
      buffers before the last are empty. */
  lemma MultiwriteOutcome(f: Bytes, buffs: seq<Chunk>, answers: seq<Answer>, k: nat)
    requires Answers(buffs, answers) && StopsAt(buffs, answers, k)
    ensures var o := Multiwrite(f, buffs, answers);
            var landed := buffs[..k] + [Chunk(buffs[k].offset, buffs[k].data[..answers[k].wrote])];
            && o.file == ApplyAll(f, landed)
            && o.failed == answers[k].failed
            && (o.reported == Total(landed) <==> k + 1 < |buffs| || Total(buffs[..k]) == 0)
  {
    ChainFrom(f, buffs, answers, 0, 0, k);
    assert buffs[0..k] == buffs[..k];
    TotalConcat(buffs[..k], [Chunk(buffs[k].offset, buffs[k].data[..answers[k].wrote])]);
  }

  /** When the storage stores everything, the file is as if all buffers had been written in order, but
      the count handed back is that of the last buffer alone. */
  lemma FullMultiwrite(f: Bytes, buffs: seq<Chunk>, answers: seq<Answer>)
    requires Answers(buffs, answers) && buffs != []
    requires forall i :: 0 <= i < |buffs| ==> Full(buffs, answers, i)
    ensures var o := Multiwrite(f, buffs, answers);
            && o.file == ApplyAll(f, buffs) && !o.failed
            && o.reported == |buffs[|buffs| - 1].data|
            && (o.reported == Total(buffs) <==> Total(buffs[..|buffs| - 1]) == 0)
  {
    var k := |buffs| - 1;
    assert Full(buffs, answers, k);
    assert buffs[k].data[..answers[k].wrote] == buffs[k].data;
    assert buffs[..k] + [Chunk(buffs[k].offset, buffs[k].data)] == buffs;
    ChainFrom(f, buffs, answers, 0, 0, k);
    MultiwriteOutcome(f, buffs, answers, k);
  }

  /** Two buffers of two bytes, both stored: the caller hears of two bytes, not four. */
  lemma CountIsLost()
    ensures Multiwrite([], [Chunk(0, [1, 2]), Chunk(8, [3, 4])], [Answer(2, false), Answer(2, false)])
              .reported == 2
    ensures Total([Chunk(0, [1, 2]), Chunk(8, [3, 4])]) == 4
  {
    var buffs := [Chunk(0, [1, 2]), Chunk(8, [3, 4])];
    var answers := [Answer(2, false), Answer(2, false)];
    assert Full(buffs, answers, 0) && Full(buffs, answers, 1);
    FullMultiwrite([], buffs, answers);
    assert buffs[1..] == [Chunk(8, [3, 4])];
    assert Total(buffs[1..]) == 2;
  }
}
