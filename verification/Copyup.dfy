/**
 MergeCopyup and the copyup branch of OSA_ExecClass: the later WRITEs of a request are
 folded into the copyup data in place, and one write is issued instead of several.
 */
module Copyup {

  import opened Memory

  const U32: nat := 0x1_0000_0000
  const EINVAL: int := 22

  /** One sub-operation.  Only WRITE sub-operations with data take part in the merge. */
  datatype SubOp = SubOp(isWrite: bool, offset: nat, data: seq<Byte>) {
    predicate Merges() { isWrite && data != [] }
    function End(): nat { offset + |data| }
  }

  /** objOffset, inDataLen and the copyup length are uint32_t. */
  predicate Fits(op: SubOp) { op.offset < U32 && |op.data| < U32 }

  // ---------------------------------------------------------------------------
  // What writes mean

  /** Writing extends the object with zeros up to the offset if it must. */
  function Write(object_: seq<Byte>, offset: nat, data: seq<Byte>): seq<Byte> {
    var padded := if |object_| < offset then object_ + seq(offset - |object_|, _ => 0) else object_;
    padded[..offset] + data + (if offset + |data| < |padded| then padded[offset + |data|..] else [])
  }

  /** The merging sub-operations applied one after the other. */
  function WriteAll(object_: seq<Byte>, ops: seq<SubOp>): seq<Byte> {
    if ops == [] then object_
    else
      var rest := WriteAll(object_, ops[..|ops| - 1]);
      var op := ops[|ops| - 1];
      if op.Merges() then Write(rest, op.offset, op.data) else rest
  }

  /** One more sub-operation: only a WRITE with data changes the object, and it changes the
      bytes it covers, extending the object with zeros up to them if it must. */
  lemma OneMoreWrite(object_: seq<Byte>, ops: seq<SubOp>, op: SubOp)
    ensures var before, after := WriteAll(object_, ops), WriteAll(object_, ops + [op]);
      if !op.isWrite || op.data == [] then after == before
      else
        && |after| == (if |before| < op.offset + |op.data| then op.offset + |op.data| else |before|)
        && forall i :: 0 <= i < |after| ==>
          after[i] == if op.offset <= i < op.offset + |op.data| then op.data[i - op.offset]
            else if i < |before| then before[i] else 0
  {
    assert (ops + [op])[..|ops|] == ops;
  }

  predicate Covers(op: SubOp, i: nat) {
    op.isWrite && op.offset <= i < op.offset + |op.data|
  }

  /** A byte of the merged data is that of the last WRITE that covers it, and that of the
      copyup data if none does. */
  lemma {:induction false} LastWriteWins(data: seq<Byte>, ops: seq<SubOp>, i: nat)
    requires i < |data|
    ensures |data| <= |WriteAll(data, ops)|
    ensures (forall k :: 0 <= k < |ops| ==> !Covers(ops[k], i)) ==> WriteAll(data, ops)[i] == data[i]
    ensures forall k :: 0 <= k < |ops| && Covers(ops[k], i) && (forall l :: k < l < |ops| ==> !Covers(ops[l], i)) ==>
      WriteAll(data, ops)[i] == ops[k].data[i - ops[k].offset]
  {
    if ops != [] {
      var front := ops[..|ops| - 1];
      assert ops == front + [ops[|ops| - 1]];
      LastWriteWins(data, front, i);
      OneMoreWrite(data, front, ops[|ops| - 1]);
    }
  }

  /** Writes inside the data commute with writing the data itself. */
  lemma WriteInside(object_: seq<Byte>, data: seq<Byte>, offset: nat, patch: seq<Byte>)
    requires offset + |patch| <= |data|
    ensures |Write(data, offset, patch)| == |data|
    ensures Write(Write(object_, 0, data), offset, patch) == Write(object_, 0, Write(data, offset, patch))
  {
    var tail := if |data| < |object_| then object_[|data|..] else [];
    assert Write(object_, 0, data) == data + tail;
    var patched := Write(data, offset, patch);
    assert patched == data[..offset] + patch + data[offset + |patch|..];
    assert (data + tail)[..offset] == data[..offset];
    assert (data + tail)[offset + |patch|..] == data[offset + |patch|..] + tail;
    assert Write(object_, 0, patched) == patched + tail;
  }

  predicate AllInside(ops: seq<SubOp>, length: nat) {
    forall i :: 0 <= i < |ops| && ops[i].Merges() ==> ops[i].End() <= length
  }

  /** Main result, on values.  Writing the merged data once leaves any object as the copyup
      write followed by each later non-empty WRITE in order would. */
  lemma {:induction false} MergePreservesMeaning(object_: seq<Byte>, data: seq<Byte>, ops: seq<SubOp>)
    requires AllInside(ops, |data|)
    ensures |WriteAll(data, ops)| == |data|
    ensures Write(object_, 0, WriteAll(data, ops)) == WriteAll(Write(object_, 0, data), ops)
  {
    if ops != [] {
      var front, op := ops[..|ops| - 1], ops[|ops| - 1];
      MergePreservesMeaning(object_, data, front);
      if op.Merges() {
        WriteInside(object_, WriteAll(data, front), op.offset, op.data);
      }
    }
  }

  // ---------------------------------------------------------------------------
  // The merge loop

  /** How the loop ends: all merged, a sub-operation refused, or (only when the 32-bit sum
      offset + length wraps) a copy running past the buffer. */
  datatype Outcome = Merged | Refused(at: nat) | Overrun(at: nat)

  /** The test of the source, in 32-bit arithmetic. */
  predicate Accepted(op: SubOp, length: nat) { !op.Merges() || op.End() % U32 <= length }
  predicate Inside(op: SubOp, length: nat) { !op.Merges() || op.End() <= length }

  /** Folds the sub-operations after `opId` into the copyup buffer. */
  method MergeLoop(ops: seq<SubOp>, opId: nat, buffer: array<Byte>) returns (outcome: Outcome)
    requires opId < |ops| && buffer.Length < U32
    modifies buffer
    ensures match outcome
      case Merged =>
        && AllInside(ops[opId + 1..], buffer.Length)
        && buffer[..] == WriteAll(old(buffer[..]), ops[opId + 1..])
      case Refused(at) =>
        && opId < at < |ops| && !Accepted(ops[at], buffer.Length)
        && forall i :: opId < i < at ==> Inside(ops[i], buffer.Length)
      case Overrun(at) =>
        && opId < at < |ops| && Accepted(ops[at], buffer.Length) && !Inside(ops[at], buffer.Length)
        && forall i :: opId < i < at ==> Inside(ops[i], buffer.Length)
  {
    ghost var later := ops[opId + 1..];
    for i := opId + 1 to |ops|
      invariant forall j :: opId < j < i ==> Inside(ops[j], buffer.Length)
      invariant buffer[..] == WriteAll(old(buffer[..]), later[..i - opId - 1])
    {
      var op := ops[i];
      assert later[..i - opId][..i - opId - 1] == later[..i - opId - 1];
      assert later[i - opId - 1] == op;
      if op.Merges() {
        if buffer.Length < op.End() % U32 {
          return Refused(i);
        }
        if buffer.Length < op.End() {
          return Overrun(i);
        }
        ghost var before := buffer[..];
        CopyInto(buffer, op.offset, op.data);
        assert buffer[..] == Write(before, op.offset, op.data);
      }
    }
    assert later[..|later|] == later;
    assert forall j :: 0 <= j < |later| ==> later[j] == ops[opId + 1 + j];
    outcome := Merged;
  }

  /** Below 2^32 the loop's test is exactly "runs past the copyup data", and a copy past the
      buffer happens only when some sum offset + length reaches 2^32. */
  lemma TestIsExactBelowU32(op: SubOp, length: nat)
    requires Fits(op) && length < U32
    ensures op.End() < U32 ==> (Accepted(op, length) <==> Inside(op, length))
    ensures Accepted(op, length) && !Inside(op, length) <==> op.Merges() && U32 <= op.End() && op.End() - U32 <= length
  {
  }

  /** The first write that runs past the data passes the wrapped test, so the copy leaves the
      buffer; what the program does from there on is undefined. */
  predicate Overruns(ops: seq<SubOp>, length: nat) {
    exists i :: 0 <= i < |ops| && OverrunAt(ops, length, i)
  }

  predicate OverrunAt(ops: seq<SubOp>, length: nat, i: nat)
    requires i < |ops|
  {
    Accepted(ops[i], length) && !Inside(ops[i], length) && forall j :: 0 <= j < i ==> Inside(ops[j], length)
  }

  /** That needs a sum of at least 2^32. */
  lemma OverrunNeedsWrap(ops: seq<SubOp>, length: nat)
    requires forall i :: 0 <= i < |ops| ==> ops[i].End() < U32
    ensures !Overruns(ops, length)
  {
  }

  /** A refusal, or an overrun, is the only one. */
  lemma OutcomesExclude(ops: seq<SubOp>, length: nat, at: nat)
    requires at < |ops| && length < U32 && !Inside(ops[at], length)
    requires forall j :: 0 <= j < at ==> Inside(ops[j], length)
    ensures Overruns(ops, length) <==> Accepted(ops[at], length)
    ensures !AllInside(ops, length)
  {
    if Accepted(ops[at], length) {
      assert OverrunAt(ops, length, at);
    }
  }

  // ---------------------------------------------------------------------------
  // The whole branch

  const NEED_MERGE_WRITE: int := 10

  datatype Engine = Engine(exists_: bool, writeResult: int, rocacheResult: int)

  /** The request's shared state: the copyup flag of its queue and the writes issued. */
  class CopyupOp {
    var copyupFlag: bool
    var issued: seq<seq<Byte>>

    constructor ()
      ensures copyupFlag && issued == []
    {
      copyupFlag, issued := true, [];
    }

    /** MergeCopyup.  -EINVAL without any write exactly when the first later non-empty WRITE
        to run past the data is recognised as such, and one write of the merged data exactly
        when none does.  `overrun` tells of the remaining case. */
    method MergeCopyup(ops: seq<SubOp>, opId: nat, data: seq<Byte>, engine: Engine) returns (ret: int, overrun: bool)
      requires opId < |ops| && |data| < U32
      modifies `issued
      ensures overrun <==> Overruns(ops[opId + 1..], |data|)
      ensures !overrun ==> if AllInside(ops[opId + 1..], |data|)
        then issued == old(issued) + [WriteAll(data, ops[opId + 1..])] &&
             ret == (if engine.writeResult == 0 then 10 else engine.writeResult)
        else issued == old(issued) && ret == -EINVAL
      ensures (forall i :: opId < i < |ops| ==> ops[i].offset + |ops[i].data| < 0x1_0000_0000) ==>
        && !overrun
        && (ret == -22 && issued == old(issued) <==>
            exists i :: opId < i < |ops| &&
              ops[i].isWrite && ops[i].data != [] && |data| < ops[i].offset + |ops[i].data|)
    {
      var buffer := new Byte[|data|](i requires 0 <= i < |data| => data[i]);
      assert buffer[..] == data;
      ghost var later := ops[opId + 1..];
      assert forall j :: 0 <= j < |later| ==> later[j] == ops[opId + 1 + j];
      assert forall i :: opId < i < |ops| ==> ops[i] == later[i - opId - 1];
      var outcome := MergeLoop(ops, opId, buffer);
      overrun := outcome.Overrun?;
      match outcome {
        case Merged =>
          issued := issued + [buffer[..]];
          ret := engine.writeResult;
          if ret == 0 { ret := NEED_MERGE_WRITE; }
        case Refused(at) =>
          OutcomesExclude(later, |data|, at - opId - 1);
          ret := -EINVAL;
        case Overrun(at) =>
          OutcomesExclude(later, |data|, at - opId - 1);
          ret := 0;
      }
    }

    /** The copyup branch of OSA_ExecClass: the flag is cleared on every path, and no write
        is issued when the object exists or carries no copyup data. */
    method ExecCopyup(ops: seq<SubOp>, opId: nat, data: seq<Byte>, engine: Engine) returns (ret: int, overrun: bool)
      requires opId < |ops| && |data| < U32
      modifies this
      ensures !copyupFlag
      ensures overrun <==> !engine.exists_ && data != [] && Overruns(ops[opId + 1..], |data|)
      ensures engine.exists_ || data == [] ==> issued == old(issued)
      ensures engine.exists_ ==> ret == 0
      ensures !engine.exists_ && data == [] ==> ret == engine.rocacheResult
      ensures !engine.exists_ && data != [] && !overrun ==>
        if AllInside(ops[opId + 1..], |data|)
        then issued == old(issued) + [WriteAll(data, ops[opId + 1..])] &&
             ret == (if engine.writeResult == 0 then 10 else engine.writeResult)
        else issued == old(issued) && ret == -EINVAL
    {
      if engine.exists_ {
        copyupFlag := false;
        return 0, false;
      }
      if data != [] {
        ret, overrun := MergeCopyup(ops, opId, data, engine);
      } else {
        ret, overrun := engine.rocacheResult, false;
      }
      copyupFlag := false;
    }
  }
}
