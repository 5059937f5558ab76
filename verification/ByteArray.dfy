/** A byte vector that keeps small contents in a fixed buffer and moves to the heap for good beyond it. */
module ByteArrays {
  import opened Bytes

  const STATIC_SIZE: nat := 512
  /** The length field once it is no longer used: size_t's -1. */
  const SIZE_MAX: nat := 0xFFFF_FFFF_FFFF_FFFF

  function Min(a: nat, b: nat): nat {
    if a <= b then a else b
  }

  /** An assignment takes the contents of another array, or its own; a copy takes the place of the array. */
  datatype Op = Append(data: bytes) | Resize(size: nat) | Assign(right: bytes) | AssignSelf | Copy

  /** One operation on a plain byte sequence; bytes a resize adds are unspecified. */
  ghost predicate StepOk(op: Op, before: bytes, after: bytes) {
    match op
    case Append(data) => after == before + data
    case Resize(size) => |after| == size && after[..Min(|before|, size)] == before[..Min(|before|, size)]
    case Assign(right) => after == right
    case AssignSelf => after == before
    case Copy => after == before
  }

  /** The number of operations up to the last copy, including it. */
  function LastCopy(ops: seq<Op>): (n: nat)
    ensures n <= |ops|
  {
    if ops == [] then 0 else if ops[|ops| - 1].Copy? then |ops| else LastCopy(ops[..|ops| - 1])
  }

  /** `trace` holds the contents before the first of `ops` and after each of them. */
  ghost predicate Follows(ops: seq<Op>, trace: seq<bytes>) {
    |trace| == |ops| + 1 && forall i | 0 <= i < |ops| :: StepOk(ops[i], trace[i], trace[i + 1])
  }

  /** No content since the last copy was too large for the static buffer; without a copy, it was in use before. */
  ghost predicate SmallSinceCopy(ops: seq<Op>, trace: seq<bytes>, wasStatic: bool)
    requires |trace| == |ops| + 1
  {
    (LastCopy(ops) > 0 || wasStatic) && forall s <- trace[LastCopy(ops)..] :: |s| <= STATIC_SIZE
  }

  lemma NoneYet(ops: seq<Op>, trace: seq<bytes>, wasStatic: bool)
    requires ops == [] && |trace| == 1 && (wasStatic ==> |trace[0]| <= STATIC_SIZE)
    ensures Follows(ops, trace) && SmallSinceCopy(ops, trace, wasStatic) == wasStatic
  {
    assert trace[0..] == trace;
  }

  lemma OneMore(ops: seq<Op>, trace: seq<bytes>, wasStatic: bool, op: Op, next: bytes)
    requires Follows(ops, trace) && StepOk(op, trace[|ops|], next)
    ensures Follows(ops + [op], trace + [next])
    ensures |trace + [next]| == |ops| + 2 && (trace + [next])[0] == trace[0]
    ensures SmallSinceCopy(ops + [op], trace + [next], wasStatic)
            <==> (op.Copy? || SmallSinceCopy(ops, trace, wasStatic)) && |next| <= STATIC_SIZE
  {
    hide StepOk;
    var n := LastCopy(ops);
    assert (ops + [op])[..|ops|] == ops;
    assert (trace + [next])[n..] == trace[n..] + [next] && (trace + [next])[|ops| + 1..] == [next];
  }

  class ByteArray {
    const staticData: array<byte>
    /** The storage of the std::vector and how much of it is in use; null while the static buffer is used. */
    var dynamicData: array?<byte>
    var dynamicSize: nat
    var length: nat

    predicate UsesStaticBuffer()
      reads this
    {
      dynamicData == null
    }

    ghost function Repr(): set<object>
      reads this
    {
      if dynamicData == null then {this, staticData} else {this, staticData, dynamicData}
    }

    ghost predicate Valid()
      reads this
    {
      && staticData.Length == STATIC_SIZE
      && if dynamicData == null then length <= STATIC_SIZE
         else dynamicData != staticData && dynamicSize <= dynamicData.Length && length == SIZE_MAX
    }

    function Size(): nat
      reads this
    {
      if dynamicData == null then length else dynamicSize
    }

    function Storage(): array<byte>
      reads this
    {
      if dynamicData == null then staticData else dynamicData
    }

    ghost function Contents(): (s: bytes)
      requires Valid()
      reads this, Repr()
      ensures |s| == Size()
    {
      Storage()[..Size()]
    }

    /** The byte after the last one is in the storage, and zero. */
    ghost predicate NulPastEnd()
      requires Valid()
      reads this, Repr()
    {
      Size() < Storage().Length && Storage()[Size()] == 0
    }

    constructor ()
      ensures Valid() && UsesStaticBuffer() && Contents() == [] && fresh(Repr())
    {
      staticData := new byte[STATIC_SIZE];
      dynamicData, dynamicSize, length := null, 0, 0;
    }

    constructor Copy(b: ByteArray)
      requires b.Valid()
      ensures Valid() && Contents() == old(b.Contents()) && fresh(Repr())
      ensures UsesStaticBuffer() == (old(b.Size()) <= 512)
    {
      staticData := new byte[STATIC_SIZE];
      dynamicData, dynamicSize, length := null, 0, 0;
      new;
      Append(b.Storage()[..b.Size()]);
    }

    /** std::vector::resize: a longer vector is filled with zeros, in new storage if the old is too small. */
    method ResizeVector(size: nat)
      requires Valid() && !UsesStaticBuffer()
      modifies this`dynamicData, this`dynamicSize, dynamicData
      ensures Valid() && !UsesStaticBuffer() && dynamicSize == size
      ensures dynamicData == old(dynamicData) || fresh(dynamicData)
      ensures dynamicData[..Min(old(dynamicSize), size)] == old(dynamicData[..Min(dynamicSize, size)])
      ensures forall i | old(dynamicSize) <= i < size :: dynamicData[i] == 0
      ensures size <= old(dynamicSize) ==> dynamicData == old(dynamicData) && dynamicData[..] == old(dynamicData[..])
    {
      if size > dynamicData.Length {
        var storage := new byte[size];
        forall i | 0 <= i < size {
          storage[i] := if i < dynamicSize then dynamicData[i] else 0;
        }
        dynamicData := storage;
      } else {
        forall i | dynamicSize <= i < size {
          dynamicData[i] := 0;
        }
      }
      dynamicSize := size;
    }

    method Resize(size: nat)
      requires Valid()
      modifies Repr()
      ensures Valid() && fresh(Repr() - old(Repr())) && Size() == size
      ensures UsesStaticBuffer() == (old(UsesStaticBuffer()) && size <= STATIC_SIZE)
      ensures Contents()[..Min(old(Size()), size)] == old(Contents())[..Min(old(Size()), size)]
      ensures size <= old(Size()) ==> Storage() == old(Storage()) && Storage()[..] == old(Storage()[..])
    {
      if !UsesStaticBuffer() {
        ResizeVector(size);
      } else if size <= STATIC_SIZE {
        length := size;
      } else {
        dynamicData := new byte[0];
        dynamicSize := 0;
        var kept := length;
        length := SIZE_MAX;
        ResizeVector(size);
        forall i | 0 <= i < kept {
          dynamicData[i] := staticData[i];
        }
      }
    }

    /** std::copy_n into the storage. */
    method CopyInto(data: bytes, at: nat)
      requires Valid() && at + |data| <= Storage().Length
      modifies Storage()
      ensures Valid() && Storage()[..at] == old(Storage()[..at]) && Storage()[at..at + |data|] == data
      ensures Storage()[at + |data|..] == old(Storage()[at + |data|..])
    {
      var storage := Storage();
      forall i | 0 <= i < |data| {
        storage[at + i] := data[i];
      }
    }

    method Append(data: bytes)
      requires Valid()
      modifies Repr()
      ensures Valid() && fresh(Repr() - old(Repr()))
      ensures Contents() == old(Contents()) + data
      ensures UsesStaticBuffer() == (old(UsesStaticBuffer()) && old(Size()) + |data| <= STATIC_SIZE)
    {
      var i := Size();
      Resize(Size() + |data|);
      assert Storage()[..i] == old(Contents());
      CopyInto(data, i);
    }

    method AppendByte(v: byte)
      requires Valid()
      modifies Repr()
      ensures Valid() && fresh(Repr() - old(Repr()))
      ensures Contents() == old(Contents()) + [v]
      ensures UsesStaticBuffer() == (old(UsesStaticBuffer()) && old(Size()) + 1 <= STATIC_SIZE)
    {
      var i := Size();
      Resize(i + 1);
      assert Storage()[..i] == old(Contents());
      CopyInto([v], i);
    }

    /** Assignment; the right-hand side may be the array itself. */
    method Assign(right: ByteArray)
      requires Valid() && right.Valid()
      requires right == this || right.Repr() !! Repr()
      modifies Repr()
      ensures Valid() && fresh(Repr() - old(Repr()))
      ensures Contents() == old(right.Contents())
      ensures UsesStaticBuffer() == (old(UsesStaticBuffer()) && old(right.Size()) <= STATIC_SIZE)
    {
      Resize(right.Size());
      CopyInto(right.Storage()[..right.Size()], 0);
    }
  }

  method Perform(a: ByteArray, op: Op) returns (b: ByteArray)
    requires a.Valid()
    modifies a.Repr()
    ensures b.Valid() && fresh(b.Repr() - old(a.Repr())) && StepOk(op, old(a.Contents()), b.Contents())
    ensures b.UsesStaticBuffer() == ((op.Copy? || old(a.UsesStaticBuffer())) && |b.Contents()| <= STATIC_SIZE)
  {
    b := a;
    if op.Append? {
      a.Append(op.data);
    } else if op.Resize? {
      a.Resize(op.size);
    } else if op.Assign? {
      var other := new ByteArray();
      other.Append(op.right);
      a.Assign(other);
    } else if op.AssignSelf? {
      a.Assign(a);
    } else {
      b := new ByteArray.Copy(a);
    }
  }

  lemma StaticIsSmall(a: ByteArray)
    requires a.Valid() && a.UsesStaticBuffer()
    ensures |a.Contents()| <= STATIC_SIZE
  {
  }

  /**
   For every run of operations the contents follow those on a plain byte sequence, and the static buffer
   is used exactly as long as no content since the last copy was larger than it.
   */
  method Replay(start: ByteArray, ops: seq<Op>) returns (a: ByteArray, ghost trace: seq<bytes>)
    requires start.Valid()
    modifies start.Repr()
    ensures a.Valid() && fresh(a.Repr() - old(start.Repr()))
    ensures Follows(ops, trace) && trace[0] == old(start.Contents()) && trace[|ops|] == a.Contents()
    ensures a.UsesStaticBuffer() == SmallSinceCopy(ops, trace, old(start.UsesStaticBuffer()))
  {
    hide StepOk, SmallSinceCopy, ByteArray.Valid;
    a, trace := start, [start.Contents()];
    if start.UsesStaticBuffer() { StaticIsSmall(start); }
    NoneYet(ops[..0], trace, start.UsesStaticBuffer());
    for i := 0 to |ops|
      invariant a.Valid() && fresh(a.Repr() - old(start.Repr()))
      invariant Follows(ops[..i], trace) && trace[0] == old(start.Contents()) && trace[i] == a.Contents()
      invariant a.UsesStaticBuffer() == SmallSinceCopy(ops[..i], trace, old(start.UsesStaticBuffer()))
    {
      hide Follows;
      ghost var before := trace;
      a := Perform(a, ops[i]);
      OneMore(ops[..i], before, old(start.UsesStaticBuffer()), ops[i], a.Contents());
      trace := before + [a.Contents()];
      assert ops[..i + 1] == ops[..i] + [ops[i]];
    }
    assert ops[..|ops|] == ops;
  }
}
