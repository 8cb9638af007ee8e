/** The growing buffer a download is collected in, and what it holds over a whole run of operations. */
module DownloadBuffer {

  newtype byte = b: int | 0 <= b < 256

  /** One operation, with the answer of the allocator should it be asked. */
  datatype Op =
    | Allocate(size: nat, granted: bool)
    | Chunk(data: seq<byte>, granted: bool)
    | Restart

  /*** What a run should leave in the buffer ***/

  /** The chunks taken since the buffer was last emptied; taken[i] is what the i-th operation reported. */
  function Held(ops: seq<Op>, taken: seq<nat>): seq<byte>
    requires |ops| == |taken|
  {
    if ops == [] then []
    else
      var n := |ops| - 1;
      match ops[n]
      case Chunk(data, _) => Held(ops[..n], taken[..n]) + (if taken[n] == |data| then data else [])
      case _ => []
  }

  /** All or nothing: a chunk is taken whole, or refused because the allocator refused. */
  predicate Honest(ops: seq<Op>, taken: seq<nat>) {
    && |ops| == |taken|
    && forall i :: 0 <= i < |ops| && ops[i].Chunk? ==>
         taken[i] == |ops[i].data| || (taken[i] == 0 && !ops[i].granted)
  }

  /** Whether there is memory, after some operations. Growing makes up for a failed first allocation. */
  function HasMemory(ops: seq<Op>, start: bool): bool {
    if ops == [] then start
    else
      match ops[|ops| - 1]
      case Allocate(_, granted) => granted
      case Chunk(_, granted) => HasMemory(ops[..|ops| - 1], start) || granted
      case Restart => HasMemory(ops[..|ops| - 1], start)
  }

  /** What the program's own calls keep to: an allocation is not empty, and a download starts on memory. */
  predicate Legal(ops: seq<Op>, start: bool) {
    && (forall i :: 0 <= i < |ops| && ops[i].Allocate? ==> ops[i].size > 0)
    && (forall i :: 0 <= i < |ops| && ops[i].Restart? ==> HasMemory(ops[..i], start))
  }

  class Buffer {
    var pvOut: array?<byte>
    var datasize: nat
    var memsize: nat

    /** The data and its NUL lie inside the allocation. */
    ghost predicate Valid()
      reads this, pvOut
    {
      if pvOut == null then datasize == 0 && memsize == 0
      else datasize < memsize == pvOut.Length && pvOut[datasize] == 0
    }

    ghost function Contents(): seq<byte>
      reads this, pvOut
      requires Valid()
    {
      if pvOut == null then [] else pvOut[..datasize]
    }

    constructor ()
      ensures Valid() && Contents() == [] && pvOut == null
    {
      pvOut, datasize, memsize := null, 0, 0;
    }

    /** allocDowndLoadDataMem. */
    method AllocDownloadDataMem(szDataSize: nat, granted: bool) returns (iRet: int)
      requires szDataSize > 0
      modifies this
      ensures Valid() && Contents() == []
      ensures iRet == if granted then 0 else 1
      ensures granted <==> pvOut != null
      ensures pvOut != null ==> fresh(pvOut) && memsize == szDataSize
    {
      datasize := 0;
      if granted {
        var ptr := new byte[szDataSize];
        ptr[0] := 0;
        pvOut, memsize := ptr, szDataSize;
        iRet := 0;
      } else {
        pvOut, memsize := null, 0;
        iRet := 1;
      }
    }

    /** realloc: the bytes so far are carried over; on refusal nothing changes. */
    method Grow(size: nat, granted: bool) returns (ok: bool)
      requires Valid() && size > datasize && size >= memsize
      modifies this
      ensures ok == granted && datasize == old(datasize)
      ensures !ok ==> pvOut == old(pvOut) && memsize == old(memsize)
      ensures ok ==> pvOut != null && fresh(pvOut) && pvOut.Length == memsize == size
      ensures ok ==> pvOut[..datasize] == old(Contents())
    {
      ok := granted;
      if granted {
        var ptr := new byte[size];
        if pvOut != null {
          var was := pvOut;
          forall i | 0 <= i < was.Length {
            ptr[i] := was[i];
          }
          assert forall i :: 0 <= i < datasize ==> ptr[i] == was[i];
        }
        pvOut, memsize := ptr, size;
      }
    }

    /** WriteMemoryCB: the number of bytes taken, less than offered only when memory was refused. */
    method WriteMemoryCB(data: seq<byte>, granted: bool) returns (numBytes: nat)
      requires Valid()
      modifies this, pvOut
      ensures Valid()
      ensures numBytes == if granted || old(datasize) + |data| < old(memsize) then |data| else 0
      ensures Contents() == old(Contents()) + (if numBytes == |data| then data else [])
      ensures pvOut != null <==> old(pvOut) != null || granted
      ensures pvOut == old(pvOut) || (pvOut != null && fresh(pvOut))
      ensures memsize >= old(memsize)
    {
      numBytes := |data|;
      ghost var was := Contents();
      if datasize + numBytes >= memsize {
        var ok := Grow(datasize + numBytes + 1, granted);
        if !ok {
          numBytes := 0;
          return;
        }
      }
      assert pvOut[..datasize] == was;
      forall i | 0 <= i < numBytes {
        pvOut[datasize + i] := data[i];
      }
      assert pvOut[..datasize + numBytes] == was + data;
      datasize := datasize + numBytes;
      pvOut[datasize] := 0;
      assert pvOut[..datasize] == was + data;
    }

    /** The start of a download: the buffer is emptied and its memory kept. */
    method Restart()
      requires Valid() && pvOut != null
      modifies this`datasize, pvOut
      ensures Valid() && Contents() == []
    {
      pvOut[0] := 0;
      datasize := 0;
    }
  }

  lemma LegalAt(ops: seq<Op>, start: bool, i: nat)
    requires i < |ops| && Legal(ops, start)
    ensures ops[i].Restart? ==> HasMemory(ops[..i], start)
    ensures ops[i].Allocate? ==> ops[i].size > 0
  {
  }

  lemma HeldNext(ops: seq<Op>, taken: seq<nat>, i: nat, n: nat)
    requires i < |ops| && |taken| == i
    ensures Held(ops[..i + 1], taken + [n])
         == match ops[i]
            case Chunk(data, _) => Held(ops[..i], taken) + (if n == |data| then data else [])
            case _ => []
  {
    assert ops[..i + 1][..i] == ops[..i] && (taken + [n])[..i] == taken;
  }

  lemma HasMemoryNext(ops: seq<Op>, start: bool, i: nat)
    requires i < |ops|
    ensures HasMemory(ops[..i + 1], start)
         == match ops[i]
            case Allocate(_, granted) => granted
            case Chunk(_, granted) => HasMemory(ops[..i], start) || granted
            case Restart => HasMemory(ops[..i], start)
  {
    assert ops[..i + 1][..i] == ops[..i];
  }

  /**
   * Any legal run on a fresh buffer: allocations, restarts and chunks in any order, with the allocator refusing at
   * will. The buffer stays sound throughout and ends with exactly the chunks taken since it was last emptied.
   */
  method Run(ops: seq<Op>) returns (buffer: Buffer, taken: seq<nat>)
    requires Legal(ops, false)
    ensures fresh(buffer) && buffer.Valid()
    ensures Honest(ops, taken)
    ensures buffer.Contents() == Held(ops, taken)
    ensures buffer.pvOut != null ==> buffer.pvOut[..buffer.datasize + 1] == Held(ops, taken) + [0]
  {
    hide Held, HasMemory, Legal;
    buffer := new Buffer();
    taken := [];
    RunStarts(ops);
    for i := 0 to |ops|
      invariant fresh(buffer) && (buffer.pvOut != null ==> fresh(buffer.pvOut))
      invariant buffer.Valid() && Honest(ops[..i], taken)
      invariant buffer.Contents() == Held(ops[..i], taken)
      invariant buffer.pvOut != null <==> HasMemory(ops[..i], false)
    {
      LegalAt(ops, false, i);
      HasMemoryNext(ops, false, i);
      var n: nat := 0;
      match ops[i] {
        case Allocate(size, granted) =>
          var _ := buffer.AllocDownloadDataMem(size, granted);
        case Chunk(data, granted) =>
          n := buffer.WriteMemoryCB(data, granted);
        case Restart =>
          buffer.Restart();
      }
      HeldNext(ops, taken, i, n);
      taken := taken + [n];
    }
    assert ops[..|ops|] == ops;
  }

  lemma RunStarts(ops: seq<Op>)
    ensures Held(ops[..0], []) == [] && !HasMemory(ops[..0], false)
  {
  }

  /*** The specification, without recursion over the past ***/

  function Concat(ops: seq<Op>, taken: seq<nat>): seq<byte>
    requires |ops| == |taken|
  {
    if ops == [] then []
    else (if ops[0].Chunk? && taken[0] == |ops[0].data| then ops[0].data else []) + Concat(ops[1..], taken[1..])
  }

  lemma {:induction false} ConcatSnoc(ops: seq<Op>, taken: seq<nat>)
    requires |ops| == |taken| > 0
    ensures var n := |ops| - 1;
            Concat(ops, taken)
              == Concat(ops[..n], taken[..n]) + (if ops[n].Chunk? && taken[n] == |ops[n].data| then ops[n].data else [])
  {
    var n := |ops| - 1;
    if n == 0 {
      assert Concat(ops[1..], taken[1..]) == [];
    } else {
      ConcatSnoc(ops[1..], taken[1..]);
      assert ops[1..][..n - 1] == ops[..n][1..] && taken[1..][..n - 1] == taken[..n][1..];
    }
  }

  /** From any point that emptied the buffer on, with only chunks behind it, the buffer holds their concatenation. */
  lemma {:induction false} HeldIsConcat(ops: seq<Op>, taken: seq<nat>, k: nat)
    requires |ops| == |taken| && k <= |ops|
    requires k > 0 ==> !ops[k - 1].Chunk?
    requires forall i :: k <= i < |ops| ==> ops[i].Chunk?
    ensures Held(ops, taken) == Concat(ops[k..], taken[k..])
    decreases |ops|
  {
    if k == |ops| {
      assert ops[k..] == [] && taken[k..] == [];
    } else {
      var n := |ops| - 1;
      HeldIsConcat(ops[..n], taken[..n], k);
      ConcatSnoc(ops[k..], taken[k..]);
      assert ops[k..][..n - k] == ops[..n][k..] && taken[k..][..n - k] == taken[..n][k..];
    }
  }
}
