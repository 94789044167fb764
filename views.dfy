/**
 * Typed views over arena allocations (SingleAllocHandle and
 * ArrayAllocHandle) and the helpers built on them: allocation, freeing,
 * copy, compare and fill, and the scoped memory loan.  A view stores a
 * handle, never an address: every access resolves the handle again, so a
 * view stays valid while compaction moves its bytes.  The element type's
 * size (sizeof(T)) is a parameter, elt.
 */
module Views {
  import opened Common
  import opened ArenaLayout
  import opened CPUMemory

  /** SingleAllocHandle<T>: a handle to one T. */
  datatype SingleView = SingleView(handle: nat)

  /** ArrayAllocHandle<T>: a handle, an element count and an element offset. */
  datatype ArrayView = ArrayView(arrayLen: nat, handle: nat, dataOffset: nat)

  /** The default views name no allocation. */
  const NoSingle := SingleView(EmptyHandle)
  const NoArray := ArrayView(0, EmptyHandle, 0)

  // ---------------------------------------------------------------------
  // Pure view arithmetic
  // ---------------------------------------------------------------------

  /** view + k: the same handle and length, with the offset set to k. */
  function Plus(v: ArrayView, k: nat): ArrayView {
    v.(dataOffset := k)
  }

  /** Offsets do not accumulate: the last + wins, and + with a view's own
      offset gives the view back. */
  lemma PlusReplaces(v: ArrayView, j: nat, k: nat)
    ensures Plus(Plus(v, j), k) == Plus(v, k)
    ensures Plus(v, v.dataOffset) == v
    ensures Plus(v, k).handle == v.handle && Plus(v, k).arrayLen == v.arrayLen
  {
  }

  /** GetBytesHandle: a byte view of the same handle covering the same
      number of bytes, with the element offset carried over unchanged. */
  function GetBytesHandle(v: ArrayView, elt: nat): (r: ArrayView)
    ensures r.handle == v.handle && r.dataOffset == v.dataOffset
    ensures r.arrayLen == v.arrayLen * elt
  {
    ArrayView(v.arrayLen * elt, v.handle, v.dataOffset)
  }

  /** Byte offset from the allocation's base of element i of a view. */
  function ElementOffset(v: ArrayView, i: nat, elt: nat): nat {
    (v.dataOffset + i) * elt
  }

  /** The byte view starts where the typed view does exactly when the
      offset is zero or the elements are single bytes; it always spans
      the typed view's bytes. */
  lemma BytesViewAlignment(v: ArrayView, elt: nat)
    requires elt > 0
    ensures ElementOffset(GetBytesHandle(v, elt), 0, 1) == ElementOffset(v, 0, elt) <==>
            v.dataOffset == 0 || elt == 1
    ensures GetBytesHandle(v, elt).arrayLen == ElementOffset(v, v.arrayLen, elt) - ElementOffset(v, 0, elt)
  {
    if v.dataOffset != 0 && elt != 1 {
      assert v.dataOffset * elt >= v.dataOffset * 2;
    }
  }

  /** The size in bytes of an array view of elt-byte elements. */
  function ByteLen(v: ArrayView, elt: nat): nat {
    v.arrayLen * elt
  }

  /** Element access (operator[], operator*, operator->): the address of
      element i, resolved through the handle, or None for a handle that
      names nothing.  Inside the allocation, the e bytes there are that
      element's bytes of what the handle holds. */
  function ElementAddress(a: Arena, v: ArrayView, i: nat, elt: nat): (r: Option<nat>)
    reads a, a.slots, a.table
    requires a.Valid() && v.handle < a.table.Length
    ensures r.Some? <==> v.handle in a.Contents()
    ensures r.Some? && ElementOffset(v, i, elt) + elt <= |a.Contents()[v.handle]| ==>
      r.value + elt <= |a.mem| &&
      a.mem[r.value .. r.value + elt] ==
        a.Contents()[v.handle][ElementOffset(v, i, elt) .. ElementOffset(v, i, elt) + elt]
  {
    match a.GetHandlePtr(v.handle)
    case None => None
    case Some(p) =>
      var o := ElementOffset(v, i, elt);
      SliceOfSlice(a.mem, p, |a.Contents()[v.handle]|, o, elt);
      Some(p + o)
  }

  /** A slice of a slice is a slice of the whole. */
  lemma SliceOfSlice<T>(m: seq<T>, p: nat, len: nat, o: nat, e: nat)
    requires p + len <= |m|
    ensures o + e <= len ==> m[p + o .. p + o + e] == m[p .. p + len][o .. o + e]
  {
    if o + e <= len {
      var w := m[p .. p + len];
      var x, y := m[p + o .. p + o + e], w[o .. o + e];
      forall k | 0 <= k < e
        ensures x[k] == y[k]
      {
        assert y[k] == w[o + k] == m[p + o + k];
      }
    }
  }

  // ---------------------------------------------------------------------
  // Allocation and release
  // ---------------------------------------------------------------------

  /** AllocateArray<T>(n) and AllocateArrayStatic<T, n>: n elements under a
      fresh handle, offset zero. */
  method AllocateArray(a: Arena, elt: nat, num: nat) returns (v: ArrayView)
    requires a.Valid() && a.numAllocs < a.slots.Length && a.numHandles < a.table.Length
    requires a.memUsed + elt * num <= |a.mem|
    modifies a, a.slots, a.table
    ensures a.Valid() && a.mem == old(a.mem)
    ensures v == ArrayView(num, old(a.numHandles), 0) && v.handle !in old(a.Contents())
    ensures a.memUsed == old(a.memUsed) + elt * num
    ensures a.numAllocs == old(a.numAllocs) + 1 && a.numHandles == old(a.numHandles) + 1
    ensures a.Contents() == old(a.Contents())[v.handle := a.mem[old(a.memUsed) .. a.memUsed]]
  {
    var h := a.AllocateRange(elt * num);
    v := ArrayView(num, h, 0);
  }

  /** AllocateSingle<T>: room for one T under a fresh handle. */
  method AllocateSingle(a: Arena, elt: nat) returns (v: SingleView)
    requires a.Valid() && a.numAllocs < a.slots.Length && a.numHandles < a.table.Length
    requires a.memUsed + elt <= |a.mem|
    modifies a, a.slots, a.table
    ensures a.Valid() && a.mem == old(a.mem)
    ensures v == SingleView(old(a.numHandles)) && v.handle !in old(a.Contents())
    ensures a.memUsed == old(a.memUsed) + elt
    ensures a.Contents() == old(a.Contents())[v.handle := a.mem[old(a.memUsed) .. a.memUsed]]
  {
    var h := a.AllocateRange(elt);
    v := SingleView(h);
  }

  /** Free of an array view: only a view at offset zero may be freed. */
  method FreeArray(a: Arena, v: ArrayView)
    requires a.Valid() && v.handle < a.table.Length && v.dataOffset == 0
    modifies a, a.slots, a.table
    ensures a.Valid()
    ensures v.handle in old(a.Contents()) && |old(a.Contents())[v.handle]| != 0 ==>
      a.Contents() == old(a.Contents()) - {v.handle}
    ensures !(v.handle in old(a.Contents()) && |old(a.Contents())[v.handle]| != 0) ==>
      unchanged(a, a.slots, a.table)
  {
    a.Free(v.handle);
  }

  /** Free of a single view. */
  method FreeSingle(a: Arena, v: SingleView)
    requires a.Valid() && v.handle < a.table.Length
    modifies a, a.slots, a.table
    ensures a.Valid()
    ensures v.handle in old(a.Contents()) && |old(a.Contents())[v.handle]| != 0 ==>
      a.Contents() == old(a.Contents()) - {v.handle}
    ensures !(v.handle in old(a.Contents()) && |old(a.Contents())[v.handle]| != 0) ==>
      unchanged(a, a.slots, a.table)
  {
    a.Free(v.handle);
  }

  // ---------------------------------------------------------------------
  // Fill
  // ---------------------------------------------------------------------

  /** ZeroData on an array view: arrayLen elements of zero bytes, written
      from the allocation's base whatever the view's offset. */
  method ZeroArray(a: Arena, v: ArrayView, elt: nat)
    requires a.Valid() && v.handle < a.table.Length && v.handle in a.Contents()
    requires a.GetHandlePtr(v.handle).value + ByteLen(v, elt) <= |a.mem|
    modifies a
    ensures a.Valid()
    ensures var p, n := old(a.GetHandlePtr(v.handle)).value, ByteLen(v, elt);
      a.mem == old(a.mem[..p]) + seq(n, _ => 0) + old(a.mem[p + n..])
    ensures ByteLen(v, elt) == |old(a.Contents())[v.handle]| ==>
      a.Contents() == old(a.Contents())[v.handle := seq(ByteLen(v, elt), _ => 0)]
  {
    a.ZeroData(v.handle, ByteLen(v, elt));
  }

  /** ZeroData on a single view: sizeof(T) zero bytes. */
  method ZeroSingle(a: Arena, v: SingleView, elt: nat)
    requires a.Valid() && v.handle < a.table.Length && v.handle in a.Contents()
    requires a.GetHandlePtr(v.handle).value + elt <= |a.mem|
    modifies a
    ensures a.Valid()
    ensures var p := old(a.GetHandlePtr(v.handle)).value;
      a.mem == old(a.mem[..p]) + seq(elt, _ => 0) + old(a.mem[p + elt..])
    ensures elt == |old(a.Contents())[v.handle]| ==>
      a.Contents() == old(a.Contents())[v.handle := seq(elt, _ => 0)]
  {
    a.ZeroData(v.handle, elt);
  }

  /** FlushData on an array view: arrayLen elements of 0xff bytes, from the
      allocation's base. */
  method FlushArray(a: Arena, v: ArrayView, elt: nat)
    requires a.Valid() && v.handle < a.table.Length && v.handle in a.Contents()
    requires a.GetHandlePtr(v.handle).value + ByteLen(v, elt) <= |a.mem|
    modifies a
    ensures a.Valid()
    ensures var p, n := old(a.GetHandlePtr(v.handle)).value, ByteLen(v, elt);
      a.mem == old(a.mem[..p]) + seq(n, _ => 0xff) + old(a.mem[p + n..])
    ensures ByteLen(v, elt) == |old(a.Contents())[v.handle]| ==>
      a.Contents() == old(a.Contents())[v.handle := seq(ByteLen(v, elt), _ => 0xff)]
  {
    a.FlushData(v.handle, ByteLen(v, elt));
  }

  /** FlushData on a single view: sizeof(T) bytes of 0xff. */
  method FlushSingle(a: Arena, v: SingleView, elt: nat)
    requires a.Valid() && v.handle < a.table.Length && v.handle in a.Contents()
    requires a.GetHandlePtr(v.handle).value + elt <= |a.mem|
    modifies a
    ensures a.Valid()
    ensures var p := old(a.GetHandlePtr(v.handle)).value;
      a.mem == old(a.mem[..p]) + seq(elt, _ => 0xff) + old(a.mem[p + elt..])
    ensures elt == |old(a.Contents())[v.handle]| ==>
      a.Contents() == old(a.Contents())[v.handle := seq(elt, _ => 0xff)]
  {
    a.FlushData(v.handle, elt);
  }

  // ---------------------------------------------------------------------
  // Copy
  // ---------------------------------------------------------------------

  /** The n bytes at the base of what handle h names. */
  function BytesAt(a: Arena, h: nat, n: nat): (r: seq<Byte>)
    reads a, a.slots, a.table
    requires a.Valid() && h < a.table.Length && h in a.Contents()
    requires a.GetHandlePtr(h).value + n <= |a.mem|
    ensures |r| == n
    ensures n <= |a.Contents()[h]| ==> r == a.Contents()[h][..n]
  {
    var p := a.GetHandlePtr(h).value;
    a.mem[p .. p + n]
  }

  /** The memcpy of n bytes from src's base to dst's base, both resolved
      through their handles.  When neither end runs past its allocation,
      dst's first n bytes become src's and nothing else changes. */
  method CopyBytes(a: Arena, src: nat, dst: nat, n: nat)
    requires a.Valid() && src < a.table.Length && dst < a.table.Length
    requires src in a.Contents() && dst in a.Contents()
    requires a.GetHandlePtr(src).value + n <= |a.mem| && a.GetHandlePtr(dst).value + n <= |a.mem|
    modifies a
    ensures a.Valid() && a.numAllocs == old(a.numAllocs) && a.numHandles == old(a.numHandles)
    ensures a.memUsed == old(a.memUsed) && |a.mem| == old(|a.mem|)
    ensures var p := old(a.GetHandlePtr(dst)).value;
      a.mem == old(a.mem[..p]) + old(BytesAt(a, src, n)) + old(a.mem[p + n..])
    ensures n <= |old(a.Contents())[src]| && n <= |old(a.Contents())[dst]| ==>
      a.Contents() == old(a.Contents())[dst := old(a.Contents())[src][..n] + old(a.Contents())[dst][n..]]
  {
    var w := BytesAt(a, src, n);
    a.Overwrite(dst, w);
  }

  /** CopyData between two array views: src.arrayLen elements, base to base. */
  method CopyArrays(a: Arena, src: ArrayView, dst: ArrayView, elt: nat)
    requires a.Valid() && src.handle < a.table.Length && dst.handle < a.table.Length
    requires src.handle in a.Contents() && dst.handle in a.Contents()
    requires src.arrayLen <= dst.arrayLen
    requires a.GetHandlePtr(src.handle).value + ByteLen(src, elt) <= |a.mem|
    requires a.GetHandlePtr(dst.handle).value + ByteLen(src, elt) <= |a.mem|
    modifies a
    ensures a.Valid() && a.numAllocs == old(a.numAllocs) && a.numHandles == old(a.numHandles)
    ensures a.memUsed == old(a.memUsed) && |a.mem| == old(|a.mem|)
    ensures var n := ByteLen(src, elt);
      n <= |old(a.Contents())[src.handle]| && n <= |old(a.Contents())[dst.handle]| ==>
        a.Contents() == old(a.Contents())[dst.handle :=
          old(a.Contents())[src.handle][..n] + old(a.Contents())[dst.handle][n..]]
  {
    CopyBytes(a, src.handle, dst.handle, ByteLen(src, elt));
  }

  /** A full CopyData between two array views of equal length followed by
      CompareData on the same pair: the comparison reports equality, and
      only the destination changed. */
  method CopyThenCompare(a: Arena, src: ArrayView, dst: ArrayView, elt: nat) returns (r: int)
    requires a.Valid() && src.handle < a.table.Length && dst.handle < a.table.Length
    requires src.handle in a.Contents() && dst.handle in a.Contents()
    requires src.arrayLen == dst.arrayLen
    requires ByteLen(src, elt) <= |a.Contents()[src.handle]| && ByteLen(src, elt) <= |a.Contents()[dst.handle]|
    modifies a
    ensures r == 0 && a.Valid()
    ensures var n := ByteLen(src, elt);
      a.Contents() == old(a.Contents())[dst.handle :=
        old(a.Contents())[src.handle][..n] + old(a.Contents())[dst.handle][n..]]
  {
    CopyArrays(a, src, dst, elt);
    r := CompareArrays(a, src, dst, elt);
  }

  /** CopyData from an array view out to caller memory: arrayLen elements
      from the allocation's base. */
  method CopyArrayOut(a: Arena, src: ArrayView, elt: nat) returns (out: seq<Byte>)
    requires a.Valid() && src.handle < a.table.Length && src.handle in a.Contents()
    requires a.GetHandlePtr(src.handle).value + ByteLen(src, elt) <= |a.mem|
    ensures |out| == ByteLen(src, elt)
    ensures |out| <= |a.Contents()[src.handle]| ==> out == a.Contents()[src.handle][..|out|]
  {
    out := BytesAt(a, src.handle, ByteLen(src, elt));
  }

  /** CopyData from caller memory into an array view: dst.arrayLen
      elements, written from the allocation's base. */
  method CopyArrayIn(a: Arena, input: seq<Byte>, dst: ArrayView, elt: nat)
    requires a.Valid() && dst.handle < a.table.Length && dst.handle in a.Contents()
    requires |input| == ByteLen(dst, elt)
    requires a.GetHandlePtr(dst.handle).value + |input| <= |a.mem|
    modifies a
    ensures a.Valid() && a.numAllocs == old(a.numAllocs) && a.numHandles == old(a.numHandles)
    ensures a.memUsed == old(a.memUsed) && |a.mem| == old(|a.mem|)
    ensures |input| <= |old(a.Contents())[dst.handle]| ==>
      a.Contents() == old(a.Contents())[dst.handle := input + old(a.Contents())[dst.handle][|input|..]]
  {
    a.Overwrite(dst.handle, input);
  }

  /** CopyData between two single views: sizeof(T) bytes. */
  method CopySingles(a: Arena, src: SingleView, dst: SingleView, elt: nat)
    requires a.Valid() && src.handle < a.table.Length && dst.handle < a.table.Length
    requires src.handle in a.Contents() && dst.handle in a.Contents()
    requires a.GetHandlePtr(src.handle).value + elt <= |a.mem|
    requires a.GetHandlePtr(dst.handle).value + elt <= |a.mem|
    modifies a
    ensures a.Valid()
    ensures elt == |old(a.Contents())[src.handle]| == |old(a.Contents())[dst.handle]| ==>
      a.Contents() == old(a.Contents())[dst.handle := old(a.Contents())[src.handle]]
  {
    ghost var c0 := a.Contents();
    CopyBytes(a, src.handle, dst.handle, elt);
    if elt == |c0[src.handle]| == |c0[dst.handle]| {
      assert c0[src.handle][..elt] + c0[dst.handle][elt..] == c0[src.handle];
    }
  }

  /** CopyData from a single view out to caller memory. */
  method CopySingleOut(a: Arena, src: SingleView, elt: nat) returns (out: seq<Byte>)
    requires a.Valid() && src.handle < a.table.Length && src.handle in a.Contents()
    requires a.GetHandlePtr(src.handle).value + elt <= |a.mem|
    ensures |out| == elt
    ensures elt == |a.Contents()[src.handle]| ==> out == a.Contents()[src.handle]
  {
    out := BytesAt(a, src.handle, elt);
  }

  /** CopyData from caller memory into a single view. */
  method CopySingleIn(a: Arena, input: seq<Byte>, dst: SingleView, elt: nat)
    requires a.Valid() && dst.handle < a.table.Length && dst.handle in a.Contents()
    requires |input| == elt && a.GetHandlePtr(dst.handle).value + elt <= |a.mem|
    modifies a
    ensures a.Valid()
    ensures elt == |old(a.Contents())[dst.handle]| ==>
      a.Contents() == old(a.Contents())[dst.handle := input]
  {
    ghost var c0 := a.Contents();
    a.Overwrite(dst.handle, input);
    if elt == |c0[dst.handle]| {
      assert input + c0[dst.handle][elt..] == input;
    }
  }

  // ---------------------------------------------------------------------
  // Compare
  // ---------------------------------------------------------------------

  /** memcmp: the sign of the first differing byte, 0 when none differ
      (C fixes only the sign, so the magnitude here is 1). */
  function Memcmp(x: seq<Byte>, y: seq<Byte>): int
    requires |x| == |y|
  {
    if |x| == 0 then 0
    else if x[0] < y[0] then -1
    else if x[0] > y[0] then 1
    else Memcmp(x[1..], y[1..])
  }

  /** memcmp is zero exactly on equal byte strings. */
  lemma {:induction false} MemcmpZero(x: seq<Byte>, y: seq<Byte>)
    requires |x| == |y|
    ensures Memcmp(x, y) == 0 <==> x == y
  {
    if |x| > 0 && x[0] == y[0] {
      MemcmpZero(x[1..], y[1..]);
      assert x == [x[0]] + x[1..] && y == [y[0]] + y[1..];
    }
  }

  /** Swapping the operands negates memcmp. */
  lemma {:induction false} MemcmpSwap(x: seq<Byte>, y: seq<Byte>)
    requires |x| == |y|
    ensures Memcmp(y, x) == -Memcmp(x, y)
    ensures -1 <= Memcmp(x, y) <= 1
  {
    if |x| > 0 && x[0] == y[0] {
      MemcmpSwap(x[1..], y[1..]);
    }
  }

  /** CompareData on two array views of equal length: memcmp of arrayLen
      elements from each allocation's base. */
  function CompareArrays(a: Arena, x: ArrayView, y: ArrayView, elt: nat): (r: int)
    reads a, a.slots, a.table
    requires a.Valid() && x.handle < a.table.Length && y.handle < a.table.Length
    requires x.handle in a.Contents() && y.handle in a.Contents() && x.arrayLen == y.arrayLen
    requires a.GetHandlePtr(x.handle).value + ByteLen(x, elt) <= |a.mem|
    requires a.GetHandlePtr(y.handle).value + ByteLen(y, elt) <= |a.mem|
    ensures var n := ByteLen(x, elt);
      n <= |a.Contents()[x.handle]| && n <= |a.Contents()[y.handle]| ==>
        (r == 0 <==> a.Contents()[x.handle][..n] == a.Contents()[y.handle][..n])
  {
    var n := ByteLen(x, elt);
    MemcmpZero(BytesAt(a, x.handle, n), BytesAt(a, y.handle, n));
    Memcmp(BytesAt(a, x.handle, n), BytesAt(a, y.handle, n))
  }

  /** CompareData of an array view against caller memory. */
  function CompareArrayWith(a: Arena, x: ArrayView, other: seq<Byte>, elt: nat): (r: int)
    reads a, a.slots, a.table
    requires a.Valid() && x.handle < a.table.Length && x.handle in a.Contents()
    requires |other| == ByteLen(x, elt)
    requires a.GetHandlePtr(x.handle).value + ByteLen(x, elt) <= |a.mem|
    ensures |other| <= |a.Contents()[x.handle]| ==>
      (r == 0 <==> a.Contents()[x.handle][..|other|] == other)
  {
    var n := ByteLen(x, elt);
    MemcmpZero(BytesAt(a, x.handle, n), other);
    Memcmp(BytesAt(a, x.handle, n), other)
  }

  /** CompareData of caller memory against an array view: the comparison
      the other way round, with only the sign flipped. */
  function CompareWithArray(a: Arena, other: seq<Byte>, x: ArrayView, elt: nat): (r: int)
    reads a, a.slots, a.table
    requires a.Valid() && x.handle < a.table.Length && x.handle in a.Contents()
    requires |other| == ByteLen(x, elt)
    requires a.GetHandlePtr(x.handle).value + ByteLen(x, elt) <= |a.mem|
    ensures r == -CompareArrayWith(a, x, other, elt)
    ensures |other| <= |a.Contents()[x.handle]| ==>
      (r == 0 <==> a.Contents()[x.handle][..|other|] == other)
  {
    var n := ByteLen(x, elt);
    MemcmpSwap(BytesAt(a, x.handle, n), other);
    MemcmpZero(BytesAt(a, x.handle, n), other);
    Memcmp(other, BytesAt(a, x.handle, n))
  }

  // ---------------------------------------------------------------------
  // Scoped loans
  // ---------------------------------------------------------------------

  /** CPUMemoryLoan: an n-byte char array allocated for the loan's lifetime. */
  class Loan {
    var view: ArrayView

    /** The constructor allocates loanSize bytes. */
    constructor Open(a: Arena, loanSize: U32)
      requires a.Valid() && a.numAllocs < a.slots.Length && a.numHandles < a.table.Length
      requires a.memUsed + loanSize <= |a.mem|
      modifies a, a.slots, a.table
      ensures a.Valid() && a.mem == old(a.mem)
      ensures view == ArrayView(loanSize, old(a.numHandles), 0) && view.handle < a.table.Length
      ensures view.handle !in old(a.Contents()) && a.memUsed == old(a.memUsed) + loanSize
      ensures a.Contents() == old(a.Contents())[view.handle := a.mem[old(a.memUsed) .. a.memUsed]]
    {
      var v := AllocateArray(a, 1, loanSize);
      view := v;
    }

    /** The destructor frees the loan's handle (through the handle, not
        the view, so no offset check applies). */
    method Close(a: Arena)
      requires a.Valid() && view.handle < a.table.Length
      modifies a, a.slots, a.table
      ensures a.Valid()
      ensures view.handle in old(a.Contents()) && |old(a.Contents())[view.handle]| != 0 ==>
        a.Contents() == old(a.Contents()) - {view.handle} &&
        a.memUsed == old(a.memUsed) - |old(a.Contents())[view.handle]|
      ensures !(view.handle in old(a.Contents()) && |old(a.Contents())[view.handle]| != 0) ==>
        unchanged(a, a.slots, a.table)
    {
      a.Free(view.handle);
    }
  }

  /** A loan opened and closed with nothing in between leaves the arena
      holding what it held before; a zero-byte loan is never released and
      leaves its empty allocation behind. */
  method LoanScope(a: Arena, loanSize: U32)
    requires a.Valid() && a.numAllocs < a.slots.Length && a.numHandles < a.table.Length
    requires a.memUsed + loanSize <= |a.mem|
    modifies a, a.slots, a.table
    ensures a.Valid()
    ensures loanSize != 0 ==> a.Contents() == old(a.Contents()) && a.memUsed == old(a.memUsed)
    ensures loanSize == 0 ==>
      a.Contents() == old(a.Contents())[old(a.numHandles) := []] && a.memUsed == old(a.memUsed)
  {
    ghost var c0, h0, u0 := a.Contents(), a.numHandles, a.memUsed;
    var loan := new Loan.Open(a, loanSize);
    ghost var c1 := a.Contents();
    assert h0 in c1 && |c1[h0]| == loanSize && h0 !in c0;
    loan.Close(a);
    if loanSize != 0 {
      AddThenRemove(c0, h0, c1[h0]);
    }
  }

  /** Adding a fresh key and removing it restores the map. */
  lemma AddThenRemove<K, V>(c0: map<K, V>, h: K, v: V)
    requires h !in c0
    ensures c0[h := v] - {h} == c0
  {
  }
}
