/**
 * The CPU-side memory arena (CPUMemory): one block split into book-keeping,
 * a scratch region and a client region where live allocations sit packed
 * end to end in allocation order.  Clients name allocations by handles; a
 * handle table maps each handle to the index of its record in the slot
 * table, and each record points back at its handle-table entry.
 *
 * Addresses in this model are offsets into the client region (the source's
 * destPtr minus data + clientDataOffset).
 */
module ArenaLayout {
  import opened Common

  // ---------------------------------------------------------------------
  // Build constants (64-bit pointers, the production configuration)
  // ---------------------------------------------------------------------

  /** Size of the whole block in the production build (512 MiB). */
  const InitAlloc: nat := 1024 * 1024 * 512
  /** Size of the whole block in the allocator-test build (1 GiB). */
  const TestInitAlloc: nat := 1024 * 1024 * 1024
  /** Half of the block is reserved as scratch for compaction. */
  const ScratchFootprint: nat := InitAlloc / 2
  /** Capacity of the slot table. */
  const MaxNumAllocs: nat := 131072
  /** Capacity of the handle table. */
  const MaxNumHandles: nat := 262144
  /** sizeof(Alloc): a pointer, a 64-bit size and a pointer. */
  const AllocRecordBytes: nat := 24
  /** sizeof(AllocBuffer): two 32-bit counters, the slot table and the 32-bit handle table. */
  const AllocBufferBytes: nat := 8 + MaxNumAllocs * AllocRecordBytes + MaxNumHandles * 4
  /** Offset of the client region from the start of the block. */
  const ClientDataOffset: nat := AllocBufferBytes + ScratchFootprint
  /** Bytes of client data the block can actually hold. */
  const ClientCapacity: nat := InitAlloc - ClientDataOffset
  /** The empty-handle sentinel: the largest value of the handle type. */
  const EmptyHandle: nat := U32Max

  /** Largest value of an unsigned integer type of the given width. */
  function UintMax(bits: nat): nat
    requires bits in {8, 16, 32, 64}
  {
    if bits == 8 then 0xFF
    else if bits == 16 then 0xFFFF
    else if bits == 32 then 0xFFFF_FFFF
    else 0xFFFF_FFFF_FFFF_FFFF
  }

  /** Width of the handle type: the narrowest unsigned type whose range holds initAlloc. */
  function HandleBits(initAlloc: nat): (bits: nat)
    ensures bits in {8, 16, 32, 64}
    ensures bits < 64 ==> initAlloc <= UintMax(bits)
    ensures bits > 8 ==> initAlloc > UintMax(bits / 2)
  {
    if initAlloc > 0xFFFF_FFFF then 64
    else if initAlloc > 0xFFFF then 32
    else if initAlloc > 0xFF then 16
    else 8
  }

  /** Both builds use 32-bit handles, so the sentinel is the largest 32-bit value,
      and the source's layout leaves less client room than scratch room. */
  lemma BuildConstants()
    ensures HandleBits(InitAlloc) == 32 && HandleBits(TestInitAlloc) == 32
    ensures EmptyHandle == UintMax(HandleBits(InitAlloc))
    ensures ClientCapacity < ScratchFootprint && MaxNumAllocs < EmptyHandle
    ensures MaxNumAllocs <= MaxNumHandles
  {
  }

  // ---------------------------------------------------------------------
  // Book-keeping records and the packed layout
  // ---------------------------------------------------------------------

  /** One slot-table record: start offset, byte length, and the handle whose
      table entry names this slot (the source's internalHandle pointer). */
  datatype Alloc = Alloc(base: nat, size: nat, back: nat)

  /** Every live record starts where the previous one ends, the first at offset 0. */
  predicate Packed(s: seq<Alloc>) {
    (|s| > 0 ==> s[0].base == 0) &&
    forall i :: 0 < i < |s| ==> Adjacent(s, i)
  }

  /** Record i starts exactly where record i - 1 ends. */
  predicate Adjacent(s: seq<Alloc>, i: nat)
    requires 0 < i < |s|
  {
    s[i].base == s[i - 1].base + s[i - 1].size
  }

  /** Offset just past the last live record. */
  function End(s: seq<Alloc>): nat {
    if |s| == 0 then 0 else s[|s| - 1].base + s[|s| - 1].size
  }

  /** Sum of the sizes of the records. */
  function Used(s: seq<Alloc>): nat {
    if |s| == 0 then 0 else Used(s[..|s| - 1]) + s[|s| - 1].size
  }

  /** Every record lies inside a region of the given length. */
  predicate Fits(s: seq<Alloc>, len: nat) {
    forall i :: 0 <= i < |s| ==> s[i].base + s[i].size <= len
  }

  /** In a packed table, an earlier record ends no later than a later one starts. */
  lemma {:induction false} PackedOrdered(s: seq<Alloc>, i: nat, j: nat)
    requires Packed(s) && i < j < |s|
    ensures s[i].base + s[i].size <= s[j].base
    decreases j - i
  {
    assert Adjacent(s, i + 1);
    if i + 1 < j {
      PackedOrdered(s, i + 1, j);
    }
  }

  /** A packed table fits inside any region that holds its end. */
  lemma PackedFits(s: seq<Alloc>, len: nat)
    requires Packed(s) && End(s) <= len
    ensures Fits(s, len)
  {
    forall i | 0 <= i < |s|
      ensures s[i].base + s[i].size <= len
    {
      if i < |s| - 1 {
        PackedOrdered(s, i, |s| - 1);
      }
    }
  }

  /** The end of a packed table is the sum of the live sizes: memUsed counts
      exactly the bytes of the live records. */
  lemma {:induction false} PackedEndIsUsed(s: seq<Alloc>)
    requires Packed(s)
    ensures End(s) == Used(s)
  {
    if |s| > 0 {
      var p := s[..|s| - 1];
      assert Packed(p) by {
        forall i | 0 < i < |p|
          ensures Adjacent(p, i)
        {
          assert Adjacent(s, i);
        }
      }
      PackedEndIsUsed(p);
      if |p| > 0 {
        assert Adjacent(s, |s| - 1);
      }
    }
  }

  /** A record moved down by d bytes (on a packed table the records moved
      always start at least d bytes up, so the floor at 0 is never used). */
  function Lowered(a: Alloc, d: nat): Alloc {
    a.(base := if d <= a.base then a.base - d else 0)
  }

  /** The slot table after record k is removed: earlier records stay, later
      ones move down one slot and down by the removed record's size. */
  function Compact(s: seq<Alloc>, k: nat): (r: seq<Alloc>)
    requires k < |s|
    ensures |r| == |s| - 1
  {
    seq(|s| - 1, j requires 0 <= j < |s| - 1 =>
      if j < k then s[j] else Lowered(s[j + 1], s[k].size))
  }

  /** Lowering the records above slot k and then dropping slot k yields the
      compacted table. */
  lemma LoweredThenDropped(s0: seq<Alloc>, s1: seq<Alloc>, k: nat)
    requires k < |s0| == |s1|
    requires forall j :: 0 <= j < |s1| ==> s1[j] == if k < j then Lowered(s0[j], s0[k].size) else s0[j]
    ensures s1[..k] + s1[k + 1..] == Compact(s0, k)
  {
    var r := s1[..k] + s1[k + 1..];
    forall j | 0 <= j < |s0| - 1
      ensures r[j] == Compact(s0, k)[j]
    {
      if j >= k {
        assert r[j] == s1[j + 1];
      }
    }
  }

  /** Every record of a packed table ends no later than the table does. */
  lemma PackedWithin(s: seq<Alloc>, i: nat)
    requires Packed(s) && i < |s|
    ensures s[i].base + s[i].size <= End(s)
  {
    if i < |s| - 1 {
      PackedOrdered(s, i, |s| - 1);
    }
  }

  /** On a packed table, a record above slot k starts at least s[k].size bytes
      up, so lowering it by that much is exact. */
  lemma LoweredExact(s: seq<Alloc>, k: nat, j: nat)
    requires Packed(s) && k < j < |s|
    ensures s[k].base + s[k].size <= s[j].base
    ensures Lowered(s[j], s[k].size) == s[j].(base := s[j].base - s[k].size)
  {
    PackedOrdered(s, k, j);
  }

  /** Compaction keeps the table packed and shortens it by the removed size. */
  lemma CompactPacked(s: seq<Alloc>, k: nat)
    requires Packed(s) && k < |s|
    ensures Packed(Compact(s, k))
    ensures End(Compact(s, k)) + s[k].size == End(s)
  {
    var r := Compact(s, k);
    if |r| > 0 && k == 0 {
      LoweredExact(s, 0, 1);
      assert Adjacent(s, 1);
    }
    forall i | 0 < i < |r|
      ensures Adjacent(r, i)
    {
      if i < k {
        assert Adjacent(s, i);
      } else if i == k {
        LoweredExact(s, k, i + 1);
        assert Adjacent(s, k + 1) && Adjacent(s, k);
      } else {
        LoweredExact(s, k, i + 1);
        LoweredExact(s, k, i);
        assert Adjacent(s, i + 1);
      }
    }
    if k == |s| - 1 {
      if k > 0 {
        assert Adjacent(s, k);
      }
    } else {
      LoweredExact(s, k, |s| - 1);
    }
  }

  /** The bytes of a record. */
  function DataOf(a: Alloc, m: seq<Byte>): seq<Byte>
    requires a.base + a.size <= |m|
  {
    m[a.base .. a.base + a.size]
  }

  /** The record that Compact(s, k) keeps at slot j came from this slot of s. */
  function Source(k: nat, j: nat): nat {
    if j < k then j else j + 1
  }

  /** Two regions hold the same bytes when each byte of one equals the byte d further in the other. */
  lemma ShiftedSlice(m: seq<Byte>, m': seq<Byte>, lo: nat, hi: nat, d: nat)
    requires lo <= hi && hi + d <= |m| && hi <= |m'|
    requires forall t :: lo <= t < hi ==> m'[t] == m[t + d]
    ensures m'[lo..hi] == m[lo + d .. hi + d]
  {
    assert forall i :: 0 <= i < hi - lo ==> m'[lo..hi][i] == m'[lo + i];
  }

  /** The memory relation a compaction establishes: bytes below the removed
      record are untouched, and the bytes above it are copied down over it. */
  predicate CopiedDown(s: seq<Alloc>, k: nat, m: seq<Byte>, m': seq<Byte>)
    requires Packed(s) && k < |s| && End(s) <= |m| == |m'|
  {
    (forall t :: 0 <= t < s[k].base && t < |m| ==> m'[t] == m[t]) &&
    (forall t :: s[k].base <= t < End(s) - s[k].size ==> m'[t] == m[t + s[k].size])
  }

  /** Copying the n bytes above record k down to k's base, as compaction
      does through the scratch region, establishes CopiedDown. */
  lemma StagedCopy(s: seq<Alloc>, k: nat, m: seq<Byte>, m': seq<Byte>, n: nat)
    requires Packed(s) && k < |s| && End(s) <= |m| && s[k].base + s[k].size + n == End(s)
    requires m' == m[..s[k].base] + m[s[k].base + s[k].size .. End(s)] + m[s[k].base + n ..]
    ensures |m'| == |m| && CopiedDown(s, k, m, m')
  {
    var b, d := s[k].base, s[k].size;
    forall t | b <= t < End(s) - d
      ensures m'[t] == m[t + d]
    {
      assert m'[t] == m[b + d .. End(s)][t - b];
    }
  }

  /** One surviving record keeps its bytes across a compaction. */
  lemma CompactDataAt(s: seq<Alloc>, k: nat, m: seq<Byte>, m': seq<Byte>, j: nat)
    requires Packed(s) && k < |s| && End(s) <= |m| == |m'| && CopiedDown(s, k, m, m')
    requires j < |s| - 1
    ensures var a, o := Compact(s, k)[j], s[Source(k, j)];
      a.base + a.size <= |m'| && o.base + o.size <= |m| &&
      m'[a.base .. a.base + a.size] == m[o.base .. o.base + o.size]
  {
    var r := Compact(s, k);
    PackedWithin(s, k);
    if j < k {
      PackedOrdered(s, j, k);
      assert r[j] == s[j];
      ShiftedSlice(m, m', s[j].base, s[j].base + s[j].size, 0);
    } else {
      var a := s[j + 1];
      LoweredExact(s, k, j + 1);
      PackedWithin(s, j + 1);
      ShiftedSlice(m, m', r[j].base, r[j].base + a.size, s[k].size);
    }
  }

  // ---------------------------------------------------------------------
  // The handle table
  // ---------------------------------------------------------------------

  /** The handle table and the slot table agree: an entry is the sentinel or
      names a live slot whose back pointer is that entry, only issued handles
      have entries, and every live slot is named by its own entry. */
  predicate Agrees(s: seq<Alloc>, tbl: seq<nat>, numHandles: nat) {
    (forall t :: 0 <= t < |tbl| && tbl[t] != EmptyHandle ==>
       t < numHandles && tbl[t] < |s| && s[tbl[t]].back == t) &&
    (forall i :: 0 <= i < |s| ==>
       s[i].back < numHandles && s[i].back < |tbl| && tbl[s[i].back] == i)
  }

  /** The handle table after the record at slot k, named by handle h, is
      removed: h is emptied and every entry above k moves down by one. */
  function Renumber(tbl: seq<nat>, h: nat, k: nat): (r: seq<nat>)
    ensures |r| == |tbl|
  {
    seq(|tbl|, t requires 0 <= t < |tbl| =>
      if t == h then EmptyHandle
      else if tbl[t] != EmptyHandle && tbl[t] > k then tbl[t] - 1
      else tbl[t])
  }

  /** The range check of FindHandleAlloc: a table entry names a slot unless
      it is the sentinel or larger than the handle count. */
  function Lookup(c: nat, numHandles: nat): Option<nat> {
    if c > numHandles || c == EmptyHandle then None else Some(c)
  }

  /** What each live handle currently holds. */
  function ContentsOf(s: seq<Alloc>, tbl: seq<nat>, m: seq<Byte>, numHandles: nat): map<nat, seq<Byte>>
    requires Fits(s, |m|)
  {
    map t | 0 <= t < numHandles && t < |tbl| && tbl[t] != EmptyHandle && tbl[t] < |s| ::
      DataOf(s[tbl[t]], m)
  }

  /** The arena's bookkeeping invariant on its tables: records packed from
      offset 0, used bytes at their end, and the two tables in agreement. */
  predicate Layout(s: seq<Alloc>, tbl: seq<nat>, nh: nat, used: nat) {
    Packed(s) && used == End(s) && Fits(s, used) && Agrees(s, tbl, nh)
  }

  /** Appending a record for a fresh handle keeps the tables packed and in agreement. */
  lemma AppendLayout(s: seq<Alloc>, tbl: seq<nat>, nh: nat, lo: nat, hi: nat)
    requires Layout(s, tbl, nh, lo) && nh < |tbl| && |s| < EmptyHandle && lo <= hi
    ensures Layout(s + [Alloc(lo, hi - lo, nh)], tbl[nh := |s|], nh + 1, hi)
  {
    var s' := s + [Alloc(lo, hi - lo, nh)];
    var tbl' := tbl[nh := |s|];
    forall i | 0 <= i < |s'|
      ensures s'[i].back < nh + 1 && s'[i].back < |tbl'| && tbl'[s'[i].back] == i
    {
      if i < |s| {
        assert s'[i] == s[i];
      }
    }
    forall i | 0 < i < |s'|
      ensures Adjacent(s', i)
    {
      if i < |s| {
        assert Adjacent(s, i);
      }
    }
    PackedFits(s', hi);
  }

  /** Appending a record for a fresh handle over bytes lo .. hi of m adds
      that handle, holding those bytes, and changes no other handle. */
  lemma AppendContents(s: seq<Alloc>, tbl: seq<nat>, m: seq<Byte>, nh: nat, lo: nat, hi: nat)
    requires Agrees(s, tbl, nh) && nh < |tbl| && |s| < EmptyHandle
    requires Fits(s, |m|) && lo == End(s) <= hi <= |m|
    ensures Fits(s + [Alloc(lo, hi - lo, nh)], |m|)
    ensures nh !in ContentsOf(s, tbl, m, nh)
    ensures ContentsOf(s + [Alloc(lo, hi - lo, nh)], tbl[nh := |s|], m, nh + 1) ==
            ContentsOf(s, tbl, m, nh)[nh := m[lo .. hi]]
  {
    var s' := s + [Alloc(lo, hi - lo, nh)];
    var tbl' := tbl[nh := |s|];
    assert Fits(s', |m|) by {
      forall i | 0 <= i < |s'|
        ensures s'[i].base + s'[i].size <= |m|
      {
        if i < |s| {
          assert s'[i] == s[i];
        }
      }
    }
    var c := ContentsOf(s, tbl, m, nh);
    var c' := ContentsOf(s', tbl', m, nh + 1);
    forall t | t in c
      ensures t in c' && c'[t] == c[t]
    {
      assert s'[tbl[t]] == s[tbl[t]];
    }
    forall t | t in c' && t != nh
      ensures t in c
    {
    }
    assert s'[|s|] == Alloc(lo, hi - lo, nh);
    assert c' == c[nh := m[lo .. hi]];
  }

  /** Removing the record at slot k, named by handle h, keeps the tables in agreement. */
  lemma RemoveAgrees(s: seq<Alloc>, tbl: seq<nat>, nh: nat, k: nat)
    requires Packed(s) && Agrees(s, tbl, nh) && k < |s| < EmptyHandle
    ensures Agrees(Compact(s, k), Renumber(tbl, s[k].back, k), nh)
  {
    var h := s[k].back;
    var r := Compact(s, k);
    var tbl' := Renumber(tbl, h, k);
    forall t | 0 <= t < |tbl'| && tbl'[t] != EmptyHandle
      ensures t < nh && tbl'[t] < |r| && r[tbl'[t]].back == t
    {
      assert tbl[t] != k;
    }
    forall i | 0 <= i < |r|
      ensures r[i].back < nh && r[i].back < |tbl'| && tbl'[r[i].back] == i
    {
      var o := Source(k, i);
      assert r[i].back == s[o].back;
      assert tbl[s[o].back] == o;
    }
  }

  /** One surviving handle: after record k is removed, its renumbered entry
      names the record it named before, and that record holds the same bytes. */
  lemma RemoveKeepsHandle(s: seq<Alloc>, tbl: seq<nat>, m: seq<Byte>, m': seq<Byte>, nh: nat, k: nat, t: nat)
    requires Packed(s) && Agrees(s, tbl, nh) && k < |s| < EmptyHandle
    requires End(s) <= |m| == |m'| && CopiedDown(s, k, m, m')
    requires t < |tbl| && tbl[t] != EmptyHandle && t != s[k].back
    ensures tbl[t] < |s| && Renumber(tbl, s[k].back, k)[t] < |s| - 1
    ensures var a, o := Compact(s, k)[Renumber(tbl, s[k].back, k)[t]], s[tbl[t]];
      a.base + a.size <= |m'| && o.base + o.size <= |m| &&
      m'[a.base .. a.base + a.size] == m[o.base .. o.base + o.size]
  {
    var j := Renumber(tbl, s[k].back, k)[t];
    assert tbl[t] != k;
    assert Source(k, j) == tbl[t];
    CompactDataAt(s, k, m, m', j);
  }

  /** Removing the record at slot k drops its handle and every other handle
      keeps exactly the bytes it held. */
  lemma RemoveContents(s: seq<Alloc>, tbl: seq<nat>, m: seq<Byte>, m': seq<Byte>, nh: nat, k: nat)
    requires Packed(s) && Agrees(s, tbl, nh) && k < |s| < EmptyHandle
    requires End(s) <= |m| == |m'| && CopiedDown(s, k, m, m')
    ensures Fits(s, |m|) && Fits(Compact(s, k), |m'|)
    ensures ContentsOf(Compact(s, k), Renumber(tbl, s[k].back, k), m', nh) ==
            ContentsOf(s, tbl, m, nh) - {s[k].back}
  {
    PackedFits(s, |m|);
    CompactPacked(s, k);
    PackedFits(Compact(s, k), |m'|);
    var h := s[k].back;
    var tbl' := Renumber(tbl, h, k);
    var c := ContentsOf(s, tbl, m, nh);
    var c' := ContentsOf(Compact(s, k), tbl', m', nh);
    forall t | t in c && t != h
      ensures t in c' && c'[t] == c[t]
    {
      RemoveKeepsHandle(s, tbl, m, m', nh, k, t);
    }
    forall t | t in c'
      ensures t in c && t != h
    {
      assert tbl'[t] != EmptyHandle;
      assert tbl[t] != EmptyHandle;
    }
    assert c' == c - {h};
  }

  /** What FixHandles leaves, once h's entry has been emptied, is the
      renumbered table: entries naming slots above k are decremented. */
  lemma FixedIsRenumber(t0: seq<nat>, tE: seq<nat>, t1: seq<nat>, h: nat, k: nat, n: nat)
    requires n < EmptyHandle && |t0| == |t1| && h < |t0| && tE == t0[h := EmptyHandle]
    requires forall t :: 0 <= t < |t0| && t0[t] != EmptyHandle ==> t0[t] < n
    requires forall t :: 0 <= t < |t1| ==> t1[t] == if k < tE[t] < n then tE[t] - 1 else tE[t]
    ensures t1 == Renumber(t0, h, k)
  {
    assert forall t :: 0 <= t < |t1| ==> t1[t] == Renumber(t0, h, k)[t];
  }

  /** After record k is removed, the record a surviving handle names keeps
      its address if it lay below k and moves down by k's size otherwise. */
  lemma RemoveMovesAbove(s: seq<Alloc>, tbl: seq<nat>, nh: nat, k: nat, g: nat)
    requires Packed(s) && Agrees(s, tbl, nh) && k < |s| < EmptyHandle && s[k].size != 0
    requires g < |tbl| && tbl[g] != EmptyHandle && g != s[k].back
    ensures Renumber(tbl, s[k].back, k)[g] < |Compact(s, k)|
    ensures Compact(s, k)[Renumber(tbl, s[k].back, k)[g]].base ==
      if s[tbl[g]].base <= s[k].base then s[tbl[g]].base else s[tbl[g]].base - s[k].size
  {
    var j := tbl[g];
    assert j != k;
    if j < k {
      PackedOrdered(s, j, k);
    } else {
      LoweredExact(s, k, j);
    }
  }

  /** Overwriting the first |w| bytes of record k's region changes only what
      k's handle holds, and it then holds w followed by its old tail. */
  lemma WritePrefix(s: seq<Alloc>, tbl: seq<nat>, m: seq<Byte>, m': seq<Byte>, nh: nat, k: nat, w: seq<Byte>)
    requires Packed(s) && Agrees(s, tbl, nh) && k < |s| < EmptyHandle && Fits(s, |m|)
    requires |w| <= s[k].size && m' == m[..s[k].base] + w + m[s[k].base + |w| ..]
    ensures Fits(s, |m'|) && s[k].back in ContentsOf(s, tbl, m, nh)
    ensures ContentsOf(s, tbl, m', nh) ==
      ContentsOf(s, tbl, m, nh)[s[k].back := w + ContentsOf(s, tbl, m, nh)[s[k].back][|w|..]]
  {
    var lo, hi := s[k].base, s[k].base + s[k].size;
    var v := w + m[lo + |w| .. hi];
    assert m' == m[..lo] + v + m[hi..];
    WriteRecord(s, tbl, m, m', nh, k, v);
    var c := ContentsOf(s, tbl, m, nh);
    assert c[s[k].back] == m[lo .. hi];
    assert c[s[k].back][|w|..] == m[lo + |w| .. hi];
  }

  /** Overwriting exactly record k's region with w changes only what k's
      handle holds, and it then holds w. */
  lemma WriteRecord(s: seq<Alloc>, tbl: seq<nat>, m: seq<Byte>, m': seq<Byte>, nh: nat, k: nat, w: seq<Byte>)
    requires Packed(s) && Agrees(s, tbl, nh) && k < |s| < EmptyHandle && Fits(s, |m|)
    requires |w| == s[k].size && m' == m[..s[k].base] + w + m[s[k].base + s[k].size ..]
    ensures Fits(s, |m'|)
    ensures ContentsOf(s, tbl, m', nh) == ContentsOf(s, tbl, m, nh)[s[k].back := w]
  {
    var lo, hi := s[k].base, s[k].base + s[k].size;
    assert |m'| == |m|;
    assert m'[lo..hi] == w;
    var c := ContentsOf(s, tbl, m, nh);
    var c' := ContentsOf(s, tbl, m', nh);
    forall t | t in c && t != s[k].back
      ensures c'[t] == c[t]
    {
      var j := tbl[t];
      assert j != k;
      if j < k {
        PackedOrdered(s, j, k);
        assert m'[..lo] == m[..lo];
        assert m'[s[j].base .. s[j].base + s[j].size] == m'[..lo][s[j].base .. s[j].base + s[j].size];
      } else {
        PackedOrdered(s, k, j);
        assert m'[hi..] == m[hi..];
        assert m'[s[j].base .. s[j].base + s[j].size] == m'[hi..][s[j].base - hi .. s[j].base + s[j].size - hi];
      }
    }
    assert s[k].back in c;
    assert forall t :: t in c' <==> t in c;
    assert c' == c[s[k].back := w];
  }
}

module CPUMemory {
  import opened Common
  import opened ArenaLayout

  /**
   * The arena itself: the slot table (allocSet), the handle table
   * (handleConvertExternalInternal), the client region, the scratch region,
   * the two counters, the byte total and the bump cursor.
   */
  class Arena {
    /** One record per live allocation, in address order; the rest is unused. */
    const slots: array<Alloc>
    /** Handle to slot index, or EmptyHandle. */
    const table: array<nat>
    /** The client region.  memcpy and memset are library calls, so the
        region is a byte sequence that each call replaces with its result. */
    var mem: seq<Byte>
    /** The scratch region used while compacting. */
    var scratch: seq<Byte>
    var numAllocs: nat
    var numHandles: nat
    /** Bytes of live client data. */
    var memUsed: nat
    /** nextAllocAddress, as an offset into the client region. */
    var cursor: nat

    /** The arena's invariant: records packed from offset 0 in slot order,
        memUsed and the cursor at their end, and the two tables in agreement. */
    ghost predicate Valid()
      reads this, slots, table
    {
      slots.Length < EmptyHandle && |mem| < |scratch| &&
      numAllocs <= slots.Length && numHandles <= table.Length && numAllocs <= numHandles &&
      memUsed <= |mem| && cursor == memUsed &&
      Layout(slots[..numAllocs], table[..], numHandles, memUsed)
    }

    /** What each live handle holds. */
    ghost function Contents(): map<nat, seq<Byte>>
      reads this, slots, table
      requires Valid()
    {
      ContentsOf(slots[..numAllocs], table[..], mem, numHandles)
    }

    /** CPUMemory::Init: a fresh block with empty tables.  The capacities are
        parameters; the client region must be smaller than the scratch region,
        as it is for the source's constants (BuildConstants). */
    constructor Init(client: seq<Byte>, scratchBytes: seq<Byte>, maxAllocs: nat, maxHandles: nat)
      requires |client| < |scratchBytes| && maxAllocs < EmptyHandle
      ensures Valid() && fresh(slots) && fresh(table)
      ensures slots.Length == maxAllocs && table.Length == maxHandles
      ensures mem == client && scratch == scratchBytes
      ensures numAllocs == 0 && numHandles == 0 && memUsed == 0
      ensures forall h :: 0 <= h < table.Length ==> table[h] == EmptyHandle
      ensures Contents() == map[]
    {
      slots := new Alloc[maxAllocs];
      table := new nat[maxHandles](_ => EmptyHandle);
      mem := client;
      scratch := scratchBytes;
      numAllocs := 0;
      numHandles := 0;
      memUsed := 0;
      cursor := 0;
    }

    /** FindHandleAlloc: the record a handle names and its slot, or None for a
        handle that names nothing. */
    function Find(h: nat): (r: Option<(Alloc, nat)>)
      reads this, slots, table
      requires Valid() && h < table.Length
      ensures r.Some? <==> h in Contents()
      ensures r.Some? ==> h < numHandles && r.value.1 < numAllocs &&
                          r.value.0 == slots[r.value.1] && r.value.0.back == h
      ensures r.Some? ==> r.value.0.base + r.value.0.size <= memUsed &&
                          Contents()[h] == mem[r.value.0.base .. r.value.0.base + r.value.0.size]
    {
      match Lookup(table[h], numHandles)
      case None => None
      case Some(c) => Some((slots[c], c))
    }

    /** GetHandlePtr: the address a handle resolves to, or None (a null pointer). */
    function GetHandlePtr(h: nat): (r: Option<nat>)
      reads this, slots, table
      requires Valid() && h < table.Length
      ensures r.Some? <==> h in Contents()
      ensures r.Some? ==> r.value + |Contents()[h]| <= memUsed &&
                          Contents()[h] == mem[r.value .. r.value + |Contents()[h]|]
    {
      var f := Find(h);
      if f.Some? then Some(f.value.0.base) else None
    }

    /** AddAlloc: record a new allocation in the next slot under the next handle. */
    method AddAlloc(base: nat, size: nat) returns (h: nat)
      requires numAllocs < slots.Length && numHandles < table.Length
      modifies this, slots, table
      ensures mem == old(mem) && scratch == old(scratch)
      ensures h == old(numHandles)
      ensures numAllocs == old(numAllocs) + 1 && numHandles == old(numHandles) + 1
      ensures slots[..numAllocs] == old(slots[..numAllocs]) + [Alloc(base, size, h)]
      ensures table[..] == old(table[..])[h := old(numAllocs)]
      ensures memUsed == old(memUsed) && cursor == old(cursor)
    {
      slots[numAllocs] := Alloc(base, size, 0);
      h := numHandles;
      table[h] := numAllocs;
      slots[numAllocs] := slots[numAllocs].(back := h);
      numAllocs := numAllocs + 1;
      numHandles := numHandles + 1;
    }

    /** AllocateRange: bump-allocate rangeBytes at the cursor under a fresh
        handle.  The new handle holds whatever bytes were already there. */
    method AllocateRange(rangeBytes: nat) returns (h: nat)
      requires Valid()
      requires numAllocs < slots.Length
      requires numHandles < table.Length
      requires memUsed + rangeBytes <= |mem|
      modifies this, slots, table
      ensures mem == old(mem) && scratch == old(scratch)
      ensures Valid()
      ensures h == old(numHandles) && h !in old(Contents())
      ensures memUsed == old(memUsed) + rangeBytes && memUsed < |scratch|
      ensures Contents() == old(Contents())[h := mem[old(memUsed) .. memUsed]]
      ensures numAllocs == old(numAllocs) + 1 && numHandles == old(numHandles) + 1
    {
      ghost var s0, t0, nh0, used0 := slots[..numAllocs], table[..], numHandles, memUsed;
      var ptr := cursor;
      h := AddAlloc(ptr, rangeBytes);
      cursor := cursor + rangeBytes;
      memUsed := memUsed + rangeBytes;
      Appended(s0, t0, nh0, used0);
      AppendedContents(s0, t0, nh0, used0);
    }

    /** The invariant AllocateRange restores once AddAlloc has put a record
        at the old end used0 under the next handle nh0 and the cursor has moved. */
    lemma Appended(s0: seq<Alloc>, t0: seq<nat>, nh0: nat, used0: nat)
      requires slots.Length < EmptyHandle && |mem| < |scratch|
      requires numAllocs <= slots.Length && numHandles <= table.Length && numAllocs <= numHandles
      requires Layout(s0, t0, nh0, used0) && numHandles == nh0 + 1 && |t0| == table.Length
      requires used0 <= memUsed == cursor <= |mem|
      requires slots[..numAllocs] == s0 + [Alloc(used0, memUsed - used0, nh0)]
      requires table[..] == t0[nh0 := |s0| as nat]
      ensures Valid() && memUsed < |scratch|
    {
      var s1, t1 := s0 + [Alloc(used0, memUsed - used0, nh0)], t0[nh0 := |s0| as nat];
      AppendLayout(s0, t0, nh0, used0, memUsed);
      assert slots[..numAllocs] == s1 && table[..] == t1;
    }

    /** What the handles hold after that append: the old contents, plus the
        new handle holding the bytes between the old and the new end. */
    lemma AppendedContents(s0: seq<Alloc>, t0: seq<nat>, nh0: nat, used0: nat)
      requires Valid() && Layout(s0, t0, nh0, used0) && numHandles == nh0 + 1 && |t0| == table.Length
      requires used0 <= memUsed
      requires slots[..numAllocs] == s0 + [Alloc(used0, memUsed - used0, nh0)]
      requires table[..] == t0[nh0 := |s0| as nat]
      ensures Fits(s0, |mem|) && nh0 !in ContentsOf(s0, t0, mem, nh0)
      ensures Contents() == ContentsOf(s0, t0, mem, nh0)[nh0 := mem[used0 .. memUsed]]
    {
      var m := mem;
      var s1, t1 := s0 + [Alloc(used0, memUsed - used0, nh0)], t0[nh0 := |s0| as nat];
      PackedFits(s0, |mem|);
      AppendContents(s0, t0, m, nh0, used0, memUsed);
      assert slots[..numAllocs] == s1 && table[..] == t1;
    }

    /** The loop that sums the sizes of the records above slot ndx: the span
        of bytes that compaction has to move. */
    method SpanAbove(ndx: nat) returns (bytesShifting: nat)
      requires ndx + 1 < numAllocs <= slots.Length
      requires Packed(slots[..numAllocs]) && memUsed == End(slots[..numAllocs])
      ensures bytesShifting == Used(slots[ndx + 1 .. numAllocs])
      ensures slots[ndx + 1].base + bytesShifting == memUsed
    {
      ghost var s := slots[..numAllocs];
      bytesShifting := 0;
      for i := ndx + 1 to numAllocs
        invariant bytesShifting == Used(slots[ndx + 1 .. i])
        invariant slots[ndx + 1].base + bytesShifting == if i < numAllocs then slots[i].base else memUsed
      {
        assert slots[ndx + 1 .. i + 1][..i - ndx - 1] == slots[ndx + 1 .. i];
        bytesShifting := bytesShifting + slots[i].size;
        if i + 1 < numAllocs {
          assert Adjacent(s, i + 1);
        }
      }
    }

    /** The loop that moves every record above slot ndx down by d bytes,
        checking each one against the scratch size on the way. */
    method LowerBases(ndx: nat, d: nat)
      requires ndx < numAllocs <= slots.Length
      requires forall j :: ndx < j < numAllocs ==> slots[j].size < |scratch|
      modifies slots
      ensures forall j :: 0 <= j < slots.Length ==>
        slots[j] == if ndx < j < numAllocs then Lowered(old(slots[j]), d) else old(slots[j])
    {
      for i := ndx + 1 to numAllocs
        invariant forall j :: 0 <= j < slots.Length ==>
          slots[j] == if ndx < j < i then Lowered(old(slots[j]), d) else old(slots[j])
      {
        assert slots[i].size < |scratch|;
        slots[i] := Lowered(slots[i], d);
      }
    }

    /** The loop that bubbles the removed record from slot ndx to the last
        live slot, moving every record above it down by one slot. */
    method BubbleOut(ndx: nat)
      requires ndx < numAllocs <= slots.Length
      modifies slots
      ensures forall j :: 0 <= j < ndx ==> slots[j] == old(slots[j])
      ensures forall j :: ndx <= j < numAllocs - 1 ==> slots[j] == old(slots[j + 1])
      ensures slots[numAllocs - 1] == old(slots[ndx])
      ensures forall j :: numAllocs <= j < slots.Length ==> slots[j] == old(slots[j])
    {
      for i := ndx to numAllocs - 1
        invariant forall j :: 0 <= j < ndx ==> slots[j] == old(slots[j])
        invariant forall j :: ndx <= j < i ==> slots[j] == old(slots[j + 1])
        invariant slots[i] == old(slots[ndx])
        invariant forall j :: i < j < slots.Length ==> slots[j] == old(slots[j])
      {
        slots[i], slots[i + 1] := slots[i + 1], slots[i];
      }
    }

    /** The loop that renumbers handle-table entries after the bubble: each
        record now in slots ndx .. numAllocs - 2 moved down one slot, so the
        entry naming it is decremented.  Only entries that named slots above
        ndx change. */
    method FixHandles(ndx: nat)
      requires ndx < numAllocs <= slots.Length
      requires forall j :: ndx <= j < numAllocs - 1 ==>
        slots[j].back < table.Length && table[slots[j].back] == j + 1
      requires forall t :: 0 <= t < table.Length && ndx < table[t] < numAllocs ==>
        table[t] - 1 < slots.Length && slots[table[t] - 1].back == t
      modifies table
      ensures forall t :: 0 <= t < table.Length ==>
        table[t] == if ndx < old(table[t]) < numAllocs then old(table[t]) - 1 else old(table[t])
    {
      for i := ndx to numAllocs - 1
        invariant forall t :: 0 <= t < table.Length ==>
          table[t] == if ndx < old(table[t]) <= i then old(table[t]) - 1 else old(table[t])
      {
        var b := slots[i].back;
        table[b] := table[b] - 1;
      }
    }

    /** The memcpy that stages n bytes from offset src of the client region
        at the start of scratch. */
    method Stage(src: nat, n: nat)
      requires src + n <= |mem| < |scratch|
      modifies this
      ensures scratch == old(mem[src .. src + n]) + old(scratch[n..])
      ensures mem == old(mem) && numAllocs == old(numAllocs) && numHandles == old(numHandles)
      ensures memUsed == old(memUsed) && cursor == old(cursor)
    {
      scratch := mem[src .. src + n] + scratch[n..];
    }

    /** The memcpy that copies the first n staged bytes back to offset dst. */
    method Unstage(dst: nat, n: nat)
      requires dst + n <= |mem| < |scratch|
      modifies this
      ensures scratch == old(scratch)
      ensures mem == old(mem[..dst]) + scratch[..n] + old(mem[dst + n..])
      ensures numAllocs == old(numAllocs) && numHandles == old(numHandles)
      ensures memUsed == old(memUsed) && cursor == old(cursor)
    {
      mem := mem[..dst] + scratch[..n] + mem[dst + n..];
    }

    /** The data-moving half of closing the gap left by the record at slot
        ndx: stage the bytes above it in scratch, lower the records above it,
        and copy the staged bytes down over it. */
    method MoveAbove(ndx: nat) returns (bytesShifting: nat)
      requires ndx + 1 < numAllocs <= slots.Length
      requires Packed(slots[..numAllocs]) && memUsed == End(slots[..numAllocs])
      requires Fits(slots[..numAllocs], memUsed) && memUsed <= |mem| < |scratch|
      modifies this, slots
      ensures |mem| == old(|mem|) && |scratch| == old(|scratch|)
      ensures numAllocs == old(numAllocs) && numHandles == old(numHandles)
      ensures memUsed == old(memUsed) && cursor == old(cursor)
      ensures forall j :: 0 <= j < slots.Length ==>
        slots[j] == if ndx < j < numAllocs then Lowered(old(slots[j]), old(slots[ndx].size)) else old(slots[j])
      ensures CopiedDown(old(slots[..numAllocs]), ndx, old(mem), mem)
      ensures slots[ndx].base + slots[ndx].size + bytesShifting == memUsed
      ensures scratch[..bytesShifting] == mem[slots[ndx].base .. slots[ndx].base + bytesShifting]
    {
      ghost var s0, m0 := slots[..numAllocs], mem;
      var gone := slots[ndx];
      assert s0[ndx] == gone;
      bytesShifting := SpanAbove(ndx);
      var next := slots[ndx + 1];
      assert Adjacent(s0, ndx + 1);
      assert End(s0) == memUsed == next.base + bytesShifting;
      Stage(next.base, bytesShifting);
      ghost var staged := scratch[..bytesShifting];
      assert staged == m0[next.base .. End(s0)];
      forall j | ndx < j < numAllocs
        ensures slots[j].size < |scratch|
      {
        assert s0[j] == slots[j];
      }
      LowerBases(ndx, gone.size);
      assert mem == m0 && scratch[..bytesShifting] == staged;
      Unstage(gone.base, bytesShifting);
      assert mem == m0[..gone.base] + staged + m0[gone.base + bytesShifting ..];
      StagedCopy(s0, ndx, m0, mem, bytesShifting);
    }

    /** The bookkeeping half of closing the gap: bubble the dead record at
        slot ndx to the last live slot and renumber the handles of the records
        that moved down a slot.  Only back pointers matter here. */
    method Rebind(ndx: nat, h: nat, ghost t0: seq<nat>)
      requires ndx < numAllocs <= slots.Length < EmptyHandle
      requires Agrees(slots[..numAllocs], t0, numHandles) && slots[ndx].back == h
      requires |t0| == table.Length && table[..] == t0[h := EmptyHandle]
      modifies slots, table
      ensures slots[..numAllocs - 1] == old(slots[..ndx]) + old(slots[ndx + 1 .. numAllocs])
      ensures table[..] == Renumber(t0, h, ndx)
    {
      ghost var sL := slots[..];
      BubbleOut(ndx);
      BubbledBacks(ndx, h, sL, t0);
      ghost var tE := table[..];
      FixHandles(ndx);
      FixedIsRenumber(t0, tE, table[..], h, ndx, numAllocs);
      BubbledSlots(ndx, sL);
    }

    /** After the bubble, the records in slots ndx .. numAllocs - 2 are the
        ones that sat one slot higher, so the entries naming them are one too
        high: what FixHandles needs. */
    lemma BubbledBacks(ndx: nat, h: nat, sL: seq<Alloc>, t0: seq<nat>)
      requires ndx < numAllocs <= slots.Length == |sL| < EmptyHandle && |t0| == table.Length
      requires Agrees(sL[..numAllocs], t0, numHandles) && sL[ndx].back == h
      requires table[..] == t0[h := EmptyHandle]
      requires forall j :: ndx <= j < numAllocs - 1 ==> slots[j] == sL[j + 1]
      ensures forall j :: ndx <= j < numAllocs - 1 ==>
        slots[j].back < table.Length && table[slots[j].back] == j + 1
      ensures forall t :: 0 <= t < table.Length && ndx < table[t] < numAllocs ==>
        table[t] - 1 < slots.Length && slots[table[t] - 1].back == t
    {
      var s := sL[..numAllocs];
      forall j | ndx <= j < numAllocs - 1
        ensures slots[j].back < table.Length && table[slots[j].back] == j + 1
      {
        assert s[j + 1].back < table.Length && t0[s[j + 1].back] == j + 1;
      }
      forall t | 0 <= t < table.Length && ndx < table[t] < numAllocs
        ensures table[t] - 1 < slots.Length && slots[table[t] - 1].back == t
      {
        assert t0[t] == table[t];
        assert s[t0[t]].back == t;
      }
    }

    /** After the bubble the live slots are the old ones without slot ndx. */
    lemma BubbledSlots(ndx: nat, sL: seq<Alloc>)
      requires ndx < numAllocs <= slots.Length == |sL|
      requires forall j :: 0 <= j < ndx ==> slots[j] == sL[j]
      requires forall j :: ndx <= j < numAllocs - 1 ==> slots[j] == sL[j + 1]
      ensures slots[..numAllocs - 1] == sL[..ndx] + sL[ndx + 1 .. numAllocs]
    {
      forall j | 0 <= j < numAllocs - 1
        ensures slots[j] == (sL[..ndx] + sL[ndx + 1 .. numAllocs])[j]
      {
        if j >= ndx {
          assert slots[j] == sL[j + 1];
        }
      }
    }

    /** The interior case of RemoveAlloc, once h's entry is emptied: move the
        bytes above slot ndx down through scratch, then bubble the dead record
        to the end and renumber the handles of the records that moved. */
    method CloseGap(ndx: nat, h: nat, ghost t0: seq<nat>)
      requires ndx + 1 < numAllocs <= slots.Length < EmptyHandle
      requires Packed(slots[..numAllocs]) && memUsed == End(slots[..numAllocs]) && cursor == memUsed
      requires Fits(slots[..numAllocs], memUsed) && memUsed <= |mem| < |scratch|
      requires Agrees(slots[..numAllocs], t0, numHandles) && slots[ndx].back == h
      requires |t0| == table.Length && table[..] == t0[h := EmptyHandle]
      modifies this, slots, table
      ensures |mem| == old(|mem|) && |scratch| == old(|scratch|)
      ensures numAllocs == old(numAllocs) && numHandles == old(numHandles)
      ensures slots[..numAllocs - 1] == Compact(old(slots[..numAllocs]), ndx)
      ensures table[..] == Renumber(t0, h, ndx)
      ensures memUsed + old(slots[ndx].size) == old(memUsed) && cursor == memUsed
      ensures CopiedDown(old(slots[..numAllocs]), ndx, old(mem), mem)
    {
      ghost var s0 := slots[..numAllocs];
      var gone := slots[ndx];
      assert s0[ndx] == gone;
      var bytesShifting := MoveAbove(ndx);
      assert gone.base + gone.size + bytesShifting == memUsed;
      assert scratch[..bytesShifting] == mem[gone.base .. gone.base + bytesShifting];
      ghost var s1 := slots[..numAllocs];
      assert forall j :: 0 <= j < numAllocs ==> s1[j].back == s0[j].back;
      assert Agrees(s1, t0, numHandles);
      LoweredThenDropped(s0, s1, ndx);
      Rebind(ndx, h, t0);
      memUsed := memUsed - gone.size;
      cursor := memUsed;
      assert mem[cursor - bytesShifting .. cursor] == scratch[..bytesShifting];
    }

    /** The last-record case of RemoveAlloc, once h's entry is emptied:
        nothing moves, the cursor goes back to the record's base. */
    method DropLast(h: nat, ghost t0: seq<nat>)
      requires 0 < numAllocs <= slots.Length && Packed(slots[..numAllocs])
      requires memUsed == End(slots[..numAllocs]) && Fits(slots[..numAllocs], memUsed) && memUsed <= |mem|
      requires Agrees(slots[..numAllocs], t0, numHandles) && slots[numAllocs - 1].back == h
      requires |t0| == table.Length && table[..] == t0[h := EmptyHandle]
      modifies this
      ensures mem == old(mem) && scratch == old(scratch)
      ensures numAllocs == old(numAllocs) && numHandles == old(numHandles)
      ensures slots[..numAllocs - 1] == Compact(slots[..numAllocs], numAllocs - 1)
      ensures table[..] == Renumber(t0, h, numAllocs - 1)
      ensures memUsed + slots[numAllocs - 1].size == old(memUsed) && cursor == memUsed
      ensures CopiedDown(slots[..numAllocs], numAllocs - 1, mem, mem)
    {
      ghost var s0 := slots[..numAllocs];
      var ndx := numAllocs - 1;
      var gone := slots[ndx];
      assert s0[ndx] == gone;
      cursor := gone.base;
      memUsed := memUsed - gone.size;
      assert slots[..ndx] == Compact(s0, ndx);
      if ndx > 0 {
        assert Adjacent(s0, ndx);
      }
      forall t | 0 <= t < table.Length
        ensures table[t] == Renumber(t0, h, ndx)[t]
      {
      }
      assert table[..] == Renumber(t0, h, ndx);
    }

    /** RemoveAlloc: drop the record at slot ndx, named by handle h.  The last
        record is dropped by moving the cursor back to its start; an interior
        one is closed up by CloseGap. */
    method RemoveAlloc(ndx: nat, h: nat)
      requires Valid() && ndx < numAllocs && slots[ndx].back == h
      modifies this, slots, table
      ensures |mem| == old(|mem|) && |scratch| == old(|scratch|)
      ensures Valid()
      ensures numAllocs == old(numAllocs) - 1 && numHandles == old(numHandles)
      ensures slots[..numAllocs] == Compact(old(slots[..numAllocs]), ndx)
      ensures table[..] == Renumber(old(table[..]), h, ndx)
      ensures memUsed + old(slots[ndx].size) == old(memUsed)
      ensures CopiedDown(old(slots[..numAllocs]), ndx, old(mem), mem)
    {
      ghost var s0, t0, used0 := slots[..numAllocs], table[..], memUsed;
      var gone := slots[ndx];
      assert s0[ndx] == gone;
      table[h] := EmptyHandle;
      if ndx != numAllocs - 1 {
        CloseGap(ndx, h, t0);
      } else {
        DropLast(h, t0);
      }
      numAllocs := numAllocs - 1;
      Removed(s0, t0, used0, ndx);
    }

    /** The invariant holds again once the record at slot k of s0 is gone:
        slots and handles compacted, memUsed lowered by its size. */
    lemma Removed(s0: seq<Alloc>, t0: seq<nat>, used0: nat, k: nat)
      requires slots.Length < EmptyHandle && |mem| < |scratch|
      requires numAllocs <= slots.Length && numHandles <= table.Length && numAllocs <= numHandles
      requires Packed(s0) && used0 == End(s0) && Fits(s0, used0) && Agrees(s0, t0, numHandles)
      requires k < |s0| <= slots.Length && used0 <= |mem| && memUsed + s0[k].size == used0 && cursor == memUsed
      requires slots[..numAllocs] == Compact(s0, k) && table[..] == Renumber(t0, s0[k].back, k)
      ensures Valid()
    {
      CompactPacked(s0, k);
      PackedFits(slots[..numAllocs], memUsed);
      RemoveAgrees(s0, t0, numHandles, k);
    }

    /** The body of Free once the handle has resolved to a record of
        nonzero size at slot ndx. */
    method Release(ndx: nat, h: nat)
      requires Valid() && ndx < numAllocs && slots[ndx].back == h && slots[ndx].size != 0
      modifies this, slots, table
      ensures |mem| == old(|mem|) && |scratch| == old(|scratch|)
      ensures Valid() && numHandles == old(numHandles)
      ensures Contents() == old(Contents()) - {h}
      ensures memUsed == old(memUsed) - old(slots[ndx].size)
      ensures forall g :: 0 <= g < table.Length && g in Contents() ==>
        old(table[g]) < old(numAllocs) && slots[table[g]].base ==
          var b := old(slots[table[g]].base);
          if b <= old(slots[ndx].base) then b else b - old(slots[ndx].size)
    {
      ghost var s0, t0, m0, nh := slots[..numAllocs], table[..], mem, numHandles;
      RemoveAlloc(ndx, h);
      RemoveContents(s0, t0, m0, mem, nh, ndx);
      Shifted(s0, t0, ndx);
    }

    /** After the record at slot k of s0 is removed, every surviving handle
        resolves to its old address, lowered by the removed size when it lay
        above the removed record. */
    lemma Shifted(s0: seq<Alloc>, t0: seq<nat>, k: nat)
      requires Valid() && Packed(s0) && Agrees(s0, t0, numHandles)
      requires k < |s0| < EmptyHandle && s0[k].size != 0 && |t0| == table.Length
      requires slots[..numAllocs] == Compact(s0, k) && table[..] == Renumber(t0, s0[k].back, k)
      ensures forall g :: 0 <= g < table.Length && g in Contents() ==>
        t0[g] < |s0| && slots[table[g]].base ==
          if s0[t0[g]].base <= s0[k].base then s0[t0[g]].base else s0[t0[g]].base - s0[k].size
    {
      forall g | 0 <= g < table.Length && g in Contents()
        ensures t0[g] < |s0| && slots[table[g]].base ==
          if s0[t0[g]].base <= s0[k].base then s0[t0[g]].base else s0[t0[g]].base - s0[k].size
      {
        assert table[g] == Renumber(t0, s0[k].back, k)[g];
        RemoveMovesAbove(s0, t0, numHandles, k, g);
      }
    }

    /** Free: release the allocation a handle names.  A handle that names
        nothing, or names a zero-size allocation, is left alone (the test
        build's behaviour).  Every other live handle keeps its bytes; the ones
        allocated after the freed one move down by its size. */
    method Free(h: nat)
      requires Valid() && h < table.Length
      modifies this, slots, table
      ensures |mem| == old(|mem|) && |scratch| == old(|scratch|)
      ensures Valid() && numHandles == old(numHandles)
      ensures h in old(Contents()) && |old(Contents())[h]| != 0 ==>
        Contents() == old(Contents()) - {h} && memUsed == old(memUsed) - |old(Contents())[h]|
      ensures h in old(Contents()) && |old(Contents())[h]| != 0 ==>
        forall g :: 0 <= g < table.Length && g in Contents() ==>
          GetHandlePtr(g).value ==
            if old(GetHandlePtr(g)).value <= old(GetHandlePtr(h)).value then old(GetHandlePtr(g)).value
            else old(GetHandlePtr(g)).value - |old(Contents())[h]|
      ensures !(h in old(Contents()) && |old(Contents())[h]| != 0) ==>
        unchanged(this, slots, table)
    {
      var alloc := Find(h);
      if alloc.Some? && alloc.value.0.size != 0 {
        Release(alloc.value.1, h);
      }
    }

    /** A memset or memcpy into the client region: the bytes w replace the
        |w| bytes at offset p. */
    method Store(p: nat, w: seq<Byte>)
      requires p + |w| <= |mem|
      modifies this
      ensures mem == old(mem[..p]) + w + old(mem[p + |w|..])
      ensures scratch == old(scratch) && numAllocs == old(numAllocs) && numHandles == old(numHandles)
      ensures memUsed == old(memUsed) && cursor == old(cursor)
    {
      mem := mem[..p] + w + mem[p + |w|..];
    }

    /** A write of w at the address h resolves to, as ZeroData, FlushData and
        CopyData perform it: a write that stays inside h's record changes the
        front of what h holds and nothing else. */
    method Overwrite(h: nat, w: seq<Byte>)
      requires Valid() && h < table.Length && h in Contents()
      requires GetHandlePtr(h).value + |w| <= |mem|
      modifies this
      ensures Valid() && scratch == old(scratch)
      ensures numAllocs == old(numAllocs) && numHandles == old(numHandles) && memUsed == old(memUsed)
      ensures |mem| == old(|mem|)
      ensures var p := old(GetHandlePtr(h)).value;
        mem == old(mem[..p]) + w + old(mem[p + |w|..])
      ensures |w| <= |old(Contents())[h]| ==>
        h in Contents() && Contents() == old(Contents())[h := w + old(Contents())[h][|w|..]]
    {
      var p := GetHandlePtr(h).value;
      ghost var m0, k, c0 := mem, table[h], Contents();
      ghost var s, tb := slots[..numAllocs], table[..];
      assert c0 == ContentsOf(s, tb, m0, numHandles);
      assert k < numAllocs && s[k] == slots[k] && s[k].back == h;
      assert p == s[k].base && |c0[h]| == s[k].size;
      Store(p, w);
      if |w| <= |c0[h]| {
        PackedFits(s, |m0|);
        WritePrefix(s, tb, m0, mem, numHandles, k, w);
        assert slots[..numAllocs] == s && table[..] == tb;
      }
    }

    /** ZeroData: set size bytes at the address a handle resolves to to 0. */
    method ZeroData(h: nat, size: nat)
      requires Valid() && h < table.Length && h in Contents()
      requires GetHandlePtr(h).value + size <= |mem|
      modifies this
      ensures Valid() && scratch == old(scratch)
      ensures var p := old(GetHandlePtr(h)).value;
        mem == old(mem[..p]) + seq(size, _ => 0) + old(mem[p + size..])
      ensures size == |old(Contents())[h]| ==> Contents() == old(Contents())[h := seq(size, _ => 0)]
    {
      Overwrite(h, seq(size, _ => 0));
    }

    /** FlushData: set size bytes at the address a handle resolves to to 0xff. */
    method FlushData(h: nat, size: nat)
      requires Valid() && h < table.Length && h in Contents()
      requires GetHandlePtr(h).value + size <= |mem|
      modifies this
      ensures Valid() && scratch == old(scratch)
      ensures var p := old(GetHandlePtr(h)).value;
        mem == old(mem[..p]) + seq(size, _ => 0xff) + old(mem[p + size..])
      ensures size == |old(Contents())[h]| ==> Contents() == old(Contents())[h := seq(size, _ => 0xff)]
    {
      Overwrite(h, seq(size, _ => 0xff));
    }
  }
}
