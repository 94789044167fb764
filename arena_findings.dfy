/**
 * Places where the arena's code, as written, does something other than
 * what its own comments and data structures evidently intend.  Each is
 * modelled here as written, with the input that shows the difference; the
 * CPUMemory class uses the intended behaviour.
 */
module ArenaFindings {
  import opened Common
  import opened ArenaLayout

  // ---------------------------------------------------------------------
  // The handle fix-up after compaction runs one slot too high
  // ---------------------------------------------------------------------

  /** The slot table after the bubble loop: the dead record has been
      swapped up to the last live slot, and the records above it moved
      down one slot (their bases already lowered). */
  function Bubbled(s: seq<Alloc>, k: nat): (b: seq<Alloc>)
    requires k < |s|
    ensures |b| == |s| && b[|s| - 1] == s[k]
    ensures forall j :: k <= j < |s| - 1 ==> b[j].back == s[j + 1].back
  {
    Compact(s, k) + [s[k]]
  }

  /** The "Update handles" loop as written: for slots i .. n - 1 of the
      bubbled table, decrement (as a 32-bit value, so the sentinel does not
      stay the sentinel) the entry the slot's back pointer names. */
  function FixUpAsWritten(tbl: seq<U32>, b: seq<Alloc>, i: nat, n: nat): (r: seq<nat>)
    requires n <= |b| && forall j :: i <= j < n ==> b[j].back < |tbl|
    ensures |r| == |tbl|
    decreases n - i
  {
    if i >= n then tbl
    else FixUpAsWritten(tbl[b[i].back := Dec32(tbl[b[i].back])], b, i + 1, n)
  }

  /** An entry that no visited slot points back at is left alone. */
  lemma {:induction false} FixUpUntouched(tbl: seq<U32>, b: seq<Alloc>, i: nat, n: nat, x: nat)
    requires n <= |b| && forall j :: i <= j < n ==> b[j].back < |tbl|
    requires x < |tbl| && forall j :: i <= j < n ==> b[j].back != x
    ensures FixUpAsWritten(tbl, b, i, n)[x] == tbl[x]
    decreases n - i
  {
    if i < n {
      FixUpUntouched(tbl[b[i].back := Dec32(tbl[b[i].back])], b, i + 1, n, x);
    }
  }

  /** An entry that only the last visited slot points back at is
      decremented exactly once. */
  lemma {:induction false} FixUpLastOnly(tbl: seq<U32>, b: seq<Alloc>, i: nat, n: nat, x: nat)
    requires i < n <= |b| && forall j :: i <= j < n ==> b[j].back < |tbl|
    requires b[n - 1].back == x && forall j :: i <= j < n - 1 ==> b[j].back != x
    ensures FixUpAsWritten(tbl, b, i, n)[x] == Dec32(tbl[x])
    decreases n - i
  {
    var tbl' := tbl[b[i].back := Dec32(tbl[b[i].back])];
    if i < n - 1 {
      FixUpLastOnly(tbl', b, i + 1, n, x);
    } else {
      assert FixUpAsWritten(tbl', b, i + 1, n) == tbl';
    }
  }

  /** Freeing any record but the last, as written: the loop starts one
      slot too high, so the handle of the record that moved down into slot
      k still names slot k + 1, where the next record now sits; the
      intended table (Renumber's) has it name k.  The loop also reaches the
      freed record, parked last, and decrements its sentinel to
      0xFFFFFFFE; with no more handles issued than the table holds, that
      entry is still out of range, so the freed handle still finds
      nothing. */
  lemma FixUpOffByOne(s: seq<Alloc>, t0: seq<U32>, nh: nat, k: nat)
    requires Agrees(s, t0, nh) && k + 1 < |s| < EmptyHandle
    ensures var b, tE := Bubbled(s, k), t0[s[k].back := EmptyHandle];
      (forall j :: k + 1 <= j < |s| ==> b[j].back < |tE|) &&
      FixUpAsWritten(tE, b, k + 1, |s|)[s[k + 1].back] == k + 1 &&
      Renumber(t0, s[k].back, k)[s[k + 1].back] == k &&
      FixUpAsWritten(tE, b, k + 1, |s|)[s[k].back] == EmptyHandle - 1
    ensures nh <= MaxNumHandles ==>
      Lookup(FixUpAsWritten(t0[s[k].back := EmptyHandle], Bubbled(s, k), k + 1, |s|)[s[k].back], nh) == None
  {
    var b, tE := Bubbled(s, k), t0[s[k].back := EmptyHandle];
    var n := |s|;
    var x, h := s[k + 1].back, s[k].back;
    assert forall j :: k + 1 <= j < n - 1 ==> b[j].back == s[j + 1].back;
    forall j | k + 1 <= j < n
      ensures b[j].back != x
    {
      if j < n - 1 {
        assert t0[s[j + 1].back] == j + 1;
      }
    }
    FixUpUntouched(tE, b, k + 1, n, x);
    forall j | k + 1 <= j < n - 1
      ensures b[j].back != h
    {
      assert t0[s[j + 1].back] == j + 1;
    }
    FixUpLastOnly(tE, b, k + 1, n, h);
  }

  /** The three-record instance: records A, B, C of 4 bytes each under
      handles 0, 1, 2; freeing A leaves handle 1 (B's) naming slot 1, which
      now holds C, and handle 0's entry 0xFFFFFFFE. */
  lemma FixUpExample()
    ensures var s := [Alloc(0, 4, 0), Alloc(4, 4, 1), Alloc(8, 4, 2)];
      FixUpAsWritten([EmptyHandle, 1, 2], Bubbled(s, 0), 1, 3) == [0xFFFF_FFFE, 1, 1] &&
      Bubbled(s, 0)[1].back == 2 &&
      Renumber([0, 1, 2], 0, 0) == [EmptyHandle, 0, 1]
  {
    var s := [Alloc(0, 4, 0), Alloc(4, 4, 1), Alloc(8, 4, 2)];
    var b := Bubbled(s, 0);
    assert b == [Alloc(0, 4, 1), Alloc(4, 4, 2), Alloc(0, 4, 0)];
    assert FixUpAsWritten([EmptyHandle, 1, 2], b, 1, 3)
        == FixUpAsWritten([EmptyHandle, 1, 1], b, 2, 3)
        == [0xFFFF_FFFE, 1, 1];
    assert Renumber([0, 1, 2], 0, 0) == [EmptyHandle, 0, 1];
  }

  // ---------------------------------------------------------------------
  // The handle table starts zeroed
  // ---------------------------------------------------------------------

  /** InitAllocBuffer as written: every handle-table entry is 0. */
  function InitTableAsWritten(n: nat): (t: seq<nat>)
    ensures |t| == n
  {
    seq(n, _ => 0)
  }

  /** As written, any handle, issued or not, resolves to slot 0 while the
      entries are still the initial zeros; with the sentinel fill (as
      CPUMemory.Arena.Init does) none does. */
  lemma UnissuedHandleResolves(n: nat, nh: nat, h: nat)
    requires h < n
    ensures Lookup(InitTableAsWritten(n)[h], nh) == Some(0)
    ensures Lookup(seq(n, _ => EmptyHandle)[h], nh) == None
  {
    assert InitTableAsWritten(n)[h] == 0;
  }

  // ---------------------------------------------------------------------
  // The byte budget is checked against the scratch size
  // ---------------------------------------------------------------------

  /** AllocateRange's check as written, on the bytes in use after the allocation. */
  predicate BudgetAsWritten(memUsedAfter: nat) {
    memUsedAfter < ScratchFootprint
  }

  /** The check admits allocations that end up to sizeof(AllocBuffer) - 1
      bytes past the end of the client region, which is the end of the
      block; the smallest is one byte past a full region. */
  lemma BudgetOverrun()
    ensures forall u: nat :: BudgetAsWritten(u) <==> u < ClientCapacity + AllocBufferBytes
    ensures BudgetAsWritten(ClientCapacity + 1)
    ensures ClientDataOffset + ClientCapacity == InitAlloc
  {
  }

  // ---------------------------------------------------------------------
  // AddAlloc does not check the handle count
  // ---------------------------------------------------------------------

  /** AddAlloc's only check as written. */
  predicate AddAllocGuardAsWritten(numAllocs: nat, numHandles: nat) {
    numAllocs < MaxNumAllocs
  }

  /** The two counters of the allocation buffer. */
  datatype Counts = Counts(numAllocs: nat, numHandles: nat)

  /** What AddAlloc does to the handle table as written: the assert fails,
      or the new slot index is stored at index numHandles, which is inside
      the table or past its end. */
  datatype AddOutcome =
    | GuardFails
    | Written(tbl: seq<nat>, after: Counts, handle: nat)
    | PastEnd(index: nat)

  /** AddAlloc as written, on the handle table and the counters. */
  function AddAllocAsWritten(tbl: seq<nat>, c: Counts): (r: AddOutcome)
    ensures r.PastEnd? <==> AddAllocGuardAsWritten(c.numAllocs, c.numHandles) && c.numHandles >= |tbl|
    ensures r.PastEnd? ==> r.index == c.numHandles
    ensures r.Written? ==> c.numHandles < |r.tbl| == |tbl| && r.handle == c.numHandles
    ensures r.Written? ==> r.tbl[c.numHandles] == c.numAllocs
    ensures r.Written? ==> r.after == Counts(c.numAllocs + 1, c.numHandles + 1)
  {
    if !AddAllocGuardAsWritten(c.numAllocs, c.numHandles) then GuardFails
    else if c.numHandles < |tbl| then
      Written(tbl[c.numHandles := c.numAllocs], Counts(c.numAllocs + 1, c.numHandles + 1), c.numHandles)
    else PastEnd(c.numHandles)
  }

  /** RemoveAlloc's counter update: one slot fewer, and the handle count
      stays (handles are never reused). */
  function FreeCounts(c: Counts): (r: Counts)
    requires c.numAllocs > 0
    ensures r.numAllocs < c.numAllocs && r.numHandles == c.numHandles
  {
    Counts(c.numAllocs - 1, c.numHandles)
  }

  /** The counters after n rounds of allocating one record and freeing it
      again, from the freshly initialised buffer. */
  function Rounds(n: nat): Counts {
    if n == 0 then Counts(0, 0)
    else FreeCounts(Counts(Rounds(n - 1).numAllocs + 1, Rounds(n - 1).numHandles + 1))
  }

  /** Every round leaves no allocation behind and uses up one handle. */
  lemma {:induction false} RoundsCounts(n: nat)
    ensures Rounds(n) == Counts(0, n)
  {
    if n > 0 {
      RoundsCounts(n - 1);
    }
  }

  /** The first MaxNumHandles rounds each store their handle inside the
      table; after them no allocation is live, the check still passes, and
      the next AddAlloc stores at index MaxNumHandles, one past the end of
      a table of MaxNumHandles entries. */
  lemma HandleOverflow(tbl: seq<nat>)
    requires |tbl| == MaxNumHandles
    ensures forall n: nat :: n < |tbl| ==> AddAllocAsWritten(tbl, Rounds(n)).Written?
    ensures Rounds(|tbl|).numAllocs == 0
    ensures AddAllocAsWritten(tbl, Rounds(|tbl|)) == PastEnd(|tbl|)
  {
    forall n: nat | n < |tbl|
      ensures AddAllocAsWritten(tbl, Rounds(n)).Written?
    {
      RoundsCounts(n);
    }
    RoundsCounts(|tbl|);
  }
}
