/**
 * The graphics wrapper's bookkeeping tables: input layouts resolved from
 * vertex descriptions and shared between pipelines, the descriptor and
 * range layout of a pipeline's root signature, and the command-list
 * counter.  Device calls are left out; what they are handed (which
 * descriptor lands where, which ranges describe them) is modelled.
 */
module DxTables {
  import opened Common
  import opened Enums
  import opened DxFormats
  import opened ArenaLayout
  import opened CPUMemory
  import opened Views

  // ---------------------------------------------------------------------
  // Input layouts
  // ---------------------------------------------------------------------

  /** Capacity of the layout table: one per resource of every pipeline. */
  const MaxInputLayouts: nat := 16 * 32

  /** One input element: its semantic, its DXGI format and the index that
      tells it apart from earlier elements with the same semantic. */
  datatype Element = Element(semantic: Semantic, format: Dxgi, semanticIndex: nat)

  /** How often x occurs in s. */
  function Count(s: seq<Semantic>, x: Semantic): (c: nat)
    ensures c <= |s|
  {
    if |s| == 0 then 0 else Count(s[..|s| - 1], x) + (if s[|s| - 1] == x then 1 else 0)
  }

  /** The layout the first n elements of a vertex description resolve to:
      element i carries the number of earlier elements that share its
      semantic as its semantic index. */
  function LayoutOf(fmts: seq<ResrcFmt>, sems: seq<Semantic>, n: nat): (l: seq<Element>)
    requires n <= |fmts| && n <= |sems|
    requires forall i :: 0 <= i < n ==> Decodable(fmts[i])
    ensures |l| == n
  {
    seq(n, i requires 0 <= i < n => Element(sems[i], DecodeStd(fmts[i]), Count(sems[..i], sems[i])))
  }

  /** Counting over a longer prefix never gives less. */
  lemma {:induction false} CountMonotone(s: seq<Semantic>, i: nat, j: nat, x: Semantic)
    requires i <= j <= |s|
    ensures Count(s[..i], x) <= Count(s[..j], x)
    decreases j - i
  {
    if i < j {
      CountMonotone(s, i, j - 1, x);
      assert s[..j][..j - 1] == s[..j - 1];
    }
  }

  /** The running count of x grows by one exactly at an x. */
  lemma CountNext(s: seq<Semantic>, i: nat, x: Semantic)
    requires i < |s|
    ensures Count(s[..i + 1], x) == Count(s[..i], x) + (if s[i] == x then 1 else 0)
  {
    assert s[..i + 1][..i] == s[..i];
  }

  /** Elements sharing a semantic get distinct indices, increasing with
      their position, and every index is below the semantic's count. */
  lemma LayoutIndicesDistinct(fmts: seq<ResrcFmt>, sems: seq<Semantic>, n: nat, i: nat, j: nat)
    requires n <= |fmts| && n <= |sems|
    requires forall k :: 0 <= k < n ==> Decodable(fmts[k])
    requires i < j < n && sems[i] == sems[j]
    ensures LayoutOf(fmts, sems, n)[i].semanticIndex < LayoutOf(fmts, sems, n)[j].semanticIndex
    ensures LayoutOf(fmts, sems, n)[j].semanticIndex < Count(sems[..n], sems[j])
  {
    CountNext(sems, i, sems[i]);
    CountMonotone(sems, i + 1, j, sems[i]);
    CountNext(sems, j, sems[j]);
    CountMonotone(sems, j + 1, n, sems[j]);
  }

  /** The numeric value of a semantic, which indexes the running counts. */
  function SemanticSlot(x: Semantic): (k: nat)
    ensures k < 4
  {
    match x
    case Position => 0
    case Color => 1
    case Normal => 2
    case TexCoord => 3
  }

  /** The semantic-index loop: a running count per semantic. */
  method ResolveSemanticIndices(sems: seq<Semantic>, n: nat) returns (idx: seq<nat>)
    requires n <= |sems|
    ensures |idx| == n
    ensures forall i :: 0 <= i < n ==> idx[i] == Count(sems[..i], sems[i])
  {
    var counts: seq<nat> := [0, 0, 0, 0];
    idx := [];
    var i := 0;
    while i < n
      invariant i <= n && |idx| == i && |counts| == 4
      invariant forall x :: counts[SemanticSlot(x)] == Count(sems[..i], x)
      invariant forall k :: 0 <= k < i ==> idx[k] == Count(sems[..k], sems[k])
    {
      var lookup := SemanticSlot(sems[i]);
      idx := idx + [counts[lookup]];
      counts := counts[lookup := counts[lookup] + 1];
      forall x
        ensures counts[SemanticSlot(x)] == Count(sems[..i + 1], x)
      {
        CountNext(sems, i, x);
        SlotsDistinct(x, sems[i]);
      }
      i := i + 1;
    }
  }

  /** Each semantic has a counter of its own. */
  lemma SlotsDistinct(x: Semantic, y: Semantic)
    ensures SemanticSlot(x) == SemanticSlot(y) <==> x == y
  {
  }

  /** The table of resolved layouts (rasterInputLayouts, numInputLayouts). */
  class InputLayoutTable {
    var layouts: seq<seq<Element>>

    /** No layout is stored twice, and the table fits its array. */
    ghost predicate Valid()
      reads this
    {
      |layouts| <= MaxInputLayouts
      && forall i, j :: 0 <= i < j < |layouts| ==> layouts[i] != layouts[j]
    }

    constructor ()
      ensures Valid() && layouts == []
    {
      layouts := [];
    }

    /** ResolveInputLayout: build the elements, then reuse the stored layout
        with the same element count and the same contents, or store the new
        one at the end.  The returned index names a layout equal to the one
        requested, and the table stays free of duplicates. */
    method Resolve(fmts: seq<ResrcFmt>, sems: seq<Semantic>, n: nat) returns (index: nat)
      requires Valid()
      requires n <= |fmts| && n <= |sems|
      requires forall i :: 0 <= i < n ==> Decodable(fmts[i])
      requires LayoutOf(fmts, sems, n) !in layouts ==> |layouts| < MaxInputLayouts
      modifies this
      ensures Valid()
      ensures index < |layouts| && layouts[index] == LayoutOf(fmts, sems, n)
      ensures LayoutOf(fmts, sems, n) in old(layouts) ==> layouts == old(layouts)
      ensures LayoutOf(fmts, sems, n) !in old(layouts) ==>
        layouts == old(layouts) + [LayoutOf(fmts, sems, n)] && index == |old(layouts)|
    {
      var idx := ResolveSemanticIndices(sems, n);
      var elts: seq<Element> := [];
      var i := 0;
      while i < n
        invariant i <= n && elts == LayoutOf(fmts, sems, n)[..i]
      {
        elts := elts + [Element(sems[i], DecodeStd(fmts[i]), idx[i])];
        i := i + 1;
      }
      assert elts == LayoutOf(fmts, sems, n);

      i := 0;
      while i < |layouts| && !(|layouts[i]| == n && layouts[i] == elts)
        invariant i <= |layouts| && elts !in layouts[..i]
      {
        assert layouts[..i + 1] == layouts[..i] + [layouts[i]];
        i := i + 1;
      }
      if i == |layouts| {
        assert layouts[..i] == layouts;
        layouts := layouts + [elts];
      }
      index := i;
    }
  }

  /** Size of one D3D12_INPUT_ELEMENT_DESC on a 64-bit target. */
  const InputElementDescSize: nat := 32

  /** The scratch of ResolveInputLayout: the element descriptions and the
      semantic indices, each allocated and then filled by its loop. */
  method StageLayout(a: Arena, n: nat, eltBytes: seq<Byte>, indexBytes: seq<Byte>)
    returns (elts: ArrayView, indices: ArrayView)
    requires a.Valid() && a.numAllocs + 2 <= a.slots.Length && a.numHandles + 2 <= a.table.Length
    requires a.memUsed + InputElementDescSize * n + 4 * n <= |a.mem|
    requires |eltBytes| == InputElementDescSize * n && |indexBytes| == 4 * n
    modifies a, a.slots, a.table
    ensures a.Valid() && a.numAllocs == old(a.numAllocs) + 2 && a.numHandles == old(a.numHandles) + 2
    ensures a.memUsed == old(a.memUsed) + InputElementDescSize * n + 4 * n && |a.mem| == old(|a.mem|)
    ensures elts.arrayLen == n && elts.dataOffset == 0 && elts.handle < a.table.Length
    ensures indices.arrayLen == n && indices.dataOffset == 0 && indices.handle < a.table.Length
    ensures elts.handle !in old(a.Contents()) && indices.handle !in old(a.Contents())
    ensures elts.handle != indices.handle
    ensures a.Contents() == old(a.Contents())[elts.handle := eltBytes][indices.handle := indexBytes]
  {
    elts := AllocFilled(a, InputElementDescSize, n, eltBytes);
    indices := AllocFilled(a, 4, n, indexBytes);
  }

  /** A scratch array allocated and then written whole by a loop. */
  method AllocFilled(a: Arena, elt: nat, n: nat, w: seq<Byte>) returns (v: ArrayView)
    requires a.Valid() && a.numAllocs < a.slots.Length && a.numHandles < a.table.Length
    requires a.memUsed + elt * n <= |a.mem| && |w| == elt * n
    modifies a, a.slots, a.table
    ensures a.Valid() && a.numAllocs == old(a.numAllocs) + 1 && a.numHandles == old(a.numHandles) + 1
    ensures a.memUsed == old(a.memUsed) + elt * n && |a.mem| == old(|a.mem|)
    ensures v.arrayLen == n && v.dataOffset == 0 && v.handle == old(a.numHandles) < a.table.Length
    ensures v.handle !in old(a.Contents())
    ensures a.Contents() == old(a.Contents())[v.handle := w]
  {
    ghost var c0 := a.Contents();
    v := AllocateArray(a, elt, n);
    ghost var c1 := a.Contents();
    assert c1 == c0[v.handle := c1[v.handle]];
    ScratchLength(v, elt, n, w, c1[v.handle]);
    FillScratch(a, v, w, elt);
    assert a.Contents() == c1[v.handle := w];
    Overwritten(c0, v.handle, c1[v.handle], w);
  }

  /** The bytes written fill the view and the fresh allocation exactly. */
  lemma ScratchLength(v: ArrayView, elt: nat, n: nat, w: seq<Byte>, held: seq<Byte>)
    requires v.arrayLen == n && |w| == elt * n && |held| == elt * n
    ensures |w| == ByteLen(v, elt) && |held| == |w|
  {
  }

  /** A key updated twice holds the second value. */
  lemma Overwritten<V>(c: map<nat, V>, k: nat, x: V, y: V)
    ensures c[k := x][k := y] == c[k := y]
  {
  }

  /** A loop that writes a whole array: the bytes replace what it held. */
  method FillScratch(a: Arena, v: ArrayView, w: seq<Byte>, elt: nat)
    requires a.Valid() && v.handle < a.table.Length && v.handle in a.Contents()
    requires |w| == ByteLen(v, elt) && |a.Contents()[v.handle]| == |w|
    modifies a
    ensures a.Valid() && a.numAllocs == old(a.numAllocs) && a.numHandles == old(a.numHandles)
    ensures a.memUsed == old(a.memUsed) && |a.mem| == old(|a.mem|)
    ensures a.Contents() == old(a.Contents())[v.handle := w]
  {
    ghost var c0 := a.Contents();
    CopyArrayIn(a, w, v, elt);
    assert w + c0[v.handle][|w|..] == w;
  }

  /** CopyData between two array views of the same byte length: the
      destination ends holding what the source holds. */
  method CopyWhole(a: Arena, src: ArrayView, dst: ArrayView, elt: nat)
    requires a.Valid() && src.handle < a.table.Length && dst.handle < a.table.Length
    requires src.handle in a.Contents() && dst.handle in a.Contents() && src.arrayLen == dst.arrayLen
    requires |a.Contents()[src.handle]| == ByteLen(src, elt) == |a.Contents()[dst.handle]|
    modifies a
    ensures a.Valid() && a.numAllocs == old(a.numAllocs) && a.numHandles == old(a.numHandles)
    ensures a.memUsed == old(a.memUsed) && |a.mem| == old(|a.mem|)
    ensures a.Contents() == old(a.Contents())[dst.handle := old(a.Contents())[src.handle]]
  {
    ghost var c0 := a.Contents();
    ghost var len := ByteLen(src, elt);
    ghost var moved := c0[src.handle][..len] + c0[dst.handle][len..];
    assert moved == c0[src.handle];
    CopyArrays(a, src, dst, elt);
    assert a.Contents() == c0[dst.handle := moved];
  }

  /** InputLayoutDesc::Init: a new allocation of the same size as the
      elements, which receives a copy of them and is kept by the layout. */
  method InitLayoutCopy(a: Arena, elts: ArrayView, n: nat) returns (copy: ArrayView)
    requires a.Valid() && a.numAllocs < a.slots.Length && a.numHandles < a.table.Length
    requires a.memUsed + InputElementDescSize * n <= |a.mem|
    requires elts.handle < a.table.Length && elts.handle in a.Contents() && elts.arrayLen == n
    requires |a.Contents()[elts.handle]| == InputElementDescSize * n
    modifies a, a.slots, a.table
    ensures a.Valid() && a.numAllocs == old(a.numAllocs) + 1 && a.numHandles == old(a.numHandles) + 1
    ensures copy.arrayLen == n && copy.handle !in old(a.Contents()) && copy.handle < a.table.Length
    ensures a.Contents() == old(a.Contents())[copy.handle := old(a.Contents())[elts.handle]]
  {
    ghost var c0 := a.Contents();
    copy := AllocateArray(a, InputElementDescSize, n);
    ghost var c1 := a.Contents();
    assert c1 == c0[copy.handle := c1[copy.handle]];
    ScratchLength(elts, InputElementDescSize, n, c0[elts.handle], c1[copy.handle]);
    CopyWhole(a, elts, copy, InputElementDescSize);
    assert a.Contents() == c1[copy.handle := c0[elts.handle]];
    Overwritten(c0, copy.handle, c1[copy.handle], c0[elts.handle]);
  }

  /** The arena traffic of ResolveInputLayout as written: the scratch is
      staged, a new layout keeps its copy of the elements, and only the
      element scratch is released, so the semantic-index scratch stays
      live after the call. */
  method LayoutScratchAsWritten(a: Arena, n: nat, isNew: bool, eltBytes: seq<Byte>, indexBytes: seq<Byte>)
    returns (indices: ArrayView, kept: Option<ArrayView>)
    requires a.Valid() && a.numAllocs + 3 <= a.slots.Length && a.numHandles + 3 <= a.table.Length
    requires a.memUsed + InputElementDescSize * n + 4 * n + (if isNew then InputElementDescSize * n else 0) <= |a.mem|
    requires |eltBytes| == InputElementDescSize * n && |indexBytes| == 4 * n
    modifies a, a.slots, a.table
    ensures a.Valid()
    ensures indices.handle !in old(a.Contents())
    ensures kept.Some? <==> isNew
    ensures kept.Some? ==> kept.value.handle !in old(a.Contents()) && kept.value.handle != indices.handle
    ensures n > 0 && !isNew ==> a.Contents() == old(a.Contents())[indices.handle := indexBytes]
    ensures n > 0 && isNew ==>
      a.Contents() == old(a.Contents())[kept.value.handle := eltBytes][indices.handle := indexBytes]
  {
    ghost var c0 := a.Contents();
    var elts;
    elts, indices := StageLayout(a, n, eltBytes, indexBytes);
    kept := None;
    if isNew {
      var copy := InitLayoutCopy(a, elts, n);
      kept := Some(copy);
    }
    ghost var c1 := a.Contents();
    FreeArray(a, elts);
    if n > 0 {
      if isNew {
        ScratchKept(c0, elts.handle, eltBytes, indices.handle, indexBytes, kept.value.handle);
      } else {
        ScratchLeft(c0, elts.handle, eltBytes, indices.handle, indexBytes);
      }
    }
  }

  /** Two fresh keys added and the first removed: the second is left. */
  lemma ScratchLeft<V>(c0: map<nat, V>, e: nat, ve: V, i: nat, vi: V)
    requires e !in c0 && i !in c0 && e != i
    ensures c0[e := ve][i := vi] - {e} == c0[i := vi]
  {
  }

  /** The same with a third fresh key k holding a copy of e's value. */
  lemma ScratchKept<V>(c0: map<nat, V>, e: nat, ve: V, i: nat, vi: V, k: nat)
    requires e !in c0 && i !in c0 && k !in c0 && e != i && k != e && k != i
    ensures c0[e := ve][i := vi][k := ve] - {e} == c0[k := ve][i := vi]
  {
  }

  /** The same traffic releasing both scratch arrays: the arena ends
      holding what it held before, plus a new layout's copy of the
      elements. */
  method LayoutScratch(a: Arena, n: nat, isNew: bool, eltBytes: seq<Byte>, indexBytes: seq<Byte>)
    returns (kept: Option<ArrayView>)
    requires a.Valid() && a.numAllocs + 3 <= a.slots.Length && a.numHandles + 3 <= a.table.Length
    requires a.memUsed + InputElementDescSize * n + 4 * n + (if isNew then InputElementDescSize * n else 0) <= |a.mem|
    requires |eltBytes| == InputElementDescSize * n && |indexBytes| == 4 * n
    modifies a, a.slots, a.table
    ensures a.Valid()
    ensures kept.Some? <==> isNew
    ensures kept.Some? ==> kept.value.handle !in old(a.Contents())
    ensures n > 0 && !isNew ==> a.Contents() == old(a.Contents())
    ensures n > 0 && isNew ==> a.Contents() == old(a.Contents())[kept.value.handle := eltBytes]
  {
    ghost var c0 := a.Contents();
    var elts, indices := StageLayout(a, n, eltBytes, indexBytes);
    kept := None;
    if isNew {
      var copy := InitLayoutCopy(a, elts, n);
      kept := Some(copy);
    }
    FreeArray(a, elts);
    ghost var c2 := a.Contents();
    assert n > 0 ==> indices.handle in c2 && |c2[indices.handle]| == 4 * n;
    FreeArray(a, indices);
    if n > 0 {
      if isNew {
        ScratchKeptUndone(c0, elts.handle, eltBytes, indices.handle, indexBytes, kept.value.handle);
      } else {
        ScratchUndone(c0, elts.handle, eltBytes, indices.handle, indexBytes);
      }
    }
  }

  /** Adding two fresh keys and removing both restores the map. */
  lemma ScratchUndone<V>(c0: map<nat, V>, e: nat, ve: V, i: nat, vi: V)
    requires e !in c0 && i !in c0 && e != i
    ensures c0[e := ve][i := vi] - {e} - {i} == c0
  {
  }

  /** The same with a third fresh key k, which stays. */
  lemma ScratchKeptUndone<V>(c0: map<nat, V>, e: nat, ve: V, i: nat, vi: V, k: nat)
    requires e !in c0 && i !in c0 && k !in c0 && e != i && k != e && k != i
    ensures c0[e := ve][i := vi][k := ve] - {e} - {i} == c0[k := ve]
  {
  }

  // ---------------------------------------------------------------------
  // Root signatures
  // ---------------------------------------------------------------------

  /** ResourceBindList, by counts: the resource handles themselves only
      select which object a descriptor views. */
  datatype BindList = BindList(
    cbufferEnabled: bool,
    numStructbuffers: nat,
    numRWTextures: nat,
    numReadOnlyTextures: nat,
    tlasEnabled: bool,
    pointSamplerEnabled: bool,
    linearSamplerEnabled: bool)

  function B2N(b: bool): nat {
    if b then 1 else 0
  }

  function NumSRVs(b: BindList): nat {
    b.numReadOnlyTextures + B2N(b.tlasEnabled)
  }

  function NumUAVs(b: BindList): nat {
    b.numStructbuffers + b.numRWTextures
  }

  function NumDescriptors(b: BindList): nat {
    B2N(b.cbufferEnabled) + NumSRVs(b) + NumUAVs(b)
  }

  /** What a descriptor views, in the order they are written. */
  datatype Descriptor =
    | CbvDesc
    | TlasSrv
    | TextureSrv(i: nat)
    | StructBufferUav(i: nat)
    | TextureUav(i: nat)

  datatype RangeType = CBV | SRV | UAV

  function TypeOf(d: Descriptor): RangeType {
    match d
    case CbvDesc => CBV
    case TlasSrv => SRV
    case TextureSrv(_) => SRV
    case StructBufferUav(_) => UAV
    case TextureUav(_) => UAV
  }

  /** The runs of descriptors the loops write, one per resource kind. */
  datatype Run = SrvTextures | UavStructBuffers | UavTextures

  function RunDescriptor(r: Run, i: nat): Descriptor {
    match r
    case SrvTextures => TextureSrv(i)
    case UavStructBuffers => StructBufferUav(i)
    case UavTextures => TextureUav(i)
  }

  function RunOf(r: Run, n: nat): (s: seq<Descriptor>)
    ensures |s| == n
    ensures forall i :: 0 <= i < n ==> s[i] == RunDescriptor(r, i)
  {
    seq(n, i requires 0 <= i < n => RunDescriptor(r, i))
  }

  /** The shader-resource descriptors: the acceleration structure, then
      the read-only textures. */
  function SrvPart(b: BindList): (s: seq<Descriptor>)
    ensures |s| == NumSRVs(b)
    ensures forall i :: 0 <= i < |s| ==> TypeOf(s[i]) == SRV
  {
    (if b.tlasEnabled then [TlasSrv] else []) + RunOf(SrvTextures, b.numReadOnlyTextures)
  }

  /** The unordered-access descriptors: the structured buffers, then the
      read-write textures. */
  function UavPart(b: BindList): (s: seq<Descriptor>)
    ensures |s| == NumUAVs(b)
    ensures forall i :: 0 <= i < |s| ==> TypeOf(s[i]) == UAV
  {
    RunOf(UavStructBuffers, b.numStructbuffers) + RunOf(UavTextures, b.numRWTextures)
  }

  /** The order in which descriptors go into the pipeline's heap: the
      constant buffer, the shader-resource views, the unordered-access
      views. */
  function DescriptorOrder(b: BindList): (r: seq<Descriptor>)
    ensures |r| == NumDescriptors(b)
  {
    (if b.cbufferEnabled then [CbvDesc] else []) + SrvPart(b) + UavPart(b)
  }

  /** The cursor has advanced by the increment at every step from start to
      front. */
  ghost predicate Advanced(p: seq<nat>, start: nat, front: nat, inc: nat) {
    front < |p| && forall k :: start <= k < front ==> p[k + 1] == p[k] + inc
  }

  /** Only the pointers after start, up to front, differ from p0. */
  ghost predicate Framed(p: seq<nat>, p0: seq<nat>, start: nat, front: nat) {
    |p| == |p0| && forall k :: 0 <= k < |p| && !(start < k <= front) ==> p[k] == p0[k]
  }

  lemma ChainAdvanced(p0: seq<nat>, p1: seq<nat>, p2: seq<nat>, s: nat, m: nat, e: nat, inc: nat)
    requires s <= m <= e
    requires Advanced(p1, s, m, inc) && Framed(p1, p0, s, m)
    requires Advanced(p2, m, e, inc) && Framed(p2, p1, m, e)
    ensures Advanced(p2, s, e, inc) && Framed(p2, p0, s, e)
  {
  }

  /** One descriptor written at the cursor, then the next pointer set to
      this one plus the increment. */
  method Emit(ptrs: array<nat>, front: nat, inc: nat) returns (next: nat)
    requires front + 1 < ptrs.Length
    modifies ptrs
    ensures next == front + 1
    ensures Advanced(ptrs[..], front, next, inc) && Framed(ptrs[..], old(ptrs[..]), front, next)
  {
    ptrs[front + 1] := ptrs[front] + inc;
    next := front + 1;
  }

  /** One descriptor loop: n descriptors of a run, the cursor advancing
      once per descriptor. */
  method EmitRun(ptrs: array<nat>, front: nat, inc: nat, r: Run, n: nat)
    returns (next: nat, run: seq<Descriptor>)
    requires front + n < ptrs.Length
    modifies ptrs
    ensures next == front + n && run == RunOf(r, n)
    ensures Advanced(ptrs[..], front, next, inc) && Framed(ptrs[..], old(ptrs[..]), front, next)
  {
    ghost var p0 := ptrs[..];
    next := front;
    run := [];
    var i := 0;
    while i < n
      invariant i <= n && next == front + i && run == RunOf(r, i)
      invariant Advanced(ptrs[..], front, next, inc) && Framed(ptrs[..], p0, front, next)
    {
      ghost var p1 := ptrs[..];
      run := run + [RunDescriptor(r, i)];
      next := Emit(ptrs, next, inc);
      ChainAdvanced(p0, p1, ptrs[..], front, next - 1, next, inc);
      i := i + 1;
    }
  }

  /** The shader-resource loop: the acceleration structure if bound, then
      every read-only texture. */
  method EmitSrvs(ptrs: array<nat>, front: nat, inc: nat, b: BindList)
    returns (next: nat, part: seq<Descriptor>)
    requires front + NumSRVs(b) < ptrs.Length
    modifies ptrs
    ensures next == front + NumSRVs(b) && part == SrvPart(b)
    ensures Advanced(ptrs[..], front, next, inc) && Framed(ptrs[..], old(ptrs[..]), front, next)
  {
    ghost var p0 := ptrs[..];
    next := front;
    part := [];
    if b.tlasEnabled {
      part := [TlasSrv];
      next := Emit(ptrs, next, inc);
    }
    ghost var p1 := ptrs[..];
    ghost var mid := next;
    var run;
    next, run := EmitRun(ptrs, next, inc, SrvTextures, b.numReadOnlyTextures);
    part := part + run;
    ChainAdvanced(p0, p1, ptrs[..], front, mid, next, inc);
  }

  /** The unordered-access loops: every structured buffer, then every
      read-write texture. */
  method EmitUavs(ptrs: array<nat>, front: nat, inc: nat, b: BindList)
    returns (next: nat, part: seq<Descriptor>)
    requires front + NumUAVs(b) < ptrs.Length
    modifies ptrs
    ensures next == front + NumUAVs(b) && part == UavPart(b)
    ensures Advanced(ptrs[..], front, next, inc) && Framed(ptrs[..], old(ptrs[..]), front, next)
  {
    ghost var p0 := ptrs[..];
    var run0, run1;
    next, run0 := EmitRun(ptrs, front, inc, UavStructBuffers, b.numStructbuffers);
    ghost var p1 := ptrs[..];
    ghost var mid := next;
    next, run1 := EmitRun(ptrs, next, inc, UavTextures, b.numRWTextures);
    part := run0 + run1;
    ChainAdvanced(p0, p1, ptrs[..], front, mid, next, inc);
  }

  /** The descriptor code of ResolveRootSignature: each descriptor is
      written at the cursor and the cursor advances once, so descriptor k
      of DescriptorOrder lands at pointer start + k, each pointer one
      increment past the previous, and no pointer outside the written span
      changes. */
  method WriteDescriptors(ptrs: array<nat>, start: nat, inc: nat, b: BindList)
    returns (front: nat, written: seq<Descriptor>)
    requires start + NumDescriptors(b) < ptrs.Length
    modifies ptrs
    ensures front == start + NumDescriptors(b) && written == DescriptorOrder(b)
    ensures Advanced(ptrs[..], start, front, inc) && Framed(ptrs[..], old(ptrs[..]), start, front)
  {
    ghost var p0 := ptrs[..];
    front := start;
    written := [];
    if b.cbufferEnabled {
      written := [CbvDesc];
      front := Emit(ptrs, front, inc);
    }
    ghost var p1 := ptrs[..];
    ghost var m1 := front;
    var part;
    if NumSRVs(b) > 0 {
      front, part := EmitSrvs(ptrs, front, inc, b);
      written := written + part;
    }
    ChainAdvanced(p0, p1, ptrs[..], start, m1, front, inc);
    ghost var p2 := ptrs[..];
    ghost var m2 := front;
    if NumUAVs(b) > 0 {
      front, part := EmitUavs(ptrs, front, inc, b);
      written := written + part;
    }
    ChainAdvanced(p0, p2, ptrs[..], start, m2, front, inc);
  }

  /** D3D12_DESCRIPTOR_RANGE1 as the wrapper fills it: base register and
      register space are always zero; the constant buffer's data is static
      and every other range is volatile. */
  datatype Range = Range(rangeType: RangeType, numDescriptors: nat, offset: nat, isStatic: bool)

  /** The range-resolution and packing code as written: three fixed slots
      filled by case analysis, of which the first numViewTypes are used. */
  function PackRanges(b: BindList): (ranges: seq<Range>)
    ensures |ranges| <= 3
  {
    var cbv := Range(CBV, 1, 0, true);
    var srvRange := NumSRVs(b) > 0;
    var srv := Range(SRV, NumSRVs(b), B2N(b.cbufferEnabled), false);
    var uavOffset :=
      if b.cbufferEnabled && srvRange then NumSRVs(b) + 1
      else if !srvRange && b.cbufferEnabled then 1
      else if !b.cbufferEnabled && srvRange then NumSRVs(b)
      else 0;
    var uav := Range(UAV, NumUAVs(b), uavOffset, false);
    var empty := Range(CBV, 0, 0, false);
    var slots0 := [empty, empty, empty];
    var slots1 := if b.cbufferEnabled then slots0[0 := cbv] else slots0;
    var n1 := B2N(b.cbufferEnabled);
    var slots2 :=
      if b.tlasEnabled || b.numReadOnlyTextures > 0 then
        (if b.cbufferEnabled then slots1[1 := srv] else slots1[0 := srv])
      else slots1;
    var n2 := n1 + B2N(b.tlasEnabled || b.numReadOnlyTextures > 0);
    var slots3 :=
      if b.numRWTextures > 0 || b.numStructbuffers > 0 then
        (if b.cbufferEnabled && srvRange then slots2[2 := uav]
         else if srvRange || b.cbufferEnabled then slots2[1 := uav]
         else slots2[0 := uav])
      else slots2;
    var n3 := n2 + B2N(b.numRWTextures > 0 || b.numStructbuffers > 0);
    slots3[..n3]
  }

  /** The ranges a bind list needs: each non-empty kind once, in CBV, SRV,
      UAV order, each starting where the previous one ends. */
  function ExpectedRanges(b: BindList): seq<Range> {
    (if b.cbufferEnabled then [Range(CBV, 1, 0, true)] else [])
    + (if NumSRVs(b) > 0 then [Range(SRV, NumSRVs(b), B2N(b.cbufferEnabled), false)] else [])
    + (if NumUAVs(b) > 0 then [Range(UAV, NumUAVs(b), B2N(b.cbufferEnabled) + NumSRVs(b), false)] else [])
  }

  /** The packing code produces exactly the expected ranges. */
  lemma PackRangesExpected(b: BindList)
    ensures PackRanges(b) == ExpectedRanges(b)
  {
    var srv := NumSRVs(b) > 0;
    var uav := NumUAVs(b) > 0;
    if b.cbufferEnabled {
      if srv {
        if uav {} else {}
      } else {
        if uav {} else {}
      }
    } else {
      if srv {
        if uav {} else {}
      } else {
        if uav {} else {}
      }
    }
  }

  /** The ranges are non-empty, the first starts at the table start, each
      starts where the previous ends, and together they cover every
      descriptor. */
  lemma PackRangesContiguous(b: BindList)
    ensures forall k :: 0 <= k < |PackRanges(b)| ==> PackRanges(b)[k].numDescriptors > 0
    ensures |PackRanges(b)| > 0 ==> PackRanges(b)[0].offset == 0
    ensures forall k :: 0 <= k < |PackRanges(b)| - 1 ==>
      PackRanges(b)[k + 1].offset == PackRanges(b)[k].offset + PackRanges(b)[k].numDescriptors
    ensures |PackRanges(b)| > 0 ==>
      PackRanges(b)[|PackRanges(b)| - 1].offset + PackRanges(b)[|PackRanges(b)| - 1].numDescriptors
        == NumDescriptors(b)
    ensures |PackRanges(b)| == 0 <==> NumDescriptors(b) == 0
  {
    PackRangesExpected(b);
  }

  /** The type of the range holding table offset k, if any. */
  function RangeTypeAt(ranges: seq<Range>, k: nat): Option<RangeType> {
    if |ranges| == 0 then None
    else if ranges[0].offset <= k < ranges[0].offset + ranges[0].numDescriptors then Some(ranges[0].rangeType)
    else RangeTypeAt(ranges[1..], k)
  }

  /** Offsets below the constant-buffer count are CBV, the next NumSRVs
      are SRV, the rest UAV. */
  lemma RangeTypeAtExpected(b: BindList, k: nat)
    requires k < NumDescriptors(b)
    ensures RangeTypeAt(ExpectedRanges(b), k) ==
      Some(if k < B2N(b.cbufferEnabled) then CBV
           else if k < B2N(b.cbufferEnabled) + NumSRVs(b) then SRV else UAV)
  {
    var c := if b.cbufferEnabled then [Range(CBV, 1, 0, true)] else [];
    var s := if NumSRVs(b) > 0 then [Range(SRV, NumSRVs(b), B2N(b.cbufferEnabled), false)] else [];
    var u := if NumUAVs(b) > 0 then [Range(UAV, NumUAVs(b), B2N(b.cbufferEnabled) + NumSRVs(b), false)] else [];
    assert ExpectedRanges(b) == c + s + u;
    if b.cbufferEnabled && k >= 1 {
      assert (c + s + u)[1..] == s + u;
      assert RangeTypeAt(c + s + u, k) == RangeTypeAt(s + u, k);
    } else if !b.cbufferEnabled {
      assert c + s + u == s + u;
    }
    if NumSRVs(b) > 0 && k >= B2N(b.cbufferEnabled) + NumSRVs(b) {
      assert (s + u)[1..] == u;
      assert RangeTypeAt(s + u, k) == RangeTypeAt(u, k);
    } else if NumSRVs(b) == 0 {
      assert s + u == u;
    }
  }

  /** Every descriptor written by the cursor lies in a range of its own
      type: the heap layout and the root signature agree. */
  lemma DescriptorsMatchRanges(b: BindList, k: nat)
    requires k < NumDescriptors(b)
    ensures RangeTypeAt(PackRanges(b), k) == Some(TypeOf(DescriptorOrder(b)[k]))
  {
    PackRangesExpected(b);
    RangeTypeAtExpected(b, k);
    DescriptorTypeAt(b, k);
  }

  /** Descriptor k of the heap order is the constant buffer below the
      constant-buffer count, a shader-resource view for the next NumSRVs,
      an unordered-access view after. */
  lemma DescriptorTypeAt(b: BindList, k: nat)
    requires k < NumDescriptors(b)
    ensures TypeOf(DescriptorOrder(b)[k]) ==
      (if k < B2N(b.cbufferEnabled) then CBV
       else if k < B2N(b.cbufferEnabled) + NumSRVs(b) then SRV else UAV)
  {
    var c := if b.cbufferEnabled then [CbvDesc] else [];
    var d := DescriptorOrder(b);
    if k < |c| {
      assert d[k] == c[k];
    } else if k < |c| + NumSRVs(b) {
      assert d[k] == SrvPart(b)[k - |c|];
    } else {
      assert d[k] == UavPart(b)[k - |c| - NumSRVs(b)];
    }
  }

  /** The static samplers: the point sampler in s0, the linear one in s1. */
  datatype Sampler = PointSampler | LinearSampler

  /** NumStaticSamplers: how many samplers are switched on. */
  function NumStaticSamplers(b: BindList): (n: nat)
    ensures n == B2N(b.pointSamplerEnabled) + B2N(b.linearSamplerEnabled)
  {
    if b.pointSamplerEnabled && b.linearSamplerEnabled then 2
    else if b.pointSamplerEnabled || b.linearSamplerEnabled then 1
    else 0
  }

  /** The samplers the root signature receives as written: the first
      NumStaticSamplers entries of the sampler table. */
  function BoundSamplersAsWritten(b: BindList): seq<Sampler> {
    [PointSampler, LinearSampler][..NumStaticSamplers(b)]
  }

  /** With only the linear sampler switched on, the point sampler is bound
      in its place. */
  lemma OnlyLinearBindsPoint()
    ensures BoundSamplersAsWritten(BindList(false, 0, 0, 0, false, false, true)) == [PointSampler]
  {
  }

  /** The samplers switched on, in register order. */
  function BoundSamplers(b: BindList): (r: seq<Sampler>)
    ensures |r| == NumStaticSamplers(b)
    ensures PointSampler in r <==> b.pointSamplerEnabled
    ensures LinearSampler in r <==> b.linearSamplerEnabled
  {
    (if b.pointSamplerEnabled then [PointSampler] else [])
    + (if b.linearSamplerEnabled then [LinearSampler] else [])
  }

  /** The two agree whenever both or neither sampler is switched on. */
  lemma SamplersAgreeWhenPaired(b: BindList)
    requires b.pointSamplerEnabled == b.linearSamplerEnabled
    ensures BoundSamplersAsWritten(b) == BoundSamplers(b)
  {
  }

  // ---------------------------------------------------------------------
  // Command lists
  // ---------------------------------------------------------------------

  const MaxNumPipelines: nat := 16

  /** The command-list slots (numCmdLists, cmdListsOpen). */
  class CmdListTable {
    var numCmdLists: nat
    var open: set<nat>

    constructor ()
      ensures numCmdLists == 0 && open == {}
    {
      numCmdLists := 0;
      open := {};
    }

    /** CreateCmdList: a list is created and left open in the next slot
        while there is one; past the last slot nothing is created, but the
        old count is still returned and the counter still moves on. */
    method CreateCmdList() returns (h: nat, created: bool)
      modifies this
      ensures h == old(numCmdLists) && numCmdLists == old(numCmdLists) + 1
      ensures created <==> h < MaxNumPipelines
      ensures open == if created then old(open) + {h} else old(open)
    {
      if numCmdLists < MaxNumPipelines {
        open := open + {numCmdLists};
        created := true;
      } else {
        created := false;
      }
      h := numCmdLists;
      numCmdLists := numCmdLists + 1;
    }
  }
}
