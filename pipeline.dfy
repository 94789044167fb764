/**
 * Pipelines: the per-pipeline bundles of registered resources and shaders
 * (pipelineData), pipeline set-up, registration of fresh and shared
 * resources, shader registration, the bounded event queue, and baking and
 * submission of a pipeline's command list.
 *
 * The globals of the source (the id generator, the bundle array, the
 * signature-binding flags, the command-list and input-layout tables) are
 * the fields of one Registry object handed to every operation.
 */
module Pipelines {
  import opened Common
  import opened Enums
  import opened Permissions
  import opened DxFormats
  import opened Resources
  import opened DxTables
  import opened PipelineEvents

  const MaxResourcesPerPipeline: nat := 32
  const MaxNumRenderTargets: nat := 8
  const MaxNumShaders: nat := 32
  const MaxPipelineDepth: nat := 32

  // ---------------------------------------------------------------------
  // Bundles
  // ---------------------------------------------------------------------

  /** Where a bundle keeps a resource: the array of its variant and the
      index in it. */
  datatype Slot = Slot(variant: Variant, index: nat)

  /** Variants a bundle holds one of (cbuffer, vbuffer, ibuffer,
      depth-stencil, acceleration structure). */
  predicate SingleSlot(v: Variant) {
    v == CBuffer || v == VBuffer || v == IBuffer || v == TextureDepthStencil || v == RtAccelStructure
  }

  /** The slot the Decode*Handle functions read for a handle: the handle's
      variant picks the array and, for arrays, its index the element. */
  function SlotOf(h: ResrcHandle): Slot {
    if SingleSlot(h.objFmt) then Slot(h.objFmt, 0) else Slot(h.objFmt, h.index)
  }

  /** The counters and flags of PipelineObjectBundle. */
  datatype BundleState = BundleState(
    cbufferRegistered: bool,
    numStructBuffers: nat,
    numTexturesReadOnly: nat,
    numTexturesRW: nat,
    numTexturesStaging: nat,
    numRenderTargets: nat,
    vbufferRegistered: bool,
    iBufferRegistered: bool,
    resolvedIlayout: bool,
    ilayout: nat,
    numNdces: nat,
    asRegistered: bool,
    depthStencilTexRegistered: bool,
    cmdList: nat,
    numComputeShaders: nat,
    numGfxShaders: nat,
    numRaytracingShaders: nat)

  function ZeroState(): BundleState {
    BundleState(false, 0, 0, 0, 0, 0, false, false, false, 0, 0, false, false, 0, 0, 0, 0)
  }

  /** What init resets: every registration count and flag and every shader
      count. */
  predicate Cleared(s: BundleState) {
    !s.cbufferRegistered && s.numStructBuffers == 0 && s.numTexturesReadOnly == 0
    && s.numTexturesRW == 0 && s.numTexturesStaging == 0 && s.numRenderTargets == 0
    && !s.vbufferRegistered && !s.iBufferRegistered && !s.resolvedIlayout
    && !s.asRegistered && !s.depthStencilTexRegistered
    && s.numComputeShaders == 0 && s.numGfxShaders == 0 && s.numRaytracingShaders == 0
  }

  /** Variants kept in arrays, whose registrations advance a count. */
  predicate Counted(v: Variant) {
    v == StructBufferRW || v == TextureSupportsSampling || v == TextureDirectWrite
    || v == TextureStaging || v == TextureRenderTarget
  }

  /** The number of registered resources of an array variant; zero for the
      single-slot variants, whose handles always carry index 0. */
  function CountOf(s: BundleState, v: Variant): nat {
    match v
    case StructBufferRW => s.numStructBuffers
    case TextureSupportsSampling => s.numTexturesReadOnly
    case TextureDirectWrite => s.numTexturesRW
    case TextureStaging => s.numTexturesStaging
    case TextureRenderTarget => s.numRenderTargets
    case _ => 0
  }

  /** The length of a variant's array. */
  function Capacity(v: Variant): nat {
    if v == TextureRenderTarget then MaxNumRenderTargets else MaxResourcesPerPipeline
  }

  /** The state with every array count zeroed, for comparing the rest. */
  function Uncounted(s: BundleState): BundleState {
    s.(numStructBuffers := 0, numTexturesReadOnly := 0, numTexturesRW := 0,
       numTexturesStaging := 0, numRenderTargets := 0)
  }

  /** One more resource of variant v: its count goes up by one when v is an
      array variant, and nothing else changes. */
  function Bump(s: BundleState, v: Variant): (r: BundleState)
    ensures Counted(v) ==> CountOf(r, v) == CountOf(s, v) + 1
    ensures forall w :: (w != v || !Counted(v)) ==> CountOf(r, w) == CountOf(s, w)
    ensures Uncounted(r) == Uncounted(s)
  {
    match v
    case StructBufferRW => s.(numStructBuffers := s.numStructBuffers + 1)
    case TextureSupportsSampling => s.(numTexturesReadOnly := s.numTexturesReadOnly + 1)
    case TextureDirectWrite => s.(numTexturesRW := s.numTexturesRW + 1)
    case TextureStaging => s.(numTexturesStaging := s.numTexturesStaging + 1)
    case TextureRenderTarget => s.(numRenderTargets := s.numRenderTargets + 1)
    case _ => s
  }

  /** A resource as InitFromScratch leaves it. */
  predicate Made(res: Resource, v: Variant, d: Desc, access: bv32, resrcIndex: nat)
    reads res
  {
    res.variant == v && res.desc == d && res.accessBits == access && res.resrc == resrcIndex
  }

  /** PipelineObjectBundle: counters and flags, the registered resources by
      slot, and the compute dispatch sizes. */
  class Bundle {
    var state: BundleState
    var resources: map<Slot, Resource>
    var csDispatchAxes: seq<Axes>

    /** Every slot holds a resource of its own variant, and a registered
        vbuffer is in its slot. */
    ghost predicate Valid()
      reads this, resources.Values
    {
      |csDispatchAxes| == MaxNumShaders
      && (forall s :: s in resources ==> resources[s].variant == s.variant)
      && (state.vbufferRegistered ==> Slot(VBuffer, 0) in resources)
    }

    constructor ()
      ensures Valid() && state == ZeroState() && resources == map[]
      ensures csDispatchAxes == seq(MaxNumShaders, _ => Axes(0, 0, 0))
    {
      state := ZeroState();
      resources := map[];
      csDispatchAxes := seq(MaxNumShaders, _ => Axes(0, 0, 0));
    }

    /** A default resource, initialised from scratch, placed in a slot. */
    method Store(v: Variant, index: nat, d: Desc, access: bv32, resrcIndex: nat) returns (res: Resource)
      requires Valid() && DescFits(v, d) && (v == TextureStaging ==> access == Bit(CopiesOnly))
      modifies this
      ensures Valid() && fresh(res) && Made(res, v, d, access, resrcIndex)
      ensures resources == old(resources)[Slot(v, index) := res]
      ensures state == old(state) && csDispatchAxes == old(csDispatchAxes)
    {
      res := new Resource(v);
      res.InitFromScratch(d, access, resrcIndex);
      resources := resources[Slot(v, index) := res];
    }

    /** The part of init that resets the bundle: every count and flag
        cleared and the new command list recorded; the resources, the
        dispatch sizes, the index count and the layout index stay. */
    method Clear(cmdList: nat)
      requires Valid()
      modifies this
      ensures Valid() && Cleared(state) && state.cmdList == cmdList
      ensures state.numNdces == old(state.numNdces) && state.ilayout == old(state.ilayout)
      ensures resources == old(resources) && csDispatchAxes == old(csDispatchAxes)
    {
      state := state.(
        cbufferRegistered := false, numStructBuffers := 0, numTexturesReadOnly := 0,
        numTexturesRW := 0, numRenderTargets := 0, numTexturesStaging := 0,
        vbufferRegistered := false, iBufferRegistered := false, resolvedIlayout := false,
        asRegistered := false, depthStencilTexRegistered := false,
        cmdList := cmdList,
        numComputeShaders := 0, numGfxShaders := 0, numRaytracingShaders := 0);
    }

    /** A default-constructed resource placed in a slot, before anything
        is read into it. */
    method Reset(v: Variant, index: nat) returns (res: Resource)
      requires Valid()
      modifies this
      ensures Valid() && fresh(res) && res.variant == v && res.resrc == 0 && res.accessBits == 0
      ensures resources == old(resources)[Slot(v, index) := res]
      ensures state == old(state) && csDispatchAxes == old(csDispatchAxes)
    {
      res := new Resource(v);
      resources := resources[Slot(v, index) := res];
    }
  }

  /** pipelineData allocated on the first init: one bundle per pipeline. */
  method AllocateBundles() returns (bs: seq<Bundle>)
    ensures |bs| == MaxNumPipelines
    ensures forall i :: 0 <= i < |bs| ==>
      fresh(bs[i]) && bs[i].Valid() && bs[i].state == ZeroState() && bs[i].resources == map[]
    ensures forall i, j :: 0 <= i < j < |bs| ==> bs[i] != bs[j]
  {
    bs := [];
    while |bs| < MaxNumPipelines
      invariant |bs| <= MaxNumPipelines
      invariant forall i :: 0 <= i < |bs| ==>
        fresh(bs[i]) && bs[i].Valid() && bs[i].state == ZeroState() && bs[i].resources == map[]
      invariant forall i, j :: 0 <= i < j < |bs| ==> bs[i] != bs[j]
    {
      var b := new Bundle();
      bs := bs + [b];
    }
  }

  // ---------------------------------------------------------------------
  // The registry
  // ---------------------------------------------------------------------

  /** The globals the pipelines share: the id generator, the bundle array,
      the signature-binding flags, and the wrapper's command-list and
      input-layout tables. */
  class Registry {
    var idGenerator: nat
    var bundles: seq<Bundle>
    const binds: BindState
    const cmdLists: CmdListTable
    const layouts: InputLayoutTable

    /** The bundles exist, one per pipeline, once the first pipeline is set
        up; they are distinct; no signature is bound outside a bake. */
    ghost predicate Valid()
      reads this, binds
    {
      (if idGenerator == 0 then |bundles| == 0 else |bundles| == MaxNumPipelines)
      && (forall i, j :: 0 <= i < j < |bundles| ==> bundles[i] != bundles[j])
      && binds.Idle()
    }

    constructor ()
      ensures Valid() && idGenerator == 0 && fresh(binds) && fresh(cmdLists) && fresh(layouts)
      ensures layouts.Valid() && layouts.layouts == [] && cmdLists.numCmdLists == 0
    {
      idGenerator := 0;
      bundles := [];
      binds := new BindState();
      cmdLists := new CmdListTable();
      layouts := new InputLayoutTable();
    }

    /** The bundle of pipeline i, if allocated. */
    function BundleSet(i: nat): set<Bundle>
      reads this
    {
      if i < |bundles| then {bundles[i]} else {}
    }
  }

  /** Decode*Handle: the resource a handle names in the bundle of the
      pipeline that registered it, if that slot has been filled. */
  function Decode(r: Registry, h: ResrcHandle): (res: Option<Resource>)
    reads r, r.bundles
    ensures res.Some? <==> h.srcPipelineID < |r.bundles| && SlotOf(h) in r.bundles[h.srcPipelineID].resources
  {
    if h.srcPipelineID < |r.bundles| && SlotOf(h) in r.bundles[h.srcPipelineID].resources
    then Some(r.bundles[h.srcPipelineID].resources[SlotOf(h)])
    else None
  }

  // ---------------------------------------------------------------------
  // Sharing rules
  // ---------------------------------------------------------------------

  /** The variants RegisterSharedResrc asserts a source variant may be
      registered under: always itself; buffers only as buffers and textures
      only as textures; staging textures and acceleration structures only
      as themselves. */
  predicate SwitchAllows(src: Variant, dest: Variant): (ok: bool)
    ensures src == dest ==> ok
    ensures ok ==> (IsTexture(src) <==> IsTexture(dest))
    ensures ok ==> (src == TextureStaging <==> dest == TextureStaging)
    ensures ok ==> (src == RtAccelStructure <==> dest == RtAccelStructure)
  {
    match src
    case CBuffer => dest == CBuffer || dest == StructBufferRW || dest == VBuffer
    case VBuffer => dest == VBuffer || dest == StructBufferRW || dest == CBuffer
    case IBuffer => dest == IBuffer || dest == CBuffer
    case StructBufferRW => dest == StructBufferRW || dest == CBuffer || dest == VBuffer
    case TextureDirectWrite =>
      dest == TextureSupportsSampling || dest == TextureRenderTarget
      || dest == TextureDepthStencil || dest == TextureDirectWrite
    case TextureSupportsSampling => dest == TextureSupportsSampling || dest == TextureDirectWrite
    case TextureStaging => dest == TextureStaging
    case TextureRenderTarget =>
      dest == TextureDirectWrite || dest == TextureSupportsSampling || dest == TextureRenderTarget
    case TextureDepthStencil =>
      dest == TextureSupportsSampling || dest == TextureDirectWrite || dest == TextureDepthStencil
    case RtAccelStructure => dest == RtAccelStructure
  }

  /** The cross-variant buffer entries of the switch never survive the
      resource's own check: a buffer is only ever shared as itself. */
  lemma BufferSharingKeepsVariant(src: Variant, dest: Variant, bits: bv32)
    requires SwitchAllows(src, dest) && SharingValid(src, dest, bits)
    requires !IsTexture(src)
    ensures dest == src
  {
  }

  /** A texture is only shared as a texture, a staging texture only as a
      staging texture, and no other texture becomes one. */
  lemma TextureSharingStaysTexture(src: Variant, dest: Variant)
    requires SwitchAllows(src, dest) && IsTexture(src)
    ensures IsTexture(dest)
    ensures dest == TextureStaging <==> src == TextureStaging
  {
  }

  /** The pipelines' event records, read through their tags. */
  predicate AllShaderTyped(rs: seq<EventRecord>) {
    forall i :: 0 <= i < |rs| ==> ShaderTyped(rs[i].Value())
  }

  /** The calls one bake makes: a reset if the list was baked before, the
      events' calls, and the close. */
  function BakeCalls(baked: bool, evs: seq<Event>, t: Target): seq<DeviceCall> {
    (if baked then [ResetCmdList(t.cmdList)] else []) + IssueAll(evs, false, false, t) + [CloseCmdList(t.cmdList)]
  }

  /** A bake binds the compute signature once if some event dispatches and
      never otherwise, and the graphics signature likewise for draws. */
  lemma BakeBindsAtMostOnce(baked: bool, evs: seq<Event>, t: Target)
    ensures PipelineEvents.Count(BakeCalls(baked, evs, t), BindComputeResources(t)) ==
      (if HasCompute(evs) then 1 else 0)
    ensures PipelineEvents.Count(BakeCalls(baked, evs, t), BindGfxResources(t)) ==
      (if HasGfx(evs) then 1 else 0)
  {
    var head: seq<DeviceCall> := if baked then [ResetCmdList(t.cmdList)] else [];
    var mid := IssueAll(evs, false, false, t);
    var tail := [CloseCmdList(t.cmdList)];
    BindsAtMostOnce(evs, false, false, t);
    CountAppend(head, mid, BindComputeResources(t));
    CountAppend(head, mid, BindGfxResources(t));
    CountAppend(head + mid, tail, BindComputeResources(t));
    CountAppend(head + mid, tail, BindGfxResources(t));
    Singleton(CloseCmdList(t.cmdList));
    if baked {
      Singleton(ResetCmdList(t.cmdList));
    }
  }

  /** The root signature a pipeline resolves always enables its constant
      buffer, so its first range is the one-descriptor static CBV range at
      offset 0 and every other range starts after it. */
  lemma RootSignatureLeadsWithCbv(bl: BindList)
    requires bl.cbufferEnabled
    ensures |PackRanges(bl)| >= 1 && PackRanges(bl)[0] == Range(CBV, 1, 0, true)
    ensures forall k :: 1 <= k < |PackRanges(bl)| ==> PackRanges(bl)[k].offset >= 1
  {
    PackRangesExpected(bl);
  }

  /** The loop of BakeCmdList over the recorded events: every event is
      issued in order, and the binding flags end up saying whether some
      event dispatched or drew. */
  method IssueLog(records: seq<EventRecord>, binds: BindState, t: Target) returns (calls: seq<DeviceCall>)
    requires binds.Idle() && AllShaderTyped(records)
    modifies binds
    ensures calls == IssueAll(Values(records), false, false, t)
    ensures binds.computeSigBound == HasCompute(Values(records))
    ensures binds.gfxSigBound == HasGfx(Values(records))
    ensures !binds.rtSigBound
  {
    ghost var log := Values(records);
    calls := [];
    var i := 0;
    while i < |records|
      invariant 0 <= i <= |records|
      invariant calls == IssueAll(log[..i], false, false, t)
      invariant binds.computeSigBound == HasCompute(log[..i])
      invariant binds.gfxSigBound == HasGfx(log[..i])
      invariant !binds.rtSigBound
    {
      var c := IssueToCmdList(records[i], binds, t);
      calls := calls + c;
      assert log[..i + 1][..i] == log[..i];
      HasComputeStep(log[..i + 1]);
      i := i + 1;
    }
    assert log[..i] == log;
  }

  // ---------------------------------------------------------------------
  // Pipelines
  // ---------------------------------------------------------------------

  /** The pipeline's own settings, compared as one value. */
  datatype Settings = Settings(
    id: nat, pipelineBaked: bool, dynamicallyBakedPipeline: bool, resolvedRootSig: bool,
    pointSamplerEnabled: bool, linearSamplerEnabled: bool, rootSig: nat, numDependencies: nat)

  /** Pipeline: its id, its root signature and sampler settings, and the
      fixed array of recorded events. */
  class Pipeline {
    var id: nat
    const events: array<EventRecord>
    var numEvents: nat
    var pipelineBaked: bool
    var dynamicallyBakedPipeline: bool
    var resolvedRootSig: bool
    var pointSamplerEnabled: bool
    var linearSamplerEnabled: bool
    var rootSig: nat
    var numDependencies: nat

    ghost predicate Valid()
      reads this
    {
      events.Length == MaxPipelineDepth && numEvents <= MaxPipelineDepth
    }

    function Current(): Settings
      reads this
    {
      Settings(id, pipelineBaked, dynamicallyBakedPipeline, resolvedRootSig,
               pointSamplerEnabled, linearSamplerEnabled, rootSig, numDependencies)
    }

    /** The events recorded so far, as their tags select them. */
    ghost function Log(): seq<Event>
      reads this, events
      requires Valid()
    {
      Values(events[..numEvents])
    }

    /** Pipeline(): member defaults and a default event in every slot. */
    constructor ()
      ensures Valid() && fresh(events) && numEvents == 0
      ensures Current() == Settings(0, false, false, false, false, false, 0, 0)
      ensures forall i :: 0 <= i < events.Length ==> events[i] == DefaultEvent()
    {
      id := 0;
      events := new EventRecord[MaxPipelineDepth](_ => DefaultEvent());
      numEvents := 0;
      pipelineBaked := false;
      dynamicallyBakedPipeline := false;
      resolvedRootSig := false;
      pointSamplerEnabled := false;
      linearSamplerEnabled := false;
      rootSig := 0;
      numDependencies := 0;
    }

    /** init: take the next id, allocate the bundles on the first pipeline,
        clear this pipeline's bundle, open its command list, and reset the
        pipeline's own state. */
    method Init(r: Registry, isDynamic: bool) returns (created: bool)
      requires Valid() && r.Valid() && r.idGenerator < MaxNumPipelines
      requires r.idGenerator < |r.bundles| ==> r.bundles[r.idGenerator].Valid()
      modifies this, r, r.cmdLists, r.BundleSet(r.idGenerator)
      ensures Valid() && r.Valid()
      ensures id == old(r.idGenerator) && r.idGenerator == id + 1 && id < |r.bundles|
      ensures id == 0 ==> forall i :: 0 <= i < |r.bundles| ==>
        fresh(r.bundles[i]) && r.bundles[i].Valid() && r.bundles[i].resources == map[]
      ensures id == 0 ==> r.bundles[id].state == ZeroState().(cmdList := r.bundles[id].state.cmdList)
      ensures id > 0 ==> r.bundles == old(r.bundles)
      ensures r.bundles[id].Valid() && Cleared(r.bundles[id].state)
      ensures id > 0 ==>
        r.bundles[id].resources == old(r.bundles[r.idGenerator].resources)
        && r.bundles[id].csDispatchAxes == old(r.bundles[r.idGenerator].csDispatchAxes)
        && r.bundles[id].state.numNdces == old(r.bundles[r.idGenerator].state.numNdces)
        && r.bundles[id].state.ilayout == old(r.bundles[r.idGenerator].state.ilayout)
      ensures r.bundles[id].state.cmdList == old(r.cmdLists.numCmdLists)
      ensures r.cmdLists.numCmdLists == old(r.cmdLists.numCmdLists) + 1
      ensures created <==> r.bundles[id].state.cmdList < MaxNumPipelines
      ensures numEvents == 0
      ensures Current() == Settings(id, false, isDynamic, false, false, false, old(rootSig), 0)
    {
      id := r.idGenerator;
      r.idGenerator := r.idGenerator + 1;
      if id == 0 {
        var bs := AllocateBundles();
        r.bundles := bs;
      }
      var b := r.bundles[id];
      var h;
      h, created := r.cmdLists.CreateCmdList();
      b.Clear(h);
      Reset(isDynamic);
    }

    /** The part of init that resets the pipeline's own state: no events,
        no dependencies, samplers off, nothing baked or resolved. */
    method Reset(isDynamic: bool)
      requires Valid()
      modifies this
      ensures Valid() && numEvents == 0
      ensures Current() == Settings(old(id), false, isDynamic, false, false, false, old(rootSig), 0)
    {
      numDependencies := 0;
      pointSamplerEnabled := false;
      linearSamplerEnabled := false;
      resolvedRootSig := false;
      numEvents := 0;
      pipelineBaked := false;
      dynamicallyBakedPipeline := isDynamic;
    }

    // -------------------------------------------------------------------
    // Fresh resources
    // -------------------------------------------------------------------

    /** RegisterStructBuffer, RegisterTextureDirectWrite,
        RegisterTextureSampleable and RegisterStagingTexture, and the
        intended RegisterRenderTarget: the resource goes into the next slot
        of its variant's array, that count goes up by one, and the handle
        returned decodes to the new resource. */
    method RegisterCounted(r: Registry, v: Variant, d: Desc, access: bv32, resrcIndex: nat)
      returns (h: ResrcHandle)
      requires Counted(v)
      requires id < |r.bundles| && r.bundles[id].Valid()
      requires CountOf(r.bundles[id].state, v) < Capacity(v)
      requires DescFits(v, d) && (v == TextureStaging ==> access == Bit(CopiesOnly))
      modifies r.bundles[id]
      ensures r.bundles[id].Valid()
      ensures h == ResrcHandle(CountOf(old(r.bundles[id].state), v), v, id)
      ensures r.bundles[id].state == Bump(old(r.bundles[id].state), v)
      ensures Decode(r, h).Some? && fresh(Decode(r, h).value)
      ensures Made(Decode(r, h).value, v, d, access, resrcIndex)
      ensures r.bundles[id].resources == old(r.bundles[id].resources)[SlotOf(h) := Decode(r, h).value]
      ensures r.bundles[id].csDispatchAxes == old(r.bundles[id].csDispatchAxes)
    {
      var b := r.bundles[id];
      var n := CountOf(b.state, v);
      var res := b.Store(v, n, d, access, resrcIndex);
      h := ResrcHandle(n, v, id);
      b.state := Bump(b.state, v);
    }

    /** RegisterCBuffer as written: it asserts the flag is clear but never
        sets it, so the bundle's state is left exactly as it was. */
    method RegisterCBufferAsWritten(r: Registry, d: Desc, access: bv32, resrcIndex: nat)
      returns (h: ResrcHandle)
      requires id < |r.bundles| && r.bundles[id].Valid()
      requires !r.bundles[id].state.cbufferRegistered
      requires DescFits(CBuffer, d)
      modifies r.bundles[id]
      ensures r.bundles[id].Valid()
      ensures h == ResrcHandle(0, CBuffer, id)
      ensures r.bundles[id].state == old(r.bundles[id].state)
      ensures Decode(r, h).Some? && fresh(Decode(r, h).value)
      ensures Made(Decode(r, h).value, CBuffer, d, access, resrcIndex)
      ensures r.bundles[id].resources == old(r.bundles[id].resources)[SlotOf(h) := Decode(r, h).value]
      ensures r.bundles[id].csDispatchAxes == old(r.bundles[id].csDispatchAxes)
    {
      var b := r.bundles[id];
      var res := b.Store(CBuffer, 0, d, access, resrcIndex);
      h := ResrcHandle(0, CBuffer, id);
    }

    /** Two registrations of a constant buffer in a row both pass the
        assert; the second silently replaces the first. */
    method CBufferTwiceAsWritten(r: Registry, d1: Desc, d2: Desc, access: bv32, i1: nat, i2: nat)
      returns (h1: ResrcHandle, h2: ResrcHandle)
      requires id < |r.bundles| && r.bundles[id].Valid()
      requires !r.bundles[id].state.cbufferRegistered
      requires DescFits(CBuffer, d1) && DescFits(CBuffer, d2)
      modifies r.bundles[id]
      ensures h1 == h2 && Decode(r, h2).Some? && Made(Decode(r, h2).value, CBuffer, d2, access, i2)
    {
      h1 := RegisterCBufferAsWritten(r, d1, access, i1);
      h2 := RegisterCBufferAsWritten(r, d2, access, i2);
    }

    /** RegisterCBuffer as intended: the flag is set, so a second fresh
        registration is refused. */
    method RegisterCBuffer(r: Registry, d: Desc, access: bv32, resrcIndex: nat)
      returns (h: ResrcHandle)
      requires id < |r.bundles| && r.bundles[id].Valid()
      requires !r.bundles[id].state.cbufferRegistered
      requires DescFits(CBuffer, d)
      modifies r.bundles[id]
      ensures r.bundles[id].Valid()
      ensures h == ResrcHandle(0, CBuffer, id)
      ensures r.bundles[id].state == old(r.bundles[id].state).(cbufferRegistered := true)
      ensures Decode(r, h).Some? && fresh(Decode(r, h).value)
      ensures Made(Decode(r, h).value, CBuffer, d, access, resrcIndex)
      ensures r.bundles[id].resources == old(r.bundles[id].resources)[SlotOf(h) := Decode(r, h).value]
      ensures r.bundles[id].csDispatchAxes == old(r.bundles[id].csDispatchAxes)
    {
      var b := r.bundles[id];
      var res := b.Store(CBuffer, 0, d, access, resrcIndex);
      b.state := b.state.(cbufferRegistered := true);
      h := ResrcHandle(0, CBuffer, id);
    }

    /** RegisterRenderTarget as written: the render target goes into slot
        numRenderTargets, but numTexturesReadOnly is the count that goes up
        and the handle is tagged as a direct-write texture.  Every call
        therefore fills the same slot and returns the same handle, and that
        handle does not decode to the render target just registered. */
    method RegisterRenderTargetAsWritten(r: Registry, d: Desc, access: bv32, resrcIndex: nat)
      returns (h: ResrcHandle)
      requires id < |r.bundles| && r.bundles[id].Valid()
      requires r.bundles[id].state.numRenderTargets < MaxNumRenderTargets
      requires DescFits(TextureRenderTarget, d)
      modifies r.bundles[id]
      ensures r.bundles[id].Valid()
      ensures var n := old(r.bundles[id].state.numRenderTargets);
        h == ResrcHandle(n, TextureDirectWrite, id)
        && Slot(TextureRenderTarget, n) in r.bundles[id].resources
        && fresh(r.bundles[id].resources[Slot(TextureRenderTarget, n)])
        && Made(r.bundles[id].resources[Slot(TextureRenderTarget, n)], TextureRenderTarget, d, access, resrcIndex)
        && r.bundles[id].resources == old(r.bundles[id].resources)[Slot(TextureRenderTarget, n) :=
             r.bundles[id].resources[Slot(TextureRenderTarget, n)]]
        && Decode(r, h) != Some(r.bundles[id].resources[Slot(TextureRenderTarget, n)])
      ensures r.bundles[id].state ==
        old(r.bundles[id].state).(numTexturesReadOnly := old(r.bundles[id].state.numTexturesReadOnly) + 1)
      ensures r.bundles[id].csDispatchAxes == old(r.bundles[id].csDispatchAxes)
    {
      var b := r.bundles[id];
      var n := b.state.numRenderTargets;
      var res := b.Store(TextureRenderTarget, n, d, access, resrcIndex);
      h := ResrcHandle(n, TextureDirectWrite, id);
      b.state := b.state.(numTexturesReadOnly := b.state.numTexturesReadOnly + 1);
    }

    /** RegisterDepthStencil: one per pipeline; a second registration is
        refused. */
    method RegisterDepthStencil(r: Registry, d: Desc, access: bv32, resrcIndex: nat)
      returns (h: ResrcHandle)
      requires id < |r.bundles| && r.bundles[id].Valid()
      requires !r.bundles[id].state.depthStencilTexRegistered
      requires DescFits(TextureDepthStencil, d)
      modifies r.bundles[id]
      ensures r.bundles[id].Valid()
      ensures h == ResrcHandle(0, TextureDepthStencil, id)
      ensures r.bundles[id].state == old(r.bundles[id].state).(depthStencilTexRegistered := true)
      ensures Decode(r, h).Some? && fresh(Decode(r, h).value)
      ensures Made(Decode(r, h).value, TextureDepthStencil, d, access, resrcIndex)
      ensures r.bundles[id].resources == old(r.bundles[id].resources)[SlotOf(h) := Decode(r, h).value]
      ensures r.bundles[id].csDispatchAxes == old(r.bundles[id].csDispatchAxes)
    {
      var b := r.bundles[id];
      var res := b.Store(TextureDepthStencil, 0, d, access, resrcIndex);
      b.state := b.state.(depthStencilTexRegistered := true);
      h := ResrcHandle(0, TextureDepthStencil, id);
    }

    /** RegisterVBuffer: stores the vertex buffer and resolves its input
        layout at once. */
    method RegisterVBuffer(r: Registry, d: Desc, access: bv32, resrcIndex: nat)
      returns (h: ResrcHandle)
      requires id < |r.bundles| && r.bundles[id].Valid()
      requires DescFits(VBuffer, d) && CanResolve(r.layouts, d)
      modifies r.bundles[id], r.layouts
      ensures r.bundles[id].Valid() && r.layouts.Valid()
      ensures h == ResrcHandle(0, VBuffer, id)
      ensures Decode(r, h).Some? && fresh(Decode(r, h).value)
      ensures Made(Decode(r, h).value, VBuffer, d, access, resrcIndex)
      ensures r.bundles[id].resources == old(r.bundles[id].resources)[SlotOf(h) := Decode(r, h).value]
      ensures r.bundles[id].csDispatchAxes == old(r.bundles[id].csDispatchAxes)
      ensures var s := r.bundles[id].state;
        s == old(r.bundles[id].state).(vbufferRegistered := true, resolvedIlayout := true, ilayout := s.ilayout)
        && LayoutResolved(r.layouts, old(r.layouts.layouts), s.ilayout, d)
    {
      var b := r.bundles[id];
      var res := b.Store(VBuffer, 0, d, access, resrcIndex);
      var index := r.layouts.Resolve(d.eltFmts, d.eltSemantics, d.numEltsPerVert);
      b.state := b.state.(vbufferRegistered := true, resolvedIlayout := true, ilayout := index);
      h := ResrcHandle(0, VBuffer, id);
    }

    /** RegisterIBuffer: the index count is the description's first
        dimension. */
    method RegisterIBuffer(r: Registry, d: Desc, access: bv32, resrcIndex: nat)
      returns (h: ResrcHandle)
      requires id < |r.bundles| && r.bundles[id].Valid()
      requires DescFits(IBuffer, d)
      modifies r.bundles[id]
      ensures r.bundles[id].Valid()
      ensures h == ResrcHandle(0, IBuffer, id)
      ensures r.bundles[id].state ==
        old(r.bundles[id].state).(numNdces := d.dimensions[0], iBufferRegistered := true)
      ensures Decode(r, h).Some? && fresh(Decode(r, h).value)
      ensures Made(Decode(r, h).value, IBuffer, d, access, resrcIndex)
      ensures r.bundles[id].resources == old(r.bundles[id].resources)[SlotOf(h) := Decode(r, h).value]
      ensures r.bundles[id].csDispatchAxes == old(r.bundles[id].csDispatchAxes)
    {
      var b := r.bundles[id];
      var res := b.Store(IBuffer, 0, d, access, resrcIndex);
      b.state := b.state.(numNdces := d.dimensions[0], iBufferRegistered := true);
      h := ResrcHandle(0, IBuffer, id);
    }

    /** RegisterAccelerationStructure. */
    method RegisterAccelerationStructure(r: Registry, d: Desc, access: bv32, resrcIndex: nat)
      returns (h: ResrcHandle)
      requires id < |r.bundles| && r.bundles[id].Valid()
      requires DescFits(RtAccelStructure, d)
      modifies r.bundles[id]
      ensures r.bundles[id].Valid()
      ensures h == ResrcHandle(0, RtAccelStructure, id)
      ensures r.bundles[id].state == old(r.bundles[id].state).(asRegistered := true)
      ensures Decode(r, h).Some? && fresh(Decode(r, h).value)
      ensures Made(Decode(r, h).value, RtAccelStructure, d, access, resrcIndex)
      ensures r.bundles[id].resources == old(r.bundles[id].resources)[SlotOf(h) := Decode(r, h).value]
      ensures r.bundles[id].csDispatchAxes == old(r.bundles[id].csDispatchAxes)
    {
      var b := r.bundles[id];
      var res := b.Store(RtAccelStructure, 0, d, access, resrcIndex);
      b.state := b.state.(asRegistered := true);
      h := ResrcHandle(0, RtAccelStructure, id);
    }

    // -------------------------------------------------------------------
    // Shared resources
    // -------------------------------------------------------------------

    /** Whether a sharing call names the very slot it fills: the source
        resets that slot before it reads the source resource. */
    ghost predicate SelfShare(r: Registry, dest: Variant, src: ResrcHandle)
      reads this, r, r.bundles
      requires id < |r.bundles|
    {
      src.srcPipelineID == id && SlotOf(src) == Slot(dest, CountOf(r.bundles[id].state, dest))
    }

    /** The shared Register* members and RegisterSharedResrc: the
        destination slot is reset, the source resource is decoded from the
        pipeline that registered it, checked against the switch's allowed
        variants and copied, and the handle returned carries the
        destination variant, this pipeline and the slot index.  Array
        variants advance their count. */
    method RegisterShared(r: Registry, dest: Variant, src: ResrcHandle)
      returns (h: ResrcHandle, t: Option<Transition>)
      requires dest != TextureDepthStencil && dest != RtAccelStructure
      requires r.Valid() && id < |r.bundles| && r.bundles[id].Valid()
      requires src.srcPipelineID < |r.bundles| && r.bundles[src.srcPipelineID].Valid()
      requires Counted(dest) ==> CountOf(r.bundles[id].state, dest) < Capacity(dest)
      requires Decode(r, src).Some?
      requires SwitchAllows(src.objFmt, dest)
      requires SharingValid(src.objFmt, dest, Decode(r, src).value.accessBits)
      modifies r.bundles[id]
      ensures r.bundles[id].Valid()
      ensures h == ResrcHandle(CountOf(old(r.bundles[id].state), dest), dest, id)
      ensures r.bundles[id].state == Bump(old(r.bundles[id].state), dest)
      ensures t == TransitionFor(src.objFmt, dest)
      ensures Decode(r, h).Some? && fresh(Decode(r, h).value) && Decode(r, h).value.variant == dest
      ensures r.bundles[id].resources == old(r.bundles[id].resources)[SlotOf(h) := Decode(r, h).value]
      ensures r.bundles[id].csDispatchAxes == old(r.bundles[id].csDispatchAxes)
      ensures !old(SelfShare(r, dest, src)) ==>
        Decode(r, h).value.desc == old(Decode(r, src).value.desc)
        && Decode(r, h).value.resrc == old(Decode(r, src).value.resrc)
        && Decode(r, h).value.accessBits == old(Decode(r, src).value.accessBits)
      ensures old(SelfShare(r, dest, src)) ==>
        Decode(r, h).value.resrc == 0 && Decode(r, h).value.accessBits == 0
    {
      var b := r.bundles[id];
      var n := CountOf(b.state, dest);
      ghost var self := SelfShare(r, dest, src);
      ghost var srcOld := Decode(r, src).value;
      assert src.srcPipelineID != id ==> r.bundles[src.srcPipelineID] != b by {
        if src.srcPipelineID < id {
          assert r.bundles[src.srcPipelineID] != r.bundles[id];
        } else if src.srcPipelineID > id {
          assert r.bundles[id] != r.bundles[src.srcPipelineID];
        }
      }
      var dst := b.Reset(dest, n);
      var srcRes := Decode(r, src).value;
      assert self ==> srcRes == dst;
      assert !self ==> srcRes == srcOld && srcRes.variant == src.objFmt;
      t := dst.InitFromSharedResrc(srcRes);
      h := ResrcHandle(n, dest, id);
      b.state := Bump(b.state, dest);
      assert SlotOf(h) == Slot(dest, n);
    }

    // -------------------------------------------------------------------
    // Root signature, input layout, samplers
    // -------------------------------------------------------------------

    /** EnableStaticSamplers: both static samplers on. */
    method EnableStaticSamplers()
      modifies this
      ensures Current() == old(Current()).(pointSamplerEnabled := true, linearSamplerEnabled := true)
      ensures numEvents == old(numEvents)
    {
      pointSamplerEnabled := true;
      linearSamplerEnabled := true;
    }

    /** ResolveRootSignature: the bind list handed to the wrapper (the
        constant buffer always enabled, the acceleration structure when one
        is registered) and the signature the wrapper returns (sig). */
    method ResolveRootSignature(r: Registry, sig: nat) returns (bl: BindList)
      requires id < |r.bundles|
      modifies this
      ensures Current() == old(Current()).(resolvedRootSig := true, rootSig := sig)
      ensures var s := r.bundles[id].state;
        bl == BindList(true, s.numStructBuffers, s.numTexturesRW, s.numTexturesReadOnly,
                       s.asRegistered, old(pointSamplerEnabled), old(linearSamplerEnabled))
      ensures NumDescriptors(bl) == 1 + NumSRVs(bl) + NumUAVs(bl)
      ensures numEvents == old(numEvents)
    {
      var s := r.bundles[id].state;
      bl := BindList(true, s.numStructBuffers, s.numTexturesRW, s.numTexturesReadOnly,
                     s.asRegistered, pointSamplerEnabled, linearSamplerEnabled);
      rootSig := sig;
      resolvedRootSig := true;
    }

    /** ResolveInputLayout: re-resolves the layout of the registered
        vertex buffer. */
    method ResolveInputLayout(r: Registry)
      requires id < |r.bundles| && r.bundles[id].Valid()
      requires r.bundles[id].state.vbufferRegistered
      requires CanResolve(r.layouts, r.bundles[id].resources[Slot(VBuffer, 0)].desc)
      modifies r.bundles[id], r.layouts
      ensures r.bundles[id].Valid() && r.layouts.Valid()
      ensures r.bundles[id].resources == old(r.bundles[id].resources)
      ensures r.bundles[id].csDispatchAxes == old(r.bundles[id].csDispatchAxes)
      ensures var s := r.bundles[id].state;
        s == old(r.bundles[id].state).(ilayout := s.ilayout)
        && LayoutResolved(r.layouts, old(r.layouts.layouts), s.ilayout,
                          r.bundles[id].resources[Slot(VBuffer, 0)].desc)
    {
      var b := r.bundles[id];
      var d := b.resources[Slot(VBuffer, 0)].desc;
      var index := r.layouts.Resolve(d.eltFmts, d.eltSemantics, d.numEltsPerVert);
      b.state := b.state.(ilayout := index);
    }

    // -------------------------------------------------------------------
    // Shaders
    // -------------------------------------------------------------------

    /** RegisterComputeShader: needs the root signature; records the
        dispatch size under the new shader's index. */
    method RegisterComputeShader(r: Registry, dispatchX: nat, dispatchY: nat, dispatchZ: nat)
      returns (h: ShaderHandle)
      requires id < |r.bundles| && r.bundles[id].Valid()
      requires resolvedRootSig
      requires r.bundles[id].state.numComputeShaders < MaxNumShaders
      modifies r.bundles[id]
      ensures r.bundles[id].Valid()
      ensures var n := old(r.bundles[id].state.numComputeShaders);
        h == ShaderHandle(n, Compute, id)
        && r.bundles[id].state == old(r.bundles[id].state).(numComputeShaders := n + 1)
        && r.bundles[id].csDispatchAxes == old(r.bundles[id].csDispatchAxes)[n := Axes(dispatchX, dispatchY, dispatchZ)]
      ensures r.bundles[id].resources == old(r.bundles[id].resources)
    {
      var b := r.bundles[id];
      var n := b.state.numComputeShaders;
      b.csDispatchAxes := b.csDispatchAxes[n := Axes(dispatchX, dispatchY, dispatchZ)];
      h := ShaderHandle(n, Compute, id);
      b.state := b.state.(numComputeShaders := n + 1);
    }

    /** RegisterGraphicsShader: needs the root signature, a vertex buffer
        when an index buffer is registered, an input layout when a vertex
        buffer is, and a depth-stencil texture when depth or stencil
        testing is on. */
    method RegisterGraphicsShader(r: Registry, depthEnabled: bool, stencilEnabled: bool)
      returns (h: ShaderHandle)
      requires id < |r.bundles| && r.bundles[id].Valid()
      requires resolvedRootSig
      requires r.bundles[id].state.iBufferRegistered ==> r.bundles[id].state.vbufferRegistered
      requires r.bundles[id].state.vbufferRegistered ==> r.bundles[id].state.resolvedIlayout
      requires depthEnabled || stencilEnabled ==> r.bundles[id].state.depthStencilTexRegistered
      requires r.bundles[id].state.numGfxShaders < MaxNumShaders
      modifies r.bundles[id]
      ensures r.bundles[id].Valid()
      ensures var n := old(r.bundles[id].state.numGfxShaders);
        h == ShaderHandle(n, Graphics, id)
        && r.bundles[id].state == old(r.bundles[id].state).(numGfxShaders := n + 1)
      ensures r.bundles[id].resources == old(r.bundles[id].resources)
      ensures r.bundles[id].csDispatchAxes == old(r.bundles[id].csDispatchAxes)
    {
      var b := r.bundles[id];
      var n := b.state.numGfxShaders;
      h := ShaderHandle(n, Graphics, id);
      b.state := b.state.(numGfxShaders := n + 1);
    }

    /** RegisterRaytracingShader: needs the root signature. */
    method RegisterRaytracingShader(r: Registry) returns (h: ShaderHandle)
      requires id < |r.bundles| && r.bundles[id].Valid()
      requires resolvedRootSig
      requires r.bundles[id].state.numRaytracingShaders < MaxNumShaders
      modifies r.bundles[id]
      ensures r.bundles[id].Valid()
      ensures var n := old(r.bundles[id].state.numRaytracingShaders);
        h == ShaderHandle(n, Raytracing, id)
        && r.bundles[id].state == old(r.bundles[id].state).(numRaytracingShaders := n + 1)
      ensures r.bundles[id].resources == old(r.bundles[id].resources)
      ensures r.bundles[id].csDispatchAxes == old(r.bundles[id].csDispatchAxes)
    {
      var b := r.bundles[id];
      var n := b.state.numRaytracingShaders;
      h := ShaderHandle(n, Raytracing, id);
      b.state := b.state.(numRaytracingShaders := n + 1);
    }

    // -------------------------------------------------------------------
    // Events
    // -------------------------------------------------------------------

    /** AppendClear: one clear recorded after the others. */
    method AppendClear(clear: ClearEvent)
      requires Valid() && numEvents < MaxPipelineDepth
      modifies this, events
      ensures Valid() && Log() == old(Log()) + [ClearEvt(clear)]
      ensures Current() == old(Current())
    {
      events[numEvents] := events[numEvents].AssignClear(clear);
      numEvents := numEvents + 1;
      assert events[..numEvents] == old(events[..numEvents]) + [events[numEvents - 1]];
    }

    /** AppendCopy. */
    method AppendCopy(cpy: CopyEvent)
      requires Valid() && numEvents < MaxPipelineDepth
      modifies this, events
      ensures Valid() && Log() == old(Log()) + [CopyEvt(cpy)]
      ensures Current() == old(Current())
    {
      events[numEvents] := events[numEvents].AssignCopy(cpy);
      numEvents := numEvents + 1;
      assert events[..numEvents] == old(events[..numEvents]) + [events[numEvents - 1]];
    }

    /** AppendComputeExec: the dispatch size comes from this pipeline's
        bundle, at the shader's index. */
    method AppendComputeExec(r: Registry, shader: ShaderHandle)
      requires Valid() && numEvents < MaxPipelineDepth
      requires id < |r.bundles| && r.bundles[id].Valid() && shader.index < MaxNumShaders
      modifies this, events
      ensures Current() == old(Current())
      ensures Valid()
      ensures Log() == old(Log()) + [ComputeEvt(ComputeEvent(shader, id, r.bundles[id].csDispatchAxes[shader.index]))]
    {
      var axes := r.bundles[id].csDispatchAxes[shader.index];
      events[numEvents] := events[numEvents].AssignComputeExec(ComputeEvent(shader, id, axes));
      numEvents := numEvents + 1;
      assert events[..numEvents] == old(events[..numEvents]) + [events[numEvents - 1]];
    }

    /** AppendGFX_Exec: the index count comes from this pipeline's
        bundle. */
    method AppendGfxExec(r: Registry, shader: ShaderHandle)
      requires Valid() && numEvents < MaxPipelineDepth
      requires id < |r.bundles|
      modifies this, events
      ensures Current() == old(Current())
      ensures Valid()
      ensures Log() == old(Log()) + [GfxEvt(GfxEvent(shader, id, r.bundles[id].state.numNdces))]
    {
      var n := r.bundles[id].state.numNdces;
      events[numEvents] := events[numEvents].AssignGraphicsExec(GfxEvent(shader, id, n));
      numEvents := numEvents + 1;
      assert events[..numEvents] == old(events[..numEvents]) + [events[numEvents - 1]];
    }

    /** ResetStagingCmds: forget the recorded events. */
    method ResetStagingCmds()
      requires Valid()
      modifies this
      ensures Valid() && Log() == []
      ensures Current() == old(Current())
    {
      numEvents := 0;
    }

    // -------------------------------------------------------------------
    // Baking and submission
    // -------------------------------------------------------------------

    /** The calls that go to this pipeline's command list. */
    function TargetOf(r: Registry): Target
      reads this, r, r.bundles
      requires id < |r.bundles|
    {
      Target(r.bundles[id].state.cmdList, rootSig, id)
    }

    /** BakeCmdList: reset the list if it was baked before, issue every
        recorded event in order, close the list, mark the pipeline baked,
        clear the shared binding flags, and forget the events unless the
        pipeline is re-baked every frame. */
    method BakeCmdList(r: Registry) returns (calls: seq<DeviceCall>)
      requires Valid() && r.Valid() && id < |r.bundles|
      requires AllShaderTyped(events[..numEvents])
      modifies this, r.binds
      ensures Current() == old(Current()).(pipelineBaked := true)
      ensures Valid() && r.Valid()
      ensures calls == BakeCalls(old(pipelineBaked), old(Log()), TargetOf(r))
      ensures numEvents == if dynamicallyBakedPipeline then old(numEvents) else 0
    {
      var t := Target(r.bundles[id].state.cmdList, rootSig, id);
      var issued := IssueLog(events[..numEvents], r.binds, t);
      calls := (if pipelineBaked then [ResetCmdList(t.cmdList)] else []) + issued;
      calls := calls + [CloseCmdList(t.cmdList)];
      pipelineBaked := true;
      r.binds.gfxSigBound := false;
      r.binds.computeSigBound := false;
      r.binds.rtSigBound := false;
      if !dynamicallyBakedPipeline {
        numEvents := 0;
      }
    }

    /** SubmitCmdList: bake first if and only if events are pending, then
        issue the list if and only if the pipeline has been baked. */
    method SubmitCmdList(r: Registry, synchronous: bool) returns (calls: seq<DeviceCall>)
      requires Valid() && r.Valid() && id < |r.bundles|
      requires AllShaderTyped(events[..numEvents])
      modifies this, r.binds
      ensures Current() == old(Current()).(pipelineBaked := pipelineBaked)
      ensures Valid() && r.Valid()
      ensures pipelineBaked == (old(pipelineBaked) || old(numEvents) > 0)
      ensures calls ==
        (if old(numEvents) > 0 then BakeCalls(old(pipelineBaked), old(Log()), TargetOf(r)) else [])
        + (if pipelineBaked then [IssueWork(r.bundles[id].state.cmdList, synchronous, id)] else [])
      ensures numEvents == if old(numEvents) > 0 && !dynamicallyBakedPipeline then 0 else old(numEvents)
    {
      calls := [];
      if numEvents > 0 {
        calls := BakeCmdList(r);
      }
      if pipelineBaked {
        calls := calls + [IssueWork(r.bundles[id].state.cmdList, synchronous, id)];
      }
    }
  }

  // ---------------------------------------------------------------------
  // Input layouts reached from a pipeline
  // ---------------------------------------------------------------------

  /** What ResolveInputLayout needs of a vertex-buffer description and of
      the layout table. */
  ghost predicate CanResolve(t: InputLayoutTable, d: Desc)
    reads t
  {
    t.Valid() && d.VBufferDesc?
    && d.numEltsPerVert <= |d.eltFmts| && d.numEltsPerVert <= |d.eltSemantics|
    && (forall i :: 0 <= i < d.numEltsPerVert ==> Decodable(d.eltFmts[i]))
    && (LayoutOf(d.eltFmts, d.eltSemantics, d.numEltsPerVert) !in t.layouts ==> |t.layouts| < MaxInputLayouts)
  }

  /** The layout at index is the description's, and the table either was
      left alone or gained exactly that layout at its end. */
  ghost predicate LayoutResolved(t: InputLayoutTable, before: seq<seq<Element>>, index: nat, d: Desc)
    reads t
  {
    d.VBufferDesc? && d.numEltsPerVert <= |d.eltFmts| && d.numEltsPerVert <= |d.eltSemantics|
    && (forall i :: 0 <= i < d.numEltsPerVert ==> Decodable(d.eltFmts[i]))
    && index < |t.layouts| && t.layouts[index] == LayoutOf(d.eltFmts, d.eltSemantics, d.numEltsPerVert)
    && (t.layouts == before || t.layouts == before + [LayoutOf(d.eltFmts, d.eltSemantics, d.numEltsPerVert)])
  }
}
