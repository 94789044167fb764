/**
 * The recorded work of a pipeline: object handles, the event payloads, the
 * tagged event record kept in a pipeline's fixed event array, and the
 * device calls baking issues for a sequence of events.
 */
module PipelineEvents {
  import opened Enums

  /** SHADER_TYPES. */
  datatype ShaderType = Compute | Graphics | Raytracing

  /** PipelineObjectHandle<RESRC>: the index of a slot, the variant the
      handle views its resource as, and the pipeline that registered it. */
  datatype ResrcHandle = ResrcHandle(index: nat, objFmt: Variant, srcPipelineID: nat)

  /** PipelineObjectHandle<SHADER>. */
  datatype ShaderHandle = ShaderHandle(index: nat, objFmt: ShaderType, srcPipelineID: nat)

  /** A compute dispatch size (uvec3). */
  datatype Axes = Axes(x: nat, y: nat, z: nat)

  /** CopyEvent, ClearEvent (its clear value is a float and is left out),
      ComputeEvent and GFX_Event. */
  datatype CopyEvent = CopyEvent(src: ResrcHandle, dst: ResrcHandle, copyWidth: nat, copyHeight: nat)
  datatype ClearEvent = ClearEvent(resrc: ResrcHandle)
  datatype ComputeEvent = ComputeEvent(shader: ShaderHandle, pipelineID: nat, dispatchAxes: Axes)
  datatype GfxEvent = GfxEvent(shader: ShaderHandle, pipelineID: nat, numNdces: nat)

  /** PIPELINE_EVENT_TYPE. */
  datatype EventType = Copy | ComputeExec | GraphicsExec | Clear

  /** An event as its tag selects it: the one payload that is read. */
  datatype Event =
    | CopyEvt(cpy: CopyEvent)
    | ComputeEvt(compute: ComputeEvent)
    | GfxEvt(gfx: GfxEvent)
    | ClearEvt(clear: ClearEvent)

  function TypeOf(e: Event): EventType {
    match e
    case CopyEvt(_) => Copy
    case ComputeEvt(_) => ComputeExec
    case GfxEvt(_) => GraphicsExec
    case ClearEvt(_) => Clear
  }

  /** The payloads as memset to zero: index 0, the first variant or shader
      type, pipeline 0. */
  function ZeroResrcHandle(): ResrcHandle { ResrcHandle(0, VBuffer, 0) }
  function ZeroShaderHandle(): ShaderHandle { ShaderHandle(0, Compute, 0) }

  /** PipelineEvent: a tag and one payload per kind, all stored side by
      side.  It lives by value in the pipeline's event array, so it is a
      value here and its Assign* members return the updated record. */
  datatype EventRecord = EventRecord(
    evtType: EventType,
    cpy: CopyEvent,
    invocableGfx: GfxEvent,
    invocableCompute: ComputeEvent,
    clear: ClearEvent)
  {
    /** GetEvtType. */
    function GetEvtType(): EventType {
      evtType
    }

    /** The payload the tag selects. */
    function Value(): (e: Event)
      ensures TypeOf(e) == GetEvtType()
    {
      match evtType
      case Copy => CopyEvt(cpy)
      case ComputeExec => ComputeEvt(invocableCompute)
      case GraphicsExec => GfxEvt(invocableGfx)
      case Clear => ClearEvt(clear)
    }

    /** AssignClear: the record now reads as the given clear; the other
        payloads are kept. */
    function AssignClear(evt: ClearEvent): (r: EventRecord)
      ensures r.GetEvtType() == Clear && r.Value() == ClearEvt(evt)
      ensures r.cpy == cpy && r.invocableGfx == invocableGfx && r.invocableCompute == invocableCompute
    {
      this.(evtType := Clear, clear := evt)
    }

    /** AssignCopy. */
    function AssignCopy(evt: CopyEvent): (r: EventRecord)
      ensures r.GetEvtType() == Copy && r.Value() == CopyEvt(evt)
      ensures r.clear == clear && r.invocableGfx == invocableGfx && r.invocableCompute == invocableCompute
    {
      this.(evtType := Copy, cpy := evt)
    }

    /** AssignComputeExec. */
    function AssignComputeExec(evt: ComputeEvent): (r: EventRecord)
      ensures r.GetEvtType() == ComputeExec && r.Value() == ComputeEvt(evt)
      ensures r.clear == clear && r.cpy == cpy && r.invocableGfx == invocableGfx
    {
      this.(evtType := ComputeExec, invocableCompute := evt)
    }

    /** AssignGraphicsExec. */
    function AssignGraphicsExec(evt: GfxEvent): (r: EventRecord)
      ensures r.GetEvtType() == GraphicsExec && r.Value() == GfxEvt(evt)
      ensures r.clear == clear && r.cpy == cpy && r.invocableCompute == invocableCompute
    {
      this.(evtType := GraphicsExec, invocableGfx := evt)
    }
  }

  /** The default-constructed PipelineEvent: every payload zeroed, tagged as
      a compute dispatch. */
  function DefaultEvent(): (r: EventRecord)
    ensures r.GetEvtType() == ComputeExec
    ensures r.Value() == ComputeEvt(ComputeEvent(ZeroShaderHandle(), 0, Axes(0, 0, 0)))
  {
    EventRecord(
      ComputeExec,
      CopyEvent(ZeroResrcHandle(), ZeroResrcHandle(), 0, 0),
      GfxEvent(ZeroShaderHandle(), 0, 0),
      ComputeEvent(ZeroShaderHandle(), 0, Axes(0, 0, 0)),
      ClearEvent(ZeroResrcHandle()))
  }

  /** The tags of a sequence of records. */
  function Values(rs: seq<EventRecord>): (es: seq<Event>)
    ensures |es| == |rs| && forall i :: 0 <= i < |rs| ==> es[i] == rs[i].Value()
  {
    seq(|rs|, i requires 0 <= i < |rs| => rs[i].Value())
  }

  // ---------------------------------------------------------------------
  // Device calls
  // ---------------------------------------------------------------------

  /** The command list, root signature and pipeline every call of one bake
      names. */
  datatype Target = Target(cmdList: nat, rootSig: nat, pipelineID: nat)

  /** The wrapper calls a bake or a submission makes, in order.  The
      shaders' pipeline state objects are named by their handles. */
  datatype DeviceCall =
    | ResetCmdList(list: nat)
    | BindComputeResources(target: Target)
    | SubmitComputeExec(list: nat, axes: Axes, shader: ShaderHandle)
    | BindGfxResources(target: Target)
    | SubmitGraphicsExec(list: nat, numNdces: nat, shader: ShaderHandle, pipelineID: nat)
    | CloseCmdList(list: nat)
    | IssueWork(list: nat, synchronous: bool, pipelineID: nat)

  /** The signature-binding flags shared by every pipeline
      (computeSigBound, gfxSigBound, rtSigBound). */
  class BindState {
    var computeSigBound: bool
    var gfxSigBound: bool
    var rtSigBound: bool

    constructor ()
      ensures Idle()
    {
      computeSigBound, gfxSigBound, rtSigBound := false, false, false;
    }

    /** No signature is bound: the state outside a bake. */
    predicate Idle()
      reads this
    {
      !computeSigBound && !gfxSigBound && !rtSigBound
    }
  }

  /** The shader decoders assert that an exec event names a shader of its
      own kind. */
  predicate ShaderTyped(e: Event) {
    match e
    case ComputeEvt(c) => c.shader.objFmt == Compute
    case GfxEvt(g) => g.shader.objFmt == Graphics
    case _ => true
  }

  /** The calls one event issues, given whether the compute and graphics
      signatures are already bound: copies and clears issue nothing, an
      exec binds its signature the first time and then submits. */
  function IssueOne(e: Event, computeBound: bool, gfxBound: bool, t: Target): seq<DeviceCall> {
    match e
    case ComputeEvt(c) =>
      (if computeBound then [] else [BindComputeResources(t)])
      + [SubmitComputeExec(t.cmdList, c.dispatchAxes, c.shader)]
    case GfxEvt(g) =>
      (if gfxBound then [] else [BindGfxResources(t)])
      + [SubmitGraphicsExec(t.cmdList, g.numNdces, g.shader, t.pipelineID)]
    case _ => []
  }

  predicate HasCompute(evs: seq<Event>) {
    exists i :: 0 <= i < |evs| && evs[i].ComputeEvt?
  }

  predicate HasGfx(evs: seq<Event>) {
    exists i :: 0 <= i < |evs| && evs[i].GfxEvt?
  }

  /** The calls issued for events in order, starting from the given binding
      flags. */
  function IssueAll(evs: seq<Event>, cb: bool, gb: bool, t: Target): seq<DeviceCall>
    decreases |evs|
  {
    if |evs| == 0 then []
    else
      var init := evs[..|evs| - 1];
      IssueAll(init, cb, gb, t) + IssueOne(evs[|evs| - 1], cb || HasCompute(init), gb || HasGfx(init), t)
  }

  /** The dispatch or draw one event asks for, if any. */
  function SubmissionOf(e: Event, t: Target): seq<DeviceCall> {
    match e
    case ComputeEvt(c) => [SubmitComputeExec(t.cmdList, c.dispatchAxes, c.shader)]
    case GfxEvt(g) => [SubmitGraphicsExec(t.cmdList, g.numNdces, g.shader, t.pipelineID)]
    case _ => []
  }

  /** The dispatches and draws a sequence of events asks for, in order. */
  function Submissions(evs: seq<Event>, t: Target): seq<DeviceCall>
    decreases |evs|
  {
    if |evs| == 0 then []
    else Submissions(evs[..|evs| - 1], t) + SubmissionOf(evs[|evs| - 1], t)
  }

  /** The calls that are not signature bindings. */
  function Work(calls: seq<DeviceCall>): seq<DeviceCall>
    decreases |calls|
  {
    if |calls| == 0 then []
    else
      var c := calls[|calls| - 1];
      Work(calls[..|calls| - 1]) + (if c.BindComputeResources? || c.BindGfxResources? then [] else [c])
  }

  /** How many times a call occurs. */
  function Count(calls: seq<DeviceCall>, c: DeviceCall): nat
    decreases |calls|
  {
    if |calls| == 0 then 0
    else Count(calls[..|calls| - 1], c) + (if calls[|calls| - 1] == c then 1 else 0)
  }

  lemma {:induction false} CountAppend(a: seq<DeviceCall>, b: seq<DeviceCall>, c: DeviceCall)
    ensures Count(a + b, c) == Count(a, c) + Count(b, c)
    decreases |b|
  {
    if |b| == 0 {
      assert a + b == a;
    } else {
      assert (a + b)[..|a + b| - 1] == a + b[..|b| - 1];
      CountAppend(a, b[..|b| - 1], c);
    }
  }

  lemma {:induction false} WorkAppend(a: seq<DeviceCall>, b: seq<DeviceCall>)
    ensures Work(a + b) == Work(a) + Work(b)
    decreases |b|
  {
    if |b| == 0 {
      assert a + b == a;
    } else {
      assert (a + b)[..|a + b| - 1] == a + b[..|b| - 1];
      WorkAppend(a, b[..|b| - 1]);
    }
  }

  lemma HasComputeStep(evs: seq<Event>)
    requires |evs| > 0
    ensures HasCompute(evs) == (HasCompute(evs[..|evs| - 1]) || evs[|evs| - 1].ComputeEvt?)
    ensures HasGfx(evs) == (HasGfx(evs[..|evs| - 1]) || evs[|evs| - 1].GfxEvt?)
  {
    var init := evs[..|evs| - 1];
    if HasCompute(evs) && !evs[|evs| - 1].ComputeEvt? {
      var i :| 0 <= i < |evs| && evs[i].ComputeEvt?;
      assert init[i].ComputeEvt?;
    }
    if HasGfx(evs) && !evs[|evs| - 1].GfxEvt? {
      var i :| 0 <= i < |evs| && evs[i].GfxEvt?;
      assert init[i].GfxEvt?;
    }
  }

  /** Baking binds each signature at most once: exactly once when the bake
      starts unbound and some event of that kind is issued, never
      otherwise. */
  lemma {:induction false} BindsAtMostOnce(evs: seq<Event>, cb: bool, gb: bool, t: Target)
    ensures Count(IssueAll(evs, cb, gb, t), BindComputeResources(t)) ==
      (if !cb && HasCompute(evs) then 1 else 0)
    ensures Count(IssueAll(evs, cb, gb, t), BindGfxResources(t)) ==
      (if !gb && HasGfx(evs) then 1 else 0)
    decreases |evs|
  {
    if |evs| > 0 {
      var init, e := evs[..|evs| - 1], evs[|evs| - 1];
      var one := IssueOne(e, cb || HasCompute(init), gb || HasGfx(init), t);
      BindsAtMostOnce(init, cb, gb, t);
      HasComputeStep(evs);
      CountAppend(IssueAll(init, cb, gb, t), one, BindComputeResources(t));
      CountAppend(IssueAll(init, cb, gb, t), one, BindGfxResources(t));
      OneBinds(e, cb || HasCompute(init), gb || HasGfx(init), t);
    }
  }

  lemma OneBinds(e: Event, cb: bool, gb: bool, t: Target)
    ensures Count(IssueOne(e, cb, gb, t), BindComputeResources(t)) == (if !cb && e.ComputeEvt? then 1 else 0)
    ensures Count(IssueOne(e, cb, gb, t), BindGfxResources(t)) == (if !gb && e.GfxEvt? then 1 else 0)
  {
    match e
    case ComputeEvt(c) =>
      var bind: seq<DeviceCall> := if cb then [] else [BindComputeResources(t)];
      var sub := SubmitComputeExec(t.cmdList, c.dispatchAxes, c.shader);
      CountAppend(bind, [sub], BindComputeResources(t));
      CountAppend(bind, [sub], BindGfxResources(t));
      Singleton(sub);
      if !cb { Singleton(BindComputeResources(t)); }
    case GfxEvt(g) =>
      var bind: seq<DeviceCall> := if gb then [] else [BindGfxResources(t)];
      var sub := SubmitGraphicsExec(t.cmdList, g.numNdces, g.shader, t.pipelineID);
      CountAppend(bind, [sub], BindComputeResources(t));
      CountAppend(bind, [sub], BindGfxResources(t));
      Singleton(sub);
      if !gb { Singleton(BindGfxResources(t)); }
    case _ =>
  }

  /** Count and Work of a one-call sequence. */
  lemma Singleton(x: DeviceCall)
    ensures forall c :: Count([x], c) == (if x == c then 1 else 0)
    ensures Work([x]) == if x.BindComputeResources? || x.BindGfxResources? then [] else [x]
  {
    assert [x][..0] == [];
  }

  /** Leaving out the bindings, baking issues exactly the dispatches and
      draws the events ask for, in the order of the events. */
  lemma {:induction false} WorkInOrder(evs: seq<Event>, cb: bool, gb: bool, t: Target)
    ensures Work(IssueAll(evs, cb, gb, t)) == Submissions(evs, t)
    decreases |evs|
  {
    if |evs| > 0 {
      var init, e := evs[..|evs| - 1], evs[|evs| - 1];
      var one := IssueOne(e, cb || HasCompute(init), gb || HasGfx(init), t);
      WorkInOrder(init, cb, gb, t);
      WorkAppend(IssueAll(init, cb, gb, t), one);
      WorkOne(e, cb || HasCompute(init), gb || HasGfx(init), t);
    }
  }

  lemma WorkOne(e: Event, cb: bool, gb: bool, t: Target)
    ensures Work(IssueOne(e, cb, gb, t)) == SubmissionOf(e, t)
  {
    match e
    case ComputeEvt(c) =>
      var bind: seq<DeviceCall> := if cb then [] else [BindComputeResources(t)];
      var sub := SubmitComputeExec(t.cmdList, c.dispatchAxes, c.shader);
      WorkAppend(bind, [sub]);
      Singleton(sub);
      if !cb { Singleton(BindComputeResources(t)); }
    case GfxEvt(g) =>
      var bind: seq<DeviceCall> := if gb then [] else [BindGfxResources(t)];
      var sub := SubmitGraphicsExec(t.cmdList, g.numNdces, g.shader, t.pipelineID);
      WorkAppend(bind, [sub]);
      Singleton(sub);
      if !gb { Singleton(BindGfxResources(t)); }
    case _ =>
  }

  /** A call that occurs is at some index. */
  lemma CountedIsPresent(calls: seq<DeviceCall>, c: DeviceCall)
    requires Count(calls, c) > 0
    ensures exists j :: 0 <= j < |calls| && calls[j] == c
    decreases |calls|
  {
    if calls[|calls| - 1] != c {
      CountedIsPresent(calls[..|calls| - 1], c);
      var j :| 0 <= j < |calls| - 1 && calls[..|calls| - 1][j] == c;
      assert calls[j] == c;
    }
  }

  /** In a bake that starts unbound, every dispatch comes after the compute
      binding and every draw after the graphics binding. */
  lemma {:induction false} BindBeforeSubmit(evs: seq<Event>, t: Target, k: nat)
    requires k < |IssueAll(evs, false, false, t)|
    ensures IssueAll(evs, false, false, t)[k].SubmitComputeExec? ==>
      exists j :: 0 <= j < k && IssueAll(evs, false, false, t)[j] == BindComputeResources(t)
    ensures IssueAll(evs, false, false, t)[k].SubmitGraphicsExec? ==>
      exists j :: 0 <= j < k && IssueAll(evs, false, false, t)[j] == BindGfxResources(t)
    decreases |evs|
  {
    var all := IssueAll(evs, false, false, t);
    var init, e := evs[..|evs| - 1], evs[|evs| - 1];
    var pre := IssueAll(init, false, false, t);
    var one := IssueOne(e, HasCompute(init), HasGfx(init), t);
    assert all == pre + one;
    if k < |pre| {
      BindBeforeSubmit(init, t, k);
      if all[k].SubmitComputeExec? {
        var j :| 0 <= j < k && pre[j] == BindComputeResources(t);
        assert all[j] == pre[j];
      }
      if all[k].SubmitGraphicsExec? {
        var j :| 0 <= j < k && pre[j] == BindGfxResources(t);
        assert all[j] == pre[j];
      }
    } else {
      BindsAtMostOnce(init, false, false, t);
      if all[k].SubmitComputeExec? {
        if HasCompute(init) {
          CountedIsPresent(pre, BindComputeResources(t));
          var j :| 0 <= j < |pre| && pre[j] == BindComputeResources(t);
          assert all[j] == pre[j];
        } else {
          assert all[|pre|] == BindComputeResources(t);
        }
      }
      if all[k].SubmitGraphicsExec? {
        if HasGfx(init) {
          CountedIsPresent(pre, BindGfxResources(t));
          var j :| 0 <= j < |pre| && pre[j] == BindGfxResources(t);
          assert all[j] == pre[j];
        } else {
          assert all[|pre|] == BindGfxResources(t);
        }
      }
    }
  }

  /** PipelineEvent::IssueToCmdList: an exec event binds its signature if
      the shared flag says it is not yet bound, sets the flag, and submits;
      copies and clears issue nothing. */
  method IssueToCmdList(ev: EventRecord, binds: BindState, t: Target) returns (calls: seq<DeviceCall>)
    requires ShaderTyped(ev.Value())
    modifies binds
    ensures calls == IssueOne(ev.Value(), old(binds.computeSigBound), old(binds.gfxSigBound), t)
    ensures binds.computeSigBound == (old(binds.computeSigBound) || ev.GetEvtType() == ComputeExec)
    ensures binds.gfxSigBound == (old(binds.gfxSigBound) || ev.GetEvtType() == GraphicsExec)
    ensures binds.rtSigBound == old(binds.rtSigBound)
  {
    calls := [];
    if ev.evtType == ComputeExec {
      if !binds.computeSigBound {
        calls := calls + [BindComputeResources(t)];
        binds.computeSigBound := true;
      }
      var c := ev.invocableCompute;
      calls := calls + [SubmitComputeExec(t.cmdList, c.dispatchAxes, c.shader)];
    } else if ev.evtType == GraphicsExec {
      if !binds.gfxSigBound {
        calls := calls + [BindGfxResources(t)];
        binds.gfxSigBound := true;
      }
      var g := ev.invocableGfx;
      calls := calls + [SubmitGraphicsExec(t.cmdList, g.numNdces, g.shader, t.pipelineID)];
    }
  }
}
