/**
 * GPU resources on the CPU side: what a resource variant needs in its
 * description, the description initialisers, and the two ways a resource
 * is initialised (from scratch, or by reusing another pipeline's resource
 * under a possibly different variant, with a validated state transition).
 * The C++ template parameter fixing the variant becomes a constant field;
 * the device calls that create the underlying object are left out and
 * their result, a resource index, is a parameter.
 */
module Resources {
  import opened Common
  import opened Enums
  import opened Permissions
  import opened Views

  // ---------------------------------------------------------------------
  // Variant classification
  // ---------------------------------------------------------------------

  predicate IsTexture(v: Variant) {
    v == TextureDirectWrite || v == TextureSupportsSampling || v == TextureStaging
    || v == TextureRenderTarget || v == TextureDepthStencil
  }

  /** Constant and structured buffers share the custom description. */
  predicate IsTypedBuffer(v: Variant) {
    v == CBuffer || v == StructBufferRW
  }

  /** The permission enumeration a variant's access settings range over. */
  function PermKind(v: Variant): Kind {
    if IsTexture(v) then Textures else Generic
  }

  /** numDimensions as written: 2 for the direct-write, sampled,
      render-target and depth-stencil textures, 1 for everything else,
      staging textures included. */
  function NumDimensionsAsWritten(v: Variant): nat {
    if v == TextureDirectWrite || v == TextureSupportsSampling
       || v == TextureRenderTarget || v == TextureDepthStencil then 2 else 1
  }

  /** The description dimensions a variant's generator reads: width and
      height for every texture (the staging texture included), the element
      count for buffers, none for acceleration structures. */
  function GeneratorReads(v: Variant): set<nat> {
    if IsTexture(v) then {0, 1} else if v == RtAccelStructure then {} else {0}
  }

  /** As written, a staging description holds one dimension while its
      generator reads a second one past the end of the array. */
  lemma StagingDimensionsShort()
    ensures 1 in GeneratorReads(TextureStaging)
    ensures NumDimensionsAsWritten(TextureStaging) == 1
  {
  }

  /** numDimensions with the staging texture counted among the
      two-dimensional variants: every dimension a generator reads exists,
      and only textures have a second one. */
  function NumDimensions(v: Variant): (n: nat)
    ensures forall i :: i in GeneratorReads(v) ==> i < n
    ensures n == 2 <==> IsTexture(v)
    ensures n == 1 <==> !IsTexture(v)
  {
    if IsTexture(v) then 2 else 1
  }

  /** The corrected count differs from the source's for staging only. */
  lemma NumDimensionsCorrection(v: Variant)
    ensures NumDimensions(v) != NumDimensionsAsWritten(v) <==> v == TextureStaging
  {
  }

  // ---------------------------------------------------------------------
  // Descriptions
  // ---------------------------------------------------------------------

  /** A texture's format: a colour format, or a depth-stencil one for the
      depth-stencil variant. */
  datatype TextureFormat = Std(fmt: ResrcFmt) | Depth(depth: DepthStencilFmt)

  /** resrc_desc as a value, one alternative per description layout.  The
      multisampling settings and the acceleration-structure build options
      are passed through to the device unread and are left out. */
  datatype Desc =
    | CustomDesc(name: string, stride: nat, dimensions: seq<nat>, srcData: ArrayView)
    | TextureDesc(name: string, fmt: TextureFormat, stride: nat, dimensions: seq<nat>, srcData: ArrayView)
    | VBufferDesc(name: string, stride: nat, dimensions: seq<nat>, srcData: ArrayView,
                  eltFmts: seq<ResrcFmt>, eltSemantics: seq<Semantic>, numEltsPerVert: nat)
    | IBufferDesc(name: string, ifmt: IBufferFmt, stride: nat, dimensions: seq<nat>, srcData: ArrayView)
    | AccelDesc(name: string, srcVBuffer: nat, srcIBuffer: nat)

  /** The description layout the C++ type selection gives a variant. */
  predicate DescFits(v: Variant, d: Desc) {
    if IsTypedBuffer(v) then d.CustomDesc? && |d.dimensions| == NumDimensions(v)
    else if IsTexture(v) then d.TextureDesc? && |d.dimensions| == NumDimensions(v)
      && (d.fmt.Depth? <==> v == TextureDepthStencil)
    else if v == IBuffer then d.IBufferDesc? && |d.dimensions| == NumDimensions(v)
    else if v == VBuffer then d.VBufferDesc? && |d.dimensions| == NumDimensions(v)
    else d.AccelDesc?
  }

  /** Vertex elements are 16 bytes each, at most 1024 bytes per vertex. */
  const EltSizeInBytes: nat := 16
  const MaxVBufferStride: nat := 1024
  const MaxEltsPerVertex: nat := MaxVBufferStride / EltSizeInBytes

  /** resrc_desc_custom_fmt: the description of constant and structured
      buffers, filled in by its initialisers. */
  class CustomDescriptor {
    const variant: Variant
    var name: string
    var stride: nat
    var dimensions: seq<nat>
    var srcData: ArrayView

    ghost predicate Valid()
      reads this
    {
      IsTypedBuffer(variant) && |dimensions| == NumDimensions(variant)
    }

    /** The description as a value, as it is copied into a resource. */
    function Value(): (d: Desc)
      reads this
      requires Valid()
      ensures DescFits(variant, d)
    {
      CustomDesc(name, stride, dimensions, srcData)
    }

    /** The zero-initialising constructor: no stride, zero dimensions, the
        placeholder name and the empty view. */
    constructor (v: Variant)
      requires IsTypedBuffer(v)
      ensures variant == v && Valid()
      ensures stride == 0 && dimensions == [0] && name == "unnamed" && srcData == NoArray
    {
      variant := v;
      stride := 0;
      dimensions := [0];
      name := "unnamed";
      srcData := NoArray;
    }

    /** initForCBuffer<T>, where sizeof(T) is size: one element of the
        buffer type, backed by that many bytes of the source allocation
        from its start. */
    method InitForCBuffer(newName: string, src: SingleView, size: nat)
      requires Valid()
      modifies this
      ensures Valid()
      ensures stride == size && dimensions == [1]
      ensures srcData == ArrayView(size, src.handle, 0)
      ensures name == newName
    {
      stride := size;
      dimensions := dimensions[0 := 1];
      srcData := ArrayView(size, src.handle, 0);
      name := newName;
    }

    /** initForStructBuffer<v>, where sizeof(v) is elt: numElts elements of
        the element type, backed by the byte view of the typed source. */
    method InitForStructBuffer(numElts: nat, newName: string, src: ArrayView, elt: nat)
      requires Valid()
      modifies this
      ensures Valid()
      ensures stride == elt && dimensions == [numElts]
      ensures srcData == GetBytesHandle(src, elt)
      ensures name == newName
    {
      stride := elt;
      dimensions := dimensions[0 := numElts];
      srcData := GetBytesHandle(src, elt);
      name := newName;
    }

    /** The untyped initForStructBuffer: a given stride and a byte view
        taken as it is. */
    method InitForStructBufferBytes(numElts: nat, eltStride: nat, newName: string, src: ArrayView)
      requires Valid()
      modifies this
      ensures Valid()
      ensures stride == eltStride && dimensions == [numElts] && srcData == src && name == newName
    {
      stride := eltStride;
      dimensions := dimensions[0 := numElts];
      srcData := src;
      name := newName;
    }
  }

  /** resrc_desc_vbuffer_fmt: fixed arrays of element formats and
      semantics of which the first numEltsPerVert are in use. */
  class VBufferDescriptor {
    var name: string
    var stride: nat
    var dimensions: seq<nat>
    var srcData: ArrayView
    var eltFmts: seq<ResrcFmt>
    var eltSemantics: seq<Semantic>
    var numEltsPerVert: nat

    ghost predicate Valid()
      reads this
    {
      |dimensions| == NumDimensions(VBuffer)
      && |eltFmts| == MaxEltsPerVertex && |eltSemantics| == MaxEltsPerVertex
    }

    function Value(): (d: Desc)
      reads this
      requires Valid()
      ensures DescFits(VBuffer, d)
    {
      VBufferDesc(name, stride, dimensions, srcData, eltFmts, eltSemantics, numEltsPerVert)
    }

    /** A description whose arrays hold whatever was in memory before. */
    constructor (fmts0: seq<ResrcFmt>, sems0: seq<Semantic>)
      requires |fmts0| == MaxEltsPerVertex && |sems0| == MaxEltsPerVertex
      ensures Valid() && eltFmts == fmts0 && eltSemantics == sems0
      ensures srcData == NoArray
    {
      name := "";
      stride := 0;
      dimensions := [0];
      srcData := NoArray;
      eltFmts := fmts0;
      eltSemantics := sems0;
      numEltsPerVert := 0;
    }

    /** init<v>, where sizeof(v) is vertexSize: the element count is the
        vertex size over 16 bytes, and that many formats and semantics are
        copied in front of the arrays; the rest of them keep their
        contents. */
    method Init(fmts: seq<ResrcFmt>, sems: seq<Semantic>, src: ArrayView, numVerts: nat,
                newName: string, vertexSize: nat)
      requires Valid()
      requires vertexSize <= MaxVBufferStride
      requires vertexSize / EltSizeInBytes <= |fmts| && vertexSize / EltSizeInBytes <= |sems|
      modifies this
      ensures Valid()
      ensures stride == vertexSize && numEltsPerVert == vertexSize / EltSizeInBytes
      ensures eltFmts[..numEltsPerVert] == fmts[..numEltsPerVert]
      ensures eltFmts[numEltsPerVert..] == old(eltFmts)[numEltsPerVert..]
      ensures eltSemantics[..numEltsPerVert] == sems[..numEltsPerVert]
      ensures eltSemantics[numEltsPerVert..] == old(eltSemantics)[numEltsPerVert..]
      ensures srcData == src && dimensions == [numVerts] && name == newName
    {
      stride := vertexSize;
      numEltsPerVert := vertexSize / EltSizeInBytes;
      eltFmts := fmts[..numEltsPerVert] + eltFmts[numEltsPerVert..];
      eltSemantics := sems[..numEltsPerVert] + eltSemantics[numEltsPerVert..];
      srcData := src;
      dimensions := dimensions[0 := numVerts];
      name := newName;
    }
  }

  // ---------------------------------------------------------------------
  // Transitions
  // ---------------------------------------------------------------------

  /** Variants whose resources can only be shared under the same variant. */
  predicate SameVariantOnly(v: Variant) {
    v == IBuffer || v == RtAccelStructure || v == TextureStaging
    || v == CBuffer || v == VBuffer || v == StructBufferRW
  }

  /** The variant check InitFromSharedResrc asserts. */
  predicate SharingAllowed(srcVariant: Variant, dest: Variant) {
    SameVariantOnly(dest) ==> srcVariant == dest
  }

  /** A transition between two variants of one resource. */
  datatype Transition = Transition(before: Variant, after: Variant)

  /** The transition reuse issues: one exactly when the variants differ and
      the destination is not an acceleration structure. */
  function TransitionFor(srcVariant: Variant, dest: Variant): (t: Option<Transition>)
    ensures t.Some? <==> srcVariant != dest && dest != RtAccelStructure
    ensures t.Some? ==> t.value == Transition(srcVariant, dest)
  {
    if dest != RtAccelStructure && srcVariant != dest then Some(Transition(srcVariant, dest)) else None
  }

  /** TransitionValidator::validate for a resource of variant dest, given
      the source's permission bits and their kind: generic permissions
      never validate; texture permissions must carry the write bit for
      direct writes, the read bit for sampling, and be exactly the
      render-target or depth-stencil flag for those variants. */
  predicate Validates(dest: Variant, srcKind: Kind, bits: bv32) {
    if srcKind == Generic then false
    else if IsTexture(dest) && dest != TextureStaging then
      if dest == TextureDirectWrite then HasBit(bits, DirectWrites)
      else if dest == TextureSupportsSampling then HasBit(bits, DirectReads)
      else if dest == TextureRenderTarget then bits == Bit(AsRenderTarget)
      else bits == Bit(AsDepthStencil)
    else true
  }

  /** What sharing demands: the variant check and, when a transition is
      issued, its validation. */
  predicate SharingValid(srcVariant: Variant, dest: Variant, srcBits: bv32) {
    SharingAllowed(srcVariant, dest)
    && (TransitionFor(srcVariant, dest).Some? ==> Validates(dest, PermKind(srcVariant), srcBits))
  }

  /** A transition that passes both checks goes from a texture to one of
      the four shader-visible texture variants. */
  lemma TransitionsAreTextureToTexture(srcVariant: Variant, dest: Variant, srcBits: bv32)
    requires SharingValid(srcVariant, dest, srcBits)
    requires TransitionFor(srcVariant, dest).Some?
    ensures IsTexture(srcVariant)
    ensures dest == TextureDirectWrite || dest == TextureSupportsSampling
      || dest == TextureRenderTarget || dest == TextureDepthStencil
  {
  }

  // ---------------------------------------------------------------------
  // Resources
  // ---------------------------------------------------------------------

  /** GPUResource<variant>: a description, the index of the device object
      and the access settings. */
  class Resource {
    const variant: Variant
    var desc: Desc
    var resrc: nat
    var accessBits: bv32

    /** The zeroing default constructor. */
    constructor (v: Variant)
      ensures variant == v && resrc == 0 && accessBits == 0
    {
      variant := v;
      desc := AccelDesc("", 0, 0);
      resrc := 0;
      accessBits := 0;
    }

    /** InitFromScratch: keeps the description and the access settings and
        records the object the generator created (handle).  A staging
        texture must be created with copy-only access. */
    method InitFromScratch(d: Desc, access: bv32, handle: nat)
      requires DescFits(variant, d)
      requires variant == TextureStaging ==> access == Bit(CopiesOnly)
      modifies this
      ensures desc == d && accessBits == access && resrc == handle
    {
      desc := d;
      resrc := handle;
      accessBits := access;
    }

    /** InitFromSharedResrc: copies the source's description, object and
        access settings, and returns the transition it inserts, if any. */
    method InitFromSharedResrc(src: Resource) returns (t: Option<Transition>)
      requires SharingValid(src.variant, variant, src.accessBits)
      modifies this
      ensures desc == old(src.desc) && resrc == old(src.resrc) && accessBits == old(src.accessBits)
      ensures t == TransitionFor(src.variant, variant)
    {
      desc := src.desc;
      resrc := src.resrc;
      accessBits := src.accessBits;
      if variant != RtAccelStructure && variant != src.variant {
        t := Some(Transition(src.variant, variant));
      } else {
        t := None;
      }
    }
  }
}
