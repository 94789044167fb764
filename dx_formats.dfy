/**
 * The graphics wrapper's pure translations: sandbox formats to DXGI
 * formats, DXGI texel sizes, access permissions to resource flags,
 * resource variants to resource states, and footprint alignment.
 */
module DxFormats {
  import opened Enums
  import opened Permissions

  /** The DXGI_FORMAT values the wrapper produces or inspects; Unknown
      stands for every other format. */
  datatype Dxgi =
    | R8Uint | R8Sint | R8G8Uint | R8G8Sint | R8G8B8A8Uint | R8G8B8A8Sint
    | R16Uint | R16Sint | R16Float | R16G16Uint | R16G16Float
    | R16G16B16A16Uint | R16G16B16A16Float
    | R32Uint | R32Sint | R32Float | R32G32Uint | R32G32Sint | R32G32Float
    | R32G32B32Uint | R32G32B32Sint | R32G32B32Float
    | R32G32B32A32Uint | R32G32B32A32Sint | R32G32B32A32Float
    | D16Unorm | D24UnormS8Uint | D32Float | D32FloatS8X24Uint
    | Unknown

  // ---------------------------------------------------------------------
  // Texel sizes
  // ---------------------------------------------------------------------

  /** Bits per texel as the format's name spells them out, component by
      component, padding included: the reference the byte sizes are
      checked against. */
  function TexelBits(f: Dxgi): nat {
    match f
    case R8Uint | R8Sint => 8
    case R8G8Uint | R8G8Sint => 2 * 8
    case R8G8B8A8Uint | R8G8B8A8Sint => 4 * 8
    case R16Uint | R16Sint | R16Float | D16Unorm => 16
    case R16G16Uint | R16G16Float => 2 * 16
    case R16G16B16A16Uint | R16G16B16A16Float => 4 * 16
    case R32Uint | R32Sint | R32Float | D32Float => 32
    case R32G32Uint | R32G32Sint | R32G32Float => 2 * 32
    case R32G32B32Uint | R32G32B32Sint | R32G32B32Float => 3 * 32
    case R32G32B32A32Uint | R32G32B32A32Sint | R32G32B32A32Float => 4 * 32
    case D24UnormS8Uint => 24 + 8
    case D32FloatS8X24Uint => 32 + 8 + 24
    case Unknown => 0
  }

  /** The formats getTextureFormatSize has a case for. */
  predicate Sized(f: Dxgi) {
    !(f.R8Sint? || f.R8G8Sint? || f.R32G32B32Float? || f.R32G32B32A32Float? || f.Unknown?)
  }

  /** getTextureFormatSize as written: the D32_FLOAT_S8X24_UINT case sits
      in the 4-byte group; unlisted formats give 0 after the assertion. */
  function FormatSizeAsWritten(f: Dxgi): nat {
    match f
    case R8Uint => 1
    case R16Uint | R16Sint | R16Float | D16Unorm | R8G8Uint => 2
    case D24UnormS8Uint | D32Float | D32FloatS8X24Uint | R32Uint | R32Sint | R32Float
      | R16G16Float | R16G16Uint | R8G8B8A8Uint | R8G8B8A8Sint => 4
    case R32G32Float | R16G16B16A16Float | R16G16B16A16Uint | R32G32Uint | R32G32Sint => 8
    case R32G32B32Sint | R32G32B32Uint => 12
    case R32G32B32A32Uint | R32G32B32A32Sint => 16
    case _ => 0
  }

  /** As written, the 32-bit depth, 8-bit stencil, 24-bit padding format
      is given half its texel size, so a depth-stencil texture of that
      format is sized at half its bytes. */
  lemma FormatSizeAsWrittenShort()
    ensures Sized(D32FloatS8X24Uint)
    ensures 8 * FormatSizeAsWritten(D32FloatS8X24Uint) == 32
    ensures TexelBits(D32FloatS8X24Uint) == 64
  {
  }

  /** getTextureFormatSize with D32_FLOAT_S8X24_UINT in the 8-byte group:
      every format with a case gets its texel size in bytes, the rest 0. */
  function FormatSize(f: Dxgi): (n: nat)
    ensures Sized(f) ==> 8 * n == TexelBits(f)
    ensures !Sized(f) ==> n == 0
  {
    match f
    case R8Uint => 1
    case R16Uint | R16Sint | R16Float | D16Unorm | R8G8Uint => 2
    case D24UnormS8Uint | D32Float | R32Uint | R32Sint | R32Float
      | R16G16Float | R16G16Uint | R8G8B8A8Uint | R8G8B8A8Sint => 4
    case D32FloatS8X24Uint
      | R32G32Float | R16G16B16A16Float | R16G16B16A16Uint | R32G32Uint | R32G32Sint => 8
    case R32G32B32Sint | R32G32B32Uint => 12
    case R32G32B32A32Uint | R32G32B32A32Sint => 16
    case _ => 0
  }

  /** The two definitions differ on that one format only. */
  lemma FormatSizeCorrection(f: Dxgi)
    ensures FormatSize(f) != FormatSizeAsWritten(f) <==> f == D32FloatS8X24Uint
  {
  }

  // ---------------------------------------------------------------------
  // Sandbox formats to DXGI
  // ---------------------------------------------------------------------

  /** The standard formats with a DXGI translation (no three-channel 8-bit
      and signed 16-bit ones). */
  predicate Decodable(f: ResrcFmt) {
    !(f.U8_3? || f.S16_3? || f.S8_3?)
  }

  /** DecodeSandboxStdFormats; the signed 16-bit formats map to the
      unsigned DXGI ones. */
  function DecodeStd(f: ResrcFmt): Dxgi
    requires Decodable(f)
  {
    match f
    case FP32_1 => R32Float
    case FP32_2 => R32G32Float
    case FP32_3 => R32G32B32Float
    case FP32_4 => R32G32B32A32Float
    case FP16_1 => R16Float
    case FP16_2 => R16G16Float
    case FP16_4 => R16G16B16A16Float
    case U32_1 => R32Uint
    case U32_2 => R32G32Uint
    case U32_3 => R32G32B32Uint
    case U32_4 => R32G32B32A32Uint
    case U16_1 => R16Uint
    case U16_2 => R16G16Uint
    case U16_4 => R16G16B16A16Uint
    case U8_1 => R8Uint
    case U8_2 => R8G8Uint
    case U8_4 => R8G8B8A8Uint
    case S32_1 => R32Sint
    case S32_2 => R32G32Sint
    case S32_3 => R32G32B32Sint
    case S32_4 => R32G32B32A32Sint
    case S16_1 => R16Uint
    case S16_2 => R16G16Uint
    case S16_4 => R16G16B16A16Uint
    case S8_1 => R8Sint
    case S8_2 => R8G8Sint
    case S8_4 => R8G8B8A8Sint
  }

  /** Channel count and width spelled by a standard format's name. */
  function Channels(f: ResrcFmt): nat {
    match f
    case FP32_1 | FP16_1 | U32_1 | U16_1 | U8_1 | S32_1 | S16_1 | S8_1 => 1
    case FP32_2 | FP16_2 | U32_2 | U16_2 | U8_2 | S32_2 | S16_2 | S8_2 => 2
    case FP32_3 | U32_3 | U8_3 | S32_3 | S16_3 | S8_3 => 3
    case _ => 4
  }

  function ChannelBits(f: ResrcFmt): nat {
    match f
    case FP32_1 | FP32_2 | FP32_3 | FP32_4 | U32_1 | U32_2 | U32_3 | U32_4
      | S32_1 | S32_2 | S32_3 | S32_4 => 32
    case FP16_1 | FP16_2 | FP16_4 | U16_1 | U16_2 | U16_4
      | S16_1 | S16_2 | S16_3 | S16_4 => 16
    case _ => 8
  }

  /** A translated format keeps the channel count and width, and the size
      table covers every translated format except the two float formats
      with three and four 32-bit channels and the one- and two-channel
      signed 8-bit formats. */
  lemma DecodeStdKeepsSize(f: ResrcFmt)
    requires Decodable(f)
    ensures TexelBits(DecodeStd(f)) == Channels(f) * ChannelBits(f)
    ensures Sized(DecodeStd(f)) <==> !(f.FP32_3? || f.FP32_4? || f.S8_1? || f.S8_2?)
    ensures Sized(DecodeStd(f)) ==> 8 * FormatSize(DecodeStd(f)) == Channels(f) * ChannelBits(f)
  {
  }

  /** DecodeSandboxDepthStencilFormats. */
  function DecodeDepthStencil(f: DepthStencilFmt): Dxgi {
    match f
    case Depth16UnormNoStencil => D16Unorm
    case Depth24UnormStencil8 => D24UnormS8Uint
    case Depth32FloatNoStencil => D32Float
    case Depth32FloatStencil8Pad24 => D32FloatS8X24Uint
  }

  /** DecodeSandboxIBufferFormats. */
  function DecodeIBuffer(f: IBufferFmt): Dxgi {
    match f
    case IdxS16 => R16Sint
    case IdxS32 => R32Sint
    case IdxU16 => R16Uint
    case IdxU32 => R32Uint
  }

  /** Index formats have a 2- or 4-byte size, so the index count derived
      by dividing a buffer's bytes by it is well defined. */
  lemma IBufferSizes(f: IBufferFmt)
    ensures FormatSize(DecodeIBuffer(f)) == if f.IdxU16? || f.IdxS16? then 2 else 4
  {
  }

  /** CheckDepthStencilFormat: the four DXGI depth formats. */
  predicate CheckDepthStencilFormat(f: Dxgi) {
    f == D16Unorm || f == D24UnormS8Uint || f == D32Float || f == D32FloatS8X24Uint
  }

  /** The check accepts exactly the translations of depth-stencil formats. */
  lemma CheckDepthStencilExact(f: Dxgi)
    ensures CheckDepthStencilFormat(f) <==> exists d :: DecodeDepthStencil(d) == f
  {
    if f == D16Unorm {
      assert DecodeDepthStencil(Depth16UnormNoStencil) == f;
    } else if f == D24UnormS8Uint {
      assert DecodeDepthStencil(Depth24UnormStencil8) == f;
    } else if f == D32Float {
      assert DecodeDepthStencil(Depth32FloatNoStencil) == f;
    } else if f == D32FloatS8X24Uint {
      assert DecodeDepthStencil(Depth32FloatStencil8Pad24) == f;
    }
  }

  // ---------------------------------------------------------------------
  // Access permissions to resource flags
  // ---------------------------------------------------------------------

  /** The D3D12_RESOURCE_FLAGS the decoders can set; a set of them is a
      flags value, the empty set NONE. */
  datatype ResourceFlag = AllowRenderTarget | AllowDepthStencil | AllowUnorderedAccess | DenyShaderResource

  /** DecodeGenericAccessPermissions. */
  function DecodeGeneric(bits: bv32): (r: set<ResourceFlag>)
    ensures r == {AllowUnorderedAccess} <==> HasBit(bits, DirectReads) && HasBit(bits, DirectWrites)
    ensures r == {AllowUnorderedAccess, DenyShaderResource} <==> !HasBit(bits, DirectReads) && HasBit(bits, DirectWrites)
    ensures r == {} <==> !HasBit(bits, DirectWrites)
  {
    var srv := HasBit(bits, DirectReads);
    var uav := HasBit(bits, DirectWrites);
    if srv && uav then {AllowUnorderedAccess}
    else if uav then {AllowUnorderedAccess, DenyShaderResource}
    else {}
  }

  /** DecodeTextureAccessPermissions: each flag is set under one condition
      of its own, and no other flag is ever set. */
  function DecodeTexture(bits: bv32): (r: set<ResourceFlag>)
    ensures AllowUnorderedAccess in r <==> HasBit(bits, DirectWrites)
    ensures AllowRenderTarget in r <==> HasBit(bits, AsRenderTarget)
    ensures AllowDepthStencil in r <==> HasBit(bits, AsDepthStencil)
    ensures DenyShaderResource in r <==> HasBit(bits, AsDepthStencil) && !HasBit(bits, DirectReads)
  {
    var srv := HasBit(bits, DirectReads);
    var uav := HasBit(bits, DirectWrites);
    var rt := HasBit(bits, AsRenderTarget);
    var ds := HasBit(bits, AsDepthStencil);
    if uav || !srv || rt || ds then
      (if uav then {AllowUnorderedAccess} else {})
      + (if rt then {AllowRenderTarget} else {})
      + (if ds then {AllowDepthStencil} + (if !srv then {DenyShaderResource} else {}) else {})
    else {}
  }

  // ---------------------------------------------------------------------
  // Resource states
  // ---------------------------------------------------------------------

  /** The D3D12_RESOURCE_STATES a variant is transitioned into. */
  datatype ResourceState =
    | VertexAndConstantBuffer
    | UnorderedAccess
    | IndexBuffer
    | GenericRead
    | RenderTarget
    | DepthWrite
    | RaytracingAccelerationStructure

  /** decodeVariantToState; staging textures are never transitioned. */
  function DecodeVariantToState(v: Variant): (r: ResourceState)
    requires v != TextureStaging
    ensures r == UnorderedAccess <==> v == StructBufferRW || v == TextureDirectWrite
    ensures r == GenericRead <==> v == CBuffer || v == TextureSupportsSampling
  {
    match v
    case VBuffer => VertexAndConstantBuffer
    case StructBufferRW => UnorderedAccess
    case IBuffer => IndexBuffer
    case CBuffer => GenericRead
    case TextureDirectWrite => UnorderedAccess
    case TextureSupportsSampling => GenericRead
    case TextureRenderTarget => RenderTarget
    case TextureDepthStencil => DepthWrite
    case RtAccelStructure => RaytracingAccelerationStructure
  }

  // ---------------------------------------------------------------------
  // Placement
  // ---------------------------------------------------------------------

  const TwoTo64: nat := 0x1_0000_0000_0000_0000

  /** AlignResrcFootprint: footprint plus the distance to the next
      multiple of the alignment, in uint64 arithmetic. */
  function AlignResrcFootprint(footprint: nat, alignment: nat): (r: nat)
    requires footprint < TwoTo64 && 0 < alignment < TwoTo64
    ensures r < TwoTo64
  {
    (footprint + (alignment - footprint % alignment)) % TwoTo64
  }

  /** Without wrap-around the result is the least multiple of the
      alignment strictly above the footprint: an aligned footprint grows by
      a whole alignment. */
  lemma AlignIsNextMultiple(footprint: nat, alignment: nat)
    requires footprint < TwoTo64 && 0 < alignment < TwoTo64
    requires footprint + alignment < TwoTo64
    ensures AlignResrcFootprint(footprint, alignment) == (footprint / alignment + 1) * alignment
    ensures footprint < AlignResrcFootprint(footprint, alignment) <= footprint + alignment
    ensures footprint % alignment == 0 ==> AlignResrcFootprint(footprint, alignment) == footprint + alignment
  {
    var q := footprint / alignment;
    var m := footprint % alignment;
    assert footprint == q * alignment + m;
    assert (q + 1) * alignment == q * alignment + alignment;
  }
}
