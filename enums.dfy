/**
 * The enumerations shared by the resource layer and the graphics wrapper:
 * resource variants, the sandbox's own format names and vertex-element
 * semantics.
 */
module Enums {
  /** ResourceViews: the ways a GPU resource can be viewed. */
  datatype Variant =
    | VBuffer
    | IBuffer
    | StructBufferRW
    | CBuffer
    | TextureDirectWrite
    | TextureSupportsSampling
    | TextureStaging
    | TextureRenderTarget
    | TextureDepthStencil
    | RtAccelStructure

  /** StandardResrcFmts: channel type and width, then channel count.  The
      16-bit unsigned and float families have no three-channel member. */
  datatype ResrcFmt =
    | FP32_1 | FP32_2 | FP32_3 | FP32_4
    | FP16_1 | FP16_2 | FP16_4
    | U32_1 | U32_2 | U32_3 | U32_4
    | U16_1 | U16_2 | U16_4
    | U8_1 | U8_2 | U8_3 | U8_4
    | S32_1 | S32_2 | S32_3 | S32_4
    | S16_1 | S16_2 | S16_3 | S16_4
    | S8_1 | S8_2 | S8_3 | S8_4

  /** StandardIBufferFmts. */
  datatype IBufferFmt = IdxU16 | IdxS16 | IdxU32 | IdxS32

  /** StandardDepthStencilFormats. */
  datatype DepthStencilFmt =
    | Depth16UnormNoStencil
    | Depth24UnormStencil8
    | Depth32FloatNoStencil
    | Depth32FloatStencil8Pad24

  /** VertexEltSemantics. */
  datatype Semantic = Position | Color | Normal | TexCoord
}
