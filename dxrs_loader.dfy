/** The DXRS mesh loader: a fixed 56-byte header, then the vertices, the
    32-bit indices, the spectral texture and the roughness texture, read
    one after the other by a single advancing file offset. */
module DxrsLoader {
  import opened Common

  /** A 16-bit unsigned integer. */
  type U16 = x: int | 0 <= x < 0x1_0000

  /** A 64-bit unsigned integer. */
  type U64 = x: int | 0 <= x < 0x1_0000_0000_0000_0000

  /** sizeof(DXRS_Header) with its 8-byte alignment padding. */
  const HeaderBytes: nat := 56
  /** sizeof(DXRS_Vertex3D): eight floats. */
  const VertexBytes: nat := 32
  /** sizeof(uint32_t): one file index. */
  const IndexBytes: nat := 4
  /** sizeof(MaterialSPD_Piecewise): one spectral texel. */
  const SpectralTexelBytes: nat := 16
  /** sizeof(float): one roughness texel. */
  const RoughnessTexelBytes: nat := 4

  // ---------------------------------------------------------------------
  // little-endian fields
  // ---------------------------------------------------------------------

  function Pow256(n: nat): (p: nat)
    ensures p >= 1
  {
    if n == 0 then 1 else 256 * Pow256(n - 1)
  }

  lemma Pow256Widths()
    ensures Pow256(2) == 0x1_0000 && Pow256(4) == 0x1_0000_0000
    ensures Pow256(8) == 0x1_0000_0000_0000_0000
  {
    assert Pow256(4) == 256 * 256 * Pow256(2);
    assert Pow256(8) == 256 * 256 * 256 * 256 * Pow256(4);
  }

  /** The unsigned value a run of bytes holds on a little-endian machine. */
  function LE(b: seq<Byte>): (v: nat)
    ensures v < Pow256(|b|)
  {
    if b == [] then 0 else b[0] + 256 * LE(b[1..])
  }

  /** The n bytes a value is stored as, least significant first. */
  function ToLE(x: nat, n: nat): (b: seq<Byte>)
    ensures |b| == n
  {
    if n == 0 then [] else [x % 256] + ToLE(x / 256, n - 1)
  }

  /** Storing a value that fits and reading it back gives the value. */
  lemma {:induction false} ReadStored(x: nat, n: nat)
    requires x < Pow256(n)
    ensures LE(ToLE(x, n)) == x
  {
    if n > 0 {
      var q := x / 256;
      assert x == 256 * q + x % 256;
      assert q < Pow256(n - 1);
      ReadStored(q, n - 1);
      assert ToLE(x, n)[1..] == ToLE(q, n - 1);
    }
  }

  /** Reading bytes and storing the value again gives the same bytes. */
  lemma {:induction false} StoreRead(b: seq<Byte>)
    ensures ToLE(LE(b), |b|) == b
  {
    if b != [] {
      var x := LE(b);
      assert x / 256 == LE(b[1..]) && x % 256 == b[0];
      StoreRead(b[1..]);
    }
  }

  function U16At(chunk: seq<Byte>, at: nat): (r: U16)
    requires at + 2 <= |chunk|
  {
    Pow256Widths();
    LE(chunk[at .. at + 2])
  }

  function U32At(chunk: seq<Byte>, at: nat): (r: U32)
    requires at + 4 <= |chunk|
  {
    Pow256Widths();
    LE(chunk[at .. at + 4])
  }

  function U64At(chunk: seq<Byte>, at: nat): (r: U64)
    requires at + 8 <= |chunk|
  {
    Pow256Widths();
    LE(chunk[at .. at + 8])
  }

  // ---------------------------------------------------------------------
  // the header
  // ---------------------------------------------------------------------

  /** DXRS_Header: the signature is copied but never checked. */
  datatype Header = Header(
    numVts: U64, numNdces: U64,
    spectralFootprint: U64, spectralWidth: U16, spectralHeight: U16,
    scattering: Byte,
    roughnessFootprint: U64, roughnessWidth: U16, roughnessHeight: U16)

  /** The header as memcpy lays the 56 file bytes over the struct: the
      signature at 0, the 64-bit counts and footprints at 8, 16, 24 and 40,
      the 16-bit sizes at 32, 34, 48 and 50, the scattering function at
      36; everything else is padding. */
  function DecodeHeader(b: seq<Byte>): Header
    requires |b| == HeaderBytes
  {
    Header(U64At(b, 8), U64At(b, 16), U64At(b, 24), U16At(b, 32), U16At(b, 34), b[36],
           U64At(b, 40), U16At(b, 48), U16At(b, 50))
  }

  /** 'D', 'X', 'R', 'S'. */
  function Signature(): seq<Byte> {
    [0x44, 0x58, 0x52, 0x53]
  }

  /** A header as a writer of the format lays it out, with zero padding. */
  function EncodeHeader(h: Header): (b: seq<Byte>)
    ensures |b| == HeaderBytes
  {
    Signature() + [0, 0, 0, 0]
    + ToLE(h.numVts, 8) + ToLE(h.numNdces, 8) + ToLE(h.spectralFootprint, 8)
    + ToLE(h.spectralWidth, 2) + ToLE(h.spectralHeight, 2) + [h.scattering, 0, 0, 0]
    + ToLE(h.roughnessFootprint, 8) + ToLE(h.roughnessWidth, 2) + ToLE(h.roughnessHeight, 2)
    + [0, 0, 0, 0]
  }

  lemma FieldRoundTrip(b: seq<Byte>, at: nat, x: nat, n: nat)
    requires at + n <= |b| && x < Pow256(n) && b[at .. at + n] == ToLE(x, n)
    ensures LE(b[at .. at + n]) == x
  {
    ReadStored(x, n);
  }

  /** Every header field survives being written and read back. */
  lemma HeaderRoundTrip(h: Header)
    ensures DecodeHeader(EncodeHeader(h)) == h
  {
    var b := EncodeHeader(h);
    Pow256Widths();
    assert b[8..16] == ToLE(h.numVts, 8);
    assert b[16..24] == ToLE(h.numNdces, 8);
    assert b[24..32] == ToLE(h.spectralFootprint, 8);
    assert b[32..34] == ToLE(h.spectralWidth, 2);
    assert b[34..36] == ToLE(h.spectralHeight, 2);
    assert b[36] == h.scattering;
    assert b[40..48] == ToLE(h.roughnessFootprint, 8);
    assert b[48..50] == ToLE(h.roughnessWidth, 2);
    assert b[50..52] == ToLE(h.roughnessHeight, 2);
    FieldRoundTrip(b, 8, h.numVts, 8);
    FieldRoundTrip(b, 16, h.numNdces, 8);
    FieldRoundTrip(b, 24, h.spectralFootprint, 8);
    FieldRoundTrip(b, 32, h.spectralWidth, 2);
    FieldRoundTrip(b, 34, h.spectralHeight, 2);
    FieldRoundTrip(b, 40, h.roughnessFootprint, 8);
    FieldRoundTrip(b, 48, h.roughnessWidth, 2);
    FieldRoundTrip(b, 50, h.roughnessHeight, 2);
  }

  // ---------------------------------------------------------------------
  // vertices and indices
  // ---------------------------------------------------------------------

  /** DXRS_Vertex3D as stored: position, normal and texture coordinates,
      each float kept as its 32-bit pattern. */
  datatype FileVertex = FileVertex(x: U32, y: U32, z: U32, nx: U32, ny: U32, nz: U32, u: U32, v: U32)

  function DecodeVertex(b: seq<Byte>): FileVertex
    requires |b| == VertexBytes
  {
    FileVertex(U32At(b, 0), U32At(b, 4), U32At(b, 8), U32At(b, 12),
               U32At(b, 16), U32At(b, 20), U32At(b, 24), U32At(b, 28))
  }

  function EncodeVertex(w: FileVertex): (b: seq<Byte>)
    ensures |b| == VertexBytes
  {
    ToLE(w.x, 4) + ToLE(w.y, 4) + ToLE(w.z, 4) + ToLE(w.nx, 4)
    + ToLE(w.ny, 4) + ToLE(w.nz, 4) + ToLE(w.u, 4) + ToLE(w.v, 4)
  }

  lemma VertexRoundTrip(w: FileVertex)
    ensures DecodeVertex(EncodeVertex(w)) == w
  {
    var b := EncodeVertex(w);
    Pow256Widths();
    assert b[0..4] == ToLE(w.x, 4);
    assert b[4..8] == ToLE(w.y, 4);
    assert b[8..12] == ToLE(w.z, 4);
    assert b[12..16] == ToLE(w.nx, 4);
    assert b[16..20] == ToLE(w.ny, 4);
    assert b[20..24] == ToLE(w.nz, 4);
    assert b[24..28] == ToLE(w.u, 4);
    assert b[28..32] == ToLE(w.v, 4);
    FieldRoundTrip(b, 0, w.x, 4);
    FieldRoundTrip(b, 4, w.y, 4);
    FieldRoundTrip(b, 8, w.z, 4);
    FieldRoundTrip(b, 12, w.nx, 4);
    FieldRoundTrip(b, 16, w.ny, 4);
    FieldRoundTrip(b, 20, w.nz, 4);
    FieldRoundTrip(b, 24, w.u, 4);
    FieldRoundTrip(b, 28, w.v, 4);
  }

  /** A float lane of the output vertex: either a float copied bit for bit
      from the file, or an integer converted to float (exact for the 8- and
      16-bit values converted here). */
  datatype Lane = Bits(bits: U32) | Converted(n: nat)

  datatype Float4 = Float4(x: Lane, y: Lane, z: Lane, w: Lane)

  /** Geo::Vertex3D: position, material (texture coordinates, material id,
      scattering function) and normal. */
  datatype GeoVertex = GeoVertex(pos: Float4, mat: Float4, normals: Float4)

  /** One output vertex from one file vertex, each component to its own
      lane; position and normal get w = 0. */
  function CopyVertex(w: FileVertex, material: U16, scattering: Byte): GeoVertex {
    GeoVertex(Float4(Bits(w.x), Bits(w.y), Bits(w.z), Converted(0)),
              Float4(Bits(w.u), Bits(w.v), Converted(material), Converted(scattering)),
              Float4(Bits(w.nx), Bits(w.ny), Bits(w.nz), Converted(0)))
  }

  /** The file vertex an output vertex was copied from, if its lanes are
      file floats where the file supplies them. */
  function FileVertexOf(g: GeoVertex): Option<FileVertex> {
    if g.pos.x.Bits? && g.pos.y.Bits? && g.pos.z.Bits? && g.mat.x.Bits? && g.mat.y.Bits?
       && g.normals.x.Bits? && g.normals.y.Bits? && g.normals.z.Bits?
    then Some(FileVertex(g.pos.x.bits, g.pos.y.bits, g.pos.z.bits, g.normals.x.bits,
                         g.normals.y.bits, g.normals.z.bits, g.mat.x.bits, g.mat.y.bits))
    else None
  }

  /** Nothing of the file vertex is lost, and the material id and
      scattering function land in mat.z and mat.w. */
  lemma CopyVertexKeepsFile(w: FileVertex, material: U16, scattering: Byte)
    ensures FileVertexOf(CopyVertex(w, material, scattering)) == Some(w)
    ensures CopyVertex(w, material, scattering).mat.z == Converted(material)
    ensures CopyVertex(w, material, scattering).mat.w == Converted(scattering)
  {
  }

  /** The vertex copy as written: x is assigned twice in each of pos, mat
      and normals, so the second value (y, v, n.y) lands in x and the y
      lane keeps whatever the output vertex held before. */
  function CopyVertexAsWritten(prev: GeoVertex, w: FileVertex, material: U16, scattering: Byte): GeoVertex {
    var pos := prev.pos.(x := Bits(w.x)).(x := Bits(w.y)).(z := Bits(w.z)).(w := Converted(0));
    var mat := prev.mat.(x := Bits(w.u)).(x := Bits(w.v)).(z := Converted(material)).(w := Converted(scattering));
    var normals := prev.normals.(x := Bits(w.nx)).(x := Bits(w.ny)).(z := Bits(w.nz)).(w := Converted(0));
    GeoVertex(pos, mat, normals)
  }

  /** As written, the file's x, u and n.x never reach the output: two file
      vertices differing only there load identically, and the y lanes are
      stale. */
  lemma CopyVertexAsWrittenLosesX(prev: GeoVertex, w: FileVertex, x: U32, u: U32, nx: U32, material: U16, scattering: Byte)
    ensures CopyVertexAsWritten(prev, w, material, scattering)
            == CopyVertexAsWritten(prev, w.(x := x, u := u, nx := nx), material, scattering)
    ensures var g := CopyVertexAsWritten(prev, w, material, scattering);
      g.pos.y == prev.pos.y && g.mat.y == prev.mat.y && g.normals.y == prev.normals.y
  {
  }

  /** A concrete vertex (1, 2, 3) loaded into a zeroed slot comes out as
      (2, 0, 3), so it cannot be recovered. */
  lemma CopyVertexAsWrittenExample()
    ensures var zero := Float4(Converted(0), Converted(0), Converted(0), Converted(0));
      var w := FileVertex(1, 2, 3, 4, 5, 6, 7, 8);
      var g := CopyVertexAsWritten(GeoVertex(zero, zero, zero), w, 0, 0);
      g.pos == Float4(Bits(2), Converted(0), Bits(3), Converted(0))
      && FileVertexOf(g) == None
      && FileVertexOf(CopyVertex(w, 0, 0)) == Some(w)
  {
  }

  /** One 32-bit file index. */
  function DecodeIndex(b: seq<Byte>): U32
    requires |b| == IndexBytes
  {
    U32At(b, 0)
  }

  // ---------------------------------------------------------------------
  // the file layout and the offset walk
  // ---------------------------------------------------------------------

  /** Where each region starts: fOffset after the header, after the
      vertices, after the indices and after the spectral data; end is
      where it stops. */
  datatype Walk = Walk(verts: nat, ndces: nat, spectra: nat, roughness: nat, end: nat)

  /** sizeof(header), then numVts vertices, then 4 * numNdces index bytes,
      then the spectral footprint, then the roughness footprint. */
  function Layout(h: Header): (w: Walk)
    ensures w.verts == HeaderBytes
    ensures w.ndces - w.verts == VertexBytes * h.numVts
    ensures w.spectra - w.ndces == IndexBytes * h.numNdces
    ensures w.roughness - w.spectra == h.spectralFootprint
    ensures w.end - w.roughness == h.roughnessFootprint
  {
    var ndces := HeaderBytes + VertexBytes * h.numVts;
    var spectra := ndces + IndexBytes * h.numNdces;
    var roughness := spectra + h.spectralFootprint;
    Walk(HeaderBytes, ndces, spectra, roughness, roughness + h.roughnessFootprint)
  }

  /** Bytes copied into the spectral texture: the allocation's length
      (width * height texels) times the texel size, not the footprint. */
  function SpectralCopyBytes(h: Header): nat {
    SpectralTexelBytes * (h.spectralWidth * h.spectralHeight)
  }

  function RoughnessCopyBytes(h: Header): nat {
    RoughnessTexelBytes * (h.roughnessWidth * h.roughnessHeight)
  }

  /** Every byte the loader reads lies inside the file. */
  predicate Readable(file: seq<Byte>) {
    HeaderBytes <= |file|
    && var h := DecodeHeader(file[..HeaderBytes]);
       var w := Layout(h);
       w.spectra <= |file|
       && w.spectra + SpectralCopyBytes(h) <= |file|
       && w.roughness + RoughnessCopyBytes(h) <= |file|
  }

  function HeaderOf(file: seq<Byte>): Header
    requires HeaderBytes <= |file|
  {
    DecodeHeader(file[..HeaderBytes])
  }

  /** The vertex the loop reads at vtNdx i: entry i of the vertex array
      that starts right after the header. */
  function VertexAt(file: seq<Byte>, i: nat): FileVertex
    requires HeaderBytes + VertexBytes * (i + 1) <= |file|
  {
    var at := HeaderBytes + VertexBytes * i;
    DecodeVertex(file[at .. at + VertexBytes])
  }

  /** File index i, in the region after the vertices. */
  function IndexAt(file: seq<Byte>, h: Header, i: nat): U32
    requires Layout(h).ndces + IndexBytes * (i + 1) <= |file|
  {
    var at := Layout(h).ndces + IndexBytes * i;
    DecodeIndex(file[at .. at + IndexBytes])
  }

  /** A texture as the loader hands it out. */
  datatype DxrsTexture = DxrsTexture(width: U16, height: U16, footprint: U64, texels: seq<Byte>)

  function SpectralOf(file: seq<Byte>): DxrsTexture
    requires Readable(file)
  {
    var h := HeaderOf(file);
    var at := Layout(h).spectra;
    DxrsTexture(h.spectralWidth, h.spectralHeight, h.spectralFootprint, file[at .. at + SpectralCopyBytes(h)])
  }

  function RoughnessOf(file: seq<Byte>): DxrsTexture
    requires Readable(file)
  {
    var h := HeaderOf(file);
    var at := Layout(h).roughness;
    DxrsTexture(h.roughnessWidth, h.roughnessHeight, h.roughnessFootprint, file[at .. at + RoughnessCopyBytes(h)])
  }

  /** What LoadDXRS reports: the counts, the two textures, and the offsets
      its read cursor passed through. */
  datatype DxrsResult = DxrsResult(numVts: U64, numNdces: U64, spectral: DxrsTexture, roughness: DxrsTexture, walk: Walk)

  // ---------------------------------------------------------------------
  // a file as a writer of the format lays it out
  // ---------------------------------------------------------------------

  /** The parts of a DXRS file. */
  datatype DxrsFile = DxrsFile(header: Header, verts: seq<FileVertex>, indices: seq<U32>,
                               spectral: seq<Byte>, roughness: seq<Byte>)

  /** The header's counts and footprints match the parts, and each
      footprint is the size of its texture. */
  predicate WellFormed(d: DxrsFile) {
    CountsMatch(d)
    && |d.spectral| == d.header.spectralFootprint == SpectralCopyBytes(d.header)
    && |d.roughness| == d.header.roughnessFootprint == RoughnessCopyBytes(d.header)
  }

  /** The header's counts match the vertex and index parts. */
  predicate CountsMatch(d: DxrsFile) {
    |d.verts| == d.header.numVts && |d.indices| == d.header.numNdces
  }

  function EncodeVerts(vs: seq<FileVertex>): (b: seq<Byte>)
    ensures |b| == VertexBytes * |vs|
  {
    if vs == [] then [] else EncodeVerts(vs[..|vs| - 1]) + EncodeVertex(vs[|vs| - 1])
  }

  function EncodeIndices(ns: seq<U32>): (b: seq<Byte>)
    ensures |b| == IndexBytes * |ns|
  {
    if ns == [] then [] else EncodeIndices(ns[..|ns| - 1]) + ToLE(ns[|ns| - 1], IndexBytes)
  }

  function EncodeFile(d: DxrsFile): seq<Byte> {
    EncodeHeader(d.header) + (EncodeVerts(d.verts) + (EncodeIndices(d.indices) + (d.spectral + d.roughness)))
  }

  lemma SliceOfFront(a: seq<Byte>, b: seq<Byte>, i: nat, j: nat)
    requires i <= j <= |a|
    ensures (a + b)[i..j] == a[i..j]
  {
    assert forall k :: i <= k < j ==> (a + b)[k] == a[k];
  }

  lemma SliceOfBack(a: seq<Byte>, b: seq<Byte>, i: nat, j: nat)
    requires |a| <= i <= j <= |a| + |b|
    ensures (a + b)[i..j] == b[i - |a| .. j - |a|]
  {
    assert forall k :: i <= k < j ==> (a + b)[k] == b[k - |a|];
  }

  lemma {:induction false} VertexInEncoding(vs: seq<FileVertex>, i: nat)
    requires i < |vs|
    ensures EncodeVerts(vs)[VertexBytes * i .. VertexBytes * i + VertexBytes] == EncodeVertex(vs[i])
  {
    var front := vs[..|vs| - 1];
    if i < |vs| - 1 {
      SliceOfFront(EncodeVerts(front), EncodeVertex(vs[|vs| - 1]), VertexBytes * i, VertexBytes * i + VertexBytes);
      VertexInEncoding(front, i);
    } else {
      SliceOfBack(EncodeVerts(front), EncodeVertex(vs[|vs| - 1]), VertexBytes * i, VertexBytes * i + VertexBytes);
    }
  }

  lemma {:induction false} IndexInEncoding(ns: seq<U32>, i: nat)
    requires i < |ns|
    ensures EncodeIndices(ns)[IndexBytes * i .. IndexBytes * i + IndexBytes] == ToLE(ns[i], IndexBytes)
  {
    var front := ns[..|ns| - 1];
    if i < |ns| - 1 {
      SliceOfFront(EncodeIndices(front), ToLE(ns[|ns| - 1], IndexBytes), IndexBytes * i, IndexBytes * i + IndexBytes);
      IndexInEncoding(front, i);
    } else {
      SliceOfBack(EncodeIndices(front), ToLE(ns[|ns| - 1], IndexBytes), IndexBytes * i, IndexBytes * i + IndexBytes);
    }
  }

  /** The loader's header of an encoded file is the written one, and the
      walk ends exactly at the end of the file. */
  lemma EncodedHeader(d: DxrsFile)
    requires WellFormed(d)
    ensures HeaderBytes <= |EncodeFile(d)| && HeaderOf(EncodeFile(d)) == d.header
    ensures Layout(d.header).end == |EncodeFile(d)|
  {
    var file := EncodeFile(d);
    SliceOfFront(EncodeHeader(d.header), file[HeaderBytes..], 0, HeaderBytes);
    assert file == EncodeHeader(d.header) + file[HeaderBytes..];
    assert file[..HeaderBytes] == EncodeHeader(d.header);
    HeaderRoundTrip(d.header);
  }

  lemma EncodedVertex(d: DxrsFile, i: nat)
    requires CountsMatch(d) && i < d.header.numVts
    ensures HeaderBytes + VertexBytes * (i + 1) <= |EncodeFile(d)|
    ensures VertexAt(EncodeFile(d), i) == d.verts[i]
  {
    var vs := EncodeVerts(d.verts);
    var rest := EncodeIndices(d.indices) + (d.spectral + d.roughness);
    var at := HeaderBytes + VertexBytes * i;
    SliceOfBack(EncodeHeader(d.header), vs + rest, at, at + VertexBytes);
    SliceOfFront(vs, rest, VertexBytes * i, VertexBytes * i + VertexBytes);
    VertexInEncoding(d.verts, i);
    VertexRoundTrip(d.verts[i]);
  }

  lemma EncodedIndex(d: DxrsFile, i: nat)
    requires CountsMatch(d) && i < d.header.numNdces
    ensures Layout(d.header).ndces + IndexBytes * (i + 1) <= |EncodeFile(d)|
    ensures IndexAt(EncodeFile(d), d.header, i) == d.indices[i]
  {
    var vs := EncodeVerts(d.verts);
    var ns := EncodeIndices(d.indices);
    var rest := d.spectral + d.roughness;
    var at := Layout(d.header).ndces + IndexBytes * i;
    SliceOfBack(EncodeHeader(d.header), vs + (ns + rest), at, at + IndexBytes);
    SliceOfBack(vs, ns + rest, at - HeaderBytes, at - HeaderBytes + IndexBytes);
    SliceOfFront(ns, rest, IndexBytes * i, IndexBytes * i + IndexBytes);
    IndexInEncoding(d.indices, i);
    IndexRoundTrip(d.indices[i]);
  }

  lemma IndexRoundTrip(x: U32)
    ensures DecodeIndex(ToLE(x, IndexBytes)) == x
  {
    var b := ToLE(x, IndexBytes);
    assert b[0..4] == b;
    Pow256Widths();
    ReadStored(x, IndexBytes);
  }

  /** The file's bytes from the start of the spectral region on are the
      two textures. */
  lemma EncodedTail(d: DxrsFile)
    requires CountsMatch(d)
    ensures var w := Layout(d.header);
      w.spectra <= |EncodeFile(d)| && EncodeFile(d)[w.spectra..] == d.spectral + d.roughness
  {
    var hs, vs, ns := EncodeHeader(d.header), EncodeVerts(d.verts), EncodeIndices(d.indices);
    var rest := d.spectral + d.roughness;
    var file := EncodeFile(d);
    var w := Layout(d.header);
    assert file[HeaderBytes..] == vs + (ns + rest);
    assert (vs + (ns + rest))[|vs|..] == ns + rest;
    assert (ns + rest)[|ns|..] == rest;
    assert file[w.spectra..] == file[HeaderBytes..][|vs|..][|ns|..];
  }

  lemma EncodedTextures(d: DxrsFile)
    requires WellFormed(d)
    ensures Readable(EncodeFile(d))
    ensures SpectralOf(EncodeFile(d)).texels == d.spectral
    ensures RoughnessOf(EncodeFile(d)).texels == d.roughness
  {
    EncodedHeader(d);
    EncodedTail(d);
    var file, h := EncodeFile(d), d.header;
    var w := Layout(h);
    var tail := d.spectral + d.roughness;
    assert SpectralOf(file).texels == file[w.spectra .. w.roughness] == tail[..|d.spectral|];
    assert RoughnessOf(file).texels == file[w.roughness .. w.end] == tail[|d.spectral|..];
  }

  /** Loading a well-formed file gives back what was written: the walk
      visits each part at its start and ends at the end of the file. */
  lemma LoadOfEncodedFile(d: DxrsFile)
    requires WellFormed(d)
    ensures Readable(EncodeFile(d)) && HeaderOf(EncodeFile(d)) == d.header
    ensures Layout(d.header).end == |EncodeFile(d)|
    ensures forall i :: 0 <= i < d.header.numVts ==> VertexAt(EncodeFile(d), i) == d.verts[i]
    ensures forall i :: 0 <= i < d.header.numNdces ==> IndexAt(EncodeFile(d), d.header, i) == d.indices[i]
    ensures SpectralOf(EncodeFile(d)).texels == d.spectral && RoughnessOf(EncodeFile(d)).texels == d.roughness
  {
    EncodedHeader(d);
    EncodedTextures(d);
    forall i | 0 <= i < d.header.numVts
      ensures VertexAt(EncodeFile(d), i) == d.verts[i]
    {
      EncodedVertex(d, i);
    }
    forall i | 0 <= i < d.header.numNdces
      ensures IndexAt(EncodeFile(d), d.header, i) == d.indices[i]
    {
      EncodedIndex(d, i);
    }
  }

  // ---------------------------------------------------------------------
  // the index copy as written
  // ---------------------------------------------------------------------

  /** A run of 64-bit entries as the bytes they occupy in memory. */
  function Bytes64(es: seq<U64>): (b: seq<Byte>)
    ensures |b| == 8 * |es|
  {
    if es == [] then [] else Bytes64(es[..|es| - 1]) + ToLE(es[|es| - 1], 8)
  }

  /** Bytes read back as 64-bit entries. */
  function Entries64(b: seq<Byte>): (es: seq<U64>)
    requires |b| % 8 == 0
    ensures |es| == |b| / 8
  {
    seq(|b| / 8, e requires 0 <= e < |b| / 8 => U64At(b, 8 * e))
  }

  /** memcpy(outNdces, ndces, 4 * numNdces) as written: the file's 4-byte
      indices are laid over the start of the 8-byte output entries. */
  function IndicesAsWritten(prev: seq<U64>, src: seq<Byte>): (es: seq<U64>)
    requires |src| <= 8 * |prev|
    ensures |es| == |prev|
  {
    Entries64(src + Bytes64(prev)[|src|..])
  }

  /** Bytes split in two read as the low part plus the high part shifted
      up by the low part's width. */
  lemma {:induction false} LESplit(a: seq<Byte>, b: seq<Byte>)
    ensures LE(a + b) == LE(a) + Pow256(|a|) * LE(b)
  {
    if a != [] {
      assert (a + b)[1..] == a[1..] + b;
      LESplit(a[1..], b);
      var p, x, y := Pow256(|a| - 1), LE(a[1..]), LE(b);
      assert LE(a + b) == a[0] + 256 * (x + p * y);
      ScaleProduct(p, y);
      assert Pow256(|a|) == 256 * p;
    } else {
      assert a + b == b;
    }
  }

  lemma ScaleProduct(p: nat, y: nat)
    ensures 256 * (p * y) == (256 * p) * y
  {
  }

  /** As written, output entry 0 holds file index 0 in its low half and
      file index 1 in its high half, so it differs from file index 0
      whenever file index 1 is not zero. */
  lemma IndicesAsWrittenPackPairs(prev: seq<U64>, src: seq<Byte>)
    requires 8 <= |src| <= 8 * |prev|
    ensures IndicesAsWritten(prev, src)[0] == U32At(src, 0) + 0x1_0000_0000 * U32At(src, 4)
    ensures U32At(src, 4) != 0 ==> IndicesAsWritten(prev, src)[0] != U32At(src, 0)
  {
    var b := src + Bytes64(prev)[|src|..];
    assert b[0..8] == src[0..4] + src[4..8];
    LESplit(src[0..4], src[4..8]);
    Pow256Widths();
    assert IndicesAsWritten(prev, src)[0] == U64At(b, 0) == LE(b[0..8]);
    assert LE(b[0..8]) == LE(src[0..4]) + 0x1_0000_0000 * LE(src[4..8]);
    assert U32At(src, 0) == LE(src[0..4]) && U32At(src, 4) == LE(src[4..8]);
  }

  /** The vertex loop: vtCtr counts down from numVts while vtNdx counts up
      and fOffset advances one vertex at a time. */
  method CopyVertices(file: seq<Byte>, h: Header, material: U16, verts: array<GeoVertex>, vertsAt: nat)
    returns (fOffset: nat)
    requires vertsAt == HeaderBytes && vertsAt + VertexBytes * h.numVts <= |file|
    requires h.numVts <= verts.Length
    modifies verts
    ensures fOffset == vertsAt + VertexBytes * h.numVts
    ensures forall i :: 0 <= i < verts.Length ==>
      verts[i] == if i < h.numVts then CopyVertex(VertexAt(file, i), material, h.scattering) else old(verts[i])
  {
    fOffset := vertsAt;
    var vtCtr: nat := h.numVts;
    while vtCtr > 0
      invariant vtCtr <= h.numVts
      invariant fOffset == vertsAt + VertexBytes * (h.numVts - vtCtr)
      invariant forall i :: 0 <= i < verts.Length ==>
        verts[i] == if i < h.numVts - vtCtr then CopyVertex(VertexAt(file, i), material, h.scattering)
                    else old(verts[i])
    {
      var vtNdx := h.numVts - vtCtr;
      var at := vertsAt + VertexBytes * vtNdx;
      var vt := DecodeVertex(file[at .. at + VertexBytes]);
      assert vt == VertexAt(file, vtNdx);
      verts[vtNdx] := CopyVertex(vt, material, h.scattering);
      vtCtr := vtCtr - 1;
      fOffset := fOffset + VertexBytes;
    }
  }

  /** The index copy, corrected: file index i becomes output entry i. */
  method CopyIndices(file: seq<Byte>, h: Header, ndces: array<U64>, ndcesAt: nat)
    requires ndcesAt == Layout(h).ndces && Layout(h).spectra <= |file|
    requires h.numNdces <= ndces.Length
    modifies ndces
    ensures forall i :: 0 <= i < ndces.Length ==>
      ndces[i] == if i < h.numNdces then IndexAt(file, h, i) else old(ndces[i])
  {
    forall i | 0 <= i < h.numNdces {
      ndces[i] := DecodeIndex(file[ndcesAt + IndexBytes * i .. ndcesAt + IndexBytes * i + IndexBytes]);
    }
  }

  /** The loader, with the corrected vertex copy and the corrected index
      copy (each file index widened into one 64-bit output entry). */
  method LoadDxrs(file: seq<Byte>, material: U16, verts: array<GeoVertex>, ndces: array<U64>) returns (res: DxrsResult)
    requires Readable(file)
    requires HeaderOf(file).numVts <= verts.Length && HeaderOf(file).numNdces <= ndces.Length
    modifies verts, ndces
    ensures var h := HeaderOf(file);
      res == DxrsResult(h.numVts, h.numNdces, SpectralOf(file), RoughnessOf(file), Layout(h))
    ensures var h := HeaderOf(file);
      forall i :: 0 <= i < verts.Length ==>
        verts[i] == if i < h.numVts then CopyVertex(VertexAt(file, i), material, h.scattering) else old(verts[i])
    ensures var h := HeaderOf(file);
      forall i :: 0 <= i < ndces.Length ==>
        ndces[i] == if i < h.numNdces then IndexAt(file, h, i) else old(ndces[i])
  {
    var fOffset: nat := 0;
    var header := DecodeHeader(file[..HeaderBytes]);
    fOffset := fOffset + HeaderBytes;

    var vertsAt := fOffset;
    fOffset := CopyVertices(file, header, material, verts, vertsAt);

    var ndcesAt := fOffset;
    CopyIndices(file, header, ndces, ndcesAt);
    fOffset := fOffset + IndexBytes * header.numNdces;

    var spectraAt := fOffset;
    var spectral := file[spectraAt .. spectraAt + SpectralCopyBytes(header)];
    fOffset := fOffset + header.spectralFootprint;

    var roughnessAt := fOffset;
    var roughness := file[roughnessAt .. roughnessAt + RoughnessCopyBytes(header)];
    fOffset := fOffset + header.roughnessFootprint;

    res := DxrsResult(header.numVts, header.numNdces,
                      DxrsTexture(header.spectralWidth, header.spectralHeight, header.spectralFootprint, spectral),
                      DxrsTexture(header.roughnessWidth, header.roughnessHeight, header.roughnessFootprint, roughness),
                      Walk(vertsAt, ndcesAt, spectraAt, roughnessAt, fOffset));
  }
}
