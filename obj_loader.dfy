/**
 * ObjLoader: GeoLoader::LoadObj.  The file is scanned line by line into
 * per-attribute counters and the list of face corners; the corners' 1-based
 * position indices become 0-based geometry indices, quads are split into two
 * triangles each and triangle meshes have their winding flipped.  A file the
 * loader refuses yields a fixed triangle instead.  Attribute values (strtof)
 * and the generated vertex normals are floating point and are not modelled:
 * the scan keeps how many values of each attribute it read.
 */
module ObjLoader {
  import opened Common
  import opened ObjText

  /** Capacity of the line buffer, line[32]. */
  const LineCapacity: nat := 32

  /** The scan's state: vertStride/vertsFront, uvStride/uvsFront,
      normalsStride/normalsFront, facesStride and the faces array (whose
      length is facesFront), and loadFailed. */
  datatype ObjScan = ObjScan(
    vertStride: nat, vertsFront: nat,
    uvStride: nat, uvsFront: nat,
    normalsStride: nat, normalsFront: nat,
    facesStride: nat, faces: seq<Corner>,
    failed: bool)

  function Start(): ObjScan {
    ObjScan(0, 0, 0, 0, 0, 0, 0, [], false)
  }

  // ---------------------------------------------------------------------
  // Lines
  // ---------------------------------------------------------------------

  /** Where the line that starts at from ends: its '\n', or the end of the
      data when there is none. */
  function LineEnd(data: seq<char>, from: nat): (e: nat)
    requires from <= |data|
    ensures from <= e <= |data|
    ensures forall i :: from <= i < e ==> data[i] != '\n'
    ensures e < |data| ==> data[e] == '\n'
    decreases |data| - from
  {
    if from == |data| || data[from] == '\n' then from else LineEnd(data, from + 1)
  }

  /** The characters the attribute loop visits: from the head offset up to
      and including the NUL that follows the line in its buffer. */
  function Chars(line: seq<char>, offs: nat): seq<char> {
    if offs <= |line| then line[offs..] + ['\0'] else []
  }

  /** How a decoded line's attributes update the scan: the stride of the
      line's kind becomes the line's attribute count and its front advances
      by it; a face line adds its corners, and fails the load when it has
      more than four, or a count other than the last face line's. */
  function Record(s: ObjScan, k: LineKind, count: nat, corners: seq<Corner>): ObjScan
    requires Decoded(k)
  {
    if k == Position then s.(vertStride := count, vertsFront := s.vertsFront + count)
    else if k == Uv then s.(uvStride := count, uvsFront := s.uvsFront + count)
    else if k == Normal then s.(normalsStride := count, normalsFront := s.normalsFront + count)
    else
      s.(facesStride := count, faces := s.faces + corners,
         failed := if count > 4 || (count != s.facesStride && s.facesStride != 0) then true else s.failed)
  }

  /** One line of the file. */
  function Step(s: ObjScan, line: seq<char>): ObjScan {
    var k := Classify(line);
    if Fails(k) then s.(failed := true)
    else if !Decoded(k) then s
    else
      var t := Tokenize(Chars(line, HeadOffset(k)), k == Face);
      Record(s, k, t.count, t.corners)
  }

  /** The scan from the line that starts at cursor, until the data ends or
      a line fails the load. */
  function ScanFrom(data: seq<char>, cursor: nat, s: ObjScan): ObjScan
    decreases |data| - cursor
  {
    if cursor >= |data| || s.failed then s
    else
      var e := LineEnd(data, cursor);
      ScanFrom(data, e + 1, Step(s, data[cursor..e]))
  }

  function ScanText(data: seq<char>): ObjScan {
    ScanFrom(data, 0, Start())
  }

  /** What the scan demands of the file: every line it reaches ends in '\n'
      and fits the line buffer, with room for the NUL after it when the
      line is decoded. */
  predicate Readable(data: seq<char>, cursor: nat, s: ObjScan)
    decreases |data| - cursor
  {
    cursor >= |data| || s.failed ||
    var e := LineEnd(data, cursor);
    e < |data| && e - cursor <= LineCapacity
    && (Decoded(Classify(data[cursor..e])) ==> e - cursor < LineCapacity)
    && Readable(data, e + 1, Step(s, data[cursor..e]))
  }

  // ---------------------------------------------------------------------
  // What the scan keeps
  // ---------------------------------------------------------------------

  /** The shape of the counters: there are positions exactly when the last
      position line had attributes, and, unless the load failed, every face
      line had the same number (at most four) of corners. */
  predicate Shaped(s: ObjScan) {
    (s.vertStride == 0 <==> s.vertsFront == 0) && s.vertStride <= s.vertsFront
    && (!s.failed ==>
          (s.facesStride == 0 ==> s.faces == [])
          && (s.facesStride != 0 ==> s.facesStride <= 4 && |s.faces| % s.facesStride == 0))
  }

  /** A decoded line has at least one attribute: the NUL after it ends one. */
  lemma CountPositive(line: seq<char>, k: LineKind)
    requires Decoded(k) && HeadOffset(k) <= |line|
    ensures Tokenize(Chars(line, HeadOffset(k)), k == Face).count >= 1
  {
    var chars := Chars(line, HeadOffset(k));
    assert chars[|chars| - 1] == '\0';
  }

  /** The attribute count is the reference's, and a face line has one
      corner per attribute. */
  lemma TokenCounts(chars: seq<char>, face: bool)
    ensures var t := Tokenize(chars, face);
      t.count == |Tokens(chars).done| && (face ==> |t.corners| == t.count)
  {
    TokenizeSplits(chars, face);
  }

  lemma RecordShaped(s: ObjScan, k: LineKind, count: nat, corners: seq<Corner>)
    requires Shaped(s) && !s.failed && Decoded(k)
    requires k == Position ==> count >= 1
    requires k == Face ==> |corners| == count
    ensures Shaped(Record(s, k, count, corners))
  {
    var r := Record(s, k, count, corners);
    if k == Face && !r.failed && count != 0 {
      var n := |s.faces|;
      assert n % count == 0;
      if count == 1 {
      } else if count == 2 {
        assert (n + 2) % 2 == 0;
      } else if count == 3 {
        assert (n + 3) % 3 == 0;
      } else {
        assert (n + 4) % 4 == 0;
      }
    }
  }

  lemma StepShaped(s: ObjScan, line: seq<char>)
    requires Shaped(s) && !s.failed
    ensures Shaped(Step(s, line))
  {
    var k := Classify(line);
    if Decoded(k) {
      var chars := Chars(line, HeadOffset(k));
      if k == Position || k == Face {
        assert At(line, 1) != '\0';
        CountPositive(line, k);
      }
      TokenCounts(chars, k == Face);
      var t := Tokenize(chars, k == Face);
      RecordShaped(s, k, t.count, t.corners);
    }
  }

  /** The scan keeps its counters shaped. */
  lemma {:induction false} ScanShaped(data: seq<char>, cursor: nat, s: ObjScan)
    requires Shaped(s)
    ensures Shaped(ScanFrom(data, cursor, s))
    decreases |data| - cursor
  {
    if cursor < |data| && !s.failed {
      var e := LineEnd(data, cursor);
      var line := data[cursor..e];
      ScanFromLine(data, cursor, s);
      StepShaped(s, line);
      ScanShaped(data, e + 1, Step(s, line));
    }
  }

  /** The scan from a line that it reaches is the scan from the next line,
      after this one. */
  lemma ScanFromLine(data: seq<char>, cursor: nat, s: ObjScan)
    requires cursor < |data| && !s.failed
    ensures var e := LineEnd(data, cursor);
      ScanFrom(data, cursor, s) == ScanFrom(data, e + 1, Step(s, data[cursor..e]))
  {
  }

  /** A face line fails the load exactly when it splits into more than four
      attributes, or into a number other than the last face line's. */
  lemma FaceLineFails(s: ObjScan, line: seq<char>)
    requires Classify(line) == Face && !s.failed
    ensures var n := |Tokens(Chars(line, 2)).done|;
      Step(s, line).failed <==> n > 4 || (n != s.facesStride && s.facesStride != 0)
    ensures |Step(s, line).faces| == |s.faces| + |Tokens(Chars(line, 2)).done|
  {
    TokenCounts(Chars(line, 2), true);
  }

  /** A polyline or curve line fails the load, and the scan stops there. */
  lemma FailingLineStops(data: seq<char>, cursor: nat, s: ObjScan)
    requires cursor < |data| && !s.failed
    requires Fails(Classify(data[cursor .. LineEnd(data, cursor)]))
    ensures ScanFrom(data, cursor, s) == s.(failed := true)
  {
  }

  // ---------------------------------------------------------------------
  // The scan, as the loader runs it
  // ---------------------------------------------------------------------

  /** Copies one line into a zeroed line buffer, up to its '\n'. */
  method ReadLine(data: seq<char>, cursor: nat) returns (line: array<char>, n: nat)
    requires cursor < |data| && LineEnd(data, cursor) < |data|
    requires LineEnd(data, cursor) - cursor <= LineCapacity
    ensures fresh(line) && line.Length == LineCapacity
    ensures n == LineEnd(data, cursor) - cursor
    ensures line[..n] == data[cursor .. cursor + n]
    ensures forall i :: n <= i < LineCapacity ==> line[i] == '\0'
  {
    line := new char[LineCapacity](_ => '\0');
    n := 0;
    while data[cursor + n] != '\n'
      invariant cursor + n <= LineEnd(data, cursor)
      invariant line[..n] == data[cursor .. cursor + n]
      invariant forall i :: n <= i < LineCapacity ==> line[i] == '\0'
      decreases LineEnd(data, cursor) - cursor - n
    {
      line[n] := data[cursor + n];
      n := n + 1;
    }
  }

  /** The face crawl over the attribute buffer: each '/' or NUL ends one of
      the corner's three integers, each read by atoi. */
  method ParseCorner(attrib: array<char>) returns (c: Corner)
    ensures c == CornerOf(attrib[..])
  {
    ghost var buf := attrib[..];
    var crawler: nat := 0;
    var ndx: seq<char> := [];
    var got: seq<int> := [];
    while |got| < 3
      invariant |got| <= 3
      invariant |got| < 3 ==> Crawl(buf, crawler, ndx, got) == Crawl(buf, 0, [], [])
      invariant |got| == 3 ==> got == Crawl(buf, 0, [], [])
      decreases (if crawler < |buf| then |buf| - crawler else 0) + 3 - |got|
    {
      var ch := if crawler < attrib.Length then attrib[crawler] else '\0';
      if Ends(ch) {
        got := got + [Atoi(ndx)];
        ndx := [];
      } else {
        ndx := ndx + [ch];
      }
      crawler := crawler + 1;
    }
    c := Corner(Wrap32(got[0]), Wrap32(got[1]), Wrap32(got[2]));
  }

  /** Character j of a line's attribute text is the line's character
      offs + j; the one past the end is the terminator. */
  lemma CharAt(line: seq<char>, term: char, offs: nat, iter: nat)
    requires offs <= iter <= |line| && term == '\0'
    ensures Chars(line, offs)[iter - offs] == if iter < |line| then line[iter] else term
  {
    if iter < |line| {
      assert line[offs..][iter - offs] == line[iter];
    }
  }

  lemma TokenizeNext(chars: seq<char>, j: nat, face: bool)
    requires j < |chars|
    ensures Tokenize(chars[..j + 1], face) == TokStep(Tokenize(chars[..j], face), chars[j], face)
  {
    assert chars[..j + 1][..j] == chars[..j];
  }

  /** One pass of the attribute loop: the character goes into the buffer
      and, when it ends the attribute, the attribute is counted. */
  method Feed(attrib: array<char>, writer: nat, count: nat, corners: seq<Corner>, c: char, face: bool)
    returns (writer': nat, count': nat, corners': seq<Corner>)
    requires TokValid(TokState(attrib[..], writer, count, corners))
    modifies attrib
    ensures TokState(attrib[..], writer', count', corners')
            == TokStep(TokState(old(attrib[..]), writer, count, corners), c, face)
  {
    attrib[writer] := c;
    writer', count', corners' := writer + 1, count, corners;
    if Delimits(c, writer) {
      attrib[writer] := '\0';
      if face {
        var corner := ParseCorner(attrib);
        corners' := corners + [corner];
      }
      count' := count + 1;
      writer' := 0;
    }
  }

  /** The attribute loop of one decoded line: the attribute count and, on a
      face line, the corners. */
  method Attributes(line: array<char>, n: nat, k: LineKind) returns (count: nat, corners: seq<Corner>)
    requires Decoded(k) && n < line.Length && line[n] == '\0'
    ensures var t := Tokenize(Chars(line[..n], HeadOffset(k)), k == Face);
      count == t.count && corners == t.corners
  {
    var face := k == Face;
    var offs := HeadOffset(k);
    ghost var chars := Chars(line[..n], offs);
    var attrib := new char[AttribDigits](_ => '\0');
    var writer: nat := 0;
    count, corners := 0, [];
    var iter := offs;
    assert chars[..0] == [];
    while iter <= n
      invariant offs <= iter && (offs <= n ==> iter <= n + 1) && iter - offs <= |chars|
      invariant Tokenize(chars[..iter - offs], face) == TokState(attrib[..], writer, count, corners)
      decreases n + 1 - iter
    {
      CharAt(line[..n], line[n], offs, iter);
      TokenizeNext(chars, iter - offs, face);
      writer, count, corners := Feed(attrib, writer, count, corners, line[iter], face);
      iter := iter + 1;
    }
    assert chars[..iter - offs] == chars;
  }

  /** One pass of the outer loop: the line at cursor is read and applied
      to the scan; stop is set where the loader breaks out of the loop. */
  method ScanLine(data: seq<char>, cursor: nat, scan: ObjScan) returns (next: ObjScan, stop: bool, n: nat)
    requires cursor < |data| && !scan.failed && Readable(data, cursor, scan)
    ensures n == LineEnd(data, cursor) - cursor
    ensures next == Step(scan, data[cursor .. LineEnd(data, cursor)])
    ensures stop ==> next.failed
  {
    ghost var text := data[cursor .. LineEnd(data, cursor)];
    ReadableLine(data, cursor, scan);
    var line;
    line, n := ReadLine(data, cursor);
    assert line[..n] == text;
    var k := Classify(line[..n]);
    next, stop := scan, false;
    if Fails(k) {
      next, stop := scan.(failed := true), true;
    } else if Decoded(k) {
      var count, corners := Attributes(line, n, k);
      next := Record(scan, k, count, corners);
    }
  }

  /** A line the scan reaches ends in '\n' and fits the line buffer,
      with room for the NUL when it is decoded. */
  lemma ReadableLine(data: seq<char>, cursor: nat, s: ObjScan)
    requires cursor < |data| && !s.failed && Readable(data, cursor, s)
    ensures var e := LineEnd(data, cursor);
      e < |data| && e - cursor <= LineCapacity
      && (Decoded(Classify(data[cursor..e])) ==> e - cursor < LineCapacity)
  {
  }

  /** The scan past one line, and what it then still demands. */
  lemma ScanOneLine(data: seq<char>, cursor: nat, s: ObjScan)
    requires cursor < |data| && !s.failed && Readable(data, cursor, s)
    ensures var e := LineEnd(data, cursor); var next := Step(s, data[cursor..e]);
      e < |data| && ScanFrom(data, cursor, s) == ScanFrom(data, e + 1, next)
      && Readable(data, e + 1, next)
      && (next.failed ==> ScanFrom(data, e + 1, next) == next)
  {
  }

  /** The outer loop of LoadObj: the file, line by line, until it ends or a
      line fails the load. */
  method ScanObj(data: seq<char>) returns (scan: ObjScan)
    requires Readable(data, 0, Start())
    ensures scan == ScanText(data)
  {
    scan := Start();
    var cursor: nat := 0;
    while cursor < |data| && !scan.failed
      invariant Readable(data, cursor, scan)
      invariant ScanFrom(data, cursor, scan) == ScanText(data)
      decreases |data| - cursor
    {
      ScanOneLine(data, cursor, scan);
      var stop, n;
      scan, stop, n := ScanLine(data, cursor, scan);
      if stop {
        break;
      }
      cursor := cursor + n + 1;
    }
  }

  // ---------------------------------------------------------------------
  // Indices
  // ---------------------------------------------------------------------

  /** OBJ_AttribVtNdxPair: a texture index and the vertex it belongs to. */
  datatype UvPair = UvPair(attrib: U32, vt: U32)

  /** The 0-based geometry indices: each corner's position minus one, in
      32-bit arithmetic. */
  function PosIndices(faces: seq<Corner>): (r: seq<nat>)
    ensures |r| == |faces|
  {
    seq(|faces|, i requires 0 <= i < |faces| => Dec32(faces[i].pos) as nat)
  }

  /** The texture index of each corner, paired with its geometry index. */
  function UvPairs(faces: seq<Corner>): (r: seq<UvPair>)
    ensures |r| == |faces|
  {
    seq(|faces|, i requires 0 <= i < |faces| => UvPair(Dec32(faces[i].uv), Dec32(faces[i].pos)))
  }

  /** Every corner's index is one below the file's, and its texture pair
      names the same vertex; a corner that gave no index (0) wraps to the
      largest uint32. */
  lemma IndicesAreZeroBased(faces: seq<Corner>, i: nat)
    requires i < |faces|
    ensures faces[i].pos >= 1 ==> PosIndices(faces)[i] == faces[i].pos - 1
    ensures faces[i].pos == 0 ==> PosIndices(faces)[i] == U32Max
    ensures UvPairs(faces)[i].vt == PosIndices(faces)[i]
    ensures (PosIndices(faces)[i] + 1) % 0x1_0000_0000 == faces[i].pos
  {
  }

  /** The conversion loop: geometry indices into the output buffer, texture
      pairs into uvNdces. */
  method ConvertIndices(faces: seq<Corner>, out: array<nat>, uv: array<UvPair>)
    requires |faces| <= out.Length && |faces| <= uv.Length
    modifies out, uv
    ensures out[..|faces|] == PosIndices(faces) && out[|faces|..] == old(out[|faces|..])
    ensures uv[..|faces|] == UvPairs(faces) && uv[|faces|..] == old(uv[|faces|..])
  {
    for i := 0 to |faces|
      invariant out[..i] == PosIndices(faces)[..i] && out[i..] == old(out[i..])
      invariant uv[..i] == UvPairs(faces)[..i] && uv[i..] == old(uv[i..])
    {
      out[i] := Dec32(faces[i].pos);
      uv[i] := UvPair(Dec32(faces[i].uv), Dec32(faces[i].pos));
    }
  }

  // ---------------------------------------------------------------------
  // Quads
  // ---------------------------------------------------------------------

  /** The corner order of a quad's two triangles.  Geometry triangles are
      stored reversed, (q2,q1,q0) and (q0,q3,q2); texture triangles are
      not, (u0,u1,u2) and (u2,u3,u0). */
  function GeoOrder(): (r: seq<nat>)
    ensures IsOrder(r)
  {
    [2, 1, 0, 0, 3, 2]
  }

  function UvOrder(): (r: seq<nat>)
    ensures IsOrder(r)
  {
    [0, 1, 2, 2, 3, 0]
  }

  predicate IsOrder(order: seq<nat>) {
    |order| == 6 && forall m :: 0 <= m < 6 ==> order[m] < 4
  }

  /** One quad's six triangle corners. */
  function Six<T>(quad: seq<T>, order: seq<nat>): seq<T>
    requires |quad| == 4 && IsOrder(order)
  {
    seq(6, m requires 0 <= m < 6 => quad[order[m]])
  }

  /** Every four corners become six. */
  function Triangulate<T>(q: seq<T>, order: seq<nat>): (t: seq<T>)
    requires |q| % 4 == 0 && IsOrder(order)
    ensures 2 * |t| == 3 * |q|
    decreases |q|
  {
    if q == [] then [] else Triangulate(q[..|q| - 4], order) + Six(q[|q| - 4..], order)
  }

  /** The triangles of all quads but the last come first. */
  lemma TriangulatePrefix<T>(q: seq<T>, order: seq<nat>, k: nat)
    requires |q| % 4 == 0 && |q| >= 4 && IsOrder(order)
    requires k < |Triangulate(q[..|q| - 4], order)|
    ensures k < |Triangulate(q, order)|
    ensures Triangulate(q, order)[k] == Triangulate(q[..|q| - 4], order)[k]
  {
  }

  /** Corner m of quad j's triangles is the quad's corner order[m]. */
  lemma {:induction false} TriangulateAt<T>(q: seq<T>, order: seq<nat>, j: nat, m: nat)
    requires |q| % 4 == 0 && IsOrder(order) && 4 * j < |q| && m < 6
    ensures 6 * j + m < |Triangulate(q, order)|
    ensures Triangulate(q, order)[6 * j + m] == q[4 * j + order[m]]
    decreases |q|
  {
    var n := |q| - 4;
    var prefix := q[..n];
    var i := 4 * j + order[m];
    QuadInside(|q|, j);
    assert order[m] < 4 && i < |q|;
    if 4 * j < n {
      QuadInside(n, j);
      TriangulateAt(prefix, order, j, m);
      TriangulatePrefix(q, order, 6 * j + m);
      assert prefix[i] == q[i];
    } else {
      assert 4 * j == n && |Triangulate(prefix, order)| == 6 * j;
      var last := Six(q[n..], order);
      assert Triangulate(q, order) == Triangulate(prefix, order) + last;
      assert last[m] == q[n..][order[m]];
    }
  }

  /** A quad that starts inside a whole number of quads ends inside it too. */
  lemma QuadInside(len: nat, j: nat)
    requires len % 4 == 0 && 4 * j < len
    ensures 4 * j + 4 <= len
  {
  }

  /** Each quad's texture triangles name the same vertices as its geometry
      triangles, in the opposite winding. */
  lemma UvTrianglesFollowGeometry(faces: seq<Corner>, j: nat, h: nat, m: nat)
    requires |faces| % 4 == 0 && 4 * j < |faces| && h < 2 && m < 3
    ensures var uvs := Triangulate(UvPairs(faces), UvOrder());
      var geo := Triangulate(PosIndices(faces), GeoOrder());
      6 * j + 3 * h + 2 < |geo| == |uvs|
      && uvs[6 * j + 3 * h + m].vt == geo[6 * j + 3 * h + 2 - m]
  {
    var a, b := 3 * h + m, 3 * h + 2 - m;
    OrdersMirror(h, m);
    IndicesAreZeroBased(faces, 4 * j + UvOrder()[a]);
    CornerShared(UvPairs(faces), PosIndices(faces), j, a, b);
    var uvs := Triangulate(UvPairs(faces), UvOrder());
    var geo := Triangulate(PosIndices(faces), GeoOrder());
    var ka, kb := 6 * j + a, 6 * j + b;
    assert ka == 6 * j + 3 * h + m && kb == 6 * j + 3 * h + 2 - m;
    assert uvs[ka].vt == geo[kb];
  }

  /** Corner m of a texture triangle is corner 2 - m of the geometry one. */
  lemma OrdersMirror(h: nat, m: nat)
    requires h < 2 && m < 3
    ensures GeoOrder()[3 * h + 2 - m] == UvOrder()[3 * h + m]
  {
    if h == 0 { assert 3 * h + 2 - m == 2 - m; } else { assert 3 * h + 2 - m == 5 - m; }
  }

  lemma CornerShared(p: seq<UvPair>, g: seq<nat>, j: nat, a: nat, b: nat)
    requires |p| == |g| && |p| % 4 == 0 && 4 * j < |p| && a < 6 && b < 6
    requires GeoOrder()[b] == UvOrder()[a]
    requires p[4 * j + UvOrder()[a]].vt == g[4 * j + UvOrder()[a]]
    ensures 6 * j + 6 <= |Triangulate(p, UvOrder())| == |Triangulate(g, GeoOrder())|
    ensures Triangulate(p, UvOrder())[6 * j + a].vt == Triangulate(g, GeoOrder())[6 * j + b]
  {
    TriangulateAt(p, UvOrder(), j, a);
    TriangulateAt(g, GeoOrder(), j, b);
    TriangulateAt(g, GeoOrder(), j, 5);
  }

  /** Writes six entries at at. */
  method Put6<T>(a: array<T>, at: nat, six: seq<T>)
    requires at + 6 <= a.Length && |six| == 6
    modifies a
    ensures a[..at + 6] == old(a[..at]) + six && a[at + 6..] == old(a[at + 6..])
  {
    for m := 0 to 6
      invariant a[..at] == old(a[..at]) && a[at .. at + m] == six[..m] && a[at + 6..] == old(a[at + 6..])
    {
      a[at + m] := six[m];
    }
    assert a[..at + 6] == a[..at] + a[at .. at + 6];
  }

  lemma TriangulateSnoc<T>(a: array<T>, order: seq<nat>, i: nat)
    requires i % 4 == 0 && i + 4 <= a.Length && IsOrder(order)
    ensures Triangulate(a[..i + 4], order) == Triangulate(a[..i], order) + Six(a[i .. i + 4], order)
  {
    assert a[..i + 4][..i] == a[..i] && a[..i + 4][i..] == a[i .. i + 4];
  }

  /** The scratch arrays hold the triangles of the first i corners. */
  ghost predicate Built(out: array<nat>, uv: array<UvPair>, i: nat,
                        triNdces: array<nat>, uvTriNdces: array<UvPair>, front: nat)
    reads out, uv, triNdces, uvTriNdces
  {
    i % 4 == 0 && i <= out.Length && i <= uv.Length
    && front <= triNdces.Length && front <= uvTriNdces.Length
    && triNdces[..front] == Triangulate(out[..i], GeoOrder())
    && uvTriNdces[..front] == Triangulate(uv[..i], UvOrder())
  }

  /** One pass of the quad loop: quad i's six geometry and six texture
      corners are written at front. */
  method EmitQuad(out: array<nat>, uv: array<UvPair>, i: nat,
                  triNdces: array<nat>, uvTriNdces: array<UvPair>, front: nat)
    requires i + 4 <= out.Length && i + 4 <= uv.Length
    requires triNdces != out && uvTriNdces != uv
    requires front + 6 <= triNdces.Length && front + 6 <= uvTriNdces.Length
    requires Built(out, uv, i, triNdces, uvTriNdces, front)
    modifies triNdces, uvTriNdces
    ensures Built(out, uv, i + 4, triNdces, uvTriNdces, front + 6)
  {
    TriangulateSnoc(out, GeoOrder(), i);
    TriangulateSnoc(uv, UvOrder(), i);
    Put6(triNdces, front, Six(out[i .. i + 4], GeoOrder()));
    Put6(uvTriNdces, front, Six(uv[i .. i + 4], UvOrder()));
  }

  /** The quad loop: every quad's geometry and texture triangles, built in
      two scratch arrays of 2n entries. */
  method BuildTriangles(out: array<nat>, uv: array<UvPair>, n: nat)
    returns (triNdces: array<nat>, uvTriNdces: array<UvPair>, front: nat)
    requires n % 4 == 0 && n <= out.Length && n <= uv.Length
    ensures fresh(triNdces) && fresh(uvTriNdces)
    ensures triNdces.Length == 2 * n && uvTriNdces.Length == 2 * n && 2 * front == 3 * n
    ensures triNdces[..front] == Triangulate(out[..n], GeoOrder())
    ensures uvTriNdces[..front] == Triangulate(uv[..n], UvOrder())
  {
    triNdces := new nat[2 * n];
    uvTriNdces := new UvPair[2 * n](_ => UvPair(0, 0));
    var i, quads := 0, 0;
    front := 0;
    while i < n
      invariant i <= n && i == 4 * quads && front == 6 * quads
      invariant Built(out, uv, i, triNdces, uvTriNdces, front)
      modifies triNdces, uvTriNdces
    {
      EmitQuad(out, uv, i, triNdces, uvTriNdces, front);
      i, front, quads := i + 4, front + 6, quads + 1;
    }
  }

  /** The quad split: the scratch triangles are copied whole over the
      output indices and uvNdces. */
  method SplitQuads(out: array<nat>, uv: array<UvPair>, n: nat) returns (numNdces: nat)
    requires n % 4 == 0 && 2 * n <= out.Length && uv.Length == 2 * n
    modifies out, uv
    ensures 2 * numNdces == 3 * n
    ensures out[..numNdces] == Triangulate(old(out[..n]), GeoOrder())
    ensures uv[..numNdces] == Triangulate(old(uv[..n]), UvOrder())
    ensures out[2 * n..] == old(out[2 * n..])
  {
    var triNdces, uvTriNdces;
    triNdces, uvTriNdces, numNdces := BuildTriangles(out, uv, n);
    CopyOver(triNdces, out);
    CopyOver(uvTriNdces, uv);
    assert out[..numNdces] == out[..2 * n][..numNdces];
    assert uv[..numNdces] == uv[..2 * n][..numNdces];
  }

  /** CopyData: the whole source array over the front of the destination. */
  method CopyOver<T>(src: array<T>, dst: array<T>)
    requires src.Length <= dst.Length && src != dst
    modifies dst
    ensures dst[..src.Length] == src[..] && dst[src.Length..] == old(dst[src.Length..])
  {
    forall k | 0 <= k < src.Length {
      dst[k] := src[k];
    }
  }

  // ---------------------------------------------------------------------
  // Winding flip
  // ---------------------------------------------------------------------

  /** The flip loop runs i = 0, 3, 6, ... while i < n, so it touches the
      entries below n rounded up to a multiple of three. */
  function RoundUp3(n: nat): nat {
    n + (3 - n % 3) % 3
  }

  /** Where entry k comes from once the first and third index of every
      triangle starting below n are swapped. */
  function Mirror(k: nat, n: nat): nat {
    if k - k % 3 < n && k % 3 == 0 then k + 2
    else if k - k % 3 < n && k % 3 == 2 then k - 2
    else k
  }

  lemma MirrorInRange(k: nat, n: nat, len: nat)
    requires RoundUp3(n) <= len && k < len
    ensures Mirror(k, n) < len && Mirror(k, n) - Mirror(k, n) % 3 == k - k % 3
  {
  }

  function Flipped(s: seq<nat>, n: nat): (r: seq<nat>)
    requires RoundUp3(n) <= |s|
    ensures |r| == |s|
  {
    seq(|s|, k requires 0 <= k < |s| => MirrorInRange(k, n, |s|); s[Mirror(k, n)])
  }

  /** Every triangle starting below n is reversed. */
  lemma FlipReverses(s: seq<nat>, n: nat, t: nat)
    requires RoundUp3(n) <= |s| && 3 * t < n
    ensures 3 * t + 2 < |s|
    ensures Flipped(s, n)[3 * t .. 3 * t + 3] == [s[3 * t + 2], s[3 * t + 1], s[3 * t]]
  {
    MirrorInRange(3 * t, n, |s|);
  }

  /** Nothing past the last flipped triangle moves. */
  lemma FlipKeepsTail(s: seq<nat>, n: nat)
    requires RoundUp3(n) <= |s|
    ensures Flipped(s, n)[RoundUp3(n)..] == s[RoundUp3(n)..]
  {
    forall k | RoundUp3(n) <= k < |s|
      ensures Flipped(s, n)[k] == s[k]
    {
      PastLastTriangle(k, n);
    }
  }

  lemma PastLastTriangle(k: nat, n: nat)
    requires RoundUp3(n) <= k
    ensures Mirror(k, n) == k
  {
    var q, p := k / 3, RoundUp3(n) / 3;
    assert RoundUp3(n) == 3 * p by {
      if n % 3 == 0 {} else if n % 3 == 1 {} else {}
    }
    assert k - k % 3 == 3 * q;
    assert p <= q;
  }

  /** Flipping twice restores the indices. */
  lemma FlipTwice(s: seq<nat>, n: nat)
    requires RoundUp3(n) <= |s|
    ensures Flipped(Flipped(s, n), n) == s
  {
    forall k | 0 <= k < |s|
      ensures Flipped(Flipped(s, n), n)[k] == s[k]
    {
      MirrorInRange(k, n, |s|);
      MirrorInRange(Mirror(k, n), n, |s|);
    }
  }

  /** The entries after the flip loop has handled the triangles that
      start below i. */
  ghost function FlippedBelow(s: seq<nat>, n: nat, i: nat): (r: seq<nat>)
    requires RoundUp3(n) <= |s|
    ensures |r| == |s|
  {
    seq(|s|, k requires 0 <= k < |s| => if k - k % 3 < i then s[Mirror(k, n)] else s[k])
  }

  lemma FlipStep(s: seq<nat>, n: nat, i: nat)
    requires RoundUp3(n) <= |s| && i % 3 == 0 && i < n
    ensures i + 2 < |s|
    ensures FlippedBelow(s, n, i + 3) == FlippedBelow(s, n, i)[i := s[i + 2]][i + 2 := s[i]]
  {
    MirrorInRange(i, n, |s|);
    var r := FlippedBelow(s, n, i)[i := s[i + 2]][i + 2 := s[i]];
    forall k | 0 <= k < |s|
      ensures FlippedBelow(s, n, i + 3)[k] == r[k]
    {
      MirrorInRange(k, n, |s|);
    }
  }

  lemma FlipDone(s: seq<nat>, n: nat, i: nat)
    requires RoundUp3(n) <= |s| && i % 3 == 0 && n <= i
    ensures FlippedBelow(s, n, i) == Flipped(s, n)
  {
    forall k | 0 <= k < |s|
      ensures FlippedBelow(s, n, i)[k] == Flipped(s, n)[k]
    {
      MirrorInRange(k, n, |s|);
    }
  }

  /** The winding flip for triangle meshes, in place. */
  method FlipWinding(a: array<nat>, n: nat)
    requires RoundUp3(n) <= a.Length
    modifies a
    ensures a[..] == Flipped(old(a[..]), n)
  {
    ghost var s := a[..];
    var i := 0;
    assert a[..] == FlippedBelow(s, n, 0);
    while i < n
      invariant i % 3 == 0 && i <= RoundUp3(n)
      invariant a[..] == FlippedBelow(s, n, i)
    {
      FlipStep(s, n, i);
      a[i], a[i + 2] := a[i + 2], a[i];
      i := i + 3;
    }
    FlipDone(s, n, i);
  }

  // ---------------------------------------------------------------------
  // The load
  // ---------------------------------------------------------------------

  /** *outNumVts as written: vertsFront / vertStride, which divides by zero
      when the file had no position line. */
  function VertexCountAsWritten(s: ObjScan): (r: nat)
    requires s.vertStride != 0
    ensures r * s.vertStride <= s.vertsFront < (r + 1) * s.vertStride
  {
    var q := s.vertsFront / s.vertStride;
    DivBounds(s.vertsFront, s.vertStride, q);
    q
  }

  lemma DivBounds(a: nat, d: nat, q: nat)
    requires d > 0 && q == a / d
    ensures q * d <= a < (q + 1) * d
  {
    var r := a % d;
    assert a == q * d + r;
    assert (q + 1) * d == q * d + d;
  }

  /** A file without position lines, the empty file among them, is
      accepted with a zero stride: the division as written is reached with
      a zero divisor. */
  lemma NoPositionsDividesByZero()
    ensures !ScanText([]).failed && ScanText([]).vertStride == 0
  {
  }

  /** The vertex count, with no vertices when there were no positions. */
  function VertexCount(s: ObjScan): (r: nat)
    ensures s.vertStride != 0 ==> r * s.vertStride <= s.vertsFront < (r + 1) * s.vertStride
    ensures s.vertStride == 0 ==> r == 0
  {
    if s.vertStride == 0 then 0 else VertexCountAsWritten(s)
  }

  /** Width, height and byte footprint of a generated texture. */
  datatype Texture = Texture(width: nat, height: nat, footprint: nat)

  /** sizeof(MaterialSPD_Piecewise): sixteen one-byte points. */
  const SpectralTexelBytes: nat := 16

  /** sizeof(float). */
  const RoughnessTexelBytes: nat := 4

  /** The 1024 x 1024 placeholder textures. */
  function Placeholder(texelBytes: nat): Texture {
    Texture(1024, 1024, texelBytes * 1024 * 1024)
  }

  /** What LoadObj reports: the vertex and index counts, the texture pairs
      (uvNdces, numUVNdces) and the two placeholder textures. */
  datatype ObjResult = ObjResult(numVts: nat, numNdces: nat, uvPairs: seq<UvPair>, spectral: Texture, roughness: Texture)

  /** The index entries the load writes. */
  function IndexRoom(s: ObjScan): nat {
    if s.failed then 3
    else if s.facesStride == 4 then 2 * |s.faces|
    else RoundUp3(|s.faces|)
  }

  /** The index part of a successful load. */
  method BuildIndices(s: ObjScan, out: array<nat>) returns (numNdces: nat, uvPairs: seq<UvPair>)
    requires Shaped(s) && !s.failed && IndexRoom(s) <= out.Length
    modifies out
    ensures s.facesStride == 4 ==>
              |s.faces| % 4 == 0 && numNdces <= out.Length
              && out[..numNdces] == Triangulate(PosIndices(s.faces), GeoOrder())
              && uvPairs == Triangulate(UvPairs(s.faces), UvOrder())
    ensures s.facesStride != 4 ==>
              numNdces == |s.faces|
              && out[..] == Flipped(PosIndices(s.faces) + old(out[|s.faces|..]), |s.faces|)
              && uvPairs == UvPairs(s.faces)
  {
    var n := |s.faces|;
    var uv := new UvPair[2 * n](_ => UvPair(0, 0));
    ConvertIndices(s.faces, out, uv);
    if s.facesStride == 4 {
      numNdces := SplitQuads(out, uv, n);
      uvPairs := uv[..numNdces];
    } else {
      assert out[..] == out[..n] + out[n..];
      FlipWinding(out, n);
      numNdces := n;
      uvPairs := uv[..n];
    }
  }

  /** GeoLoader::LoadObj on the file's characters.  A file the scan fails
      yields the fixed triangle 0, 1, 2; otherwise the vertex count is the
      positions over their stride, and the indices are the faces' 0-based
      position indices, split into triangles when the faces are quads and
      with their winding flipped otherwise.  Both placeholder textures are
      1024 x 1024. */
  method LoadObj(data: seq<char>, out: array<nat>) returns (res: ObjResult)
    requires Readable(data, 0, Start())
    requires IndexRoom(ScanText(data)) <= out.Length
    modifies out
    ensures var s := ScanText(data);
      if s.failed then
        res.numVts == 3 && res.numNdces == 3 && out[..3] == [0, 1, 2] && out[3..] == old(out[3..])
      else
        res.numVts == VertexCount(s)
        && (s.facesStride == 4 ==>
              |s.faces| % 4 == 0 && res.numNdces <= out.Length
              && out[..res.numNdces] == Triangulate(PosIndices(s.faces), GeoOrder())
              && res.uvPairs == Triangulate(UvPairs(s.faces), UvOrder()))
        && (s.facesStride != 4 ==>
              res.numNdces == |s.faces|
              && out[..] == Flipped(PosIndices(s.faces) + old(out[|s.faces|..]), |s.faces|)
              && res.uvPairs == UvPairs(s.faces))
    ensures res.spectral == Texture(1024, 1024, 16777216)
    ensures res.roughness == Texture(1024, 1024, 4194304)
  {
    var scan := ScanObj(data);
    var numVts, numNdces, uvPairs;
    if scan.failed {
      out[0], out[1], out[2] := 0, 1, 2;
      numVts, numNdces, uvPairs := 3, 3, [];
    } else {
      ScanShaped(data, 0, Start());
      numVts := VertexCount(scan);
      numNdces, uvPairs := BuildIndices(scan, out);
    }
    res := ObjResult(numVts, numNdces, uvPairs, Placeholder(SpectralTexelBytes), Placeholder(RoughnessTexelBytes));
  }
}
