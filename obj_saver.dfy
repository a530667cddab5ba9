/**
 * ObjSaver: meshes written as OBJ text. Float formatting is not modelled, so a written
 * line is a value of OutLine: coordinates are of a type `C` with the negation `neg`,
 * and Transform.TransformPoint is a function the caller supplies. Face lines hold C#
 * ints; FaceText spells them out as the loader reads them.
 */
module ObjSaver {
  import opened Wrappers
  import opened Int32
  import opened ObjVector
  import opened ObjText
  import opened ObjCorner
  import opened ObjScan

  /** The parts of a Unity Mesh the encoder reads: vertex positions and one triangle list per submesh. */
  datatype Mesh<C> = Mesh(vertices: seq<Vec3<C>>, submeshes: seq<seq<int>>)

  /** A MeshFilter component: its shared mesh and the transform of its game object. */
  datatype MeshFilter<C, Tr> = MeshFilter(sharedMesh: Mesh<C>, transform: Tr)

  /** One line of the written file. */
  datatype OutLine<C> =
    | ObjectLine(number: int)           // o Object.<number>
    | VertexLine(x: C, y: C, z: C)      // v <x> <y> <z>
    | FaceLine(a: int, b: int, c: int)  // f <a> <b> <c>
    | BlankLine

  /** ArgumentException for a null stream, ArgumentNullException for null mesh filters. */
  datatype SaveError = NullStream | NullMeshFilters

  /** Unity keeps every triangle index buffer in whole triangles. */
  predicate WholeTriangles<C>(m: Mesh<C>) {
    forall j | 0 <= j < |m.submeshes| :: |m.submeshes[j]| % 3 == 0
  }

  predicate AllWhole<C, Tr>(fs: seq<MeshFilter<C, Tr>>) {
    forall k | 0 <= k < |fs| :: WholeTriangles(fs[k].sharedMesh)
  }

  /** Where a vertex is written: transform.TransformPoint(v), or v itself without a transform. */
  function Placed<C, Tr>(v: Vec3<C>, transform: Option<Tr>, transformPoint: (Tr, Vec3<C>) -> Vec3<C>): Vec3<C> {
    match transform
    case None => v
    case Some(t) => transformPoint(t, v)
  }

  /** The `v` line of a placed position: x is negated, y and z are kept. */
  function WrittenVertex<C>(p: Vec3<C>, neg: C -> C): OutLine<C> {
    VertexLine(neg(p.x), p.y, p.z)
  }

  /**
   * The `f` line of the stored triangle (a, b, c): the corners in reverse order, each
   * plus one plus `last`, in C# int arithmetic.
   */
  function WrittenFace<C>(a: int, b: int, c: int, last: int): OutLine<C> {
    FaceLine(Add32(Add32(c, 1), last), Add32(Add32(b, 1), last), Add32(Add32(a, 1), last))
  }

  /** The vertex lines of a mesh, one per vertex in stored order. */
  function VertexLines<C, Tr>(vs: seq<Vec3<C>>, transform: Option<Tr>, transformPoint: (Tr, Vec3<C>) -> Vec3<C>,
                              neg: C -> C): seq<OutLine<C>>
  {
    if |vs| == 0 then []
    else VertexLines(vs[..|vs| - 1], transform, transformPoint, neg)
         + [WrittenVertex(Placed(vs[|vs| - 1], transform, transformPoint), neg)]
  }

  /** The face lines of one triangle list, one per group of three indexes. */
  function TriangleLines<C>(t: seq<int>, last: int): seq<OutLine<C>>
    requires |t| % 3 == 0
  {
    if |t| == 0 then []
    else
      var n := |t| - 3;
      TriangleLines<C>(t[..n], last) + [WrittenFace(t[n], t[n + 1], t[n + 2], last)]
  }

  lemma ThreeStep(i: int, n: int)
    requires 0 <= i < n && i % 3 == 0 && n % 3 == 0
    ensures i + 3 <= n && (i + 3) % 3 == 0
  {
  }

  /** One more triangle of the same list appends its face line. */
  lemma TriangleLinesNext<C>(t: seq<int>, i: int, last: int)
    requires 0 <= i && i + 3 <= |t| && i % 3 == 0
    ensures TriangleLines<C>(t[..i + 3], last)
            == TriangleLines<C>(t[..i], last) + [WrittenFace(t[i], t[i + 1], t[i + 2], last)]
  {
    var p := t[..i + 3];
    assert |p| == i + 3 && |p| - 3 == i;
    assert p[..i] == t[..i];
    assert p[i] == t[i] && p[i + 1] == t[i + 1] && p[i + 2] == t[i + 2];
  }

  /** The face lines of all submeshes, in submesh order. */
  function FaceLines<C>(subs: seq<seq<int>>, last: int): seq<OutLine<C>>
    requires forall j | 0 <= j < |subs| :: |subs[j]| % 3 == 0
  {
    if |subs| == 0 then []
    else FaceLines<C>(subs[..|subs| - 1], last) + TriangleLines<C>(subs[|subs| - 1], last)
  }

  /** What MeshToString(m, last, transform) writes. */
  function MeshLines<C, Tr>(m: Mesh<C>, last: int, transform: Option<Tr>, transformPoint: (Tr, Vec3<C>) -> Vec3<C>,
                            neg: C -> C): seq<OutLine<C>>
    requires WholeTriangles(m)
  {
    VertexLines(m.vertices, transform, transformPoint, neg) + FaceLines<C>(m.submeshes, last)
  }

  /** vertexCount after MeshToString has run on the first k mesh filters in turn, from 0. */
  function CountAfter<C, Tr>(fs: seq<MeshFilter<C, Tr>>, k: int): int
    requires 0 <= k <= |fs|
  {
    if k == 0 then 0 else Add32(CountAfter(fs, k - 1), |fs[k - 1].sharedMesh.vertices|)
  }

  /**
   * One iteration of the foreach loop of Save: the `o` line with the incremented
   * counter `o`, the mesh text offset by `count` (vertexCount so far), a blank line.
   */
  function ObjectBlock<C, Tr>(f: MeshFilter<C, Tr>, o: int, count: int, transformPoint: (Tr, Vec3<C>) -> Vec3<C>,
                              neg: C -> C): seq<OutLine<C>>
    requires WholeTriangles(f.sharedMesh)
  {
    [ObjectLine(o)] + MeshLines(f.sharedMesh, count, Some(f.transform), transformPoint, neg) + [BlankLine]
  }

  /** The lines the foreach loop of Save writes for the first k mesh filters. */
  function SaveLines<C, Tr>(fs: seq<MeshFilter<C, Tr>>, k: int, transformPoint: (Tr, Vec3<C>) -> Vec3<C>, neg: C -> C)
    : seq<OutLine<C>>
    requires 0 <= k <= |fs| && AllWhole(fs)
  {
    if k == 0 then []
    else SaveLines(fs, k - 1, transformPoint, neg)
         + ObjectBlock(fs[k - 1], Wrap32(k), CountAfter(fs, k - 1), transformPoint, neg)
  }

  /** Save: the argument checks in order, then the lines written. */
  function SaveSpec<C, Tr>(meshFilters: Option<seq<MeshFilter<C, Tr>>>, hasStream: bool,
                           transformPoint: (Tr, Vec3<C>) -> Vec3<C>, neg: C -> C)
    : Result<seq<OutLine<C>>, SaveError>
    requires meshFilters.Some? ==> AllWhole(meshFilters.value)
  {
    if !hasStream then Err(NullStream)
    else if meshFilters.None? then Err(NullMeshFilters)
    else Ok(SaveLines(meshFilters.value, |meshFilters.value|, transformPoint, neg))
  }

  // ---------------------------------------------------------------------------
  // Closed forms

  /** A null stream is reported before null mesh filters; an empty collection writes nothing. */
  lemma SaveOutcomes<C, Tr>(meshFilters: Option<seq<MeshFilter<C, Tr>>>, hasStream: bool,
                            transformPoint: (Tr, Vec3<C>) -> Vec3<C>, neg: C -> C)
    requires meshFilters.Some? ==> AllWhole(meshFilters.value)
    ensures SaveSpec(meshFilters, hasStream, transformPoint, neg).Ok? <==> hasStream && meshFilters.Some?
    ensures !hasStream ==> SaveSpec(meshFilters, hasStream, transformPoint, neg) == Err(NullStream)
    ensures hasStream && meshFilters.None? ==> SaveSpec(meshFilters, hasStream, transformPoint, neg) == Err(NullMeshFilters)
    ensures hasStream && meshFilters == Some([]) ==> SaveSpec(meshFilters, hasStream, transformPoint, neg) == Ok([])
  {
  }

  /** Exactly one `v` line per vertex, in stored order, as (-x, y, z) of the placed position. */
  lemma {:induction false} VertexLinesAt<C, Tr>(vs: seq<Vec3<C>>, transform: Option<Tr>,
                                               transformPoint: (Tr, Vec3<C>) -> Vec3<C>, neg: C -> C)
    ensures |VertexLines(vs, transform, transformPoint, neg)| == |vs|
    ensures forall i | 0 <= i < |vs| ::
      VertexLines(vs, transform, transformPoint, neg)[i]
        == VertexLine(neg(Placed(vs[i], transform, transformPoint).x),
                      Placed(vs[i], transform, transformPoint).y,
                      Placed(vs[i], transform, transformPoint).z)
  {
    if |vs| > 0 {
      var init := vs[..|vs| - 1];
      VertexLinesAt(init, transform, transformPoint, neg);
      assert forall i | 0 <= i < |init| :: init[i] == vs[i];
    }
  }

  /**
   * Triangle j of the index list (entries 3j, 3j+1, 3j+2) gives face line j, which
   * lists its corners in reverse order, one-based and offset by `last`.
   */
  lemma {:induction false} TriangleLinesAt<C>(t: seq<int>, last: int)
    requires |t| % 3 == 0
    ensures |TriangleLines<C>(t, last)| == |t| / 3
    ensures forall j | 0 <= j < |t| / 3 ::
      TriangleLines<C>(t, last)[j] == WrittenFace(t[3 * j], t[3 * j + 1], t[3 * j + 2], last)
  {
    if |t| > 0 {
      var n := |t| - 3;
      var init := t[..n];
      DropTriangle(|t|);
      TriangleLinesAt<C>(init, last);
      var r := TriangleLines<C>(t, last);
      assert r == TriangleLines<C>(init, last) + [WrittenFace(t[n], t[n + 1], t[n + 2], last)];
      forall j | 0 <= j < |t| / 3
        ensures r[j] == WrittenFace(t[3 * j], t[3 * j + 1], t[3 * j + 2], last)
      {
        if j < n / 3 {
          assert init[3 * j] == t[3 * j] && init[3 * j + 1] == t[3 * j + 1] && init[3 * j + 2] == t[3 * j + 2];
        } else {
          assert 3 * j == n;
        }
      }
    }
  }

  lemma DropTriangle(m: int)
    requires m >= 3 && m % 3 == 0
    ensures (m - 3) % 3 == 0 && m / 3 == (m - 3) / 3 + 1 && 3 * ((m - 3) / 3) == m - 3
  {
  }

  /** The number of index entries divided by three, summed over the submeshes. */
  function TriangleCount(subs: seq<seq<int>>): nat {
    if |subs| == 0 then 0 else TriangleCount(subs[..|subs| - 1]) + |subs[|subs| - 1]| / 3
  }

  /** One `f` line per stored triangle. */
  lemma {:induction false} FaceLinesCount<C>(subs: seq<seq<int>>, last: int)
    requires forall j | 0 <= j < |subs| :: |subs[j]| % 3 == 0
    ensures |FaceLines<C>(subs, last)| == TriangleCount(subs)
  {
    if |subs| > 0 {
      FaceLinesCount<C>(subs[..|subs| - 1], last);
      TriangleLinesAt<C>(subs[|subs| - 1], last);
    }
  }

  predicate FaceInRange<C>(l: OutLine<C>, nv: int) {
    l.FaceLine? && 1 <= l.a <= nv && 1 <= l.b <= nv && 1 <= l.c <= nv
  }

  lemma {:induction false} TriangleLinesInRange<C>(t: seq<int>, nv: int)
    requires |t| % 3 == 0 && nv <= MAX_INT32
    requires forall i | 0 <= i < |t| :: 0 <= t[i] < nv
    ensures forall l | l in TriangleLines<C>(t, 0) :: FaceInRange(l, nv)
  {
    if |t| > 0 {
      var n := |t| - 3;
      TriangleLinesInRange<C>(t[..n], nv);
    }
  }

  /**
   * With no offset and valid triangle indexes (each below the vertex count), every
   * face number lies between 1 and the vertex count.
   */
  lemma {:induction false} FaceLinesInRange<C>(subs: seq<seq<int>>, nv: int)
    requires forall j | 0 <= j < |subs| :: |subs[j]| % 3 == 0
    requires nv <= MAX_INT32
    requires forall j, i | 0 <= j < |subs| && 0 <= i < |subs[j]| :: 0 <= subs[j][i] < nv
    ensures forall l | l in FaceLines<C>(subs, 0) :: FaceInRange(l, nv)
  {
    if |subs| > 0 {
      var n := |subs| - 1;
      FaceLinesInRange<C>(subs[..n], nv);
      TriangleLinesInRange<C>(subs[n], nv);
    }
  }

  /**
   * MeshToString with its default arguments: the vertices first, unchanged but for
   * the negated x, then only faces whose numbers address those vertices.
   */
  lemma DefaultMeshLines<C, Tr>(m: Mesh<C>, transformPoint: (Tr, Vec3<C>) -> Vec3<C>, neg: C -> C)
    requires WholeTriangles(m) && |m.vertices| <= MAX_INT32
    requires forall j, i | 0 <= j < |m.submeshes| && 0 <= i < |m.submeshes[j]| :: 0 <= m.submeshes[j][i] < |m.vertices|
    ensures var lines := MeshLines(m, 0, None, transformPoint, neg);
      && |lines| >= |m.vertices|
      && (forall i | 0 <= i < |m.vertices| ::
            lines[i] == VertexLine(neg(m.vertices[i].x), m.vertices[i].y, m.vertices[i].z))
      && (forall i | |m.vertices| <= i < |lines| :: FaceInRange(lines[i], |m.vertices|))
  {
    var vl := VertexLines(m.vertices, None, transformPoint, neg);
    var fl := FaceLines<C>(m.submeshes, 0);
    VertexLinesAt(m.vertices, None, transformPoint, neg);
    FaceLinesInRange<C>(m.submeshes, |m.vertices|);
    assert forall i | |vl| <= i < |vl + fl| :: (vl + fl)[i] == fl[i - |vl|];
  }

  // ---------------------------------------------------------------------------
  // Offsets and object numbers across a Save

  /** The vertex counts of the first k mesh filters, summed. */
  function VertexTotal<C, Tr>(fs: seq<MeshFilter<C, Tr>>, k: int): nat
    requires 0 <= k <= |fs|
  {
    if k == 0 then 0 else VertexTotal(fs, k - 1) + |fs[k - 1].sharedMesh.vertices|
  }

  /** Two int32 values congruent modulo 2^32 are equal. */
  lemma Wrap32Unique(r1: int, r2: int)
    requires IsInt32(r1) && IsInt32(r2) && (r1 - r2) % TWO_POW_32 == 0
    ensures r1 == r2
  {
  }

  /** Wrapping an intermediate sum changes nothing: C# int addition is addition modulo 2^32. */
  lemma Add32Wrap(x: int, y: int)
    ensures Add32(Wrap32(x), y) == Wrap32(x + y)
  {
    var w := Wrap32(x);
    var q1 := (w - x) / TWO_POW_32;
    assert w - x == q1 * TWO_POW_32;
    var r1 := Wrap32(w + y);
    var q2 := (r1 - (w + y)) / TWO_POW_32;
    assert r1 - (w + y) == q2 * TWO_POW_32;
    var r2 := Wrap32(x + y);
    var q3 := (r2 - (x + y)) / TWO_POW_32;
    assert r2 - (x + y) == q3 * TWO_POW_32;
    assert r1 - r2 == (q1 + q2 - q3) * TWO_POW_32;
    Wrap32Unique(r1, r2);
  }

  /** The k-th mesh filter's block in closed form: object number k + 1, offset by all vertices before it. */
  function Block<C, Tr>(fs: seq<MeshFilter<C, Tr>>, k: int, transformPoint: (Tr, Vec3<C>) -> Vec3<C>, neg: C -> C)
    : seq<OutLine<C>>
    requires 0 <= k < |fs| && AllWhole(fs)
  {
    ObjectBlock(fs[k], Wrap32(k + 1), Wrap32(VertexTotal(fs, k)), transformPoint, neg)
  }

  /** vertexCount after k mesh filters is their vertex total as a C# int. */
  lemma {:induction false} CountAfterTotal<C, Tr>(fs: seq<MeshFilter<C, Tr>>, k: int)
    requires 0 <= k <= |fs|
    ensures CountAfter(fs, k) == Wrap32(VertexTotal(fs, k))
    ensures VertexTotal(fs, k) <= MAX_INT32 ==> CountAfter(fs, k) == VertexTotal(fs, k)
  {
    if k > 0 {
      CountAfterTotal(fs, k - 1);
      Add32Wrap(VertexTotal(fs, k - 1), |fs[k - 1].sharedMesh.vertices|);
    }
  }

  /**
   * What Save writes for the first k mesh filters is, block by block, the object
   * number j + 1 and the mesh of filter j offset by the vertex total before it.
   */
  lemma {:induction false} SaveLinesBlocks<C, Tr>(fs: seq<MeshFilter<C, Tr>>, k: int,
                                                 transformPoint: (Tr, Vec3<C>) -> Vec3<C>, neg: C -> C)
    requires 0 <= k <= |fs| && AllWhole(fs)
    ensures k > 0 ==> SaveLines(fs, k, transformPoint, neg)
                      == SaveLines(fs, k - 1, transformPoint, neg) + Block(fs, k - 1, transformPoint, neg)
    ensures CountAfter(fs, k) == Wrap32(VertexTotal(fs, k))
  {
    CountAfterTotal(fs, k);
    if k > 0 {
      CountAfterTotal(fs, k - 1);
      assert Block(fs, k - 1, transformPoint, neg)
             == ObjectBlock(fs[k - 1], Wrap32(k), CountAfter(fs, k - 1), transformPoint, neg);
    }
  }

  // ---------------------------------------------------------------------------
  // Face lines as text, read back by the loader

  /** `string.Format("f {2} {1} {0}\n", ...)` of a face line, without the line break. */
  function FaceText(a: int, b: int, c: int): string {
    "f " + ShowInt(a) + " " + ShowInt(b) + " " + ShowInt(c)
  }

  lemma ShowIntNoSpace(i: int)
    ensures ' ' !in ShowInt(i) && |ShowInt(i)| > 0 && ShowInt(i)[0] != ' '
  {
  }

  lemma FaceTextNoPair(a: int, b: int, c: int)
    ensures !HasPair(FaceText(a, b, c), ' ')
  {
    var A, B, C := ShowInt(a), ShowInt(b), ShowInt(c);
    ShowIntNoSpace(a);
    ShowIntNoSpace(b);
    ShowIntNoSpace(c);
    NoPairWithout(A, ' ');
    NoPairWithout(B, ' ');
    NoPairWithout(C, ' ');
    assert !HasPair("f ", ' ') && !HasPair(" ", ' ');
    PairAppend("f ", A, ' ');
    PairAppend("f " + A, " ", ' ');
    PairAppend("f " + A + " ", B, ' ');
    PairAppend("f " + A + " " + B, " ", ' ');
    PairAppend("f " + A + " " + B + " ", C, ' ');
  }

  lemma FaceTextSplit(a: int, b: int, c: int)
    ensures Split(FaceText(a, b, c), ' ') == ["f"] + [ShowInt(a), ShowInt(b), ShowInt(c)]
  {
    var A, B, C := ShowInt(a), ShowInt(b), ShowInt(c);
    ShowIntNoSpace(a);
    ShowIntNoSpace(b);
    ShowIntNoSpace(c);
    SplitThree(A, B, C, ' ');
    assert FaceText(a, b, c) == "f" + [' '] + (A + [' '] + B + [' '] + C);
    SplitAfter("f", ' ', A + [' '] + B + [' '] + C);
    assert ["f"] + [A, B, C] == ["f", A, B, C];
  }

  /** The loader's line classification sees a written face line as a face with three corners. */
  lemma FaceTextClassify(a: int, b: int, c: int, split: bool)
    ensures Classify(FaceText(a, b, c), split) == FaceData([ShowInt(a), ShowInt(b), ShowInt(c)])
  {
    var ln := FaceText(a, b, c);
    var C := ShowInt(c);
    assert ln[0] == 'f';
    assert ln[|ln| - 1] == C[|C| - 1];
    TrimByKeeps(ln, IsWhiteSpace);
    FaceTextNoPair(a, b, c);
    ReplaceIdentity(ln);
    FaceTextSplit(a, b, c);
    ClassifyFace(ln, split, [ShowInt(a), ShowInt(b), ShowInt(c)]);
  }

  /** A line whose first token is "f" is a face of the other tokens. */
  lemma KeywordFace(cmps: seq<string>, data: string, split: bool)
    requires |cmps| >= 1 && cmps[0] == "f"
    ensures ByKeyword(cmps, data, split) == FaceData(cmps[1..])
  {
  }

  /** A trimmed line without double spaces whose first piece is "f" is a face of the other pieces. */
  lemma ClassifyFace(ln: string, split: bool, corners: seq<string>)
    requires |ln| > 0 && ln[0] == 'f'
    requires Trim(ln) == ln && ReplaceDoubleSpace(ln) == ln
    requires Split(ln, ' ') == ["f"] + corners
    ensures Classify(ln, split) == FaceData(corners)
  {
    var l := ReplaceDoubleSpace(Trim(ln));
    assert l == ln;
    var cmps := Split(l, ' ');
    KeywordFace(cmps, AfterFirstSpace(l), split);
    assert cmps[1..] == corners;
  }

  lemma WrittenFaceNoOffset<C>(a: int, b: int, c: int)
    requires 0 <= a < MAX_INT32 && 0 <= b < MAX_INT32 && 0 <= c < MAX_INT32
    ensures WrittenFace<C>(a, b, c, 0) == FaceLine(c + 1, b + 1, a + 1)
  {
    assert Add32(c, 1) == c + 1 && Add32(c + 1, 0) == c + 1;
    assert Add32(b, 1) == b + 1 && Add32(b + 1, 0) == b + 1;
    assert Add32(a, 1) == a + 1 && Add32(a + 1, 0) == a + 1;
  }

  /** The loader reads a written one-based number back as the zero-based vertex index. */
  lemma OneBasedReads(x: int)
    requires 0 <= x < MAX_INT32
    ensures ParseCorner(ShowInt(x + 1)) == Ok(Key(x, -1, -1))
  {
    ParseVertexOnly(x + 1);
    assert Dec32(x + 1) == x;
  }

  /**
   * Round trip with the loader: the face Save writes for a stored triangle (a, b, c)
   * with valid indexes and no offset reads back as a face whose corners are the
   * vertex-only keys c, b, a. The winding is reversed, which undoes the mirroring
   * of the negated x.
   */
  lemma WrittenFaceReads<C>(a: int, b: int, c: int, split: bool)
    requires 0 <= a < MAX_INT32 && 0 <= b < MAX_INT32 && 0 <= c < MAX_INT32
    ensures WrittenFace<C>(a, b, c, 0) == FaceLine(c + 1, b + 1, a + 1)
    ensures Classify(FaceText(c + 1, b + 1, a + 1), split) == FaceData([ShowInt(c + 1), ShowInt(b + 1), ShowInt(a + 1)])
    ensures ParseCorner(ShowInt(c + 1)) == Ok(Key(c, -1, -1))
    ensures ParseCorner(ShowInt(b + 1)) == Ok(Key(b, -1, -1))
    ensures ParseCorner(ShowInt(a + 1)) == Ok(Key(a, -1, -1))
  {
    WrittenFaceNoOffset<C>(a, b, c);
    FaceTextClassify(c + 1, b + 1, a + 1, split);
    OneBasedReads(c);
    OneBasedReads(b);
    OneBasedReads(a);
  }

  // ---------------------------------------------------------------------------
  // The static class

  /** ObjSaver with its static counter of the vertices written so far. */
  class Saver {
    var vertexCount: int

    constructor ()
      ensures vertexCount == 0
    {
      vertexCount := 0;
    }

    /** The `v` lines of the vertex foreach loops, transformed or not. */
    static method WriteVertices<C, Tr>(vs: seq<Vec3<C>>, transform: Option<Tr>,
                                       transformPoint: (Tr, Vec3<C>) -> Vec3<C>, neg: C -> C)
      returns (sb: seq<OutLine<C>>)
      ensures sb == VertexLines(vs, transform, transformPoint, neg)
    {
      sb := [];
      var i := 0;
      if transform.Some? {
        while i < |vs|
          invariant 0 <= i <= |vs|
          invariant sb == VertexLines(vs[..i], transform, transformPoint, neg)
        {
          var vt := transformPoint(transform.value, vs[i]);
          sb := sb + [VertexLine(neg(vt.x), vt.y, vt.z)];
          assert vs[..i + 1][..i] == vs[..i];
          i := i + 1;
        }
      } else {
        while i < |vs|
          invariant 0 <= i <= |vs|
          invariant sb == VertexLines(vs[..i], transform, transformPoint, neg)
        {
          var v := vs[i];
          sb := sb + [VertexLine(neg(v.x), v.y, v.z)];
          assert vs[..i + 1][..i] == vs[..i];
          i := i + 1;
        }
      }
      assert vs[..|vs|] == vs;
    }

    /** The `f` lines of one submesh's triangles, three indexes at a time. */
    static method WriteTriangles<C>(triangles: seq<int>, lastVertexIndex: int) returns (sb: seq<OutLine<C>>)
      requires |triangles| % 3 == 0
      ensures sb == TriangleLines<C>(triangles, lastVertexIndex)
    {
      sb := [];
      var i := 0;
      while i < |triangles|
        invariant 0 <= i <= |triangles| && i % 3 == 0
        invariant sb == TriangleLines<C>(triangles[..i], lastVertexIndex)
      {
        ThreeStep(i, |triangles|);
        TriangleLinesNext<C>(triangles, i, lastVertexIndex);
        sb := sb + [WrittenFace(triangles[i], triangles[i + 1], triangles[i + 2], lastVertexIndex)];
        i := i + 3;
      }
      assert triangles[..|triangles|] == triangles;
    }

    /** MeshToString: advances vertexCount by the mesh's vertex count and returns its lines. */
    method MeshToString<C, Tr>(m: Mesh<C>, lastVertexIndex: int, transform: Option<Tr>,
                               transformPoint: (Tr, Vec3<C>) -> Vec3<C>, neg: C -> C)
      returns (sb: seq<OutLine<C>>)
      requires WholeTriangles(m)
      modifies this
      ensures vertexCount == Add32(old(vertexCount), |m.vertices|)
      ensures sb == MeshLines(m, lastVertexIndex, transform, transformPoint, neg)
    {
      vertexCount := Add32(vertexCount, |m.vertices|);
      var vertexText := WriteVertices(m.vertices, transform, transformPoint, neg);
      var faceText: seq<OutLine<C>> := [];
      var material := 0;
      while material < |m.submeshes|
        invariant 0 <= material <= |m.submeshes|
        invariant vertexCount == Add32(old(vertexCount), |m.vertices|)
        invariant faceText == FaceLines<C>(m.submeshes[..material], lastVertexIndex)
      {
        var triangles := m.submeshes[material];
        var t := WriteTriangles<C>(triangles, lastVertexIndex);
        assert m.submeshes[..material + 1][..material] == m.submeshes[..material];
        faceText := faceText + t;
        material := material + 1;
      }
      assert m.submeshes[..|m.submeshes|] == m.submeshes;
      sb := vertexText + faceText;
    }

    /**
     * Save: checks the stream, then the collection, resets vertexCount and writes
     * every mesh filter's block. A rejected call leaves vertexCount alone.
     */
    method Save<C, Tr>(meshFilters: Option<seq<MeshFilter<C, Tr>>>, hasStream: bool,
                       transformPoint: (Tr, Vec3<C>) -> Vec3<C>, neg: C -> C)
      returns (r: Result<seq<OutLine<C>>, SaveError>)
      requires meshFilters.Some? ==> AllWhole(meshFilters.value)
      modifies this
      ensures r == SaveSpec(meshFilters, hasStream, transformPoint, neg)
      ensures r.Err? ==> vertexCount == old(vertexCount)
      ensures r.Ok? ==> vertexCount == CountAfter(meshFilters.value, |meshFilters.value|)
    {
      if !hasStream {
        return Err(NullStream);
      }
      if meshFilters.None? {
        return Err(NullMeshFilters);
      }
      var fs := meshFilters.value;
      vertexCount := 0;
      var outputFile: seq<OutLine<C>> := [];
      var o := 0;
      var i := 0;
      while i < |fs|
        invariant 0 <= i <= |fs|
        invariant o == Wrap32(i)
        invariant outputFile == SaveLines(fs, i, transformPoint, neg) && vertexCount == CountAfter(fs, i)
      {
        var meshFilter := fs[i];
        Add32Wrap(i, 1);
        o := Add32(o, 1);
        ghost var count := vertexCount;
        var text := MeshToString(meshFilter.sharedMesh, vertexCount, Some(meshFilter.transform), transformPoint, neg);
        assert [ObjectLine(o)] + text + [BlankLine] == ObjectBlock(meshFilter, o, count, transformPoint, neg);
        outputFile := outputFile + ([ObjectLine(o)] + text + [BlankLine]);
        i := i + 1;
      }
      r := Ok(outputFile);
    }
  }
}
