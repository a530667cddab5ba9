/**
 * ObjLoader.LoadOBJFile as the loops it is: the scan walks the lines, updating the
 * vertex, normal and uv lists, the key table, the unique-vertex lists, the name
 * lists, the triangle list and the current material, object and normals flag; the
 * build walks the object names and, for each, the material list, growing an index
 * array face by face and rewriting it in place through the object's remap table.
 * Each method is proved to compute the function of ObjScan or ObjBuild that states
 * its result.
 */
module ObjLoader {
  import opened Wrappers
  import opened FirstSeen
  import opened ObjCorner
  import opened ObjVector
  import opened ObjScan
  import opened ObjBuild

  // ----- Scan phase -----

  /**
   * One corner key of an `f` line. A known key keeps its number; a new one is
   * numbered with the table's size, and its vertex, normal (or zero when the normal
   * index is out of range) and uv (or zero) are appended to the unique lists.
   */
  method AddCorner<F(==)>(s: ScanState<F>, k: Key, zf: F) returns (r: Result<(ScanState<F>, int), LoadError>)
    ensures r == RegisterCorner(s, k, zf)
  {
    if k in s.hashtable {
      return Ok((s, s.hashtable[k]));
    }
    var index := |s.hashtable|;
    var st := s.(hashtable := s.hashtable[k := |s.hashtable|]);
    if !(0 <= k.v < |st.vertices|) {
      return Err(VertexIndexOutOfRange(k.v));
    }
    st := st.(uvertices := st.uvertices + [st.vertices[k.v]]);
    if k.n < 0 || k.n > |st.normals| - 1 {
      st := st.(unormals := st.unormals + [Zero3(zf)]);
    } else {
      st := st.(hasNormals := true, unormals := st.unormals + [st.normals[k.n]]);
    }
    if k.uv < 0 || k.uv > |st.uvs| - 1 {
      st := st.(uuvs := st.uuvs + [Zero2(zf)]);
    } else {
      st := st.(uuvs := st.uuvs + [st.uvs[k.uv]]);
    }
    return Ok((st, index));
  }

  /**
   * An `f` line: the corners are registered one by one into the array `indexes`; a
   * face of three or four corners then becomes one or two triangles.
   */
  method ScanFace<F(==)>(s: ScanState<F>, corners: seq<string>, split: bool, zf: F)
    returns (r: Result<ScanState<F>, LoadError>)
    ensures r == FaceStep(s, corners, split, zf)
  {
    var st := s;
    var indexes := new int[|corners|];
    var i := 0;
    while i < |corners|
      invariant 0 <= i <= |corners|
      invariant RegisterTokens(s, corners[..i], ParseCorner, zf) == Ok((st, indexes[..i]))
    {
      var parsed := ParseCorner(corners[i]);
      if parsed.Err? {
        CornerErr(s, corners, split, zf, i, st, indexes[..i], parsed.error);
        return Err(parsed.error);
      }
      var added := AddCorner(st, parsed.value, zf);
      if added.Err? {
        CornerErr(s, corners, split, zf, i, st, indexes[..i], added.error);
        return Err(added.error);
      }
      ghost var before := indexes[..i];
      indexes[i] := added.value.1;
      st := added.value.0;
      CornerOk(s, corners, zf, i, before, parsed.value, added.value);
      assert indexes[..i + 1] == before + [added.value.1];
      i := i + 1;
    }
    assert corners[..i] == corners && indexes[..i] == indexes[..];
    var mesh := if split then st.cmaterial else st.cmesh;
    FaceStepDone(s, corners, split, zf, st, indexes[..]);
    st := AddTriangles(st, indexes, mesh);
    return Ok(st);
  }

  /** A corner that registers extends the registered prefix by its number. */
  lemma CornerOk<F>(s: ScanState<F>, corners: seq<string>, zf: F, i: int, idx: seq<int>,
                    k: Key, q: (ScanState<F>, int))
    requires 0 <= i < |corners|
    requires RegisterTokens(s, corners[..i], ParseCorner, zf).Ok?
    requires RegisterTokens(s, corners[..i], ParseCorner, zf).value.1 == idx
    requires ParseCorner(corners[i]) == Ok(k)
    requires RegisterCorner(RegisterTokens(s, corners[..i], ParseCorner, zf).value.0, k, zf) == Ok(q)
    ensures RegisterTokens(s, corners[..i + 1], ParseCorner, zf) == Ok((q.0, idx + [q.1]))
  {
    RegisterTokensNext(s, corners, ParseCorner, zf, i);
  }

  /** A corner that does not parse, or names a missing vertex, fails the whole face. */
  lemma CornerErr<F>(s: ScanState<F>, corners: seq<string>, split: bool, zf: F, i: int,
                     st: ScanState<F>, idx: seq<int>, e: LoadError)
    requires 0 <= i < |corners|
    requires RegisterTokens(s, corners[..i], ParseCorner, zf) == Ok((st, idx))
    requires ParseCorner(corners[i]) == Err(e)
             || (ParseCorner(corners[i]).Ok? && RegisterCorner(st, ParseCorner(corners[i]).value, zf) == Err(e))
    ensures FaceStep(s, corners, split, zf) == Err(e)
  {
    RegisterTokensNext(s, corners, ParseCorner, zf, i);
    RegisterTokensErr(s, corners, ParseCorner, zf, i + 1);
  }

  /** Once every corner is registered, the face adds its triangles with the current names. */
  lemma FaceStepDone<F>(s: ScanState<F>, corners: seq<string>, split: bool, zf: F, st: ScanState<F>, idx: seq<int>)
    requires RegisterTokens(s, corners, ParseCorner, zf) == Ok((st, idx))
    ensures FaceStep(s, corners, split, zf)
            == Ok(st.(faceList := st.faceList + Triangulate(idx, st.cmaterial, if split then st.cmaterial else st.cmesh)))
  {
  }

  /**
   * The corner numbers of a face of three or four corners become one or two
   * triangles with the current material and the given object name; other faces
   * add nothing.
   */
  method AddTriangles<F(==)>(s: ScanState<F>, indexes: array<int>, mesh: string) returns (t: ScanState<F>)
    ensures t == s.(faceList := s.faceList + Triangulate(indexes[..], s.cmaterial, mesh))
  {
    t := s;
    ghost var tris := Triangulate(indexes[..], s.cmaterial, mesh);
    if indexes.Length < 5 && indexes.Length >= 3 {
      var f1 := ObjFace(t.cmaterial, mesh, [indexes[0], indexes[1], indexes[2]]);
      t := t.(faceList := t.faceList + [f1]);
      if indexes.Length > 3 {
        var f2 := ObjFace(t.cmaterial, mesh, [indexes[2], indexes[3], indexes[0]]);
        t := t.(faceList := t.faceList + [f2]);
        assert tris == [f1, f2];
        assert s.faceList + [f1] + [f2] == s.faceList + tris;
      } else {
        assert tris == [f1];
      }
    } else {
      assert tris == [];
      assert s.faceList + tris == s.faceList;
    }
  }

  /** What one classified line does to the scan state. */
  method ScanDirective<F(==)>(s: ScanState<F>, d: Directive, split: bool, parseFloat: string -> Option<F>, zf: F)
    returns (r: Result<ScanState<F>, LoadError>)
    ensures r == Apply(s, d, split, parseFloat, zf)
  {
    var st := s;
    match d {
      case Skip =>
      case SetObject(name) =>
        st := st.(cmesh := name);
        if name !in st.objectNames {
          st := st.(objectNames := st.objectNames + [name]);
        }
      case SetMaterial(name) =>
        st := st.(cmaterial := name);
        if name !in st.materialNames {
          st := st.(materialNames := st.materialNames + [name]);
        }
        if split && name !in st.objectNames {
          st := st.(objectNames := st.objectNames + [name]);
        }
      case VertexData(cmps) =>
        var v := ParseVector(cmps, parseFloat, zf);
        if v.None? {
          return Err(BadVector(cmps));
        }
        st := st.(vertices := st.vertices + [v.value]);
      case NormalData(cmps) =>
        var v := ParseVector(cmps, parseFloat, zf);
        if v.None? {
          return Err(BadVector(cmps));
        }
        st := st.(normals := st.normals + [v.value]);
      case UvData(cmps) =>
        var v := ParseVector(cmps, parseFloat, zf);
        if v.None? {
          return Err(BadVector(cmps));
        }
        st := st.(uvs := st.uvs + [ToVec2(v.value)]);
      case FaceData(corners) =>
        r := ScanFace(st, corners, split, zf);
        return;
    }
    return Ok(st);
  }

  /**
   * The line loop: each line is classified by its first token and applied; the
   * first line that fails ends the scan with its error.
   */
  method ScanFile<F(==)>(lines: seq<string>, split: bool, parseFloat: string -> Option<F>, zf: F)
    returns (r: Result<ScanState<F>, LoadError>)
    ensures r == ScanLines(lines, split, parseFloat, zf)
  {
    var st: ScanState<F> := ScanState([], [], [], [], [], [], [""], [], map[], [], "", "default", false);
    var i := 0;
    while i < |lines|
      invariant 0 <= i <= |lines|
      invariant ScanLines(lines[..i], split, parseFloat, zf) == Ok(st)
    {
      ScanNext(lines, split, parseFloat, zf, i);
      var d := Classify(lines[i], split);
      var next := ScanDirective(st, d, split, parseFloat, zf);
      if next.Err? {
        ScanErr(lines, split, parseFloat, zf, i + 1);
        return next;
      }
      st := next.value;
      i := i + 1;
    }
    assert lines[..i] == lines;
    return Ok(st);
  }

  // ----- Build phase -----

  /**
   * The faces' index arrays concatenated into one array, grown per face the way
   * Array.Resize does (a new array holding the old entries) and filled by
   * Array.Copy.
   */
  method ConcatFaceIndexes(faces: seq<ObjFace>) returns (indexes: array<int>)
    ensures fresh(indexes)
    ensures indexes[..] == FaceIndexes(faces)
  {
    indexes := new int[0];
    var j := 0;
    while j < |faces|
      invariant 0 <= j <= |faces|
      invariant fresh(indexes)
      invariant indexes[..] == FaceIndexes(faces[..j])
    {
      var f := faces[j];
      var l := indexes.Length;
      var resized := new int[l + |f.indexes|];
      forall k | 0 <= k < l {
        resized[k] := indexes[k];
      }
      forall k | 0 <= k < |f.indexes| {
        resized[l + k] := f.indexes[k];
      }
      assert resized[..] == indexes[..] + f.indexes;
      assert faces[..j + 1][..j] == faces[..j];
      indexes := resized;
      j := j + 1;
    }
    assert faces[..j] == faces;
  }

  /**
   * An old index not yet in the remap table: its vertex, normal and uv are appended
   * to the processed lists and it is numbered with the position of the new vertex.
   */
  method AddProcessed<F(==)>(remapTable: map<int, int>, pv: seq<Vec3<F>>, pn: seq<Vec3<F>>, puv: seq<Vec2<F>>,
                             uvertices: seq<Vec3<F>>, unormals: seq<Vec3<F>>, uuvs: seq<Vec2<F>>,
                             ghost order: seq<int>, idx: int)
    returns (remapTable': map<int, int>, pv': seq<Vec3<F>>, pn': seq<Vec3<F>>, puv': seq<Vec2<F>>, number: int)
    requires |unormals| == |uvertices| && |uuvs| == |uvertices|
    requires AllIn(order, |uvertices|) && 0 <= idx < |uvertices| && idx !in order
    requires remapTable == PositionMap(order)
    requires pv == Gather(uvertices, order) && pn == Gather(unormals, order) && puv == Gather(uuvs, order)
    ensures AllIn(order + [idx], |uvertices|)
    ensures number == |order| && remapTable' == PositionMap(order + [idx])
    ensures pv' == Gather(uvertices, order + [idx]) && pn' == Gather(unormals, order + [idx])
    ensures puv' == Gather(uuvs, order + [idx])
  {
    GatherSnoc(uvertices, order, idx);
    GatherSnoc(unormals, order, idx);
    GatherSnoc(uuvs, order, idx);
    pv' := pv + [uvertices[idx]];
    pn' := pn + [unormals[idx]];
    puv' := puv + [uuvs[idx]];
    PositionMapSnoc(order, idx);
    remapTable' := remapTable[idx := |pv'| - 1];
    number := remapTable'[idx];
  }

  /**
   * The new number of one old index of the buffer: its entry in the remap table, or,
   * for an index not seen before in the object, the next number (AddProcessed).
   */
  method Renumber<F(==)>(remapTable: map<int, int>, pv: seq<Vec3<F>>, pn: seq<Vec3<F>>, puv: seq<Vec2<F>>,
                         uvertices: seq<Vec3<F>>, unormals: seq<Vec3<F>>, uuvs: seq<Vec2<F>>,
                         ghost seen: seq<int>, ghost raw: seq<int>, ghost i: int, idx: int)
    returns (remapTable': map<int, int>, pv': seq<Vec3<F>>, pn': seq<Vec3<F>>, puv': seq<Vec2<F>>, renumbered: int)
    requires |unormals| == |uvertices| && |uuvs| == |uvertices|
    requires 0 <= i < |raw| && idx == raw[i]
    requires AllIn(seen, |uvertices|) && AllIn(raw, |uvertices|) && AllIn(Firsts(seen + raw[..i]), |uvertices|)
    requires remapTable == PositionMap(Firsts(seen + raw[..i]))
    requires pv == Gather(uvertices, Firsts(seen + raw[..i])) && pn == Gather(unormals, Firsts(seen + raw[..i]))
    requires puv == Gather(uuvs, Firsts(seen + raw[..i]))
    ensures AllIn(Firsts(seen + raw[..i + 1]), |uvertices|)
    ensures renumbered == IndexOf(Firsts(seen + raw[..i + 1]), idx)
    ensures remapTable' == PositionMap(Firsts(seen + raw[..i + 1]))
    ensures pv' == Gather(uvertices, Firsts(seen + raw[..i + 1])) && pn' == Gather(unormals, Firsts(seen + raw[..i + 1]))
    ensures puv' == Gather(uuvs, Firsts(seen + raw[..i + 1]))
  {
    ghost var order := Firsts(seen + raw[..i]);
    ghost var next := Firsts(seen + raw[..i + 1]);
    RemapStep(seen, raw, i);
    RemapStepIn(seen, raw, i, |uvertices|);
    if idx in remapTable {
      remapTable', pv', pn', puv' := remapTable, pv, pn, puv;
      renumbered := remapTable[idx];
    } else {
      remapTable', pv', pn', puv', renumbered := AddProcessed(remapTable, pv, pn, puv, uvertices, unormals, uuvs, order, idx);
      IndexOfDistinct(next, |order|);
    }
  }

  /**
   * One submesh's buffer rewritten in place: an old index already in the remap table
   * takes its number; a new one gets the next number, and its vertex, normal and uv
   * are appended to the object's processed lists. `seen` is every old index of the
   * object's earlier submeshes; the table numbers them in first-reference order.
   */
  method RemapSubmesh<F(==)>(indexes: array<int>, remapTable: map<int, int>,
                             pv: seq<Vec3<F>>, pn: seq<Vec3<F>>, puv: seq<Vec2<F>>,
                             uvertices: seq<Vec3<F>>, unormals: seq<Vec3<F>>, uuvs: seq<Vec2<F>>,
                             ghost seen: seq<int>)
    returns (remapTable': map<int, int>, pv': seq<Vec3<F>>, pn': seq<Vec3<F>>, puv': seq<Vec2<F>>)
    requires |unormals| == |uvertices| && |uuvs| == |uvertices|
    requires AllIn(seen, |uvertices|) && AllIn(indexes[..], |uvertices|)
    requires AllIn(Firsts(seen), |uvertices|)
    requires remapTable == PositionMap(Firsts(seen))
    requires pv == Gather(uvertices, Firsts(seen)) && pn == Gather(unormals, Firsts(seen)) && puv == Gather(uuvs, Firsts(seen))
    modifies indexes
    ensures AllIn(Firsts(seen + old(indexes[..])), |uvertices|)
    ensures indexes[..] == Rewrite(Firsts(seen + old(indexes[..])), old(indexes[..]))
    ensures remapTable' == PositionMap(Firsts(seen + old(indexes[..])))
    ensures pv' == Gather(uvertices, Firsts(seen + old(indexes[..])))
    ensures pn' == Gather(unormals, Firsts(seen + old(indexes[..])))
    ensures puv' == Gather(uuvs, Firsts(seen + old(indexes[..])))
  {
    ghost var raw := indexes[..];
    ghost var n := |uvertices|;
    ghost var order := Firsts(seen);
    assert seen + raw[..0] == seen;
    remapTable', pv', pn', puv' := remapTable, pv, pn, puv;
    var i := 0;
    while i < indexes.Length
      invariant 0 <= i <= indexes.Length
      invariant |raw| == indexes.Length
      invariant order == Firsts(seen + raw[..i])
      invariant AllIn(order, n)
      invariant indexes[..] == Rewrite(order, raw[..i]) + raw[i..]
      invariant remapTable' == PositionMap(order)
      invariant pv' == Gather(uvertices, order) && pn' == Gather(unormals, order) && puv' == Gather(uuvs, order)
    {
      RemapStep(seen, raw, i);
      ghost var next := Firsts(seen + raw[..i + 1]);
      assert indexes[..][i] == raw[i];
      var idx := indexes[i];
      var renumbered;
      remapTable', pv', pn', puv', renumbered := Renumber(remapTable', pv', pn', puv', uvertices, unormals, uuvs, seen, raw, i, idx);
      ghost var before := indexes[..];
      indexes[i] := renumbered;
      assert indexes[..] == before[i := renumbered];
      UpdatePrefix(Rewrite(order, raw[..i]), raw, i, renumbered);
      order := next;
      i := i + 1;
    }
    RemapDone(seen, raw);
    assert raw[i..] == [];
    assert indexes[..] == Rewrite(order, raw[..i]) + [];
  }

  /**
   * A material with triangles in the object: their indices are concatenated into
   * one array, which is rewritten in place through the object's remap table.
   */
  method AddSubmesh<F(==)>(faces: seq<ObjFace>, remapTable: map<int, int>,
                           pv: seq<Vec3<F>>, pn: seq<Vec3<F>>, puv: seq<Vec2<F>>,
                           uvertices: seq<Vec3<F>>, unormals: seq<Vec3<F>>, uuvs: seq<Vec2<F>>,
                           ghost seen: seq<int>)
    returns (remapTable': map<int, int>, pv': seq<Vec3<F>>, pn': seq<Vec3<F>>, puv': seq<Vec2<F>>, buffer: seq<int>)
    requires |unormals| == |uvertices| && |uuvs| == |uvertices|
    requires IndexesIn(faces, |uvertices|)
    requires AllIn(seen, |uvertices|) && AllIn(Firsts(seen), |uvertices|)
    requires remapTable == PositionMap(Firsts(seen))
    requires pv == Gather(uvertices, Firsts(seen)) && pn == Gather(unormals, Firsts(seen)) && puv == Gather(uuvs, Firsts(seen))
    ensures var seen' := seen + FaceIndexes(faces);
      AllIn(seen', |uvertices|) && AllIn(Firsts(seen'), |uvertices|)
      && remapTable' == PositionMap(Firsts(seen'))
      && pv' == Gather(uvertices, Firsts(seen')) && pn' == Gather(unormals, Firsts(seen'))
      && puv' == Gather(uuvs, Firsts(seen'))
      && buffer == Rewrite(Firsts(seen'), FaceIndexes(faces))
  {
    var indexes := ConcatFaceIndexes(faces);
    FaceIndexesAllIn(faces, |uvertices|);
    AllInAppend(seen, FaceIndexes(faces), |uvertices|);
    remapTable', pv', pn', puv' := RemapSubmesh(indexes, remapTable, pv, pn, puv, uvertices, unormals, uuvs, seen);
    buffer := indexes[..];
  }

  /**
   * One object: its triangles are picked from the triangle list; for each material
   * of the list, in order, the triangles with that material, if any, become a
   * submesh whose buffer is rewritten through the object's remap table.
   */
  method BuildObject<F(==)>(obj: string, faceList: seq<ObjFace>, materialNames: seq<string>,
                            uvertices: seq<Vec3<F>>, unormals: seq<Vec3<F>>, uuvs: seq<Vec2<F>>)
    returns (m: MeshObject<F>)
    requires |unormals| == |uvertices| && |uuvs| == |uvertices|
    requires IndexesIn(faceList, |uvertices|)
    ensures m == BuildObjectSpec(obj, faceList, materialNames, uvertices, unormals, uuvs)
  {
    var processedVertices: seq<Vec3<F>> := [];
    var processedNormals: seq<Vec3<F>> := [];
    var processedUVs: seq<Vec2<F>> := [];
    var processedIndexes: seq<seq<int>> := [];
    var remapTable: map<int, int> := map[];
    var meshMaterialNames: seq<string> := [];
    var ofaces := WhereMesh(faceList, obj);
    WhereMeshIn(faceList, obj, |uvertices|);
    ghost var b := BuildSteps(ofaces, materialNames[..0]);
    var j := 0;
    while j < |materialNames|
      invariant 0 <= j <= |materialNames|
      invariant b == BuildSteps(ofaces, materialNames[..j])
      invariant AllIn(b.seen, |uvertices|) && AllIn(Firsts(b.seen), |uvertices|)
      invariant meshMaterialNames == b.materials && processedIndexes == b.submeshes
      invariant remapTable == PositionMap(Firsts(b.seen))
      invariant processedVertices == Gather(uvertices, Firsts(b.seen))
      invariant processedNormals == Gather(unormals, Firsts(b.seen))
      invariant processedUVs == Gather(uuvs, Firsts(b.seen))
    {
      var mn := materialNames[j];
      var faces := WhereMaterial(ofaces, mn);
      BuildStepsLast(ofaces, materialNames[..j + 1]);
      assert materialNames[..j + 1][..j] == materialNames[..j];
      ghost var b' := BuildSteps(ofaces, materialNames[..j + 1]);
      if |faces| > 0 {
        WhereMaterialIn(ofaces, mn, |uvertices|);
        var buffer;
        remapTable, processedVertices, processedNormals, processedUVs, buffer :=
          AddSubmesh(faces, remapTable, processedVertices, processedNormals, processedUVs,
                     uvertices, unormals, uuvs, b.seen);
        meshMaterialNames := meshMaterialNames + [mn];
        processedIndexes := processedIndexes + [buffer];
      }
      SeenInRange(ofaces, materialNames[..j + 1], |uvertices|);
      b := b';
      j := j + 1;
    }
    assert materialNames[..j] == materialNames;
    m := MeshObject(obj, processedVertices, processedNormals, processedUVs, processedIndexes, meshMaterialNames);
  }

  // ----- The whole loader -----

  /**
   * What LoadOBJFile leaves behind: one mesh per object name, and whether the meshes'
   * normals are recalculated (no corner brought an in-range normal).
   */
  datatype Loaded<F> = Loaded(objects: seq<MeshObject<F>>, recalculateNormals: bool)

  /** The scan's result is fit to build from: equal unique lists and in-range triangle indices. */
  lemma ScanReady<F>(lines: seq<string>, split: bool, parseFloat: string -> Option<F>, zf: F)
    requires ScanLines(lines, split, parseFloat, zf).Ok?
    ensures var s := ScanLines(lines, split, parseFloat, zf).value;
      |s.unormals| == |s.uvertices| && |s.uuvs| == |s.uvertices| && IndexesIn(s.faceList, |s.uvertices|)
  {
    ScanLinesInvariant(lines, split, parseFloat, zf);
  }

  /** The objects of a scan, one per object name. */
  function BuildAll<F(==)>(names: seq<string>, s: ScanState<F>): (objects: seq<MeshObject<F>>)
    requires |s.unormals| == |s.uvertices| && |s.uuvs| == |s.uvertices| && IndexesIn(s.faceList, |s.uvertices|)
    ensures |objects| == |names|
  {
    seq(|names|, i requires 0 <= i < |names| =>
      BuildObjectSpec(names[i], s.faceList, s.materialNames, s.uvertices, s.unormals, s.uuvs))
  }

  /** The loader's result for a file's lines: a scan error, or the built objects. */
  function LoadSpec<F(==)>(lines: seq<string>, split: bool, parseFloat: string -> Option<F>, zf: F)
    : Result<Loaded<F>, LoadError>
  {
    var s :- ScanLines(lines, split, parseFloat, zf);
    ScanReady(lines, split, parseFloat, zf);
    Ok(Loaded(BuildAll(ObjectList(s.objectNames), s), !s.hasNormals))
  }

  /**
   * LoadOBJFile on the lines of a file: the scan, the default object when no name
   * was read, and one object per name.
   */
  method LoadOBJFile<F(==)>(lines: seq<string>, split: bool, parseFloat: string -> Option<F>, zf: F)
    returns (r: Result<Loaded<F>, LoadError>)
    ensures r == LoadSpec(lines, split, parseFloat, zf)
  {
    var scanned := ScanFile(lines, split, parseFloat, zf);
    if scanned.Err? {
      return Err(scanned.error);
    }
    var st := scanned.value;
    ScanReady(lines, split, parseFloat, zf);
    var objectNames := st.objectNames;
    if |objectNames| == 0 {
      objectNames := objectNames + ["default"];
    }
    assert objectNames == ObjectList(st.objectNames);
    var objects: seq<MeshObject<F>> := [];
    var k := 0;
    while k < |objectNames|
      invariant 0 <= k <= |objectNames|
      invariant objects == BuildAll(objectNames[..k], st)
    {
      var m := BuildObject(objectNames[k], st.faceList, st.materialNames, st.uvertices, st.unormals, st.uuvs);
      BuildAllNext(objectNames, k, st);
      objects := objects + [m];
      k := k + 1;
    }
    assert objectNames[..k] == objectNames;
    return Ok(Loaded(objects, !st.hasNormals));
  }

  /** One more object name appends its object. */
  lemma BuildAllNext<F>(names: seq<string>, k: int, s: ScanState<F>)
    requires 0 <= k < |names|
    requires |s.unormals| == |s.uvertices| && |s.uuvs| == |s.uvertices| && IndexesIn(s.faceList, |s.uvertices|)
    ensures BuildAll(names[..k + 1], s)
            == BuildAll(names[..k], s) + [BuildObjectSpec(names[k], s.faceList, s.materialNames, s.uvertices, s.unormals, s.uuvs)]
  {
    var a, b := BuildAll(names[..k + 1], s), BuildAll(names[..k], s);
    forall i | 0 <= i < k ensures a[i] == b[i] {
      assert names[..k + 1][i] == names[..k][i];
    }
    assert names[..k + 1][k] == names[k];
  }

  /** A successful load is the build of a successful scan. */
  lemma LoadSpecOk<F>(lines: seq<string>, split: bool, parseFloat: string -> Option<F>, zf: F)
    requires LoadSpec(lines, split, parseFloat, zf).Ok?
    ensures ScanLines(lines, split, parseFloat, zf).Ok?
    ensures var s := ScanLines(lines, split, parseFloat, zf).value;
      |s.unormals| == |s.uvertices| && |s.uuvs| == |s.uvertices| && IndexesIn(s.faceList, |s.uvertices|)
      && LoadSpec(lines, split, parseFloat, zf).value == Loaded(BuildAll(ObjectList(s.objectNames), s), !s.hasNormals)
  {
    ScanReady(lines, split, parseFloat, zf);
  }

  /**
   * The loader's objects: one per name of the object list, in its order, or the
   * single "default" one when the file named none; the object list is the file's
   * distinct `g`/`o` names (its `usemtl` names when splitting by material).
   */
  lemma LoadedObjects<F>(lines: seq<string>, split: bool, parseFloat: string -> Option<F>, zf: F)
    requires LoadSpec(lines, split, parseFloat, zf).Ok?
    ensures var s := ScanLines(lines, split, parseFloat, zf).value;
      var ds := Directives(lines, split);
      var l := LoadSpec(lines, split, parseFloat, zf).value;
      s.objectNames == Firsts(if split then AllMaterials(ds) else AllGroups(ds)) && Distinct(s.objectNames)
      && (|s.objectNames| == 0 ==> |l.objects| == 1 && l.objects[0].name == "default")
      && (|s.objectNames| > 0 ==> |l.objects| == |s.objectNames|
                                  && forall i | 0 <= i < |l.objects| :: l.objects[i].name == s.objectNames[i])
  {
    LoadSpecOk(lines, split, parseFloat, zf);
    ScanNames(lines, split, parseFloat, zf);
  }

  /**
   * The normals are recalculated exactly when no corner, at the moment it was read,
   * was a new key whose normal index lay within the normals read so far. When they
   * are not, some first-seen key of the file has an in-range normal index.
   */
  lemma LoadedNormals<F>(lines: seq<string>, split: bool, parseFloat: string -> Option<F>, zf: F)
    requires LoadSpec(lines, split, parseFloat, zf).Ok?
    ensures var s := ScanLines(lines, split, parseFloat, zf).value;
      var ds := Directives(lines, split);
      var l := LoadSpec(lines, split, parseFloat, zf).value;
      (l.recalculateNormals <==> !s.hasNormals)
      && (l.recalculateNormals <==> !exists i, j :: NewNormalLine(lines, split, parseFloat, zf, i, j))
      && (!l.recalculateNormals ==> exists j | 0 <= j < |Firsts(AllKeys(ds))| ::
                                      0 <= Firsts(AllKeys(ds))[j].n < |s.normals|)
  {
    LoadSpecOk(lines, split, parseFloat, zf);
    ScanNormals(lines, split, parseFloat, zf);
    ScanLinesInvariant(lines, split, parseFloat, zf);
  }

  /** When the normals are recalculated, every normal of every object is zero. */
  lemma RecalculatedNormalsZero<F>(lines: seq<string>, split: bool, parseFloat: string -> Option<F>, zf: F)
    requires LoadSpec(lines, split, parseFloat, zf).Ok?
    ensures var l := LoadSpec(lines, split, parseFloat, zf).value;
      l.recalculateNormals ==> forall i, j | 0 <= i < |l.objects| && 0 <= j < |l.objects[i].normals| ::
                                 l.objects[i].normals[j] == Zero3(zf)
  {
    var s := ScanLines(lines, split, parseFloat, zf).value;
    LoadSpecOk(lines, split, parseFloat, zf);
    var l := LoadSpec(lines, split, parseFloat, zf).value;
    NoNormalsZero(lines, split, parseFloat, zf);
    var names := ObjectList(s.objectNames);
    if !s.hasNormals {
      forall i | 0 <= i < |l.objects|
        ensures forall j | 0 <= j < |l.objects[i].normals| :: l.objects[i].normals[j] == Zero3(zf)
      {
        BuildObjectZeroNormals(names[i], s.faceList, s.materialNames, s.uvertices, s.unormals, s.uuvs, Zero3(zf));
      }
    }
  }

  /** Without an in-range normal, every unique normal of the scan is zero. */
  lemma NoNormalsZero<F>(lines: seq<string>, split: bool, parseFloat: string -> Option<F>, zf: F)
    requires ScanLines(lines, split, parseFloat, zf).Ok?
    ensures var s := ScanLines(lines, split, parseFloat, zf).value;
      !s.hasNormals ==> forall j | 0 <= j < |s.unormals| :: s.unormals[j] == Zero3(zf)
  {
    ScanLinesInvariant(lines, split, parseFloat, zf);
  }
}
