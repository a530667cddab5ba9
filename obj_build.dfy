/**
 * The build phase of ObjLoader.LoadOBJFile, for one object name: its triangles are
 * taken from the triangle list, grouped into one submesh per material in the order of
 * the material list (materials without triangles get none), and every submesh's index
 * buffer is compacted through one remap table shared by the object's submeshes into a
 * dense local vertex buffer. These functions state the result; ObjLoader.BuildObject
 * is the loop, proved equal to BuildObjectSpec.
 */
module ObjBuild {
  import opened FirstSeen
  import opened ObjVector
  import opened ObjScan

  /** A Unity mesh as the loader fills it: buffers, triangle lists per submesh, material names. */
  datatype MeshObject<F> = MeshObject(
    name: string,
    vertices: seq<Vec3<F>>,
    normals: seq<Vec3<F>>,
    uvs: seq<Vec2<F>>,
    submeshes: seq<seq<int>>,
    materials: seq<string>)

  /** `faceList.Where(x => x.meshName == obj)`. */
  function WhereMesh(faces: seq<ObjFace>, obj: string): (r: seq<ObjFace>)
    ensures forall f :: f in r <==> f in faces && f.meshName == obj
  {
    if |faces| == 0 then []
    else
      var init := WhereMesh(faces[..|faces| - 1], obj);
      var f := faces[|faces| - 1];
      assert faces == faces[..|faces| - 1] + [f];
      if f.meshName == obj then init + [f] else init
  }

  /** `ofaces.Where(x => x.materialName == mn)`. */
  function WhereMaterial(faces: seq<ObjFace>, mn: string): (r: seq<ObjFace>)
    ensures forall f :: f in r <==> f in faces && f.materialName == mn
  {
    if |faces| == 0 then []
    else
      var init := WhereMaterial(faces[..|faces| - 1], mn);
      var f := faces[|faces| - 1];
      assert faces == faces[..|faces| - 1] + [f];
      if f.materialName == mn then init + [f] else init
  }

  /**
   * `Where` keeps order and multiplicity: filtering a concatenation filters each part,
   * and a single face is kept exactly when it matches. These two equations determine
   * the filter of every list.
   */
  lemma {:induction false} WhereMeshAppend(a: seq<ObjFace>, b: seq<ObjFace>, obj: string)
    ensures WhereMesh(a + b, obj) == WhereMesh(a, obj) + WhereMesh(b, obj)
    decreases |b|
  {
    if |b| == 0 {
      assert a + b == a;
    } else {
      var b' := b[..|b| - 1];
      assert (a + b)[..|a + b| - 1] == a + b';
      assert (a + b)[|a + b| - 1] == b[|b| - 1];
      WhereMeshAppend(a, b', obj);
    }
  }

  lemma WhereMeshOne(f: ObjFace, obj: string)
    ensures WhereMesh([f], obj) == if f.meshName == obj then [f] else []
  {
    assert [f][..0] == [];
  }

  /** Each face of the object occurs as often as in the list; no other face occurs. */
  lemma {:induction false} WhereMeshCount(faces: seq<ObjFace>, obj: string)
    ensures forall f :: multiset(WhereMesh(faces, obj))[f] == if f.meshName == obj then multiset(faces)[f] else 0
  {
    if |faces| > 0 {
      var init := faces[..|faces| - 1];
      var g := faces[|faces| - 1];
      assert faces == init + [g];
      WhereMeshCount(init, obj);
      assert multiset(faces) == multiset(init) + multiset{g};
    }
  }

  lemma {:induction false} WhereMaterialAppend(a: seq<ObjFace>, b: seq<ObjFace>, mn: string)
    ensures WhereMaterial(a + b, mn) == WhereMaterial(a, mn) + WhereMaterial(b, mn)
    decreases |b|
  {
    if |b| == 0 {
      assert a + b == a;
    } else {
      var b' := b[..|b| - 1];
      assert (a + b)[..|a + b| - 1] == a + b';
      assert (a + b)[|a + b| - 1] == b[|b| - 1];
      WhereMaterialAppend(a, b', mn);
    }
  }

  lemma WhereMaterialOne(f: ObjFace, mn: string)
    ensures WhereMaterial([f], mn) == if f.materialName == mn then [f] else []
  {
    assert [f][..0] == [];
  }

  /** Each face with the material occurs as often as in the list; no other face occurs. */
  lemma {:induction false} WhereMaterialCount(faces: seq<ObjFace>, mn: string)
    ensures forall f :: multiset(WhereMaterial(faces, mn))[f] == if f.materialName == mn then multiset(faces)[f] else 0
  {
    if |faces| > 0 {
      var init := faces[..|faces| - 1];
      var g := faces[|faces| - 1];
      assert faces == init + [g];
      WhereMaterialCount(init, mn);
      assert multiset(faces) == multiset(init) + multiset{g};
    }
  }

  /** The faces' index arrays, one after the other. */
  function FaceIndexes(faces: seq<ObjFace>): seq<int> {
    if |faces| == 0 then [] else FaceIndexes(faces[..|faces| - 1]) + faces[|faces| - 1].indexes
  }

  function Concat(bufs: seq<seq<int>>): seq<int> {
    if |bufs| == 0 then [] else Concat(bufs[..|bufs| - 1]) + bufs[|bufs| - 1]
  }

  /** A buffer with every old index replaced by its position in `order`. */
  function Rewrite(order: seq<int>, buf: seq<int>): (r: seq<int>)
    ensures |r| == |buf|
  {
    seq(|buf|, i requires 0 <= i < |buf| => IndexOf(order, buf[i]))
  }

  /** The entries of `u` at the positions `order`, in that order. */
  function Gather<E>(u: seq<E>, order: seq<int>): (r: seq<E>)
    requires AllIn(order, |u|)
    ensures |r| == |order|
  {
    seq(|order|, j requires 0 <= j < |order| => u[order[j]])
  }

  /**
   * The state of the loop over the material list: the materials that got a submesh,
   * their raw index buffers, every old index referenced so far, and the rewritten
   * buffers.
   */
  datatype Built = Built(materials: seq<string>, raw: seq<seq<int>>, seen: seq<int>, submeshes: seq<seq<int>>)

  /**
   * The material loop: a material with triangles in the object gets a submesh whose
   * buffer is their indices in list order, rewritten by the remap table, which has
   * numbered every old index referenced so far in first-reference order.
   */
  function BuildSteps(ofaces: seq<ObjFace>, mats: seq<string>): (b: Built)
    ensures |b.materials| == |b.raw| == |b.submeshes|
    ensures b.seen == Concat(b.raw)
  {
    if |mats| == 0 then Built([], [], [], [])
    else
      var b := BuildSteps(ofaces, mats[..|mats| - 1]);
      var mn := mats[|mats| - 1];
      var fs := WhereMaterial(ofaces, mn);
      if |fs| == 0 then b
      else
        var buf := FaceIndexes(fs);
        var seen := b.seen + buf;
        Built(b.materials + [mn], b.raw + [buf], seen, b.submeshes + [Rewrite(Firsts(seen), buf)])
  }

  predicate IndexesIn(faces: seq<ObjFace>, n: int) {
    forall f | f in faces :: forall i | i in f.indexes :: 0 <= i < n
  }

  /** One object as the build loop leaves it. */
  function BuildObjectSpec<F>(obj: string, faceList: seq<ObjFace>, materialNames: seq<string>,
                              uvertices: seq<Vec3<F>>, unormals: seq<Vec3<F>>, uuvs: seq<Vec2<F>>): MeshObject<F>
    requires |unormals| == |uvertices| && |uuvs| == |uvertices|
    requires IndexesIn(faceList, |uvertices|)
  {
    var b := BuildSteps(WhereMesh(faceList, obj), materialNames);
    WhereMeshIn(faceList, obj, |uvertices|);
    SeenInRange(WhereMesh(faceList, obj), materialNames, |uvertices|);
    var order := Firsts(b.seen);
    MeshObject(obj, Gather(uvertices, order), Gather(unormals, order), Gather(uuvs, order), b.submeshes, b.materials)
  }

  // ----- Lemmas -----

  lemma {:induction false} FaceIndexesIn(faces: seq<ObjFace>, n: int)
    requires IndexesIn(faces, n)
    ensures forall x | x in FaceIndexes(faces) :: 0 <= x < n
  {
    if |faces| > 0 {
      var init := faces[..|faces| - 1];
      assert IndexesIn(init, n) by {
        forall f | f in init ensures f in faces { }
      }
      FaceIndexesIn(init, n);
    }
  }

  lemma WhereMaterialIn(faces: seq<ObjFace>, mn: string, n: int)
    requires IndexesIn(faces, n)
    ensures IndexesIn(WhereMaterial(faces, mn), n)
  {
  }

  lemma WhereMeshIn(faces: seq<ObjFace>, obj: string, n: int)
    requires IndexesIn(faces, n)
    ensures IndexesIn(WhereMesh(faces, obj), n)
  {
  }

  /** Every referenced old index lies in the unique-vertex lists. */
  lemma {:induction false} SeenInRange(ofaces: seq<ObjFace>, mats: seq<string>, n: int)
    requires IndexesIn(ofaces, n)
    ensures forall x | x in BuildSteps(ofaces, mats).seen :: 0 <= x < n
    ensures forall j | 0 <= j < |Firsts(BuildSteps(ofaces, mats).seen)| :: 0 <= Firsts(BuildSteps(ofaces, mats).seen)[j] < n
  {
    if |mats| > 0 {
      SeenInRange(ofaces, mats[..|mats| - 1], n);
      var fs := WhereMaterial(ofaces, mats[|mats| - 1]);
      WhereMaterialIn(ofaces, mats[|mats| - 1], n);
      FaceIndexesIn(fs, n);
    }
    var order := Firsts(BuildSteps(ofaces, mats).seen);
    forall j | 0 <= j < |order|
      ensures 0 <= order[j] < n
    {
      assert order[j] in order;
    }
  }

  /** Each element of each buffer occurs in the concatenation, at a known place. */
  lemma {:induction false} ConcatHas(bufs: seq<seq<int>>, j: int, i: int)
    requires 0 <= j < |bufs| && 0 <= i < |bufs[j]|
    ensures bufs[j][i] in Concat(bufs)
  {
    var init := bufs[..|bufs| - 1];
    if j < |init| {
      assert bufs[j] == init[j];
      ConcatHas(init, j, i);
    } else {
      assert Concat(bufs) == Concat(init) + bufs[j];
      assert Concat(bufs)[|Concat(init)| + i] == bufs[j][i];
    }
  }

  /** Every element of the concatenation comes from some buffer. */
  lemma {:induction false} ConcatFrom(bufs: seq<seq<int>>, x: int)
    requires x in Concat(bufs)
    ensures exists j, i | 0 <= j < |bufs| && 0 <= i < |bufs[j]| :: bufs[j][i] == x
  {
    var init := bufs[..|bufs| - 1];
    var last := bufs[|bufs| - 1];
    if x in Concat(init) {
      ConcatFrom(init, x);
      var j, i :| 0 <= j < |init| && 0 <= i < |init[j]| && init[j][i] == x;
      assert bufs[j] == init[j];
    } else {
      var k :| 0 <= k < |Concat(bufs)| && Concat(bufs)[k] == x;
      var i := k - |Concat(init)|;
      assert last[i] == x;
      assert bufs[|bufs| - 1] == last;
    }
  }

  /** Every buffer's i-th entry is the position of the raw i-th index in `order`. */
  predicate RemappedBy(order: seq<int>, raw: seq<seq<int>>, sub: seq<seq<int>>) {
    |raw| == |sub|
    && forall j | 0 <= j < |raw| ::
         |sub[j]| == |raw[j]| && forall i | 0 <= i < |raw[j]| :: sub[j][i] == IndexOf(order, raw[j][i])
  }

  /**
   * The remap table is shared by all submeshes of the object: every rewritten index
   * is the position of its old index among all old indices of the object in
   * first-reference order, whichever submesh it occurs in.
   */
  lemma {:induction false} BuildStepsRemap(ofaces: seq<ObjFace>, mats: seq<string>)
    ensures var b := BuildSteps(ofaces, mats); RemappedBy(Firsts(b.seen), b.raw, b.submeshes)
  {
    if |mats| > 0 {
      var init := mats[..|mats| - 1];
      BuildStepsRemap(ofaces, init);
      var p := BuildSteps(ofaces, init);
      var fs := WhereMaterial(ofaces, mats[|mats| - 1]);
      if |fs| > 0 {
        var buf := FaceIndexes(fs);
        var b := BuildSteps(ofaces, mats);
        var before := Firsts(p.seen);
        var after := Firsts(p.seen + buf);
        FirstsPrefix(p.seen, buf);
        forall j | 0 <= j < |b.raw|
          ensures |b.submeshes[j]| == |b.raw[j]|
          ensures forall i | 0 <= i < |b.raw[j]| :: b.submeshes[j][i] == IndexOf(after, b.raw[j][i])
        {
          if j < |p.raw| {
            assert b.raw[j] == p.raw[j] && b.submeshes[j] == p.submeshes[j];
            forall i | 0 <= i < |b.raw[j]|
              ensures b.submeshes[j][i] == IndexOf(after, b.raw[j][i])
            {
              ConcatHas(p.raw, j, i);
              IndexOfPrefix(before, after, p.raw[j][i]);
            }
          }
        }
      }
    }
  }

  /** One step of the material loop, spelled out. */
  lemma BuildStepsLast(ofaces: seq<ObjFace>, mats: seq<string>)
    requires |mats| > 0
    ensures var p := BuildSteps(ofaces, mats[..|mats| - 1]);
      var b := BuildSteps(ofaces, mats);
      var fs := WhereMaterial(ofaces, mats[|mats| - 1]);
      (|fs| == 0 ==> b == p)
      && (|fs| > 0 ==> b.materials == p.materials + [mats[|mats| - 1]] && b.raw == p.raw + [FaceIndexes(fs)])
  {
  }

  /** The materials that get a submesh: exactly those of the list with triangles in the object. */
  lemma {:induction false} BuildStepsMaterials(ofaces: seq<ObjFace>, mats: seq<string>)
    ensures forall m :: m in BuildSteps(ofaces, mats).materials <==> m in mats && |WhereMaterial(ofaces, m)| > 0
  {
    if |mats| > 0 {
      var init := mats[..|mats| - 1];
      BuildStepsMaterials(ofaces, init);
      BuildStepsLast(ofaces, mats);
      assert mats == init + [mats[|mats| - 1]];
    }
  }

  /** A submesh's raw buffer holds the indices of that material's triangles, in list order. */
  lemma {:induction false} BuildStepsBuffers(ofaces: seq<ObjFace>, mats: seq<string>)
    ensures var b := BuildSteps(ofaces, mats);
      forall j | 0 <= j < |b.raw| :: b.raw[j] == FaceIndexes(WhereMaterial(ofaces, b.materials[j]))
                                    && |WhereMaterial(ofaces, b.materials[j])| > 0
  {
    if |mats| > 0 {
      BuildStepsBuffers(ofaces, mats[..|mats| - 1]);
      BuildStepsLast(ofaces, mats);
    }
  }

  /** No material gets two submeshes. */
  lemma {:induction false} BuildStepsDistinct(ofaces: seq<ObjFace>, mats: seq<string>)
    requires Distinct(mats)
    ensures Distinct(BuildSteps(ofaces, mats).materials)
  {
    if |mats| > 0 {
      var init := mats[..|mats| - 1];
      var mn := mats[|mats| - 1];
      assert mats == init + [mn];
      assert Distinct(init) by {
        forall i, j | 0 <= i < j < |init| ensures init[i] != init[j] {
          assert init[i] == mats[i] && init[j] == mats[j];
        }
      }
      BuildStepsDistinct(ofaces, init);
      BuildStepsMaterials(ofaces, init);
      BuildStepsLast(ofaces, mats);
      var p := BuildSteps(ofaces, init);
      if |WhereMaterial(ofaces, mn)| > 0 {
        DistinctSnoc(p.materials, mn);
      }
    }
  }

  /** Submeshes follow the material list's order. */
  lemma {:induction false} BuildStepsOrder(ofaces: seq<ObjFace>, mats: seq<string>, i: int, j: int)
    requires Distinct(mats)
    requires 0 <= i < j < |BuildSteps(ofaces, mats).materials|
    ensures IndexOf(mats, BuildSteps(ofaces, mats).materials[i]) < IndexOf(mats, BuildSteps(ofaces, mats).materials[j])
  {
    var init := mats[..|mats| - 1];
    var mn := mats[|mats| - 1];
    var p := BuildSteps(ofaces, init);
    var b := BuildSteps(ofaces, mats);
    BuildStepsLast(ofaces, mats);
    BuildStepsMaterials(ofaces, init);
    DistinctInit(mats);
    assert init == mats[..|init|];
    var mi, mj := b.materials[i], b.materials[j];
    assert mi in p.materials;
    IndexOfPrefix(init, mats, mi);
    if |WhereMaterial(ofaces, mn)| == 0 || j < |p.materials| {
      assert mj == p.materials[j];
      BuildStepsOrder(ofaces, init, i, j);
      IndexOfPrefix(init, mats, mj);
    } else {
      assert mj == mn;
      IndexOfDistinct(mats, |init|);
    }
  }

  /** Triangles of three indices give buffers of a multiple of three, empty only without triangles. */
  lemma {:induction false} FaceIndexesLength(faces: seq<ObjFace>)
    requires forall f | f in faces :: |f.indexes| == 3
    ensures |FaceIndexes(faces)| % 3 == 0
    ensures |faces| > 0 ==> |FaceIndexes(faces)| >= 3
  {
    if |faces| > 0 {
      var init := faces[..|faces| - 1];
      assert forall f | f in init :: f in faces;
      FaceIndexesLength(init);
    }
  }

  /** Concatenating the rewritten buffers rewrites the concatenation. */
  lemma {:induction false} ConcatRewrite(order: seq<int>, raw: seq<seq<int>>, sub: seq<seq<int>>)
    requires RemappedBy(order, raw, sub)
    ensures Concat(sub) == Rewrite(order, Concat(raw))
  {
    if |raw| > 0 {
      var n := |raw| - 1;
      assert RemappedBy(order, raw[..n], sub[..n]) by {
        forall j | 0 <= j < n ensures raw[..n][j] == raw[j] && sub[..n][j] == sub[j] { }
      }
      ConcatRewrite(order, raw[..n], sub[..n]);
      assert Concat(raw) == Concat(raw[..n]) + raw[n];
      assert Concat(sub) == Concat(sub[..n]) + sub[n];
      var lhs := Concat(sub);
      var rhs := Rewrite(order, Concat(raw));
      forall k | 0 <= k < |lhs| ensures lhs[k] == rhs[k] {
        if k >= |Concat(sub[..n])| {
          assert lhs[k] == sub[n][k - |Concat(sub[..n])|];
          assert Concat(raw)[k] == raw[n][k - |Concat(raw[..n])|];
        }
      }
    }
  }

  /** Rewriting keeps where each element first occurs. */
  lemma IndexOfRewrite(order: seq<int>, s: seq<int>, x: int)
    requires forall k | 0 <= k < |s| :: s[k] in order
    requires x in s
    ensures IndexOf(Rewrite(order, s), IndexOf(order, x)) == IndexOf(s, x)
  {
    var r := Rewrite(order, s);
    var i := IndexOf(s, x);
    assert r[i] == IndexOf(order, x);
    forall k | 0 <= k < i ensures r[k] != IndexOf(order, x) {
      assert s[k] != x;
    }
  }

  /**
   * The new vertex numbers `0 .. |order| - 1` are handed out in order of first
   * reference: across the concatenated submeshes, the first use of `p` precedes the
   * first use of `q` whenever `p < q`.
   */
  lemma BuildStepsFirstUse(ofaces: seq<ObjFace>, mats: seq<string>, p: int, q: int)
    requires 0 <= p < q < |Firsts(BuildSteps(ofaces, mats).seen)|
    ensures var b := BuildSteps(ofaces, mats);
      IndexOf(Concat(b.submeshes), p) < IndexOf(Concat(b.submeshes), q) < |Concat(b.submeshes)|
  {
    var b := BuildSteps(ofaces, mats);
    var order := Firsts(b.seen);
    BuildStepsRemap(ofaces, mats);
    ConcatRewrite(order, b.raw, b.submeshes);
    IndexOfDistinct(order, p);
    IndexOfDistinct(order, q);
    assert order[p] in order && order[q] in order;
    assert forall k | 0 <= k < |b.seen| :: b.seen[k] in order by {
      forall k | 0 <= k < |b.seen| ensures b.seen[k] in order {
        assert b.seen[k] in b.seen;
      }
    }
    IndexOfRewrite(order, b.seen, order[p]);
    IndexOfRewrite(order, b.seen, order[q]);
    FirstsFollowFirstAppearance(b.seen, p, q);
  }

  // ----- The object as the build loop leaves it -----

  /** The old indices of the object's triangles with material `mn`, in triangle-list order. */
  function RawBuffer(faceList: seq<ObjFace>, obj: string, mn: string): seq<int> {
    FaceIndexes(WhereMaterial(WhereMesh(faceList, obj), mn))
  }

  /** A submesh buffer `sub` addresses, in `m`, the same vertex data as `raw` does in the unique lists. */
  predicate Remaps<F(==)>(sub: seq<int>, raw: seq<int>, m: MeshObject<F>,
                          uvertices: seq<Vec3<F>>, unormals: seq<Vec3<F>>, uuvs: seq<Vec2<F>>) {
    |sub| == |raw| && |m.normals| == |m.vertices| && |m.uvs| == |m.vertices|
    && |unormals| == |uvertices| && |uuvs| == |uvertices|
    && forall i | 0 <= i < |raw| ::
         0 <= sub[i] < |m.vertices| && 0 <= raw[i] < |uvertices|
         && m.vertices[sub[i]] == uvertices[raw[i]]
         && m.normals[sub[i]] == unormals[raw[i]]
         && m.uvs[sub[i]] == uuvs[raw[i]]
  }

  /**
   * Which submeshes the object gets: one per material of the material list that has
   * a triangle in this object, in the list's order, none twice.
   */
  lemma BuildObjectMaterials<F>(obj: string, faceList: seq<ObjFace>, materialNames: seq<string>,
                                uvertices: seq<Vec3<F>>, unormals: seq<Vec3<F>>, uuvs: seq<Vec2<F>>)
    requires |unormals| == |uvertices| && |uuvs| == |uvertices|
    requires IndexesIn(faceList, |uvertices|)
    ensures var m := BuildObjectSpec(obj, faceList, materialNames, uvertices, unormals, uuvs);
      m.name == obj && |m.submeshes| == |m.materials|
      && (forall mn :: mn in m.materials <==>
            mn in materialNames && exists f | f in faceList :: f.meshName == obj && f.materialName == mn)
      && (Distinct(materialNames) ==> Distinct(m.materials))
      && (Distinct(materialNames) ==> forall i, j | 0 <= i < j < |m.materials| ::
            IndexOf(materialNames, m.materials[i]) < IndexOf(materialNames, m.materials[j]))
  {
    var ofaces := WhereMesh(faceList, obj);
    var m := BuildObjectSpec(obj, faceList, materialNames, uvertices, unormals, uuvs);
    BuildStepsMaterials(ofaces, materialNames);
    forall mn ensures |WhereMaterial(ofaces, mn)| > 0 <==> exists f | f in faceList :: f.meshName == obj && f.materialName == mn {
      var fs := WhereMaterial(ofaces, mn);
      if |fs| > 0 {
        assert fs[0] in fs;
      }
    }
    if Distinct(materialNames) {
      BuildStepsDistinct(ofaces, materialNames);
      forall i, j | 0 <= i < j < |m.materials|
        ensures IndexOf(materialNames, m.materials[i]) < IndexOf(materialNames, m.materials[j])
      {
        BuildStepsOrder(ofaces, materialNames, i, j);
      }
    }
  }

  /**
   * Every submesh holds its material's triangles, rewritten to the object's own
   * vertex numbering without changing the vertex, normal or uv they address.
   */
  lemma BuildObjectRemap<F>(obj: string, faceList: seq<ObjFace>, materialNames: seq<string>,
                            uvertices: seq<Vec3<F>>, unormals: seq<Vec3<F>>, uuvs: seq<Vec2<F>>)
    requires |unormals| == |uvertices| && |uuvs| == |uvertices|
    requires IndexesIn(faceList, |uvertices|)
    ensures var m := BuildObjectSpec(obj, faceList, materialNames, uvertices, unormals, uuvs);
      |m.submeshes| == |m.materials|
      && forall j | 0 <= j < |m.submeshes| ::
           Remaps(m.submeshes[j], RawBuffer(faceList, obj, m.materials[j]), m, uvertices, unormals, uuvs)
  {
    var ofaces := WhereMesh(faceList, obj);
    var b := BuildSteps(ofaces, materialNames);
    var order := Firsts(b.seen);
    var m := BuildObjectSpec(obj, faceList, materialNames, uvertices, unormals, uuvs);
    BuildStepsRemap(ofaces, materialNames);
    BuildStepsBuffers(ofaces, materialNames);
    WhereMeshIn(faceList, obj, |uvertices|);
    SeenInRange(ofaces, materialNames, |uvertices|);
    assert m.submeshes == b.submeshes && m.materials == b.materials;
    assert m.vertices == Gather(uvertices, order) && m.normals == Gather(unormals, order) && m.uvs == Gather(uuvs, order);
    forall j | 0 <= j < |m.submeshes|
      ensures Remaps(m.submeshes[j], RawBuffer(faceList, obj, m.materials[j]), m, uvertices, unormals, uuvs)
    {
      assert b.raw[j] == RawBuffer(faceList, obj, m.materials[j]);
      forall i | 0 <= i < |b.raw[j]|
        ensures 0 <= m.submeshes[j][i] < |m.vertices| && m.vertices[m.submeshes[j][i]] == uvertices[b.raw[j][i]]
        ensures m.normals[m.submeshes[j][i]] == unormals[b.raw[j][i]] && m.uvs[m.submeshes[j][i]] == uuvs[b.raw[j][i]]
      {
        ConcatHas(b.raw, j, i);
        assert b.raw[j][i] in order;
        GatheredAt(order, b.raw[j][i], uvertices, unormals, uuvs, m);
      }
    }
  }

  /** The new number of an old index addresses the same vertex, normal and uv. */
  lemma GatheredAt<F>(order: seq<int>, x: int, uvertices: seq<Vec3<F>>, unormals: seq<Vec3<F>>, uuvs: seq<Vec2<F>>,
                      m: MeshObject<F>)
    requires |unormals| == |uvertices| && |uuvs| == |uvertices| && AllIn(order, |uvertices|)
    requires m.vertices == Gather(uvertices, order) && m.normals == Gather(unormals, order) && m.uvs == Gather(uuvs, order)
    requires x in order
    ensures var y := IndexOf(order, x);
      0 <= y < |m.vertices| && m.vertices[y] == uvertices[x] && m.normals[y] == unormals[x] && m.uvs[y] == uuvs[x]
  {
  }

  /** The object's vertex buffer is dense: every new vertex is used by some submesh. */
  lemma BuildObjectDense<F>(obj: string, faceList: seq<ObjFace>, materialNames: seq<string>,
                            uvertices: seq<Vec3<F>>, unormals: seq<Vec3<F>>, uuvs: seq<Vec2<F>>)
    requires |unormals| == |uvertices| && |uuvs| == |uvertices|
    requires IndexesIn(faceList, |uvertices|)
    ensures var m := BuildObjectSpec(obj, faceList, materialNames, uvertices, unormals, uuvs);
      forall p | 0 <= p < |m.vertices| :: p in Concat(m.submeshes)
  {
    var ofaces := WhereMesh(faceList, obj);
    var b := BuildSteps(ofaces, materialNames);
    var order := Firsts(b.seen);
    BuildStepsRemap(ofaces, materialNames);
    ConcatRewrite(order, b.raw, b.submeshes);
    forall p | 0 <= p < |order| ensures p in Concat(b.submeshes) {
      assert order[p] in b.seen;
      var k := IndexOf(b.seen, order[p]);
      IndexOfDistinct(order, p);
      assert Concat(b.submeshes)[k] == p;
    }
  }

  /**
   * The remap table is shared: two corners of the object get the same new number
   * exactly when they had the same old one, whichever submeshes they are in.
   */
  lemma BuildObjectShared<F>(obj: string, faceList: seq<ObjFace>, materialNames: seq<string>,
                             uvertices: seq<Vec3<F>>, unormals: seq<Vec3<F>>, uuvs: seq<Vec2<F>>,
                             j1: int, i1: int, j2: int, i2: int)
    requires |unormals| == |uvertices| && |uuvs| == |uvertices|
    requires IndexesIn(faceList, |uvertices|)
    requires var m := BuildObjectSpec(obj, faceList, materialNames, uvertices, unormals, uuvs);
      0 <= j1 < |m.submeshes| && 0 <= i1 < |m.submeshes[j1]| && 0 <= j2 < |m.submeshes| && 0 <= i2 < |m.submeshes[j2]|
    ensures var m := BuildObjectSpec(obj, faceList, materialNames, uvertices, unormals, uuvs);
      var raw1, raw2 := RawBuffer(faceList, obj, m.materials[j1]), RawBuffer(faceList, obj, m.materials[j2]);
      i1 < |raw1| && i2 < |raw2| && (m.submeshes[j1][i1] == m.submeshes[j2][i2] <==> raw1[i1] == raw2[i2])
  {
    var ofaces := WhereMesh(faceList, obj);
    var b := BuildSteps(ofaces, materialNames);
    BuildStepsRemap(ofaces, materialNames);
    BuildStepsBuffers(ofaces, materialNames);
    ConcatHas(b.raw, j1, i1);
    ConcatHas(b.raw, j2, i2);
  }

  /** New vertex numbers follow first reference across the object's submeshes in order. */
  lemma BuildObjectFirstUse<F>(obj: string, faceList: seq<ObjFace>, materialNames: seq<string>,
                               uvertices: seq<Vec3<F>>, unormals: seq<Vec3<F>>, uuvs: seq<Vec2<F>>)
    requires |unormals| == |uvertices| && |uuvs| == |uvertices|
    requires IndexesIn(faceList, |uvertices|)
    ensures var m := BuildObjectSpec(obj, faceList, materialNames, uvertices, unormals, uuvs);
      forall p, q | 0 <= p < q < |m.vertices| ::
        IndexOf(Concat(m.submeshes), p) < IndexOf(Concat(m.submeshes), q) < |Concat(m.submeshes)|
  {
    var ofaces := WhereMesh(faceList, obj);
    var b := BuildSteps(ofaces, materialNames);
    var m := BuildObjectSpec(obj, faceList, materialNames, uvertices, unormals, uuvs);
    assert m.submeshes == b.submeshes && |m.vertices| == |Firsts(b.seen)|;
    BuildStepsFirstUseAll(ofaces, materialNames, m.submeshes, |m.vertices|);
  }

  lemma BuildStepsFirstUseAll(ofaces: seq<ObjFace>, mats: seq<string>, subs: seq<seq<int>>, nv: int)
    requires subs == BuildSteps(ofaces, mats).submeshes && nv == |Firsts(BuildSteps(ofaces, mats).seen)|
    ensures forall p, q | 0 <= p < q < nv :: IndexOf(Concat(subs), p) < IndexOf(Concat(subs), q) < |Concat(subs)|
  {
    var b := BuildSteps(ofaces, mats);
    assert Concat(subs) == Concat(b.submeshes);
    forall p, q | 0 <= p < q < nv
      ensures IndexOf(Concat(subs), p) < IndexOf(Concat(subs), q) < |Concat(subs)|
    {
      BuildStepsFirstUse(ofaces, mats, p, q);
    }
  }

  /** The object's normals are entries of the unique normals: all zero when those are. */
  lemma BuildObjectZeroNormals<F>(obj: string, faceList: seq<ObjFace>, materialNames: seq<string>,
                                  uvertices: seq<Vec3<F>>, unormals: seq<Vec3<F>>, uuvs: seq<Vec2<F>>, zero: Vec3<F>)
    requires |unormals| == |uvertices| && |uuvs| == |uvertices|
    requires IndexesIn(faceList, |uvertices|)
    requires forall j | 0 <= j < |unormals| :: unormals[j] == zero
    ensures var m := BuildObjectSpec(obj, faceList, materialNames, uvertices, unormals, uuvs);
      forall j | 0 <= j < |m.normals| :: m.normals[j] == zero
  {
    var ofaces := WhereMesh(faceList, obj);
    var order := Firsts(BuildSteps(ofaces, materialNames).seen);
    WhereMeshIn(faceList, obj, |uvertices|);
    SeenInRange(ofaces, materialNames, |uvertices|);
    var m := BuildObjectSpec(obj, faceList, materialNames, uvertices, unormals, uuvs);
    assert m.normals == Gather(unormals, order);
    forall j | 0 <= j < |m.normals| ensures m.normals[j] == zero {
      assert m.normals[j] == unormals[order[j]];
    }
  }

  /** With three-index triangles, every raw buffer is a non-empty multiple of three. */
  lemma BuildStepsTriangles(ofaces: seq<ObjFace>, mats: seq<string>)
    requires forall f | f in ofaces :: |f.indexes| == 3
    ensures var b := BuildSteps(ofaces, mats);
      forall j | 0 <= j < |b.raw| :: |b.raw[j]| > 0 && |b.raw[j]| % 3 == 0
  {
    var b := BuildSteps(ofaces, mats);
    BuildStepsBuffers(ofaces, mats);
    forall j | 0 <= j < |b.raw| ensures |b.raw[j]| > 0 && |b.raw[j]| % 3 == 0 {
      var fs := WhereMaterial(ofaces, b.materials[j]);
      FaceIndexesLength(fs);
      assert b.raw[j] == FaceIndexes(fs) && |fs| > 0;
    }
  }

  /** With three-index triangles, every submesh buffer is a non-empty multiple of three. */
  lemma BuildObjectTriangles<F>(obj: string, faceList: seq<ObjFace>, materialNames: seq<string>,
                                uvertices: seq<Vec3<F>>, unormals: seq<Vec3<F>>, uuvs: seq<Vec2<F>>)
    requires |unormals| == |uvertices| && |uuvs| == |uvertices|
    requires IndexesIn(faceList, |uvertices|)
    requires forall f | f in faceList :: |f.indexes| == 3
    ensures var m := BuildObjectSpec(obj, faceList, materialNames, uvertices, unormals, uuvs);
      forall j | 0 <= j < |m.submeshes| :: |m.submeshes[j]| > 0 && |m.submeshes[j]| % 3 == 0
  {
    var ofaces := WhereMesh(faceList, obj);
    BuildStepsRemap(ofaces, materialNames);
    BuildStepsTriangles(ofaces, materialNames);
  }

  // ----- One step of the remap loop -----

  /** Every entry of `s` lies in `[0, n)`. */
  predicate AllIn(s: seq<int>, n: int) {
    forall j | 0 <= j < |s| :: 0 <= s[j] < n
  }

  lemma FirstsIn(s: seq<int>, n: int)
    requires AllIn(s, n)
    ensures AllIn(Firsts(s), n)
  {
    forall j | 0 <= j < |Firsts(s)| ensures 0 <= Firsts(s)[j] < n {
      assert Firsts(s)[j] in s;
    }
  }

  /** Seeing one more old index: the table stays when it was seen, otherwise it grows by it. */
  lemma FirstsStep(seen: seq<int>, raw: seq<int>, i: int)
    requires 0 <= i < |raw|
    ensures var o := Firsts(seen + raw[..i]);
      var o' := Firsts(seen + raw[..i + 1]);
      (raw[i] in o ==> o' == o) && (raw[i] !in o ==> o' == o + [raw[i]])
  {
    assert seen + raw[..i + 1] == (seen + raw[..i]) + [raw[i]];
    FirstsSnoc(seen + raw[..i], raw[i]);
  }

  /** Entries rewritten before a table grows keep their numbers. */
  lemma RewriteExtend(o: seq<int>, o': seq<int>, done: seq<int>)
    requires |o| <= |o'| && o'[..|o|] == o
    requires forall k | 0 <= k < |done| :: done[k] in o
    ensures Rewrite(o', done) == Rewrite(o, done)
  {
    forall k | 0 <= k < |done| ensures Rewrite(o', done)[k] == Rewrite(o, done)[k] {
      IndexOfPrefix(o, o', done[k]);
    }
  }

  /**
   * Rewriting one more index: entries already rewritten keep their numbers, and the
   * new entry is the index's position in the grown table.
   */
  lemma RemapStep(seen: seq<int>, raw: seq<int>, i: int)
    requires 0 <= i < |raw|
    ensures var o := Firsts(seen + raw[..i]);
      var o' := Firsts(seen + raw[..i + 1]);
      (raw[i] in o ==> o' == o) && (raw[i] !in o ==> o' == o + [raw[i]])
      && Rewrite(o', raw[..i + 1]) == Rewrite(o, raw[..i]) + [IndexOf(o', raw[i])]
  {
    var o := Firsts(seen + raw[..i]);
    var o' := Firsts(seen + raw[..i + 1]);
    FirstsStep(seen, raw, i);
    assert |o| <= |o'| && o'[..|o|] == o;
    var done := raw[..i];
    DoneInOrder(seen, done);
    RewriteExtend(o, o', done);
    assert raw[..i + 1] == done + [raw[i]];
    RewriteSnoc(o', done, raw[i]);
  }

  /** Every index of the part already rewritten is in the table. */
  lemma DoneInOrder(seen: seq<int>, done: seq<int>)
    ensures forall k | 0 <= k < |done| :: done[k] in Firsts(seen + done)
  {
    forall k | 0 <= k < |done| ensures done[k] in Firsts(seen + done) {
      assert done[k] == (seen + done)[|seen| + k];
    }
  }

  lemma RewriteSnoc(o: seq<int>, done: seq<int>, x: int)
    ensures Rewrite(o, done + [x]) == Rewrite(o, done) + [IndexOf(o, x)]
  {
  }

  lemma AllInAppend(a: seq<int>, b: seq<int>, n: int)
    requires AllIn(a, n) && AllIn(b, n)
    ensures AllIn(a + b, n)
  {
    forall k | 0 <= k < |a + b| ensures 0 <= (a + b)[k] < n {
      if k >= |a| {
        assert (a + b)[k] == b[k - |a|];
      }
    }
  }

  lemma FaceIndexesAllIn(faces: seq<ObjFace>, n: int)
    requires IndexesIn(faces, n)
    ensures AllIn(FaceIndexes(faces), n)
  {
    FaceIndexesIn(faces, n);
    forall k | 0 <= k < |FaceIndexes(faces)| ensures 0 <= FaceIndexes(faces)[k] < n {
      assert FaceIndexes(faces)[k] in FaceIndexes(faces);
    }
  }

  /** Gathering one more position appends that entry. */
  lemma GatherSnoc<E>(u: seq<E>, order: seq<int>, x: int)
    requires AllIn(order, |u|) && 0 <= x < |u|
    ensures AllIn(order + [x], |u|)
    ensures Gather(u, order + [x]) == Gather(u, order) + [u[x]]
  {
  }

  /** The positions seen after one more index of the buffer stay in range. */
  lemma RemapStepIn(seen: seq<int>, raw: seq<int>, i: int, n: int)
    requires 0 <= i < |raw| && AllIn(seen, n) && AllIn(raw, n)
    ensures AllIn(Firsts(seen + raw[..i + 1]), n)
  {
    assert AllIn(raw[..i + 1], n);
    AllInAppend(seen, raw[..i + 1], n);
    FirstsIn(seen + raw[..i + 1], n);
  }

  /** Overwriting the first untouched entry of a half-rewritten buffer. */
  lemma UpdatePrefix(done: seq<int>, raw: seq<int>, i: int, v: int)
    requires |done| == i < |raw|
    ensures (done + raw[i..])[i := v] == (done + [v]) + raw[i + 1..]
  {
  }

  /** The remap loop over a buffer ends with the table of the material loop's next step. */
  lemma RemapDone(seen: seq<int>, raw: seq<int>)
    ensures Firsts(seen + raw[..|raw|]) == Firsts(seen + raw)
    ensures Rewrite(Firsts(seen + raw[..|raw|]), raw[..|raw|]) == Rewrite(Firsts(seen + raw), raw)
  {
    assert raw[..|raw|] == raw;
  }
}
