/**
 * The scan phase of ObjLoader.LoadOBJFile: the loop over the input lines that fills
 * the vertex, normal and uv lists, the corner-key table with its unique-vertex lists,
 * the material and object name lists and the triangle list. These functions state
 * what the loop computes; ObjLoader.ScanFace and ObjLoader.LoadOBJFile are the loop
 * itself, proved equal to them.
 */
module ObjScan {
  import opened Wrappers
  import opened FirstSeen
  import opened ObjText
  import opened ObjCorner
  import opened ObjVector

  /** OBJFace: one triangle, the material it was read under and the object it belongs to. */
  datatype ObjFace = ObjFace(materialName: string, meshName: string, indexes: seq<int>)

  /** The local variables of the scan loop. */
  datatype ScanState<F> = ScanState(
    vertices: seq<Vec3<F>>,
    normals: seq<Vec3<F>>,
    uvs: seq<Vec2<F>>,
    uvertices: seq<Vec3<F>>,
    unormals: seq<Vec3<F>>,
    uuvs: seq<Vec2<F>>,
    materialNames: seq<string>,
    objectNames: seq<string>,
    hashtable: map<Key, int>,
    faceList: seq<ObjFace>,
    cmaterial: string,
    cmesh: string,
    hasNormals: bool)

  /** Before the first line: empty lists, the material list holding "", the object "default". */
  function InitialState<F(==)>(): ScanState<F> {
    ScanState([], [], [], [], [], [], [""], [], map[], [], "", "default", false)
  }

  /** What one input line asks for. */
  datatype Directive =
    | Skip
    | SetObject(name: string)
    | SetMaterial(name: string)
    | VertexData(cmps: seq<string>)
    | NormalData(cmps: seq<string>)
    | UvData(cmps: seq<string>)
    | FaceData(corners: seq<string>)

  /**
   * The comment test on the raw line, then Trim, one pass of Replace("  ", " "),
   * Split(' ') and the data after the first space, and the choice by the first token.
   * `g` and `o` only count when the loader does not split by material; `mtllib` and
   * unknown tokens do nothing.
   */
  function Classify(ln: string, split: bool): Directive {
    if !(|ln| > 0 && ln[0] != '#') then Skip
    else
      var l := ReplaceDoubleSpace(Trim(ln));
      ByKeyword(Split(l, ' '), AfterFirstSpace(l), split)
  }

  /** The choice by the first token `cmps[0]`; `data` is the text after the first space. */
  function ByKeyword(cmps: seq<string>, data: string, split: bool): Directive
    requires |cmps| >= 1
  {
    if cmps[0] == "mtllib" then Skip
    else if (cmps[0] == "g" || cmps[0] == "o") && !split then SetObject(data)
    else if cmps[0] == "usemtl" then SetMaterial(data)
    else if cmps[0] == "v" then VertexData(cmps)
    else if cmps[0] == "vn" then NormalData(cmps)
    else if cmps[0] == "vt" then UvData(cmps)
    else if cmps[0] == "f" then FaceData(cmps[1..])
    else Skip
  }

  /** The fields a corner registration leaves alone. */
  predicate SameInput<F(==)>(s: ScanState<F>, t: ScanState<F>) {
    t.vertices == s.vertices && t.normals == s.normals && t.uvs == s.uvs
    && t.materialNames == s.materialNames && t.objectNames == s.objectNames
    && t.faceList == s.faceList && t.cmaterial == s.cmaterial && t.cmesh == s.cmesh
  }

  /**
   * One corner key against the table: a known key yields its stored index and changes
   * nothing; a new key gets the table's size as index and appends its vertex, its
   * normal or zero, and its uv or zero. A vertex index outside `vertices` is the
   * ArgumentOutOfRangeException of `vertices[vertexIndex]`.
   */
  function RegisterCorner<F(==)>(s: ScanState<F>, k: Key, zf: F): (r: Result<(ScanState<F>, int), LoadError>)
    ensures k in s.hashtable ==> r == Ok((s, s.hashtable[k]))
    ensures k !in s.hashtable ==> (r.Ok? <==> 0 <= k.v < |s.vertices|)
    ensures r.Err? ==> r.error == VertexIndexOutOfRange(k.v)
    ensures r.Ok? ==> SameInput(s, r.value.0)
    ensures r.Ok? && k !in s.hashtable ==>
              r.value.1 == |s.hashtable| && r.value.0.hashtable == s.hashtable[k := |s.hashtable|]
    ensures r.Ok? ==> (r.value.0.hasNormals <==> s.hasNormals || (k !in s.hashtable && 0 <= k.n < |s.normals|))
  {
    if k in s.hashtable then Ok((s, s.hashtable[k]))
    else if !(0 <= k.v < |s.vertices|) then Err(VertexIndexOutOfRange(k.v))
    else
      var inNormals := 0 <= k.n < |s.normals|;
      var inUvs := 0 <= k.uv < |s.uvs|;
      var t := s.(hashtable := s.hashtable[k := |s.hashtable|],
                  uvertices := s.uvertices + [s.vertices[k.v]],
                  unormals := s.unormals + [if inNormals then s.normals[k.n] else Zero3(zf)],
                  uuvs := s.uuvs + [if inUvs then s.uvs[k.uv] else Zero2(zf)],
                  hasNormals := s.hasNormals || inNormals);
      Ok((t, |s.hashtable|))
  }

  /** The corners of one `f` line, left to right; the first failing corner aborts the load. */
  function RegisterTokens<F(==)>(s: ScanState<F>, toks: seq<string>, parse: string -> Result<Key, LoadError>, zf: F): (r: Result<(ScanState<F>, seq<int>), LoadError>)
    ensures r.Ok? ==> |r.value.1| == |toks| && SameInput(s, r.value.0)
  {
    if |toks| == 0 then Ok((s, []))
    else
      var p :- RegisterTokens(s, toks[..|toks| - 1], parse, zf);
      var k :- parse(toks[|toks| - 1]);
      var q :- RegisterCorner(p.0, k, zf);
      Ok((q.0, p.1 + [q.1]))
  }

  /**
   * A triangle keeps its corners; a quad becomes (i0, i1, i2) and (i2, i3, i0); any
   * other number of corners yields no face.
   */
  function Triangulate(idx: seq<int>, material: string, mesh: string): (faces: seq<ObjFace>)
    ensures |faces| == (if |idx| == 3 then 1 else if |idx| == 4 then 2 else 0)
    ensures forall f | f in faces ::
              f.materialName == material && f.meshName == mesh && |f.indexes| == 3
              && forall i | i in f.indexes :: i in idx
    ensures |faces| >= 1 ==> faces[0].indexes == idx[..3]
    ensures |faces| == 2 ==> faces[1].indexes == [idx[2], idx[3], idx[0]]
  {
    if 3 <= |idx| < 5 then
      var f1 := ObjFace(material, mesh, [idx[0], idx[1], idx[2]]);
      if |idx| > 3 then [f1, ObjFace(material, mesh, [idx[2], idx[3], idx[0]])] else [f1]
    else []
  }

  /** An `f` line: register every corner, then add its triangles under the current names. */
  function FaceStep<F(==)>(s: ScanState<F>, corners: seq<string>, split: bool, zf: F): Result<ScanState<F>, LoadError> {
    var p :- RegisterTokens(s, corners, ParseCorner, zf);
    var mesh := if split then s.cmaterial else s.cmesh;
    Ok(p.0.(faceList := p.0.faceList + Triangulate(p.1, s.cmaterial, mesh)))
  }

  /** One line of the scan loop. */
  function ScanLine<F(==)>(s: ScanState<F>, ln: string, split: bool, parseFloat: string -> Option<F>, zf: F)
    : Result<ScanState<F>, LoadError>
  {
    Apply(s, Classify(ln, split), split, parseFloat, zf)
  }

  /** What each directive does to the scan state. */
  function Apply<F(==)>(s: ScanState<F>, d: Directive, split: bool, parseFloat: string -> Option<F>, zf: F)
    : Result<ScanState<F>, LoadError>
  {
    match d
    case Skip => Ok(s)
    case SetObject(name) => Ok(s.(cmesh := name, objectNames := AddIfAbsent(s.objectNames, name)))
    case SetMaterial(name) =>
      Ok(s.(cmaterial := name,
            materialNames := AddIfAbsent(s.materialNames, name),
            objectNames := if split then AddIfAbsent(s.objectNames, name) else s.objectNames))
    case VertexData(cmps) =>
      (match ParseVector(cmps, parseFloat, zf)
       case None => Err(BadVector(cmps))
       case Some(v) => Ok(s.(vertices := s.vertices + [v])))
    case NormalData(cmps) =>
      (match ParseVector(cmps, parseFloat, zf)
       case None => Err(BadVector(cmps))
       case Some(v) => Ok(s.(normals := s.normals + [v])))
    case UvData(cmps) =>
      (match ParseVector(cmps, parseFloat, zf)
       case None => Err(BadVector(cmps))
       case Some(v) => Ok(s.(uvs := s.uvs + [ToVec2(v)])))
    case FaceData(corners) => FaceStep(s, corners, split, zf)
  }

  /** The directive of every line. */
  function Directives(lines: seq<string>, split: bool): (ds: seq<Directive>)
    ensures |ds| == |lines|
  {
    if |lines| == 0 then [] else Directives(lines[..|lines| - 1], split) + [Classify(lines[|lines| - 1], split)]
  }

  /** The directives applied in order; the first failing one aborts the load. */
  function ApplyAll<F(==)>(s: ScanState<F>, ds: seq<Directive>, split: bool, parseFloat: string -> Option<F>, zf: F)
    : Result<ScanState<F>, LoadError>
  {
    if |ds| == 0 then Ok(s)
    else
      var t :- ApplyAll(s, ds[..|ds| - 1], split, parseFloat, zf);
      Apply(t, ds[|ds| - 1], split, parseFloat, zf)
  }

  /** The whole scan loop over the lines, in order. */
  function ScanLines<F(==)>(lines: seq<string>, split: bool, parseFloat: string -> Option<F>, zf: F)
    : Result<ScanState<F>, LoadError>
  {
    ApplyAll(InitialState(), Directives(lines, split), split, parseFloat, zf)
  }

  /** After the scan: an empty object list becomes ["default"]. */
  function ObjectList(names: seq<string>): (r: seq<string>)
    ensures |r| > 0
    ensures |names| > 0 ==> r == names
    ensures Distinct(names) ==> Distinct(r)
  {
    if |names| == 0 then ["default"] else names
  }

  // ----- What the scan reads from the lines -----

  /** The key a corner token parses to (only consulted when the scan succeeded). */
  function KeyOf(tok: string, parse: string -> Result<Key, LoadError>): Key {
    match parse(tok)
    case Ok(k) => k
    case Err(_) => Key(-1, -1, -1)
  }

  function TokenKeys(toks: seq<string>, parse: string -> Result<Key, LoadError>): (ks: seq<Key>)
    ensures |ks| == |toks|
  {
    if |toks| == 0 then [] else TokenKeys(toks[..|toks| - 1], parse) + [KeyOf(toks[|toks| - 1], parse)]
  }

  function DirectiveKeys(d: Directive): seq<Key> {
    if d.FaceData? then TokenKeys(d.corners, ParseCorner) else []
  }

  function DirectiveMaterial(d: Directive): seq<string> {
    if d.SetMaterial? then [d.name] else []
  }

  function DirectiveGroup(d: Directive): seq<string> {
    if d.SetObject? then [d.name] else []
  }

  /** Every corner key of the directives, in reading order. */
  function AllKeys(ds: seq<Directive>): seq<Key> {
    if |ds| == 0 then [] else AllKeys(ds[..|ds| - 1]) + DirectiveKeys(ds[|ds| - 1])
  }

  /** Every `usemtl` name of the directives, in reading order. */
  function AllMaterials(ds: seq<Directive>): seq<string> {
    if |ds| == 0 then [] else AllMaterials(ds[..|ds| - 1]) + DirectiveMaterial(ds[|ds| - 1])
  }

  /** Every `g`/`o` name of the directives, in reading order. */
  function AllGroups(ds: seq<Directive>): seq<string> {
    if |ds| == 0 then [] else AllGroups(ds[..|ds| - 1]) + DirectiveGroup(ds[|ds| - 1])
  }

  // ----- Invariants of the scan -----

  /**
   * A unique-vertex entry for file index `i`: zero when `i` is negative, otherwise
   * zero (out of range when it was registered) or the list's element at `i`.
   */
  predicate EntryFrom<E(==)>(e: E, i: int, table: seq<E>, zero: E) {
    (i < 0 ==> e == zero) && (e == zero || (0 <= i < |table| && e == table[i]))
  }

  /**
   * The key table numbers the keys of `order` by position, `order` is duplicate-free,
   * and the j-th unique vertex, normal and uv are read from the lists with the j-th
   * key's indices. hasNormals is false only while every unique normal is zero, and
   * true only once some key used an in-range normal.
   */
  predicate KeyTable<F(==)>(s: ScanState<F>, order: seq<Key>, zf: F) {
    KeyOrder(s, order) && KeyEntries(s, order, zf) && KeyNormals(s, order, zf)
  }

  predicate KeyOrder<F(==)>(s: ScanState<F>, order: seq<Key>) {
    Distinct(order) && s.hashtable == PositionMap(order)
    && |s.uvertices| == |order| && |s.unormals| == |order| && |s.uuvs| == |order|
  }

  predicate KeyEntries<F(==)>(s: ScanState<F>, order: seq<Key>, zf: F)
    requires |s.uvertices| == |order| && |s.unormals| == |order| && |s.uuvs| == |order|
  {
    (forall j | 0 <= j < |order| :: 0 <= order[j].v < |s.vertices| && s.uvertices[j] == s.vertices[order[j].v])
    && (forall j | 0 <= j < |order| :: EntryFrom(s.unormals[j], order[j].n, s.normals, Zero3(zf)))
    && (forall j | 0 <= j < |order| :: EntryFrom(s.uuvs[j], order[j].uv, s.uvs, Zero2(zf)))
  }

  predicate KeyNormals<F(==)>(s: ScanState<F>, order: seq<Key>, zf: F)
    requires |s.unormals| == |order|
  {
    (!s.hasNormals ==> forall j | 0 <= j < |order| :: s.unormals[j] == Zero3(zf))
    && (s.hasNormals ==> exists j | 0 <= j < |order| :: 0 <= order[j].n < |s.normals|)
  }

  /**
   * Every triangle has three indices into the unique-vertex lists and a known
   * material; its object is its material when splitting by material, otherwise
   * "default" or a known object name.
   */
  predicate FacesWellFormed<F(==)>(s: ScanState<F>, split: bool) {
    forall f | f in s.faceList ::
      |f.indexes| == 3 && (forall i | i in f.indexes :: 0 <= i < |s.uvertices|)
      && f.materialName in s.materialNames
      && if split then f.meshName == f.materialName else f.meshName == "default" || f.meshName in s.objectNames
  }

  /**
   * The material list is the distinct `usemtl` names after "", the object list the
   * distinct `g`/`o` names (the `usemtl` names when splitting by material), both in
   * order of first appearance; the current names are among them.
   */
  predicate NamesFrom<F(==)>(s: ScanState<F>, materials: seq<string>, groups: seq<string>, split: bool) {
    s.materialNames == Firsts([""] + materials)
    && s.objectNames == Firsts(if split then materials else groups)
    && s.cmaterial in s.materialNames
    && (s.cmesh == "default" || s.cmesh in s.objectNames)
    && (split ==> s.cmesh == "default")
  }

  lemma EntryFromGrow<E>(e: E, i: int, table: seq<E>, x: E, zero: E)
    requires EntryFrom(e, i, table, zero)
    ensures EntryFrom(e, i, table + [x], zero)
  {
    if e != zero {
      assert (table + [x])[i] == table[i];
    }
  }

  /** Appending to the vertex, normal or uv list keeps the key table's invariant. */
  lemma KeyTableGrow<F>(s: ScanState<F>, t: ScanState<F>, order: seq<Key>, zf: F)
    requires KeyTable(s, order, zf)
    requires t.hashtable == s.hashtable && t.hasNormals == s.hasNormals
    requires t.uvertices == s.uvertices && t.unormals == s.unormals && t.uuvs == s.uuvs
    requires |s.vertices| <= |t.vertices| && t.vertices[..|s.vertices|] == s.vertices
    requires |s.normals| <= |t.normals| && t.normals[..|s.normals|] == s.normals
    requires |s.uvs| <= |t.uvs| && t.uvs[..|s.uvs|] == s.uvs
    ensures KeyTable(t, order, zf)
  {
    forall j | 0 <= j < |order|
      ensures t.uvertices[j] == t.vertices[order[j].v]
    {
      assert t.vertices[order[j].v] == t.vertices[..|s.vertices|][order[j].v];
    }
    forall j | 0 <= j < |order|
      ensures EntryFrom(t.unormals[j], order[j].n, t.normals, Zero3(zf))
    {
      var n := order[j].n;
      if t.unormals[j] != Zero3(zf) {
        assert t.normals[n] == t.normals[..|s.normals|][n];
      }
    }
    forall j | 0 <= j < |order|
      ensures EntryFrom(t.uuvs[j], order[j].uv, t.uvs, Zero2(zf))
    {
      var uv := order[j].uv;
      if t.uuvs[j] != Zero2(zf) {
        assert t.uvs[uv] == t.uvs[..|s.uvs|][uv];
      }
    }
    if s.hasNormals {
      var j :| 0 <= j < |order| && 0 <= order[j].n < |s.normals|;
      assert 0 <= order[j].n < |t.normals|;
    }
  }

  /** A key already in the table: nothing changes, and the index is its first position. */
  lemma RegisterKnownKey<F>(s: ScanState<F>, keys: seq<Key>, k: Key, zf: F)
    requires KeyTable(s, Firsts(keys), zf)
    requires k in s.hashtable
    ensures Firsts(keys + [k]) == Firsts(keys)
    ensures RegisterCorner(s, k, zf) == Ok((s, IndexOf(Firsts(keys), k)))
  {
    FirstsSnoc(keys, k);
  }

  /** A new key: it is appended to the order and numbered with the old size. */
  lemma RegisterNewKey<F>(s: ScanState<F>, keys: seq<Key>, k: Key, zf: F)
    requires KeyTable(s, Firsts(keys), zf)
    requires k !in s.hashtable && RegisterCorner(s, k, zf).Ok?
    ensures Firsts(keys + [k]) == Firsts(keys) + [k]
    ensures KeyTable(RegisterCorner(s, k, zf).value.0, Firsts(keys) + [k], zf)
    ensures RegisterCorner(s, k, zf).value.1 == IndexOf(Firsts(keys) + [k], k)
  {
    var order := Firsts(keys);
    FirstsSnoc(keys, k);
    assert k !in order;
    NewKeyTable(s, order, k, zf);
    NewKeyEntries(s, order, k, zf);
    assert Firsts(keys) + [k] == order + [k];
  }

  /** The dictionary after a new key: the position table of the extended order. */
  lemma NewKeyTable<F>(s: ScanState<F>, order: seq<Key>, k: Key, zf: F)
    requires KeyTable(s, order, zf)
    requires k !in s.hashtable && RegisterCorner(s, k, zf).Ok?
    ensures k !in order
    ensures KeyOrder(RegisterCorner(s, k, zf).value.0, order + [k])
    ensures RegisterCorner(s, k, zf).value.1 == IndexOf(order + [k], k)
  {
    var o := order + [k];
    assert |s.hashtable| == |order| by {
      PositionMapSize(order);
    }
    PositionMapSnoc(order, k);
    DistinctSnoc(order, k);
    IndexOfDistinct(o, |order|);
  }

  /**
   * What a new key appends: its vertex, the normal at its normal index when that is
   * in range and zero otherwise, and likewise its uv.
   */
  lemma NewKeyValues<F>(s: ScanState<F>, k: Key, zf: F)
    requires k !in s.hashtable && RegisterCorner(s, k, zf).Ok?
    ensures var t := RegisterCorner(s, k, zf).value.0;
      && t.uvertices == s.uvertices + [s.vertices[k.v]]
      && t.unormals == s.unormals + [if 0 <= k.n < |s.normals| then s.normals[k.n] else Zero3(zf)]
      && t.uuvs == s.uuvs + [if 0 <= k.uv < |s.uvs| then s.uvs[k.uv] else Zero2(zf)]
  {
  }

  /** The unique-vertex lists after appending one new key's entries. */
  lemma NewKeyEntries<F>(s: ScanState<F>, order: seq<Key>, k: Key, zf: F)
    requires KeyTable(s, order, zf)
    requires k !in s.hashtable && RegisterCorner(s, k, zf).Ok?
    ensures |RegisterCorner(s, k, zf).value.0.uvertices| == |order| + 1
    ensures |RegisterCorner(s, k, zf).value.0.unormals| == |order| + 1
    ensures |RegisterCorner(s, k, zf).value.0.uuvs| == |order| + 1
    ensures KeyEntries(RegisterCorner(s, k, zf).value.0, order + [k], zf)
    ensures KeyNormals(RegisterCorner(s, k, zf).value.0, order + [k], zf)
  {
    var t := RegisterCorner(s, k, zf).value.0;
    var o := order + [k];
    forall j | 0 <= j < |o|
      ensures 0 <= o[j].v < |t.vertices| && t.uvertices[j] == t.vertices[o[j].v]
      ensures EntryFrom(t.unormals[j], o[j].n, t.normals, Zero3(zf))
      ensures EntryFrom(t.uuvs[j], o[j].uv, t.uvs, Zero2(zf))
      ensures !t.hasNormals ==> t.unormals[j] == Zero3(zf)
    {
      if j < |order| {
        assert o[j] == order[j];
      }
    }
    if t.hasNormals {
      if s.hasNormals {
        var j :| 0 <= j < |order| && 0 <= order[j].n < |s.normals|;
        assert o[j] == order[j];
      } else {
        assert 0 <= o[|order|].n < |t.normals|;
      }
    }
  }
  /**
   * After the corners `toks`, the table numbers Firsts(keys + their keys), and the i-th
   * corner's index is the position of its key there.
   */
  predicate TokensNumbered<F(==)>(s: ScanState<F>, keys: seq<Key>, toks: seq<string>, parse: string -> Result<Key, LoadError>, zf: F) {
    RegisterTokens(s, toks, parse, zf).Ok?
    && KeyTable(RegisterTokens(s, toks, parse, zf).value.0, Firsts(keys + TokenKeys(toks, parse)), zf)
    && forall i | 0 <= i < |toks| ::
         RegisterTokens(s, toks, parse, zf).value.1[i] == IndexOf(Firsts(keys + TokenKeys(toks, parse)), TokenKeys(toks, parse)[i])
  }

  /** The corners of one line, registered left to right, are numbered by first appearance. */
  lemma {:induction false} RegisterTokensKeys<F>(s: ScanState<F>, keys: seq<Key>, toks: seq<string>, parse: string -> Result<Key, LoadError>, zf: F)
    requires KeyTable(s, Firsts(keys), zf)
    requires RegisterTokens(s, toks, parse, zf).Ok?
    ensures TokensNumbered(s, keys, toks, parse, zf)
    decreases |toks|
  {
    if |toks| == 0 {
      assert keys + TokenKeys(toks, parse) == keys;
    } else {
      RegisterTokensKeys(s, keys, toks[..|toks| - 1], parse, zf);
      RegisterTokensStep(s, keys, toks, parse, zf);
    }
  }

  /** One more corner: the induction step of RegisterTokensKeys. */
  lemma RegisterTokensStep<F>(s: ScanState<F>, keys: seq<Key>, toks: seq<string>, parse: string -> Result<Key, LoadError>, zf: F)
    requires |toks| > 0 && RegisterTokens(s, toks, parse, zf).Ok?
    requires TokensNumbered(s, keys, toks[..|toks| - 1], parse, zf)
    ensures TokensNumbered(s, keys, toks, parse, zf)
  {
    var init := toks[..|toks| - 1];
    var p := RegisterTokens(s, init, parse, zf).value;
    var k := parse(toks[|toks| - 1]).value;
    var ks := keys + TokenKeys(init, parse);
    RegisterTokensLast(s, keys, toks, parse, zf);
    LastCorner(p.0, ks, k, zf);
    SuffixOfAppend(keys, TokenKeys(init, parse));
    LastCornerIndexes(p.1, RegisterCorner(p.0, k, zf).value.1, ks, k, TokenKeys(init, parse));
  }

  /** RegisterTokens and TokenKeys on a line, taken apart at its last corner. */
  lemma RegisterTokensLast<F>(s: ScanState<F>, keys: seq<Key>, toks: seq<string>, parse: string -> Result<Key, LoadError>, zf: F)
    requires |toks| > 0 && RegisterTokens(s, toks, parse, zf).Ok?
    ensures var init := toks[..|toks| - 1];
      var p := RegisterTokens(s, init, parse, zf);
      var k := parse(toks[|toks| - 1]);
      && p.Ok? && k.Ok? && RegisterCorner(p.value.0, k.value, zf).Ok?
      && var q := RegisterCorner(p.value.0, k.value, zf).value;
      && RegisterTokens(s, toks, parse, zf).value == (q.0, p.value.1 + [q.1])
      && TokenKeys(toks, parse) == TokenKeys(init, parse) + [k.value]
      && keys + TokenKeys(toks, parse) == (keys + TokenKeys(init, parse)) + [k.value]
  {
  }

  lemma SuffixOfAppend<T>(a: seq<T>, b: seq<T>)
    ensures |b| <= |a + b| && (a + b)[|a + b| - |b|..] == b
  {
  }

  /** The table after the last corner of a line, whether its key is known or new. */
  lemma LastCorner<F>(s: ScanState<F>, keys: seq<Key>, k: Key, zf: F)
    requires KeyTable(s, Firsts(keys), zf)
    requires RegisterCorner(s, k, zf).Ok?
    ensures KeyTable(RegisterCorner(s, k, zf).value.0, Firsts(keys + [k]), zf)
    ensures RegisterCorner(s, k, zf).value.1 == IndexOf(Firsts(keys + [k]), k)
  {
    if k in s.hashtable {
      RegisterKnownKey(s, keys, k, zf);
    } else {
      RegisterNewKey(s, keys, k, zf);
    }
  }

  /**
   * The indices of a line so far keep their values when one more key is seen, and
   * the new index is the position of the new key.
   */
  lemma LastCornerIndexes(idx: seq<int>, last: int, keys: seq<Key>, k: Key, lineKeys: seq<Key>)
    requires |idx| == |lineKeys| && |lineKeys| <= |keys| && keys[|keys| - |lineKeys|..] == lineKeys
    requires forall i | 0 <= i < |idx| :: idx[i] == IndexOf(Firsts(keys), lineKeys[i])
    requires last == IndexOf(Firsts(keys + [k]), k)
    ensures forall i | 0 <= i < |idx| + 1 ::
              (idx + [last])[i] == IndexOf(Firsts(keys + [k]), (lineKeys + [k])[i])
  {
    var before := Firsts(keys);
    var after := Firsts(keys + [k]);
    FirstsPrefix(keys, [k]);
    forall i | 0 <= i < |idx| + 1
      ensures (idx + [last])[i] == IndexOf(after, (lineKeys + [k])[i])
    {
      if i < |idx| {
        var x := lineKeys[i];
        assert x == keys[|keys| - |lineKeys| + i];
        IndexOfPrefix(before, after, x);
      }
    }
  }

  /** The first-seen numbers of a line's corner keys. */
  function CornerIndexes(order: seq<Key>, toks: seq<string>, parse: string -> Result<Key, LoadError>): (idx: seq<int>)
    ensures |idx| == |toks|
  {
    seq(|toks|, i requires 0 <= i < |toks| => IndexOf(order, TokenKeys(toks, parse)[i]))
  }

  /**
   * An `f` line keeps every invariant, and the triangles it adds are those of
   * Triangulate over the first-seen numbers of its corner keys, under the current
   * material and the current object (the material when splitting by material).
   */
  lemma FaceStepKeeps<F>(s: ScanState<F>, keys: seq<Key>, corners: seq<string>, split: bool, zf: F)
    requires KeyTable(s, Firsts(keys), zf) && FacesWellFormed(s, split)
    requires s.cmaterial in s.materialNames
    requires split || s.cmesh == "default" || s.cmesh in s.objectNames
    requires FaceStep(s, corners, split, zf).Ok?
    ensures var t := FaceStep(s, corners, split, zf).value;
      var order := Firsts(keys + TokenKeys(corners, ParseCorner));
      KeyTable(t, order, zf) && FacesWellFormed(t, split)
      && t.faceList == s.faceList + Triangulate(CornerIndexes(order, corners, ParseCorner), s.cmaterial,
                                                if split then s.cmaterial else s.cmesh)
      && t.materialNames == s.materialNames && t.objectNames == s.objectNames
      && t.cmaterial == s.cmaterial && t.cmesh == s.cmesh
  {
    RegisterTokensKeys(s, keys, corners, ParseCorner, zf);
    assert TokensNumbered(s, keys, corners, ParseCorner, zf);
    var p := RegisterTokens(s, corners, ParseCorner, zf).value;
    var order := Firsts(keys + TokenKeys(corners, ParseCorner));
    assert p.1 == CornerIndexes(order, corners, ParseCorner);
    var t := FaceStep(s, corners, split, zf).value;
    var mesh := if split then s.cmaterial else s.cmesh;
    var extra := Triangulate(p.1, s.cmaterial, mesh);
    assert t.faceList == s.faceList + extra;
    forall i | i in p.1
      ensures 0 <= i < |t.uvertices|
    {
      var j :| 0 <= j < |p.1| && p.1[j] == i;
      assert TokenKeys(corners, ParseCorner)[j] in keys + TokenKeys(corners, ParseCorner);
    }
    FirstsPrefix(keys, TokenKeys(corners, ParseCorner));
    FacesWellFormedAppend(s, t, extra, split);
  }

  /** Appending well-formed triangles keeps the triangle list well formed. */
  lemma FacesWellFormedAppend<F>(s: ScanState<F>, t: ScanState<F>, extra: seq<ObjFace>, split: bool)
    requires FacesWellFormed(s, split)
    requires t.faceList == s.faceList + extra && |s.uvertices| <= |t.uvertices|
    requires t.materialNames == s.materialNames && t.objectNames == s.objectNames
    requires forall f | f in extra ::
               |f.indexes| == 3 && (forall i | i in f.indexes :: 0 <= i < |t.uvertices|)
               && f.materialName in t.materialNames
               && if split then f.meshName == f.materialName else f.meshName == "default" || f.meshName in t.objectNames
    ensures FacesWellFormed(t, split)
  {
  }
  /** All three invariants of the scan, for the keys and names read so far. */
  predicate ScanInv<F(==)>(s: ScanState<F>, keys: seq<Key>, materials: seq<string>, groups: seq<string>,
                           split: bool, zf: F) {
    KeyTable(s, Firsts(keys), zf) && FacesWellFormed(s, split) && NamesFrom(s, materials, groups, split)
  }

  /** `g`/`o` directives only arise when the loader does not split by material. */
  lemma {:induction false} DirectivesSetObject(lines: seq<string>, split: bool)
    ensures forall d | d in Directives(lines, split) :: d.SetObject? ==> !split
  {
    if |lines| > 0 {
      DirectivesSetObject(lines[..|lines| - 1], split);
    }
  }

  /** Growing the name lists and changing the current names keeps the key table and the triangles' invariant. */
  lemma NamesOnlyKeep<F>(s: ScanState<F>, t: ScanState<F>, order: seq<Key>, split: bool, zf: F)
    requires KeyTable(s, order, zf) && FacesWellFormed(s, split)
    requires t == s.(materialNames := t.materialNames, objectNames := t.objectNames,
                     cmaterial := t.cmaterial, cmesh := t.cmesh)
    requires forall m | m in s.materialNames :: m in t.materialNames
    requires forall m | m in s.objectNames :: m in t.objectNames
    ensures KeyTable(t, order, zf) && FacesWellFormed(t, split)
  {
  }

  lemma SetObjectKeeps<F>(s: ScanState<F>, name: string, keys: seq<Key>, materials: seq<string>,
                          groups: seq<string>, parseFloat: string -> Option<F>, zf: F)
    requires ScanInv(s, keys, materials, groups, false, zf)
    ensures ScanInv(Apply(s, SetObject(name), false, parseFloat, zf).value, keys, materials, groups + [name], false, zf)
  {
    var t := s.(cmesh := name, objectNames := AddIfAbsent(s.objectNames, name));
    assert Apply(s, SetObject(name), false, parseFloat, zf) == Ok(t);
    NamesOnlyKeep(s, t, Firsts(keys), false, zf);
    ObjectNamesGrow(s, t, name, materials, groups);
  }

  /** A `g`/`o` name is the current object and joins the object names once. */
  lemma ObjectNamesGrow<F>(s: ScanState<F>, t: ScanState<F>, name: string, materials: seq<string>, groups: seq<string>)
    requires NamesFrom(s, materials, groups, false)
    requires t.materialNames == s.materialNames && t.cmaterial == s.cmaterial
    requires t.cmesh == name && t.objectNames == AddIfAbsent(s.objectNames, name)
    ensures NamesFrom(t, materials, groups + [name], false)
  {
    FirstsSnoc(groups, name);
  }

  lemma SetMaterialKeeps<F>(s: ScanState<F>, name: string, keys: seq<Key>, materials: seq<string>,
                            groups: seq<string>, split: bool, parseFloat: string -> Option<F>, zf: F)
    requires ScanInv(s, keys, materials, groups, split, zf)
    ensures ScanInv(Apply(s, SetMaterial(name), split, parseFloat, zf).value, keys, materials + [name], groups, split, zf)
  {
    var t := s.(cmaterial := name,
                materialNames := AddIfAbsent(s.materialNames, name),
                objectNames := if split then AddIfAbsent(s.objectNames, name) else s.objectNames);
    assert Apply(s, SetMaterial(name), split, parseFloat, zf) == Ok(t);
    NamesOnlyKeep(s, t, Firsts(keys), split, zf);
    MaterialNamesGrow(s, t, name, materials, groups, split);
  }

  /**
   * A `usemtl` name is the current material and joins the material names once (and
   * the object names, when splitting by material).
   */
  lemma MaterialNamesGrow<F>(s: ScanState<F>, t: ScanState<F>, name: string, materials: seq<string>,
                             groups: seq<string>, split: bool)
    requires NamesFrom(s, materials, groups, split)
    requires t.cmaterial == name && t.cmesh == s.cmesh
    requires t.materialNames == AddIfAbsent(s.materialNames, name)
    requires t.objectNames == if split then AddIfAbsent(s.objectNames, name) else s.objectNames
    ensures NamesFrom(t, materials + [name], groups, split)
  {
    FirstsSnoc([""] + materials, name);
    AppendAssoc([""], materials, [name]);
    FirstsSnoc(materials, name);
  }

  lemma AppendAssoc<T>(a: seq<T>, b: seq<T>, c: seq<T>)
    ensures a + (b + c) == a + b + c
  {
  }

  /** A vertex, normal or uv line only appends to its own list. */
  lemma DataGrows<F>(s: ScanState<F>, d: Directive, split: bool, parseFloat: string -> Option<F>, zf: F)
    requires d.VertexData? || d.NormalData? || d.UvData?
    requires Apply(s, d, split, parseFloat, zf).Ok?
    ensures var t := Apply(s, d, split, parseFloat, zf).value;
      t == s.(vertices := t.vertices, normals := t.normals, uvs := t.uvs)
      && |s.vertices| <= |t.vertices| && t.vertices[..|s.vertices|] == s.vertices
      && |s.normals| <= |t.normals| && t.normals[..|s.normals|] == s.normals
      && |s.uvs| <= |t.uvs| && t.uvs[..|s.uvs|] == s.uvs
  {
    var t := Apply(s, d, split, parseFloat, zf).value;
    assert t.vertices[..|s.vertices|] == s.vertices;
    assert t.normals[..|s.normals|] == s.normals;
    assert t.uvs[..|s.uvs|] == s.uvs;
  }

  lemma DataKeeps<F>(s: ScanState<F>, d: Directive, keys: seq<Key>, materials: seq<string>,
                     groups: seq<string>, split: bool, parseFloat: string -> Option<F>, zf: F)
    requires d.VertexData? || d.NormalData? || d.UvData?
    requires ScanInv(s, keys, materials, groups, split, zf)
    requires Apply(s, d, split, parseFloat, zf).Ok?
    ensures ScanInv(Apply(s, d, split, parseFloat, zf).value, keys + DirectiveKeys(d),
                    materials + DirectiveMaterial(d), groups + DirectiveGroup(d), split, zf)
  {
    var t := Apply(s, d, split, parseFloat, zf).value;
    DataGrows(s, d, split, parseFloat, zf);
    GrowKeeps(s, t, keys, materials, groups, split, zf);
    NothingRead(t, d, keys, materials, groups, split, zf);
  }

  /** Growing only the vertex, normal and uv lists keeps the invariants. */
  lemma GrowKeeps<F>(s: ScanState<F>, t: ScanState<F>, keys: seq<Key>, materials: seq<string>,
                     groups: seq<string>, split: bool, zf: F)
    requires ScanInv(s, keys, materials, groups, split, zf)
    requires t == s.(vertices := t.vertices, normals := t.normals, uvs := t.uvs)
    requires |s.vertices| <= |t.vertices| && t.vertices[..|s.vertices|] == s.vertices
    requires |s.normals| <= |t.normals| && t.normals[..|s.normals|] == s.normals
    requires |s.uvs| <= |t.uvs| && t.uvs[..|s.uvs|] == s.uvs
    ensures ScanInv(t, keys, materials, groups, split, zf)
  {
    KeyTableGrow(s, t, Firsts(keys), zf);
  }

  /** A directive that reads no key and no name leaves the invariants' lists as they are. */
  lemma NothingRead<F>(t: ScanState<F>, d: Directive, keys: seq<Key>, materials: seq<string>,
                       groups: seq<string>, split: bool, zf: F)
    requires !d.FaceData? && !d.SetMaterial? && !d.SetObject?
    requires ScanInv(t, keys, materials, groups, split, zf)
    ensures ScanInv(t, keys + DirectiveKeys(d), materials + DirectiveMaterial(d), groups + DirectiveGroup(d), split, zf)
  {
    ListsRead(d, keys, materials, groups);
  }

  /** The lists of keys and names a directive extends, and by what. */
  lemma ListsRead(d: Directive, keys: seq<Key>, materials: seq<string>, groups: seq<string>)
    ensures keys + DirectiveKeys(d) == if d.FaceData? then keys + TokenKeys(d.corners, ParseCorner) else keys
    ensures materials + DirectiveMaterial(d) == if d.SetMaterial? then materials + [d.name] else materials
    ensures groups + DirectiveGroup(d) == if d.SetObject? then groups + [d.name] else groups
  {
    if !d.FaceData? {
      assert DirectiveKeys(d) == [];
    }
    if !d.SetMaterial? {
      assert DirectiveMaterial(d) == [];
    }
    if !d.SetObject? {
      assert DirectiveGroup(d) == [];
    }
  }

  lemma FaceKeeps<F>(s: ScanState<F>, corners: seq<string>, keys: seq<Key>, materials: seq<string>,
                     groups: seq<string>, split: bool, parseFloat: string -> Option<F>, zf: F)
    requires ScanInv(s, keys, materials, groups, split, zf)
    requires Apply(s, FaceData(corners), split, parseFloat, zf).Ok?
    ensures ScanInv(Apply(s, FaceData(corners), split, parseFloat, zf).value,
                    keys + TokenKeys(corners, ParseCorner), materials, groups, split, zf)
  {
    assert Apply(s, FaceData(corners), split, parseFloat, zf) == FaceStep(s, corners, split, zf);
    FaceStepKeeps(s, keys, corners, split, zf);
    var t := FaceStep(s, corners, split, zf).value;
    assert NamesFrom(t, materials, groups, split);
  }

  /** Every directive keeps the scan invariants, extended by what it reads. */
  lemma ApplyKeeps<F>(s: ScanState<F>, d: Directive, keys: seq<Key>, materials: seq<string>,
                      groups: seq<string>, split: bool, parseFloat: string -> Option<F>, zf: F)
    requires ScanInv(s, keys, materials, groups, split, zf)
    requires d.SetObject? ==> !split
    requires Apply(s, d, split, parseFloat, zf).Ok?
    ensures ScanInv(Apply(s, d, split, parseFloat, zf).value, keys + DirectiveKeys(d),
                    materials + DirectiveMaterial(d), groups + DirectiveGroup(d), split, zf)
  {
    if d.Skip? {
      SkipKeeps(s, d, keys, materials, groups, split, parseFloat, zf);
    } else if d.SetObject? {
      ObjectDirectiveKeeps(s, d, keys, materials, groups, parseFloat, zf);
    } else if d.SetMaterial? {
      MaterialDirectiveKeeps(s, d, keys, materials, groups, split, parseFloat, zf);
    } else if d.FaceData? {
      FaceDirectiveKeeps(s, d, keys, materials, groups, split, parseFloat, zf);
    } else {
      DataKeeps(s, d, keys, materials, groups, split, parseFloat, zf);
    }
  }

  lemma SkipKeeps<F>(s: ScanState<F>, d: Directive, keys: seq<Key>, materials: seq<string>,
                     groups: seq<string>, split: bool, parseFloat: string -> Option<F>, zf: F)
    requires d.Skip? && ScanInv(s, keys, materials, groups, split, zf)
    ensures Apply(s, d, split, parseFloat, zf).Ok?
    ensures ScanInv(Apply(s, d, split, parseFloat, zf).value, keys + DirectiveKeys(d),
                    materials + DirectiveMaterial(d), groups + DirectiveGroup(d), split, zf)
  {
    assert Apply(s, d, split, parseFloat, zf) == Ok(s);
    NothingRead(s, d, keys, materials, groups, split, zf);
  }

  lemma ObjectDirectiveKeeps<F>(s: ScanState<F>, d: Directive, keys: seq<Key>, materials: seq<string>,
                                groups: seq<string>, parseFloat: string -> Option<F>, zf: F)
    requires d.SetObject? && ScanInv(s, keys, materials, groups, false, zf)
    ensures ScanInv(Apply(s, d, false, parseFloat, zf).value, keys + DirectiveKeys(d),
                    materials + DirectiveMaterial(d), groups + DirectiveGroup(d), false, zf)
  {
    assert d == SetObject(d.name);
    SetObjectKeeps(s, d.name, keys, materials, groups, parseFloat, zf);
    ListsRead(d, keys, materials, groups);
  }

  lemma MaterialDirectiveKeeps<F>(s: ScanState<F>, d: Directive, keys: seq<Key>, materials: seq<string>,
                                  groups: seq<string>, split: bool, parseFloat: string -> Option<F>, zf: F)
    requires d.SetMaterial? && ScanInv(s, keys, materials, groups, split, zf)
    ensures ScanInv(Apply(s, d, split, parseFloat, zf).value, keys + DirectiveKeys(d),
                    materials + DirectiveMaterial(d), groups + DirectiveGroup(d), split, zf)
  {
    SetMaterialKeeps(s, d.name, keys, materials, groups, split, parseFloat, zf);
    ListsRead(d, keys, materials, groups);
  }

  lemma FaceDirectiveKeeps<F>(s: ScanState<F>, d: Directive, keys: seq<Key>, materials: seq<string>,
                              groups: seq<string>, split: bool, parseFloat: string -> Option<F>, zf: F)
    requires d.FaceData? && ScanInv(s, keys, materials, groups, split, zf)
    requires Apply(s, d, split, parseFloat, zf).Ok?
    ensures ScanInv(Apply(s, d, split, parseFloat, zf).value, keys + DirectiveKeys(d),
                    materials + DirectiveMaterial(d), groups + DirectiveGroup(d), split, zf)
  {
    FaceKeeps(s, d.corners, keys, materials, groups, split, parseFloat, zf);
    ListsRead(d, keys, materials, groups);
  }

  /** The scan invariants after any sequence of directives read from lines. */
  lemma {:induction false} ApplyAllInvariant<F>(ds: seq<Directive>, split: bool, parseFloat: string -> Option<F>, zf: F)
    requires forall d | d in ds :: d.SetObject? ==> !split
    requires ApplyAll(InitialState(), ds, split, parseFloat, zf).Ok?
    ensures ScanInv(ApplyAll(InitialState(), ds, split, parseFloat, zf).value, AllKeys(ds),
                    AllMaterials(ds), AllGroups(ds), split, zf)
  {
    if |ds| == 0 {
      InitialInv<F>(split, zf);
    } else {
      var init := ds[..|ds| - 1];
      var d := ds[|ds| - 1];
      assert forall e | e in init :: e in ds;
      ApplyAllInvariant(init, split, parseFloat, zf);
      var s := ApplyAll(InitialState(), init, split, parseFloat, zf).value;
      assert ApplyAll(InitialState(), ds, split, parseFloat, zf) == Apply(s, d, split, parseFloat, zf);
      assert AllKeys(ds) == AllKeys(init) + DirectiveKeys(d);
      assert AllMaterials(ds) == AllMaterials(init) + DirectiveMaterial(d);
      assert AllGroups(ds) == AllGroups(init) + DirectiveGroup(d);
      assert d in ds;
      ApplyKeeps(s, d, AllKeys(init), AllMaterials(init), AllGroups(init), split, parseFloat, zf);
    }
  }

  /** The scan starts with its invariants holding for no input. */
  lemma InitialInv<F>(split: bool, zf: F)
    ensures ScanInv(InitialState(), AllKeys([]), AllMaterials([]), AllGroups([]), split, zf)
  {
    assert Firsts([""]) == [""] by {
      FirstsSnoc([], "");
    }
    assert PositionMap<Key>([]) == map[];
  }

  /**
   * The scan of a whole file, when it succeeds: the key table numbers the file's
   * distinct corner keys in first-seen order (Firsts of all its keys), the unique
   * lists follow that numbering, every triangle is well formed, and the name lists
   * are the file's distinct names in first-appearance order.
   */
  lemma ScanLinesInvariant<F>(lines: seq<string>, split: bool, parseFloat: string -> Option<F>, zf: F)
    requires ScanLines(lines, split, parseFloat, zf).Ok?
    ensures var ds := Directives(lines, split);
      ScanInv(ScanLines(lines, split, parseFloat, zf).value, AllKeys(ds), AllMaterials(ds), AllGroups(ds), split, zf)
  {
    DirectivesSetObject(lines, split);
    ApplyAllInvariant(Directives(lines, split), split, parseFloat, zf);
  }

  // ----- One more line, and errors that end the scan -----

  /** Reading one more corner: the fold's last step, spelled out. */
  lemma RegisterTokensNext<F>(s: ScanState<F>, toks: seq<string>, parse: string -> Result<Key, LoadError>, zf: F, i: int)
    requires 0 <= i < |toks|
    ensures RegisterTokens(s, toks[..i + 1], parse, zf)
            == (var p :- RegisterTokens(s, toks[..i], parse, zf);
                var k :- parse(toks[i]);
                var q :- RegisterCorner(p.0, k, zf);
                Ok((q.0, p.1 + [q.1])))
  {
    assert toks[..i + 1][..i] == toks[..i];
  }

  /** A corner that fails ends the corner list with its error. */
  lemma {:induction false} RegisterTokensErr<F>(s: ScanState<F>, toks: seq<string>, parse: string -> Result<Key, LoadError>, zf: F, j: int)
    requires 0 <= j <= |toks|
    requires RegisterTokens(s, toks[..j], parse, zf).Err?
    ensures RegisterTokens(s, toks, parse, zf) == RegisterTokens(s, toks[..j], parse, zf)
    decreases |toks|
  {
    if j < |toks| {
      var init := toks[..|toks| - 1];
      assert init[..j] == toks[..j];
      RegisterTokensErr(s, init, parse, zf, j);
    } else {
      assert toks[..j] == toks;
    }
  }

  /** The directives of a prefix of the lines are a prefix of the directives. */
  lemma {:induction false} DirectivesPrefix(lines: seq<string>, split: bool, j: int)
    requires 0 <= j <= |lines|
    ensures Directives(lines[..j], split) == Directives(lines, split)[..j]
    decreases |lines|
  {
    if j < |lines| {
      var init := lines[..|lines| - 1];
      assert init[..j] == lines[..j];
      DirectivesPrefix(init, split, j);
    } else {
      assert lines[..j] == lines;
    }
  }

  /** A directive that fails ends the whole fold with its error. */
  lemma {:induction false} ApplyAllErr<F>(s: ScanState<F>, ds: seq<Directive>, split: bool, parseFloat: string -> Option<F>, zf: F, j: int)
    requires 0 <= j <= |ds|
    requires ApplyAll(s, ds[..j], split, parseFloat, zf).Err?
    ensures ApplyAll(s, ds, split, parseFloat, zf) == ApplyAll(s, ds[..j], split, parseFloat, zf)
    decreases |ds|
  {
    if j < |ds| {
      var init := ds[..|ds| - 1];
      assert init[..j] == ds[..j];
      ApplyAllErr(s, init, split, parseFloat, zf, j);
    } else {
      assert ds[..j] == ds;
    }
  }

  /** Scanning one more line: the fold's last step, spelled out. */
  lemma ScanNext<F>(lines: seq<string>, split: bool, parseFloat: string -> Option<F>, zf: F, i: int)
    requires 0 <= i < |lines|
    ensures ScanLines(lines[..i + 1], split, parseFloat, zf)
            == (var t :- ScanLines(lines[..i], split, parseFloat, zf);
                Apply(t, Classify(lines[i], split), split, parseFloat, zf))
  {
    assert lines[..i + 1][..i] == lines[..i];
    var ds := Directives(lines[..i + 1], split);
    assert ds[..|ds| - 1] == Directives(lines[..i], split);
  }

  /** A line that fails ends the scan with its error, whatever follows. */
  lemma ScanErr<F>(lines: seq<string>, split: bool, parseFloat: string -> Option<F>, zf: F, j: int)
    requires 0 <= j <= |lines|
    requires ScanLines(lines[..j], split, parseFloat, zf).Err?
    ensures ScanLines(lines, split, parseFloat, zf) == ScanLines(lines[..j], split, parseFloat, zf)
  {
    DirectivesPrefix(lines, split, j);
    ApplyAllErr(InitialState(), Directives(lines, split), split, parseFloat, zf, j);
  }

  // ----- When the file counts as having normals -----

  /**
   * Corner j of a face is read, at the moment it is read, as a key not seen before
   * whose normal index lies within the normals read so far.
   */
  predicate NewNormalCorner<F(==)>(s: ScanState<F>, toks: seq<string>, parse: string -> Result<Key, LoadError>, zf: F, j: int) {
    0 <= j < |toks| && RegisterTokens(s, toks[..j], parse, zf).Ok? && parse(toks[j]).Ok?
    && var p := RegisterTokens(s, toks[..j], parse, zf).value.0;
       var k := parse(toks[j]).value;
       k !in p.hashtable && 0 <= k.n < |p.normals|
  }

  /** The flag after a face's corners: set before, or set by one of its corners. */
  lemma {:induction false} RegisterTokensNormals<F>(s: ScanState<F>, toks: seq<string>, parse: string -> Result<Key, LoadError>, zf: F, n: int)
    requires 0 <= n <= |toks| && RegisterTokens(s, toks[..n], parse, zf).Ok?
    ensures RegisterTokens(s, toks[..n], parse, zf).value.0.hasNormals
            <==> s.hasNormals || exists j | 0 <= j < n :: NewNormalCorner(s, toks, parse, zf, j)
    decreases n
  {
    if n > 0 {
      RegisterTokensNext(s, toks, parse, zf, n - 1);
      RegisterTokensNormals(s, toks, parse, zf, n - 1);
      var p := RegisterTokens(s, toks[..n - 1], parse, zf).value.0;
      var k := parse(toks[n - 1]).value;
      assert RegisterCorner(p, k, zf).Ok?;
      if NewNormalCorner(s, toks, parse, zf, n - 1) {
        assert RegisterTokens(s, toks[..n], parse, zf).value.0.hasNormals;
      }
    }
  }

  /**
   * Corner j of line i is, when the scan reaches it, a new key with an in-range normal
   * index: the event that sets the flag which turns off normal recalculation.
   */
  predicate NewNormalLine<F(==)>(lines: seq<string>, split: bool, parseFloat: string -> Option<F>, zf: F, i: int, j: int) {
    0 <= i < |lines| && ScanLines(lines[..i], split, parseFloat, zf).Ok? && Classify(lines[i], split).FaceData?
    && NewNormalCorner(ScanLines(lines[..i], split, parseFloat, zf).value, Classify(lines[i], split).corners, ParseCorner, zf, j)
  }

  /** One directive sets the flag only through a face corner that brings a new in-range normal. */
  lemma ApplyNormals<F>(t: ScanState<F>, d: Directive, split: bool, parseFloat: string -> Option<F>, zf: F)
    requires Apply(t, d, split, parseFloat, zf).Ok?
    ensures Apply(t, d, split, parseFloat, zf).value.hasNormals
            <==> t.hasNormals || (d.FaceData? && exists j | 0 <= j < |d.corners| :: NewNormalCorner(t, d.corners, ParseCorner, zf, j))
  {
    if d.FaceData? {
      assert d.corners[..|d.corners|] == d.corners;
      RegisterTokensNormals(t, d.corners, ParseCorner, zf, |d.corners|);
    }
  }

  /** Line m brings a new in-range normal exactly when it is a face one of whose corners does. */
  lemma NewNormalLineAt<F>(lines: seq<string>, split: bool, parseFloat: string -> Option<F>, zf: F, m: int)
    requires 0 <= m < |lines| && ScanLines(lines[..m], split, parseFloat, zf).Ok?
    ensures (exists j :: NewNormalLine(lines, split, parseFloat, zf, m, j))
            <==> var d := Classify(lines[m], split);
                 d.FaceData? && exists j | 0 <= j < |d.corners| ::
                   NewNormalCorner(ScanLines(lines[..m], split, parseFloat, zf).value, d.corners, ParseCorner, zf, j)
  {
    var t := ScanLines(lines[..m], split, parseFloat, zf).value;
    var d := Classify(lines[m], split);
    if exists j :: NewNormalLine(lines, split, parseFloat, zf, m, j) {
      var j :| NewNormalLine(lines, split, parseFloat, zf, m, j);
      assert d.FaceData? && NewNormalCorner(t, d.corners, ParseCorner, zf, j);
    }
    if d.FaceData? && exists j | 0 <= j < |d.corners| :: NewNormalCorner(t, d.corners, ParseCorner, zf, j) {
      var j :| 0 <= j < |d.corners| && NewNormalCorner(t, d.corners, ParseCorner, zf, j);
      assert NewNormalLine(lines, split, parseFloat, zf, m, j);
    }
  }

  /** The scan's flag is set exactly when some earlier corner brought a new key with an in-range normal. */
  lemma {:induction false} ScanNormalsPrefix<F>(lines: seq<string>, split: bool, parseFloat: string -> Option<F>, zf: F, n: int)
    requires 0 <= n <= |lines| && ScanLines(lines[..n], split, parseFloat, zf).Ok?
    ensures ScanLines(lines[..n], split, parseFloat, zf).value.hasNormals
            <==> exists i, j | 0 <= i < n :: NewNormalLine(lines, split, parseFloat, zf, i, j)
    decreases n
  {
    if n == 0 {
      assert lines[..0] == [];
    } else {
      var m := n - 1;
      ScanNext(lines, split, parseFloat, zf, m);
      ScanNormalsPrefix(lines, split, parseFloat, zf, m);
      var t := ScanLines(lines[..m], split, parseFloat, zf).value;
      ApplyNormals(t, Classify(lines[m], split), split, parseFloat, zf);
      NewNormalLineAt(lines, split, parseFloat, zf, m);
      if exists i, j | 0 <= i < n :: NewNormalLine(lines, split, parseFloat, zf, i, j) {
        var i, j :| 0 <= i < n && NewNormalLine(lines, split, parseFloat, zf, i, j);
        if i == m {
          assert exists j :: NewNormalLine(lines, split, parseFloat, zf, m, j);
        } else {
          assert exists i, j | 0 <= i < m :: NewNormalLine(lines, split, parseFloat, zf, i, j);
        }
      }
    }
  }

  /** Over the whole file: the flag is set iff some corner, when read, brought a new in-range normal. */
  lemma ScanNormals<F>(lines: seq<string>, split: bool, parseFloat: string -> Option<F>, zf: F)
    requires ScanLines(lines, split, parseFloat, zf).Ok?
    ensures ScanLines(lines, split, parseFloat, zf).value.hasNormals
            <==> exists i, j :: NewNormalLine(lines, split, parseFloat, zf, i, j)
  {
    assert lines[..|lines|] == lines;
    ScanNormalsPrefix(lines, split, parseFloat, zf, |lines|);
  }

  /**
   * After a successful scan the material list starts with "", and both name lists
   * are duplicate-free, in first-appearance order of the file's names.
   */
  lemma ScanNames<F>(lines: seq<string>, split: bool, parseFloat: string -> Option<F>, zf: F)
    requires ScanLines(lines, split, parseFloat, zf).Ok?
    ensures var s := ScanLines(lines, split, parseFloat, zf).value;
      var ds := Directives(lines, split);
      |s.materialNames| > 0 && s.materialNames[0] == ""
      && s.materialNames == Firsts([""] + AllMaterials(ds)) && Distinct(s.materialNames)
      && s.objectNames == Firsts(if split then AllMaterials(ds) else AllGroups(ds)) && Distinct(s.objectNames)
  {
    ScanLinesInvariant(lines, split, parseFloat, zf);
    var ms := AllMaterials(Directives(lines, split));
    FirstsPrefix([""], ms);
    FirstsSnoc([], "");
    assert [] + [""] == [""];
  }
}
