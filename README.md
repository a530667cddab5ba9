# Wavefront OBJ loader and saver (Built2Spec)

This project is a Dafny model of the OBJ codec of the Built2Spec HoloLens app.

**Decoding.** `ObjLoader.LoadOBJFile` reads the lines of an OBJ file in two phases.

- **Scan.**
  - Comment lines are skipped. Every other line is trimmed, one pass of `Replace("  ", " ")` is applied, and the line is split on spaces.
  - `v`, `vn` and `vt` lines append to the vertex, normal and uv lists.
  - `g`/`o` lines choose the current object. `usemtl` lines choose the current material.
  - Every corner of an `f` line (`v`, `v/vt`, `v//vn` or `v/vt/vn`) is turned into a 0-based (vertex, normal, uv) key. Each distinct key is numbered once in a key table, and the unique vertex, normal and uv lists are extended with it.
  - Triangles and quads become triangles in a face list.
- **Build.**
  - For each object name, its triangles are grouped into one submesh per material, in the order of the material list.
  - Every submesh's index buffer is renumbered in place through one remap table. The table hands out dense local vertex numbers in order of first reference.

**Encoding.** `ObjSaver.Save` writes, for each mesh filter, the following four things:

- an `o Object.<n>` line;
- `MeshToString` of its mesh: one `v` line per vertex, with x negated and the transform applied;
- one `f` line per triangle, with the corners reversed and offset by a global 1-based vertex counter;
- a blank line.

**How the model is built.**

- **The loops are methods.** The source works by loops that update lists, dictionaries and an index array. So the loops are Dafny methods:
  - `ScanFace`, `ScanFile`, `RemapSubmesh`, `BuildObject` and `LoadOBJFile` in `ObjLoader`;
  - `Saver.MeshToString` and `Saver.Save` in `ObjSaver`. `Saver` is a class holding the static `vertexCount`.
- **Each method is proved against a specification function.**
  - In `ObjScan`: `FaceStep`, `ScanLines`.
  - In `ObjBuild`: `Rewrite`, `BuildObjectSpec`.
  - In `ObjSaver`: `MeshLines`, `SaveSpec`.
- **The source's promises are lemmas about those functions.** For example:
  - the key table numbers keys in order of first appearance;
  - the remap keeps every corner's vertex data and is dense;
  - first references come in number order;
  - the material and object lists are duplicate-free lists of first appearances;
  - a written face line reads back as the same corners.
- **Errors are results.** The exceptions the loader can raise on a file are `LoadError` values:
  - a corner number int.Parse rejects;
  - a malformed or missing float component;
  - a vertex index outside the vertex list.

  The saver's two argument exceptions are `SaveError` values.
- **C# `int` arithmetic is written out.** It wraps at 32 bits in three places:
  - the `- 1` after `int.Parse`;
  - `vertexCount +=`;
  - `+ 1 + lastVertexIndex`.
- **Floats are abstract.** The float type is a type parameter. `float.Parse` is a function argument that may fail, and its result for `0` is a parameter too. In the saver, negation and `Transform.TransformPoint` are parameters.
- **Text model.**
  - `Trim` drops the characters `Char.IsWhiteSpace` accepts.
  - `Split` is `String.Split(char)`.
  - `ParseInt32` is `int.Parse` with `NumberStyles.Integer` in the invariant culture: optional surrounding white space, an optional sign, and decimal digits.
  - `ShowInt` is `int.ToString()`.
- **The loader's hash string is replaced by the key.** The string `v + "|" + n + "|" + uv` is replaced by the triple `Key(v, n, uv)`. `ObjCorner.HashEntryInjective` proves that two parsed keys have equal strings exactly when they are equal keys.

**Where the code and its description differ.** The model follows the code in each case:

- A line is a comment only when its very first character is `#`. An indented `#` line is parsed.
- `Replace("  ", " ")` makes one pass, so three spaces in a row still yield an empty token (`ObjText.ThreeSpacesEmptyPiece`).
- Save rejects a null collection but writes nothing, and succeeds, for an empty one.
- `vertexCount` is reset by every Save and advanced before the mesh text is built. Each mesh's face offset is therefore the vertex count of the meshes before it.

## Model

| member | source | states |
|---|---|---|
| Int32.Wrap32 | Assets/Scripts/ObjSaver.cs:61 | the result is a 32-bit int congruent to the input modulo 2^32, and equal to it when it already fits |
| Int32.Add32 | Assets/Scripts/ObjSaver.cs:78 | C# `int` addition: a 32-bit int, equal to the true sum when that fits |
| Int32.Dec32 | Assets/Scripts/ObjLoader.cs:131 | `x - 1` in C# `int`: int.MinValue wraps to int.MaxValue, any other value decreases by one |
| FirstSeen.AddIfAbsent | Assets/Scripts/ObjLoader.cs:82-85 | `if (!list.Contains(x)) list.Add(x)`: keeps a list duplicate-free; its members are the old ones plus x |
| FirstSeen.Firsts | Assets/Scripts/ObjLoader.cs:90-93 | first appearances of a sequence: duplicate-free, with exactly the sequence's members, never longer |
| FirstSeen.IndexOf | Assets/Scripts/ObjLoader.cs:157 | the position of the first occurrence: in range exactly for members, holding x, with no earlier x |
| FirstSeen.PositionMap | Assets/Scripts/ObjLoader.cs:162-163 | the dictionary that numbers an order by position: its keys are exactly the order's elements, each mapped to its position |
| FirstSeen.FirstsSnoc | Assets/Scripts/ObjLoader.cs:82-85 | the first-appearance list after one more element is the old list with the element added if absent |
| FirstSeen.IndexOfDistinct | Assets/Scripts/ObjLoader.cs:260 | in a duplicate-free list, an element's position is its index |
| FirstSeen.PositionMapSnoc | Assets/Scripts/ObjLoader.cs:162-163 | numbering a new element extends the dictionary with that element at the old size |
| FirstSeen.PositionMapSize | Assets/Scripts/ObjLoader.cs:162 | `hashtable.Count` is the number of distinct keys registered |
| FirstSeen.FirstsPrefix | Assets/Scripts/ObjLoader.cs:257-260 | first-appearance lists only grow at the end: numbers handed out earlier never change |
| FirstSeen.FirstsFollowFirstAppearance | Assets/Scripts/ObjLoader.cs:257-260 | the i-th first appearance occurs in the sequence before the j-th, for i < j |
| ObjText.TrimStartBy | Assets/Scripts/ObjLoader.cs:71 | drops exactly the leading white space: a suffix of the input that is empty or starts with a non-white character |
| ObjText.TrimEndBy | Assets/Scripts/ObjLoader.cs:71 | drops exactly the trailing white space: a prefix that is empty or ends with a non-white character |
| ObjText.TrimByKeeps | Assets/Scripts/ObjLoader.cs:71 | trimming a text whose ends are not white space changes nothing |
| ObjText.ReplaceDoubleSpace | Assets/Scripts/ObjLoader.cs:71 | one pass of Replace("  ", " ") is never longer than its input |
| ObjText.ReplaceKeepsNonSpaces | Assets/Scripts/ObjLoader.cs:71 | the replacement leaves the non-space characters as they were |
| ObjText.ReplaceIdentity | Assets/Scripts/ObjLoader.cs:71 | the text comes back unchanged iff it holds no two adjacent spaces |
| ObjText.ReplaceSpaceRun | Assets/Scripts/ObjLoader.cs:71 | a maximal run of n spaces becomes (n + 1) / 2 spaces |
| ObjText.ReplaceNoSpacePrefix | Assets/Scripts/ObjLoader.cs:71 | text without spaces passes through unchanged, whatever follows |
| ObjText.ThreeSpacesEmptyPiece | Assets/Scripts/ObjLoader.cs:71-72 | two words joined by three spaces split into the first word, an empty token, and the second word |
| ObjText.PairAppend | Assets/Scripts/ObjLoader.cs:127 | `"//"` occurs in x + y iff it occurs in x, in y, or across the seam |
| ObjText.CountChar | Assets/Scripts/ObjLoader.cs:134 | the count is at most the length and positive iff the character occurs |
| ObjText.CountCharAppend | Assets/Scripts/ObjLoader.cs:134 | counting characters distributes over concatenation |
| ObjText.Split | Assets/Scripts/ObjLoader.cs:72 | String.Split(char) yields at least one piece |
| ObjText.SplitCount | Assets/Scripts/ObjLoader.cs:72 | there is one more piece than separators |
| ObjText.SplitPieces | Assets/Scripts/ObjLoader.cs:72 | no piece contains the separator |
| ObjText.JoinSplit | Assets/Scripts/ObjLoader.cs:72 | joining the pieces with the separator gives back the text |
| ObjText.SplitAfter | Assets/Scripts/ObjLoader.cs:130 | text up to the first separator is the first piece and the rest splits on |
| ObjText.SplitNone | Assets/Scripts/ObjLoader.cs:145 | text without the separator is its own single piece |
| ObjText.SplitFirst | Assets/Scripts/ObjLoader.cs:72 | the first piece is the text before the first separator |
| ObjText.AfterFirstSpace | Assets/Scripts/ObjLoader.cs:73 | `l.Remove(0, l.IndexOf(' ') + 1)`: all of l without a space, else what follows the first token and its space |
| ObjText.ParseInt32 | Assets/Scripts/ObjLoader.cs:131 | int.Parse accepts only values in the 32-bit range |
| ObjText.TrimStartPad | Assets/Scripts/ObjLoader.cs:131 | TrimStart removes exactly a leading run of dropped characters before a kept one |
| ObjText.TrimEndPad | Assets/Scripts/ObjLoader.cs:131 | TrimEnd removes exactly a trailing run of dropped characters after a kept one |
| ObjText.TrimPadded | Assets/Scripts/ObjLoader.cs:131 | trimming white space padding returns the word inside it |
| ObjText.ParseSignDigits | Assets/Scripts/ObjLoader.cs:131 | after trimming, an optional sign and digits parse to the value they denote when it is a 32-bit int, and fail otherwise |
| ObjText.ParseDigits | Assets/Scripts/ObjLoader.cs:131 | white space, an optional sign, digits with any leading zeros, white space: the value they denote when it is a 32-bit int, an overflow failure otherwise |
| ObjText.ShowNat | Assets/Scripts/ObjSaver.cs:112-113 | decimal digits, non-empty, whose value is the number |
| ObjText.ShowInt | Assets/Scripts/ObjSaver.cs:112-113 | non-empty, digits and minus signs only, ending in a digit |
| ObjText.ParseShowInt | Assets/Scripts/ObjSaver.cs:112-113 | int.Parse of int.ToString() gives the int back, for every 32-bit int |
| ObjVector.ParseVector | Assets/Scripts/ObjLoader.cs:32-42 | succeeds iff components 1 and 2 parse and, with exactly four components, component 3 does; x and y are the parsed components; z is component 3 for four components and 0 otherwise |
| ObjCorner.ParseIndex | Assets/Scripts/ObjLoader.cs:131 | `int.Parse(t) - 1`: a 32-bit int, or BadInteger for that token |
| ObjCorner.PairCountsTwice | Assets/Scripts/ObjLoader.cs:127-134 | a corner containing `//` has at least two slashes |
| ObjCorner.ParseCorner | Assets/Scripts/ObjLoader.cs:120-153 | a `//` corner has no uv; a corner without `/` has neither uv nor normal; a corner without `//` and with other than two slashes has no normal; failures are BadInteger |
| ObjCorner.ReadVertexNormal | Assets/Scripts/ObjLoader.cs:130-132 | pieces 0 and 2 are vertex and normal, uv absent |
| ObjCorner.ReadVertexUvNormal | Assets/Scripts/ObjLoader.cs:137-140 | pieces 0, 1, 2 are vertex, uv and normal |
| ObjCorner.ReadVertexUv | Assets/Scripts/ObjLoader.cs:150-152 | pieces 0 and 1 are vertex and uv, normal absent |
| ObjCorner.ParseCornerCases | Assets/Scripts/ObjLoader.cs:127-153 | the four branches in source order: `//`, then exactly two slashes, then no slash, else vertex/uv, each with the pieces it reads |
| ObjCorner.ParsedKeyInRange | Assets/Scripts/ObjLoader.cs:154 | a parsed key holds 32-bit ints, with -1 for an absent component |
| ObjCorner.HashEntryInjective | Assets/Scripts/ObjLoader.cs:154 | two keys have the same `v|n|uv` hash string iff they are the same key |
| ObjCorner.ParseVertexOnly | Assets/Scripts/ObjLoader.cs:142-146 | the corner `v` reads as vertex v - 1, no normal, no uv |
| ObjCorner.ParseVertexUv | Assets/Scripts/ObjLoader.cs:147-153 | the corner `v/t` reads as vertex v - 1 and uv t - 1 |
| ObjCorner.ParseVertexNormal | Assets/Scripts/ObjLoader.cs:127-133 | the corner `v//n` reads as vertex v - 1 and normal n - 1 |
| ObjCorner.ParseVertexUvNormal | Assets/Scripts/ObjLoader.cs:134-141 | the corner `v/t/n` reads as vertex v - 1, uv t - 1, normal n - 1 |
| ObjCorner.ParseFormatCorner | Assets/Scripts/ObjLoader.cs:120-153 | every corner written in one of the four syntaxes reads back as the key it encodes |
| ObjScan.RegisterCorner | Assets/Scripts/ObjLoader.cs:155-183 | a known key returns its number and changes nothing; a new key succeeds iff its vertex index is in range, is numbered with the table size, and sets hasNormals iff its normal index is in range; other lists unchanged |
| ObjScan.RegisterTokens | Assets/Scripts/ObjLoader.cs:120-184 | one index per corner, and the input lists, names and faces unchanged |
| ObjScan.Triangulate | Assets/Scripts/ObjLoader.cs:185-201 | a triangle gives one face with its corners, a quad two faces (0,1,2) and (2,3,0), other corner counts none; every face has three of the line's indices and the current names |
| ObjScan.Directives | Assets/Scripts/ObjLoader.cs:67-73 | one directive per line |
| ObjScan.ObjectList | Assets/Scripts/ObjLoader.cs:206-207 | the object names, or `default` alone when there are none; duplicate-free when the names are |
| ObjScan.KeyTableGrow | Assets/Scripts/ObjLoader.cs:103-117 | appending vertices, normals or uvs keeps the key table invariant |
| ObjScan.RegisterKnownKey | Assets/Scripts/ObjLoader.cs:155-158 | a key seen before keeps the first-appearance order and gets its position in it |
| ObjScan.RegisterNewKey | Assets/Scripts/ObjLoader.cs:159-183 | a new key is appended to the first-appearance order, keeps the key table invariant and gets the last position |
| ObjScan.NewKeyTable | Assets/Scripts/ObjLoader.cs:162-163 | a new key is outside the order, and the table then numbers the order extended by it |
| ObjScan.NewKeyEntries | Assets/Scripts/ObjLoader.cs:164-181 | the new unique vertex is the key's vertex; its normal and uv are the key's entries or zero; hasNormals stays true only with an in-range normal |
| ObjScan.NewKeyValues | Assets/Scripts/ObjLoader.cs:164-181 | a new key appends exactly its vertex, the normal at its normal index when in range and zero otherwise, and likewise its uv |
| ObjScan.RegisterTokensKeys | Assets/Scripts/ObjLoader.cs:121-184 | after an `f` line, each corner's index is the position of its key among all keys read so far in first-appearance order |
| ObjScan.RegisterTokensNormals | Assets/Scripts/ObjLoader.cs:121-184 | after a face's corners, hasNormals is set iff it was set before or some corner, when read, was a new key with an in-range normal index |
| ObjScan.ApplyNormals | Assets/Scripts/ObjLoader.cs:67-204 | a line sets hasNormals only as a face one of whose corners is such a new key; every other line leaves it alone |
| ObjScan.NewNormalLineAt | Assets/Scripts/ObjLoader.cs:118-184 | a line brings a new in-range normal iff it is an `f` line one of whose corners does |
| ObjScan.ScanNormalsPrefix | Assets/Scripts/ObjLoader.cs:47-204 | after the first n lines, hasNormals is set iff one of those lines had a corner that, when read, was a new key with an in-range normal index |
| ObjScan.ScanNormals | Assets/Scripts/ObjLoader.cs:47-204 | the same over the whole file |
| ObjScan.FaceStepKeeps | Assets/Scripts/ObjLoader.cs:118-201 | an `f` line keeps the key table and face invariants and appends exactly the triangulation of its renumbered corners under the current names |
| ObjScan.DirectivesSetObject | Assets/Scripts/ObjLoader.cs:79 | `g`/`o` lines take effect only when not splitting by material |
| ObjScan.SetObjectKeeps | Assets/Scripts/ObjLoader.cs:79-86 | a `g`/`o` line keeps the scan invariant with one more group name read |
| ObjScan.SetMaterialKeeps | Assets/Scripts/ObjLoader.cs:87-102 | a `usemtl` line keeps the scan invariant with one more material name read |
| ObjScan.DataKeeps | Assets/Scripts/ObjLoader.cs:103-117 | a `v`, `vn` or `vt` line keeps the scan invariant |
| ObjScan.FaceKeeps | Assets/Scripts/ObjLoader.cs:118-202 | an `f` line keeps the scan invariant with its corner keys read |
| ObjScan.ApplyKeeps | Assets/Scripts/ObjLoader.cs:75-202 | every kind of line keeps the scan invariant |
| ObjScan.ApplyAllInvariant | Assets/Scripts/ObjLoader.cs:67-204 | after any sequence of lines, the scan invariant holds for all keys, materials and groups read |
| ObjScan.ScanLinesInvariant | Assets/Scripts/ObjLoader.cs:67-204 | a successful scan of a file satisfies the scan invariant: key table, well-formed faces, name lists of first appearances |
| ObjScan.ScanNames | Assets/Scripts/ObjLoader.cs:57-102 | the material list is "" followed by the distinct `usemtl` names in order; the object list is the distinct `g`/`o` names (or `usemtl` names when splitting); both duplicate-free |
| ObjScan.RegisterTokensErr | Assets/Scripts/ObjLoader.cs:121-153 | the first failing corner decides the line's outcome |
| ObjScan.ScanErr | Assets/Scripts/ObjLoader.cs:67-117 | the first failing line decides the scan's outcome |
| ObjBuild.WhereMesh | Assets/Scripts/ObjLoader.cs:229 | exactly the faces of the object |
| ObjBuild.WhereMaterial | Assets/Scripts/ObjLoader.cs:232 | exactly the faces with the material |
| ObjBuild.WhereMeshAppend | Assets/Scripts/ObjLoader.cs:229 | the object's faces of a concatenation are those of each part, in order |
| ObjBuild.WhereMeshOne | Assets/Scripts/ObjLoader.cs:229 | a single face is kept iff it belongs to the object |
| ObjBuild.WhereMeshCount | Assets/Scripts/ObjLoader.cs:229 | each face of the object is kept as many times as it occurs, any other face never |
| ObjBuild.WhereMaterialAppend | Assets/Scripts/ObjLoader.cs:232 | the material's faces of a concatenation are those of each part, in order |
| ObjBuild.WhereMaterialOne | Assets/Scripts/ObjLoader.cs:232 | a single face is kept iff it has the material |
| ObjBuild.WhereMaterialCount | Assets/Scripts/ObjLoader.cs:232 | each face with the material is kept as many times as it occurs, any other face never |
| ObjBuild.Rewrite | Assets/Scripts/ObjLoader.cs:246-263 | the renumbered buffer has the buffer's length |
| ObjBuild.Gather | Assets/Scripts/ObjLoader.cs:257-259 | one processed entry per remapped index |
| ObjBuild.BuildSteps | Assets/Scripts/ObjLoader.cs:230-271 | one raw and one renumbered buffer per submesh material, and the indices seen are the raw buffers in order |
| ObjBuild.SeenInRange | Assets/Scripts/ObjLoader.cs:257 | every index the remap reads is within the unique-vertex lists |
| ObjBuild.BuildStepsRemap | Assets/Scripts/ObjLoader.cs:246-263 | every submesh is its raw buffer rewritten through the first-reference order of the whole object |
| ObjBuild.BuildStepsMaterials | Assets/Scripts/ObjLoader.cs:230-244 | a material gets a submesh iff it is listed and has a face in the object |
| ObjBuild.BuildStepsBuffers | Assets/Scripts/ObjLoader.cs:232-241 | each raw buffer is the indices of that material's faces in list order, and is non-empty |
| ObjBuild.BuildStepsDistinct | Assets/Scripts/ObjLoader.cs:230-242 | no material gets two submeshes |
| ObjBuild.BuildStepsOrder | Assets/Scripts/ObjLoader.cs:230-242 | submeshes follow the material list's order |
| ObjBuild.FaceIndexesLength | Assets/Scripts/ObjLoader.cs:235-241 | concatenated triangles make a buffer of whole triangles, non-empty when there is a face |
| ObjBuild.ConcatRewrite | Assets/Scripts/ObjLoader.cs:246-263 | renumbering submesh by submesh equals renumbering their concatenation |
| ObjBuild.BuildStepsFirstUse | Assets/Scripts/ObjLoader.cs:257-260 | new number p is first used before new number q, for p < q |
| ObjBuild.BuildObjectMaterials | Assets/Scripts/ObjLoader.cs:227-244 | the mesh is named after the object; it has one submesh per material of the list that has one of its faces; none twice; in list order |
| ObjBuild.BuildObjectRemap | Assets/Scripts/ObjLoader.cs:246-276 | every renumbered corner addresses the same vertex, normal and uv in the mesh as its old index did in the unique lists |
| ObjBuild.BuildObjectDense | Assets/Scripts/ObjLoader.cs:257-260 | every mesh vertex is used by some submesh |
| ObjBuild.BuildObjectShared | Assets/Scripts/ObjLoader.cs:250-261 | two corners of the object share a new number iff they shared an old index, across submeshes too |
| ObjBuild.BuildObjectFirstUse | Assets/Scripts/ObjLoader.cs:257-260 | mesh vertices are numbered in order of first use across the submeshes |
| ObjBuild.BuildObjectZeroNormals | Assets/Scripts/ObjLoader.cs:258 | when all unique normals are zero so are the mesh's |
| ObjBuild.BuildObjectTriangles | Assets/Scripts/ObjLoader.cs:278-281 | every submesh handed to SetTriangles is a non-empty list of whole triangles |
| ObjBuild.RemapStep | Assets/Scripts/ObjLoader.cs:248-262 | one corner: a seen index keeps the order, a new one is appended, and the corner is rewritten to its position |
| ObjBuild.GatherSnoc | Assets/Scripts/ObjLoader.cs:257-259 | a new index appends its vertex data to the processed lists |
| ObjLoader.AddCorner | Assets/Scripts/ObjLoader.cs:155-183 | computes RegisterCorner |
| ObjLoader.ScanFace | Assets/Scripts/ObjLoader.cs:118-202 | the corner loop and triangulation compute FaceStep, errors included |
| ObjLoader.AddTriangles | Assets/Scripts/ObjLoader.cs:185-201 | appends the line's triangulation under the current names |
| ObjLoader.ScanDirective | Assets/Scripts/ObjLoader.cs:75-202 | one pass of the scan loop's body computes Apply |
| ObjLoader.ScanFile | Assets/Scripts/ObjLoader.cs:67-204 | the scan loop computes ScanLines, stopping at the first error |
| ObjLoader.ConcatFaceIndexes | Assets/Scripts/ObjLoader.cs:235-241 | the resized array holds the faces' indices in order |
| ObjLoader.AddProcessed | Assets/Scripts/ObjLoader.cs:255-262 | a new index is numbered with the processed count and its data appended |
| ObjLoader.Renumber | Assets/Scripts/ObjLoader.cs:248-262 | one corner of the remap loop: its new number is its position in the first-reference order; table and processed lists follow that order |
| ObjLoader.RemapSubmesh | Assets/Scripts/ObjLoader.cs:246-263 | the in-place loop rewrites the array through the first-reference order of everything seen, with table and processed lists following it |
| ObjLoader.AddSubmesh | Assets/Scripts/ObjLoader.cs:232-266 | one material's submesh: concatenation then remap |
| ObjLoader.BuildObject | Assets/Scripts/ObjLoader.cs:212-281 | the per-object build computes BuildObjectSpec |
| ObjLoader.BuildAll | Assets/Scripts/ObjLoader.cs:212-320 | one mesh per object name |
| ObjLoader.LoadOBJFile | Assets/Scripts/ObjLoader.cs:44-323 | the whole loader computes LoadSpec: the scan's first error, or the objects built and the normals flag |
| ObjLoader.ScanReady | Assets/Scripts/ObjLoader.cs:164-199 | after a scan the unique lists have equal length and every triangle index is in range, so the build's list reads cannot fail |
| ObjLoader.LoadSpecOk | Assets/Scripts/ObjLoader.cs:206-212 | a successful load is the successful scan's objects, one per object name, and the negated normals flag |
| ObjLoader.LoadedObjects | Assets/Scripts/ObjLoader.cs:206-219 | one mesh named `default` when no object was named, otherwise one mesh per distinct object name in order |
| ObjLoader.LoadedNormals | Assets/Scripts/ObjLoader.cs:283-286 | normals are recalculated iff hasNormals stayed false, iff no corner, when read, was a new key with a normal index within the normals read so far; when they are not, some first-seen key has an in-range normal index |
| ObjLoader.RecalculatedNormalsZero | Assets/Scripts/ObjLoader.cs:283-286 | when normals are recalculated, every mesh normal was zero |
| ObjLoader.NoNormalsZero | Assets/Scripts/ObjLoader.cs:165-173 | with hasNormals false, every unique normal is zero |
| ObjSaver.TriangleLinesNext | Assets/Scripts/ObjSaver.cs:109-114 | one more triangle appends its face line |
| ObjSaver.SaveOutcomes | Assets/Scripts/ObjSaver.cs:44-52 | Save succeeds iff it has a stream and a collection; a missing stream is reported first; an empty collection writes nothing |
| ObjSaver.VertexLinesAt | Assets/Scripts/ObjSaver.cs:79-93 | one `v` line per vertex in order: placed position with x negated |
| ObjSaver.TriangleLinesAt | Assets/Scripts/ObjSaver.cs:109-114 | the j-th face line of a submesh is its j-th triangle written |
| ObjSaver.FaceLinesCount | Assets/Scripts/ObjSaver.cs:105-115 | one face line per triangle over all submeshes |
| ObjSaver.TriangleLinesInRange | Assets/Scripts/ObjSaver.cs:112-113 | with offset 0, every corner written is a 1-based number of one of the mesh's vertices |
| ObjSaver.FaceLinesInRange | Assets/Scripts/ObjSaver.cs:105-115 | the same for every submesh |
| ObjSaver.DefaultMeshLines | Assets/Scripts/ObjSaver.cs:74-117 | MeshToString without transform or offset: the vertices first, in order, then face lines naming 1-based vertices of this mesh |
| ObjSaver.Add32Wrap | Assets/Scripts/ObjSaver.cs:61 | a wrapped counter advanced in C# `int` stays the wrapped true count |
| ObjSaver.CountAfterTotal | Assets/Scripts/ObjSaver.cs:78 | vertexCount after k meshes is their total vertex count, wrapped to 32 bits, and is exact when it fits |
| ObjSaver.SaveLinesBlocks | Assets/Scripts/ObjSaver.cs:58-65 | the k-th block follows the first k-1, with object number k and the vertex count so far as offset |
| ObjSaver.FaceTextNoPair | Assets/Scripts/ObjSaver.cs:112 | a written face line has no two adjacent spaces |
| ObjSaver.FaceTextSplit | Assets/Scripts/ObjSaver.cs:112 | a written face line splits into `f` and its three numbers |
| ObjSaver.FaceTextClassify | Assets/Scripts/ObjSaver.cs:112 | the loader classifies a written face line as a face with those three corners |
| ObjSaver.ClassifyFace | Assets/Scripts/ObjLoader.cs:118 | a trimmed line with single spaces that splits into `f` and corners is a face of those corners |
| ObjSaver.WrittenFaceNoOffset | Assets/Scripts/ObjSaver.cs:112-113 | with offset 0 the triangle (a, b, c) is written as `f c+1 b+1 a+1` |
| ObjSaver.OneBasedReads | Assets/Scripts/ObjSaver.cs:113 | a written 1-based number reads back as the 0-based vertex index |
| ObjSaver.WrittenFaceReads | Assets/Scripts/ObjSaver.cs:112-113 | the saver's face line read by the loader's classifier and corner parser gives back the triangle's corners, in reverse order |
| ObjSaver.Saver.constructor | Assets/Scripts/ObjSaver.cs:37 | the counter starts at 0 |
| ObjSaver.Saver.WriteVertices | Assets/Scripts/ObjSaver.cs:79-93 | the two vertex foreach loops compute VertexLines |
| ObjSaver.Saver.WriteTriangles | Assets/Scripts/ObjSaver.cs:108-114 | the triangle loop, three indices at a time, computes TriangleLines |
| ObjSaver.Saver.MeshToString | Assets/Scripts/ObjSaver.cs:74-117 | advances vertexCount by the vertex count in C# `int` and returns the mesh's lines |
| ObjSaver.Saver.Save | Assets/Scripts/ObjSaver.cs:42-66 | computes SaveSpec; a rejected call leaves vertexCount alone, a completed one leaves the wrapped total vertex count |

## Left out

- **Streams.** `ReadAllLines`, the `StreamReader` and the `StreamWriter` are left out, so the loader takes the file's lines and the saver returns its lines as values. `Debug.Log` and the `searchPaths` and `fileExtension` constants are left out too.
- **Floats.** `float.Parse` is a caller-supplied function: a float that does not parse, or is missing, is its `None`. Float formatting in `string.Format("v {0} {1} {2}")` is not modelled; a `v` line is the value `VertexLine(x, y, z)`. An `f` line is modelled both as `FaceLine` and spelled out by `FaceText`.
- **Unity objects.** The following are not modelled, and the build yields `MeshObject` values:
  - `GameObject` creation, the parent transform and `localScale`;
  - `MeshFilter`/`MeshRenderer` components;
  - `RecalculateNormals` and `RecalculateBounds`. Only the decision to recalculate is modelled, as `Loaded.recalculateNormals`.
- **Materials.** The material cache and the `Material` objects (lines 293-317) are left out. Each mesh carries its material names. The cache is always null (line 65), so every slot of every submesh holds the one shared `defaultMaterial` (line 299), and line 314 renames that same object each time. After the load it is therefore named after the last material of the last object. This aliasing and renaming is not modelled.
- **Transform.TransformPoint** is a parameter. The mesh's normals and uvs are not read by the saver, whose writing of them is commented out in the source.
- **int.Parse.** The current culture's sign symbols, and the trailing NUL characters that .NET tolerates, are left out.
- **Null arguments.** A null `sharedMesh` inside the collection, a null transform object and a null `defaultMaterial` are not modelled.
- **Concurrency.** The unsynchronised static `vertexCount` and `splitByMaterial` are left out; `splitByMaterial` is a parameter.
- **Mesh index limits.** Unity's 65535-vertex limit on a mesh index buffer is left out.
- ObjScan.ScanLinesInvariant: a unique normal (or uv) is stated to be zero or the list entry at its key's index, not which of the two. Whether the index was in range is fixed at the moment the key is first registered, and more normals may follow later. The exact choice is stated, for that moment, by ObjScan.NewKeyValues.
- ObjSaver.Saver.MeshToString: requires whole triangles in every submesh. Unity guarantees this for `GetTriangles`; otherwise the source would read past the array.
- ObjSaver.Saver.Save: requires the same of every mesh filter's mesh.
