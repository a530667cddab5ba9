/**
 * One face corner of an OBJ `f` line (ObjLoader.LoadOBJFile, the body of the corner
 * loop): its four syntaxes `v`, `v/vt`, `v//vn` and `v/vt/vn`, the 1-based file numbers
 * turned into 0-based indices, and the (vertex, normal, uv) key with -1 for "absent".
 */
module ObjCorner {
  import opened Wrappers
  import opened Int32
  import opened FirstSeen
  import opened ObjText

  /**
   * The dictionary key of a corner. The C# code formats it as the string
   * "v|n|uv"; distinct integer triples give distinct strings, so a triple is the same key.
   */
  datatype Key = Key(v: int, n: int, uv: int)

  /** The exceptions LoadOBJFile can raise on the modelled part of its input. */
  datatype LoadError =
    | BadInteger(token: string)           // Int32.Parse: FormatException or OverflowException
    | BadVector(components: seq<string>)  // ParseVectorFromCMPS: missing or malformed float
    | VertexIndexOutOfRange(index: int)   // vertices[vertexIndex] outside the list

  /** `int.Parse(token) - 1`, with C#'s wrap-around at int.MinValue. */
  function ParseIndex(token: string): (r: Result<int, LoadError>)
    ensures r.Ok? ==> IsInt32(r.value)
    ensures r.Err? ==> r.error == BadInteger(token)
  {
    match ParseInt32(token)
    case None => Err(BadInteger(token))
    case Some(x) => Ok(Dec32(x))
  }

  lemma {:induction false} PairCountsTwice(s: string, c: char)
    requires HasPair(s, c)
    ensures CountChar(s, c) >= 2
  {
    if !(s[0] == c && s[1] == c) {
      PairCountsTwice(s[1..], c);
    }
  }

  /**
   * Classifies one corner token and reads its indices, as the four branches of the
   * corner loop do: a "//" means vertex and normal; exactly two '/' means vertex, uv
   * and normal; no '/' means vertex only; anything else means vertex and uv.
   */
  function ParseCorner(felement: string): (r: Result<Key, LoadError>)
    ensures r.Ok? ==> IsInt32(r.value.v) && (r.value.n == -1 || IsInt32(r.value.n))
    ensures r.Ok? ==> r.value.uv == -1 || IsInt32(r.value.uv)
    ensures r.Ok? && HasPair(felement, '/') ==> r.value.uv == -1
    ensures r.Ok? && '/' !in felement ==> r.value.n == -1 && r.value.uv == -1
    ensures r.Ok? && !HasPair(felement, '/') && CountChar(felement, '/') != 2 ==> r.value.n == -1
    ensures r.Err? ==> r.error.BadInteger?
  {
    SplitCount(felement, '/');
    if HasPair(felement, '/') then
      PairCountsTwice(felement, '/');
      ReadVertexNormal(Split(felement, '/'))
    else if CountChar(felement, '/') == 2 then
      ReadVertexUvNormal(Split(felement, '/'))
    else if '/' !in felement then
      var v :- ParseIndex(felement);
      Ok(Key(v, -1, -1))
    else
      ReadVertexUv(Split(felement, '/'))
  }

  /** `v//vn`: vertex from the first piece, normal from the third, no uv. */
  function ReadVertexNormal(comps: seq<string>): (r: Result<Key, LoadError>)
    requires |comps| >= 3
    ensures r.Ok? ==> IsInt32(r.value.v) && IsInt32(r.value.n) && r.value.uv == -1
    ensures r.Err? ==> r.error.BadInteger?
  {
    var v :- ParseIndex(comps[0]);
    var n :- ParseIndex(comps[2]);
    Ok(Key(v, n, -1))
  }

  /** `v/vt/vn`: vertex, uv and normal from the three pieces. */
  function ReadVertexUvNormal(comps: seq<string>): (r: Result<Key, LoadError>)
    requires |comps| >= 3
    ensures r.Ok? ==> IsInt32(r.value.v) && IsInt32(r.value.n) && IsInt32(r.value.uv)
    ensures r.Err? ==> r.error.BadInteger?
  {
    var v :- ParseIndex(comps[0]);
    var uv :- ParseIndex(comps[1]);
    var n :- ParseIndex(comps[2]);
    Ok(Key(v, n, uv))
  }

  /** `v/vt` (and any other use of '/'): vertex and uv from the first two pieces. */
  function ReadVertexUv(comps: seq<string>): (r: Result<Key, LoadError>)
    requires |comps| >= 2
    ensures r.Ok? ==> IsInt32(r.value.v) && r.value.n == -1 && IsInt32(r.value.uv)
    ensures r.Err? ==> r.error.BadInteger?
  {
    var v :- ParseIndex(comps[0]);
    var uv :- ParseIndex(comps[1]);
    Ok(Key(v, -1, uv))
  }

  /** Which of the four readers ParseCorner applies to a token. */
  lemma ParseCornerCases(fe: string)
    ensures HasPair(fe, '/') ==> |Split(fe, '/')| >= 3 && ParseCorner(fe) == ReadVertexNormal(Split(fe, '/'))
    ensures !HasPair(fe, '/') && CountChar(fe, '/') == 2 ==>
              |Split(fe, '/')| == 3 && ParseCorner(fe) == ReadVertexUvNormal(Split(fe, '/'))
    ensures !HasPair(fe, '/') && CountChar(fe, '/') != 2 && '/' in fe ==>
              |Split(fe, '/')| >= 2 && ParseCorner(fe) == ReadVertexUv(Split(fe, '/'))
  {
    SplitCount(fe, '/');
    if HasPair(fe, '/') {
      PairCountsTwice(fe, '/');
    }
  }

  /** The dictionary key string `vertexIndex + "|" + normalIndex + "|" + uvIndex`. */
  function HashEntry(k: Key): string {
    ShowInt(k.v) + "|" + ShowInt(k.n) + "|" + ShowInt(k.uv)
  }

  predicate KeyInRange(k: Key) {
    IsInt32(k.v) && IsInt32(k.n) && IsInt32(k.uv)
  }

  /** Every key a corner parses to has int32 components (-1 included). */
  lemma ParsedKeyInRange(fe: string)
    requires ParseCorner(fe).Ok?
    ensures KeyInRange(ParseCorner(fe).value)
  {
  }

  /**
   * Two int32 triples give the same key string exactly when they are equal, so the
   * string-keyed dictionary of the source and a triple-keyed map agree.
   */
  lemma HashEntryInjective(k1: Key, k2: Key)
    requires KeyInRange(k1) && KeyInRange(k2)
    ensures HashEntry(k1) == HashEntry(k2) <==> k1 == k2
  {
    if HashEntry(k1) == HashEntry(k2) {
      SplitThree(ShowInt(k1.v), ShowInt(k1.n), ShowInt(k1.uv), '|');
      SplitThree(ShowInt(k2.v), ShowInt(k2.n), ShowInt(k2.uv), '|');
      ParseShowInt(k1.v);
      ParseShowInt(k2.v);
      ParseShowInt(k1.n);
      ParseShowInt(k2.n);
      ParseShowInt(k1.uv);
      ParseShowInt(k2.uv);
    }
  }

  /** A corner as an OBJ writer would emit it, with the file's 1-based numbers. */
  datatype CornerForm =
    | VertexOnly(v: int)
    | VertexUv(v: int, uv: int)
    | VertexNormal(v: int, n: int)
    | VertexUvNormal(v: int, uv: int, n: int)

  predicate FormInRange(c: CornerForm) {
    match c
    case VertexOnly(v) => IsInt32(v)
    case VertexUv(v, uv) => IsInt32(v) && IsInt32(uv)
    case VertexNormal(v, n) => IsInt32(v) && IsInt32(n)
    case VertexUvNormal(v, uv, n) => IsInt32(v) && IsInt32(uv) && IsInt32(n)
  }

  /** The corner token in OBJ syntax. */
  function FormatCorner(c: CornerForm): string {
    match c
    case VertexOnly(v) => ShowInt(v)
    case VertexUv(v, uv) => ShowInt(v) + "/" + ShowInt(uv)
    case VertexNormal(v, n) => ShowInt(v) + "//" + ShowInt(n)
    case VertexUvNormal(v, uv, n) => ShowInt(v) + "/" + ShowInt(uv) + "/" + ShowInt(n)
  }

  /** The key the loader should derive from a corner: each number minus one, -1 where absent. */
  function ExpectedKey(c: CornerForm): Key
    requires FormInRange(c)
  {
    match c
    case VertexOnly(v) => Key(Dec32(v), -1, -1)
    case VertexUv(v, uv) => Key(Dec32(v), -1, Dec32(uv))
    case VertexNormal(v, n) => Key(Dec32(v), Dec32(n), -1)
    case VertexUvNormal(v, uv, n) => Key(Dec32(v), Dec32(n), Dec32(uv))
  }

  lemma {:induction false} NoPairIn(a: string, c: char, b: string)
    requires c !in a
    ensures HasPair(a + b, c) == HasPair(b, c)
  {
    if |a| > 0 {
      assert (a + b)[1..] == a[1..] + b;
      NoPairIn(a[1..], c, b);
    } else {
      assert a + b == b;
    }
  }

  lemma ShowIntNoSlash(i: int)
    ensures '/' !in ShowInt(i) && CountChar(ShowInt(i), '/') == 0
  {
  }

  lemma NoPairWithout(a: string, c: char)
    requires c !in a
    ensures !HasPair(a, c)
  {
    NoPairIn(a, c, "");
    assert a + "" == a;
  }

  lemma {:induction false} SplitTwo(a: string, b: string, c: char)
    requires c !in a && c !in b
    ensures Split(a + [c] + b, c) == [a, b]
  {
    SplitAfter(a, c, b);
    SplitNone(b, c);
  }

  lemma {:induction false} SplitThree(a: string, b: string, d: string, c: char)
    requires c !in a && c !in b && c !in d
    ensures Split(a + [c] + b + [c] + d, c) == [a, b, d]
  {
    var rest := b + [c] + d;
    assert a + [c] + b + [c] + d == a + [c] + rest;
    SplitAfter(a, c, rest);
    SplitTwo(b, d, c);
    assert [a] + [b, d] == [a, b, d];
  }

  lemma ParseVertexOnly(v: int)
    requires IsInt32(v)
    ensures ParseCorner(ShowInt(v)) == Ok(Key(Dec32(v), -1, -1))
  {
    ShowIntNoSlash(v);
    NoPairWithout(ShowInt(v), '/');
    ParseShowInt(v);
  }

  lemma ParseVertexUv(v: int, uv: int)
    requires IsInt32(v) && IsInt32(uv)
    ensures ParseCorner(ShowInt(v) + "/" + ShowInt(uv)) == Ok(Key(Dec32(v), -1, Dec32(uv)))
  {
    var a, b := ShowInt(v), ShowInt(uv);
    var s := a + "/" + b;
    ShowIntNoSlash(v);
    ShowIntNoSlash(uv);
    assert !HasPair(s, '/') by {
      assert s == a + (['/'] + b);
      NoPairIn(a, '/', ['/'] + b);
      assert (['/'] + b)[1..] == b;
      NoPairWithout(b, '/');
    }
    assert CountChar(s, '/') == 1 by {
      CountCharAppend(a + ['/'], b, '/');
      CountCharAppend(a, ['/'], '/');
    }
    SplitTwo(a, b, '/');
    ParseCornerCases(s);
    ParseShowInt(v);
    ParseShowInt(uv);
    assert ReadVertexUv([a, b]) == Ok(Key(Dec32(v), -1, Dec32(uv)));
  }

  lemma ParseVertexNormal(v: int, n: int)
    requires IsInt32(v) && IsInt32(n)
    ensures ParseCorner(ShowInt(v) + "//" + ShowInt(n)) == Ok(Key(Dec32(v), Dec32(n), -1))
  {
    var a, b := ShowInt(v), ShowInt(n);
    var s := a + "//" + b;
    ShowIntNoSlash(v);
    ShowIntNoSlash(n);
    assert HasPair(s, '/') by {
      assert s == a + (['/', '/'] + b);
      NoPairIn(a, '/', ['/', '/'] + b);
    }
    assert s == a + ['/'] + "" + ['/'] + b;
    SplitThree(a, "", b, '/');
    ParseCornerCases(s);
    ParseShowInt(v);
    ParseShowInt(n);
    assert ReadVertexNormal([a, "", b]) == Ok(Key(Dec32(v), Dec32(n), -1));
  }

  /** A slash followed by a non-empty slash-free piece and a slash-free rest holds no "//". */
  lemma SlashPieceNoPair(b: string, rest: string)
    requires '/' !in b && |b| > 0 && !HasPair(rest, '/') && (|rest| > 0 ==> rest[0] == '/')
    ensures !HasPair(['/'] + (b + rest), '/')
  {
    var mid := ['/'] + (b + rest);
    assert mid[1] == b[0] != '/';
    assert mid[1..] == b + rest;
    NoPairIn(b, '/', rest);
  }

  /** Three slash-free pieces, the middle one not empty, joined by single slashes hold no "//". */
  lemma SingleSlashesNoPair(a: string, b: string, d: string)
    requires '/' !in a && '/' !in b && '/' !in d && |b| > 0
    ensures !HasPair(a + "/" + b + "/" + d, '/')
  {
    var tail := ['/'] + d;
    var mid := ['/'] + (b + tail);
    assert a + "/" + b + "/" + d == a + mid;
    NoPairIn(a, '/', mid);
    assert !HasPair(tail, '/') by {
      assert tail[1..] == d;
      NoPairWithout(d, '/');
    }
    SlashPieceNoPair(b, tail);
  }

  /** Three slash-free pieces joined by single slashes hold exactly two '/'. */
  lemma SingleSlashesCount(a: string, b: string, d: string)
    requires '/' !in a && '/' !in b && '/' !in d
    ensures CountChar(a + "/" + b + "/" + d, '/') == 2
  {
    CountOneSlash();
    CountCharAppend(a, "/", '/');
    CountCharAppend(a + "/", b, '/');
    CountCharAppend(a + "/" + b, "/", '/');
    CountCharAppend(a + "/" + b + "/", d, '/');
  }

  lemma CountOneSlash()
    ensures CountChar("/", '/') == 1
  {
    assert "/"[1..] == [];
  }

  lemma ParseVertexUvNormal(v: int, uv: int, n: int)
    requires IsInt32(v) && IsInt32(uv) && IsInt32(n)
    ensures ParseCorner(ShowInt(v) + "/" + ShowInt(uv) + "/" + ShowInt(n)) == Ok(Key(Dec32(v), Dec32(n), Dec32(uv)))
  {
    var a, b, d := ShowInt(v), ShowInt(uv), ShowInt(n);
    var s := a + "/" + b + "/" + d;
    ShowIntNoSlash(v);
    ShowIntNoSlash(uv);
    ShowIntNoSlash(n);
    SingleSlashesNoPair(a, b, d);
    SingleSlashesCount(a, b, d);
    SplitThree(a, b, d, '/');
    assert Split(s, '/') == [a, b, d];
    ParseCornerCases(s);
    assert ParseCorner(s) == ReadVertexUvNormal([a, b, d]);
    ParseShowInt(v);
    ParseShowInt(uv);
    ParseShowInt(n);
    assert ReadVertexUvNormal([a, b, d]) == Ok(Key(Dec32(v), Dec32(n), Dec32(uv)));
  }

  /** The loader reads every corner syntax back as the key its numbers denote. */
  lemma ParseFormatCorner(c: CornerForm)
    requires FormInRange(c)
    ensures ParseCorner(FormatCorner(c)) == Ok(ExpectedKey(c))
  {
    match c
    case VertexOnly(v) => ParseVertexOnly(v);
    case VertexUv(v, uv) => ParseVertexUv(v, uv);
    case VertexNormal(v, n) => ParseVertexNormal(v, n);
    case VertexUvNormal(v, uv, n) => ParseVertexUvNormal(v, uv, n);
  }
}
