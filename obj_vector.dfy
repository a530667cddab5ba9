/**
 * Coordinates as the OBJ loader stores them. The float type is a parameter `F`:
 * reading a float (float.Parse) is a function supplied by the caller, and `zf` is
 * its 0. Vector3 and Vector2 are triples and pairs of `F`.
 */
module ObjVector {
  import opened Wrappers

  datatype Vec3<F> = Vec3(x: F, y: F, z: F)
  datatype Vec2<F> = Vec2(x: F, y: F)

  /** Vector3.zero. */
  function Zero3<F>(zf: F): Vec3<F> {
    Vec3(zf, zf, zf)
  }

  /** Vector2.zero. */
  function Zero2<F>(zf: F): Vec2<F> {
    Vec2(zf, zf)
  }

  /** The implicit Vector3 to Vector2 conversion: z is dropped. */
  function ToVec2<F>(v: Vec3<F>): Vec2<F> {
    Vec2(v.x, v.y)
  }

  /**
   * ParseVectorFromCMPS: components 1 and 2 are x and y; a fourth component is z,
   * and any other length yields a Vector2, widened back to a Vector3 with z = 0.
   * None stands for a missing component (IndexOutOfRangeException) or a float that
   * does not parse (FormatException).
   */
  function ParseVector<F>(cmps: seq<string>, parseFloat: string -> Option<F>, zf: F): (r: Option<Vec3<F>>)
    ensures r.Some? <==> |cmps| >= 3 && parseFloat(cmps[1]).Some? && parseFloat(cmps[2]).Some?
                         && (|cmps| == 4 ==> parseFloat(cmps[3]).Some?)
    ensures r.Some? ==> r.value.x == parseFloat(cmps[1]).value && r.value.y == parseFloat(cmps[2]).value
    ensures r.Some? ==> r.value.z == if |cmps| == 4 then parseFloat(cmps[3]).value else zf
  {
    if |cmps| < 3 then None
    else
      var x :- parseFloat(cmps[1]);
      var y :- parseFloat(cmps[2]);
      if |cmps| == 4 then
        var z :- parseFloat(cmps[3]);
        Some(Vec3(x, y, z))
      else
        Some(Vec3(x, y, zf))
  }
}
