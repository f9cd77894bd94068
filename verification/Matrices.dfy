/**
 * The 2-D affine matrix `[a c e; b d f; 0 0 1]`: a value type `Affine` with
 * its algebra (application, product, inverse), and the mutable `Matrix`
 * class whose chaining methods overwrite the six fields in place.
 */
module Matrices {
  import opened Common

  /** The six coefficients; a point (x, y) maps to (a x + c y + e, b x + d y + f). */
  datatype Affine = Affine(a: real, b: real, c: real, d: real, e: real, f: real)

  const Identity: Affine := Affine(1.0, 0.0, 0.0, 1.0, 0.0, 0.0)

  /** Tolerance of the approximate comparison `_q`. */
  const Epsilon: real := 0.00000000000001

  /** `applyToPoint`. */
  function Apply(m: Affine, p: Pt): Pt
  {
    Pt(p.x * m.a + p.y * m.c + m.e, p.x * m.b + p.y * m.d + m.f)
  }

  /** The coefficients `transform(n)` leaves in `m`: apply `n` first, then `m`. */
  function Compose(m: Affine, n: Affine): Affine
  {
    Affine(m.a * n.a + m.c * n.b,
           m.b * n.a + m.d * n.b,
           m.a * n.c + m.c * n.d,
           m.b * n.c + m.d * n.d,
           m.a * n.e + m.c * n.f + m.e,
           m.b * n.e + m.d * n.f + m.f)
  }

  function Translation(tx: real, ty: real): Affine
  {
    Affine(1.0, 0.0, 0.0, 1.0, tx, ty)
  }

  function Scaling(sx: real, sy: real): Affine
  {
    Affine(sx, 0.0, 0.0, sy, 0.0, 0.0)
  }

  function Det(m: Affine): real
  {
    m.a * m.d - m.b * m.c
  }

  /** The coefficients `inverse` computes; defined when the determinant is not 0. */
  function Inv(m: Affine): Affine
    requires Det(m) != 0.0
  {
    var r := 1.0 / Det(m);
    Affine(m.d * r, -m.b * r, -m.c * r, m.a * r,
           (m.c * m.f - m.d * m.e) * r, -(m.a * m.f - m.b * m.e) * r)
  }

  /** `_q`: two numbers closer than 1e-14. */
  predicate Close(x: real, y: real)
  {
    Abs(x - y) < Epsilon
  }

  /** `isInvertible`: the determinant is not within 1e-14 of zero. */
  predicate Invertible(m: Affine)
  {
    !Close(Det(m), 0.0)
  }

  /** `isEqual`: every coefficient is within 1e-14 of the other's. */
  predicate ApproxEqual(m: Affine, n: Affine)
  {
    Close(m.a, n.a) && Close(m.b, n.b) && Close(m.c, n.c) &&
    Close(m.d, n.d) && Close(m.e, n.e) && Close(m.f, n.f)
  }

  /** `isIdentity`: a and d are 1, the rest are 0. */
  predicate IsIdentityValue(m: Affine)
  {
    m.a == 1.0 && m.b == 0.0 && m.c == 0.0 && m.d == 1.0 && m.e == 0.0 && m.f == 0.0
  }

  /** Every coefficient divided by `k` (`divideScalar`). */
  function DivideAll(m: Affine, k: real): Affine
    requires k != 0.0
  {
    Affine(m.a / k, m.b / k, m.c / k, m.d / k, m.e / k, m.f / k)
  }

  /** The coefficient-wise linear interpolation from `m` to `n` at `t`. */
  function Lerp(m: Affine, n: Affine, t: real): Affine
  {
    Affine(m.a + (n.a - m.a) * t, m.b + (n.b - m.b) * t, m.c + (n.c - m.c) * t,
           m.d + (n.d - m.d) * t, m.e + (n.e - m.e) * t, m.f + (n.f - m.f) * t)
  }

  // ---------------------------------------------------------------------------
  // The algebra

  /** The product applies the right factor first: `(m·n)(p) = m(n(p))`. */
  lemma ComposeApply(m: Affine, n: Affine, p: Pt)
    ensures Apply(Compose(m, n), p) == Apply(m, Apply(n, p))
  {
    ApplyProductExpanded(m, n, p);
    ApplyTwiceExpanded(m, n, p);
    ProductRows(m, n, p);
  }

  /** `Apply(Compose(m, n), p)` written out. */
  lemma ApplyProductExpanded(m: Affine, n: Affine, p: Pt)
    ensures Apply(Compose(m, n), p).x
         == p.x * (m.a * n.a + m.c * n.b) + p.y * (m.a * n.c + m.c * n.d) + (m.a * n.e + m.c * n.f + m.e)
    ensures Apply(Compose(m, n), p).y
         == p.x * (m.b * n.a + m.d * n.b) + p.y * (m.b * n.c + m.d * n.d) + (m.b * n.e + m.d * n.f + m.f)
  {
  }

  /** `Apply(m, Apply(n, p))` written out. */
  lemma ApplyTwiceExpanded(m: Affine, n: Affine, p: Pt)
    ensures Apply(m, Apply(n, p)).x
         == (p.x * n.a + p.y * n.c + n.e) * m.a + (p.x * n.b + p.y * n.d + n.f) * m.c + m.e
    ensures Apply(m, Apply(n, p)).y
         == (p.x * n.a + p.y * n.c + n.e) * m.b + (p.x * n.b + p.y * n.d + n.f) * m.d + m.f
  {
  }

  /** The two written-out forms agree, one coordinate at a time. */
  lemma ProductRows(m: Affine, n: Affine, p: Pt)
    ensures p.x * (m.a * n.a + m.c * n.b) + p.y * (m.a * n.c + m.c * n.d) + (m.a * n.e + m.c * n.f + m.e)
         == (p.x * n.a + p.y * n.c + n.e) * m.a + (p.x * n.b + p.y * n.d + n.f) * m.c + m.e
    ensures p.x * (m.b * n.a + m.d * n.b) + p.y * (m.b * n.c + m.d * n.d) + (m.b * n.e + m.d * n.f + m.f)
         == (p.x * n.a + p.y * n.c + n.e) * m.b + (p.x * n.b + p.y * n.d + n.f) * m.d + m.f
  {
    RowOfProduct(m.a, m.c, m.e, n.a, n.b, n.c, n.d, n.e, n.f, p.x, p.y);
    RowOfProduct(m.b, m.d, m.f, n.a, n.b, n.c, n.d, n.e, n.f, p.x, p.y);
  }

  /** One output coordinate of `ComposeApply`, over plain numbers. */
  lemma RowOfProduct(a: real, c: real, e: real, na: real, nb: real, nc: real, nd: real, ne: real, nf: real,
                     x: real, y: real)
    ensures x * (a * na + c * nb) + y * (a * nc + c * nd) + (a * ne + c * nf + e)
         == (x * na + y * nc + ne) * a + (x * nb + y * nd + nf) * c + e
  {
  }

  /** The identity is neutral on both sides, and maps every point to itself. */
  lemma IdentityNeutral(m: Affine, p: Pt)
    ensures Compose(Identity, m) == m && Compose(m, Identity) == m
    ensures Apply(Identity, p) == p
    ensures IsIdentityValue(Identity)
  {
  }

  /** `isIdentity` holds exactly for the matrix that maps every point to itself. */
  lemma IsIdentityFixesEveryPoint(m: Affine)
    ensures IsIdentityValue(m) <==> m == Identity
    ensures IsIdentityValue(m) <==> forall p :: Apply(m, p) == p
  {
    if forall p :: Apply(m, p) == p {
      assert Apply(m, Pt(0.0, 0.0)) == Pt(0.0, 0.0);
      assert Apply(m, Pt(1.0, 0.0)) == Pt(1.0, 0.0);
      assert Apply(m, Pt(0.0, 1.0)) == Pt(0.0, 1.0);
    }
  }

  /**
   * `translate(tx, ty)` keeps a–d, and the new matrix maps p where the old one
   * maps p shifted by (tx, ty).
   */
  lemma TranslateMeaning(m: Affine, tx: real, ty: real, p: Pt)
    ensures var r := Compose(m, Translation(tx, ty));
      && r.a == m.a && r.b == m.b && r.c == m.c && r.d == m.d
      && Apply(r, p) == Apply(m, Pt(p.x + tx, p.y + ty))
  {
    ComposeApply(m, Translation(tx, ty), p);
    ApplyTranslation(tx, ty, p);
  }

  /** A translation moves every point by (tx, ty). */
  lemma ApplyTranslation(tx: real, ty: real, p: Pt)
    ensures Apply(Translation(tx, ty), p) == Pt(p.x + tx, p.y + ty)
  {
  }

  /** `scaleU(k)` multiplies a–d by k and keeps e and f. */
  lemma ScaleUMeaning(m: Affine, k: real)
    ensures Compose(m, Scaling(k, k)) == Affine(m.a * k, m.b * k, m.c * k, m.d * k, m.e, m.f)
  {
    var r := Compose(m, Scaling(k, k));
    assert r.a == m.a * k + m.c * 0.0 && r.c == m.a * 0.0 + m.c * k;
    assert r.b == m.b * k + m.d * 0.0 && r.d == m.b * 0.0 + m.d * k;
    assert r.e == m.a * 0.0 + m.c * 0.0 + m.e && r.f == m.b * 0.0 + m.d * 0.0 + m.f;
  }

  /** The determinant of a product is the product of the determinants. */
  lemma DetCompose(m: Affine, n: Affine)
    ensures Det(Compose(m, n)) == Det(m) * Det(n)
  {
  }

  /** The reciprocal of a non-zero k times k is 1. */
  lemma Reciprocal(k: real)
    requires k != 0.0
    ensures (1.0 / k) * k == 1.0 && k * (1.0 / k) == 1.0
  {
  }

  /**
   * The inverse's entries, written with the reciprocal r of the determinant,
   * make `Inv(m)·m` the identity.
   */
  lemma InverseLeftEntries(a: real, b: real, c: real, d: real, e: real, f: real,
                           ia: real, ib: real, ic: real, id: real, ie: real, jf: real, r: real)
    requires r * (a * d - b * c) == 1.0
    requires ia == d * r && ib == -b * r && ic == -c * r && id == a * r
    requires ie == (c * f - d * e) * r && jf == -(a * f - b * e) * r
    ensures Compose(Affine(ia, ib, ic, id, ie, jf), Affine(a, b, c, d, e, f)) == Identity
  {
    assert ia * a + ic * b == r * (a * d - b * c);
    assert ib * a + id * b == r * (a * b - b * a);
    assert ia * c + ic * d == r * (c * d - d * c);
    assert ib * c + id * d == r * (a * d - b * c);
    assert ia * e + ic * f + ie == r * (d * e - c * f + (c * f - d * e));
    assert ib * e + id * f + jf == r * (a * f - b * e - (a * f - b * e));
  }

  /** The same entries make `m·Inv(m)` the identity. */
  lemma InverseRightEntries(a: real, b: real, c: real, d: real, e: real, f: real,
                            ia: real, ib: real, ic: real, id: real, ie: real, jf: real, r: real)
    requires r * (a * d - b * c) == 1.0
    requires ia == d * r && ib == -b * r && ic == -c * r && id == a * r
    requires ie == (c * f - d * e) * r && jf == -(a * f - b * e) * r
    ensures Compose(Affine(a, b, c, d, e, f), Affine(ia, ib, ic, id, ie, jf)) == Identity
  {
    assert a * ia + c * ib == r * (a * d - b * c);
    assert b * ia + d * ib == r * (b * d - d * b);
    assert a * ic + c * id == r * (c * a - a * c);
    assert b * ic + d * id == r * (a * d - b * c);
    assert a * ie + c * jf == -e * (r * (a * d - b * c));
    assert b * ie + d * jf == -f * (r * (a * d - b * c));
  }

  /** `Inv(m)·m` is the identity. */
  lemma InverseLeft(m: Affine)
    requires Det(m) != 0.0
    ensures Compose(Inv(m), m) == Identity
  {
    var r := 1.0 / Det(m);
    Reciprocal(Det(m));
    InverseLeftEntries(m.a, m.b, m.c, m.d, m.e, m.f, m.d * r, -m.b * r, -m.c * r, m.a * r,
                       (m.c * m.f - m.d * m.e) * r, -(m.a * m.f - m.b * m.e) * r, r);
  }

  /** `m·Inv(m)` is the identity. */
  lemma InverseRight(m: Affine)
    requires Det(m) != 0.0
    ensures Compose(m, Inv(m)) == Identity
  {
    var r := 1.0 / Det(m);
    Reciprocal(Det(m));
    InverseRightEntries(m.a, m.b, m.c, m.d, m.e, m.f, m.d * r, -m.b * r, -m.c * r, m.a * r,
                        (m.c * m.f - m.d * m.e) * r, -(m.a * m.f - m.b * m.e) * r, r);
  }

  /** The inverse is a two-sided inverse for the product. */
  lemma InverseIsTwoSided(m: Affine)
    requires Det(m) != 0.0
    ensures Compose(Inv(m), m) == Identity && Compose(m, Inv(m)) == Identity
  {
    InverseLeft(m);
    InverseRight(m);
  }

  /** The inverse undoes the matrix, on both sides. */
  lemma InverseRoundTrip(m: Affine, p: Pt)
    requires Det(m) != 0.0
    ensures Apply(Inv(m), Apply(m, p)) == p
    ensures Apply(m, Apply(Inv(m), p)) == p
  {
    InverseIsTwoSided(m);
    ComposeApply(Inv(m), m, p);
    ComposeApply(m, Inv(m), p);
    IdentityNeutral(m, p);
  }

  /** Scaling the four entries by r scales the determinant by r². */
  lemma DetOfScaled(a: real, b: real, c: real, d: real, r: real)
    ensures (d * r) * (a * r) - (-b * r) * (-c * r) == r * (r * (a * d - b * c))
  {
  }

  /** The inverse of an invertible matrix is invertible, with the reciprocal determinant. */
  lemma InverseDet(m: Affine)
    requires Det(m) != 0.0
    ensures Det(Inv(m)) == 1.0 / Det(m)
  {
    var dt := Det(m);
    var r := 1.0 / dt;
    Reciprocal(dt);
    DetOfScaled(m.a, m.b, m.c, m.d, r);
    assert Det(Inv(m)) == r * (r * dt);
    assert r * dt == 1.0;
  }

  /**
   * `isInvertible` is stricter than what `inverse` needs: every matrix it
   * accepts has a non-zero determinant, but a matrix with determinant 1e-16
   * can be inverted although `isInvertible` rejects it.
   */
  lemma InvertibleIsStricter()
    ensures forall m :: Invertible(m) ==> Det(m) != 0.0
    ensures var m := Affine(0.00000001, 0.0, 0.0, 0.00000001, 0.0, 0.0);
      Det(m) != 0.0 && !Invertible(m)
  {
  }

  /** `isEqual` is reflexive and symmetric. */
  lemma ApproxEqualReflexiveSymmetric(m: Affine, n: Affine)
    ensures ApproxEqual(m, m)
    ensures ApproxEqual(m, n) <==> ApproxEqual(n, m)
  {
  }

  /** Dividing every coefficient by k is undone by multiplying each by k. */
  lemma DivideAllUndone(m: Affine, k: real)
    requires k != 0.0
    ensures var r := DivideAll(m, k);
      Affine(r.a * k, r.b * k, r.c * k, r.d * k, r.e * k, r.f * k) == m
  {
  }

  /** Interpolation starts at the receiver and ends at the argument. */
  lemma LerpEnds(m: Affine, n: Affine)
    ensures Lerp(m, n, 0.0) == m && Lerp(m, n, 1.0) == n
  {
  }

  // ---------------------------------------------------------------------------
  // The mutable matrix

  /**
   * A matrix object. Every mutator overwrites the fields in place (and in the
   * source returns `this` for chaining); `Value()` is the abstract matrix.
   */
  class Matrix {
    var a: real
    var b: real
    var c: real
    var d: real
    var e: real
    var f: real

    function Value(): Affine
      reads this
    {
      Affine(a, b, c, d, e, f)
    }

    /** A new matrix is the identity. */
    constructor ()
      ensures Value() == Identity
    {
      a, b, c, d, e, f := 1.0, 0.0, 0.0, 1.0, 0.0, 0.0;
    }

    /** `Matrix.from`: a new matrix holding exactly the six values. */
    static method From(a: real, b: real, c: real, d: real, e: real, f: real) returns (m: Matrix)
      ensures fresh(m) && m.Value() == Affine(a, b, c, d, e, f)
    {
      m := new Matrix();
      m.SetTransform(a, b, c, d, e, f);
    }

    /** `setTransform`: stores exactly the six given values. */
    method SetTransform(a': real, b': real, c': real, d': real, e': real, f': real)
      modifies this
      ensures Value() == Affine(a', b', c', d', e', f')
    {
      a, b, c, d, e, f := a', b', c', d', e', f';
    }

    /** `reset`: back to the identity. */
    method Reset()
      modifies this
      ensures Value() == Identity && IsIdentity()
    {
      SetTransform(1.0, 0.0, 0.0, 1.0, 0.0, 0.0);
    }

    /**
     * `transform(a2..f2)`: right-multiplies by the given matrix, so afterwards
     * p maps to where the old matrix maps the given matrix's image of p.
     */
    method Transform(a2: real, b2: real, c2: real, d2: real, e2: real, f2: real)
      modifies this
      ensures Value() == Compose(old(Value()), Affine(a2, b2, c2, d2, e2, f2))
    {
      var v := Compose(Value(), Affine(a2, b2, c2, d2, e2, f2));
      a, b, c, d, e, f := v.a, v.b, v.c, v.d, v.e, v.f;
    }

    /**
     * `multiply(m)`: right-multiplies by `m`'s values as they were on entry,
     * which is also right when `m` is this very matrix.
     */
    method Multiply(m: Matrix)
      modifies this
      ensures Value() == Compose(old(Value()), old(m.Value()))
    {
      Transform(m.a, m.b, m.c, m.d, m.e, m.f);
    }

    /** `translate(tx, ty)`: right-multiplies by a translation. */
    method Translate(tx: real, ty: real)
      modifies this
      ensures Value() == Compose(old(Value()), Translation(tx, ty))
    {
      Transform(1.0, 0.0, 0.0, 1.0, tx, ty);
    }

    /** `scaleU(k)`: a–d multiplied by k, e and f kept. */
    method ScaleU(k: real)
      modifies this
      ensures Value() == Compose(old(Value()), Scaling(k, k))
    {
      Transform(k, 0.0, 0.0, k, 0.0, 0.0);
    }

    /** `scale(sx, sy)`: right-multiplies by an axis scaling. */
    method Scale(sx: real, sy: real)
      modifies this
      ensures Value() == Compose(old(Value()), Scaling(sx, sy))
    {
      Transform(sx, 0.0, 0.0, sy, 0.0, 0.0);
    }

    /** `applyToPoint`. */
    function ApplyToPoint(p: Pt): Pt
      reads this
    {
      Apply(Value(), p)
    }

    /**
     * `applyToArray`: maps each consecutive (x, y) pair through the matrix;
     * an even-length input gives an output of the same length.
     */
    method ApplyToArray(points: seq<real>) returns (out: seq<real>)
      requires |points| % 2 == 0
      ensures |out| == |points|
      ensures forall k :: 0 <= k < |points| / 2 ==>
        Pt(out[2 * k], out[2 * k + 1]) == Apply(Value(), Pt(points[2 * k], points[2 * k + 1]))
    {
      out := [];
      var i := 0;
      while i < |points|
        invariant 0 <= i <= |points| && i % 2 == 0
        invariant |out| == i
        invariant forall k :: 0 <= k < i / 2 ==>
          Pt(out[2 * k], out[2 * k + 1]) == Apply(Value(), Pt(points[2 * k], points[2 * k + 1]))
      {
        var p := ApplyToPoint(Pt(points[i], points[i + 1]));
        out := out + [p.x, p.y];
        i := i + 2;
      }
    }

    /** `determinant`. */
    function Determinant(): real
      reads this
    {
      Det(Value())
    }

    /**
     * `inverse`: `null` (the source throws) when the determinant is exactly 0;
     * otherwise a new matrix that undoes this one. The receiver is unchanged.
     */
    method Inverse() returns (m: Matrix?)
      ensures m == null <==> Determinant() == 0.0
      ensures m != null ==> fresh(m) && Det(Value()) != 0.0 && m.Value() == Inv(Value())
      ensures m != null ==> forall p :: m.ApplyToPoint(ApplyToPoint(p)) == p
    {
      var dt := Determinant();
      if dt == 0.0 {
        return null;
      }
      m := new Matrix();
      var r := 1.0 / dt;
      m.SetTransform(d * r, -b * r, -c * r, a * r, (c * f - d * e) * r, -(a * f - b * e) * r);
      assert m.Value() == Inv(Value());
      forall p ensures m.ApplyToPoint(ApplyToPoint(p)) == p {
        InverseRoundTrip(Value(), p);
      }
    }

    /** `clone`: a distinct matrix with the same values; the receiver is unchanged. */
    method Clone() returns (m: Matrix)
      ensures fresh(m) && m.Value() == Value()
    {
      m := new Matrix();
      m.Multiply(this);
      IdentityNeutral(Value(), Pt(0.0, 0.0));
    }

    /** `concat(cm)`: a new matrix holding the product; the receiver is unchanged. */
    method Concat(cm: Matrix) returns (m: Matrix)
      ensures fresh(m) && m.Value() == Compose(Value(), cm.Value())
    {
      m := Clone();
      m.Multiply(cm);
    }

    /**
     * `divideScalar(k)`: fails (the source throws) and changes nothing when k
     * is 0; otherwise divides all six fields by k.
     */
    method DivideScalar(k: real) returns (ok: bool)
      modifies this
      ensures ok <==> k != 0.0
      ensures !ok ==> Value() == old(Value())
      ensures ok ==> Value() == DivideAll(old(Value()), k)
    {
      if k == 0.0 {
        return false;
      }
      a, b, c, d, e, f := a / k, b / k, c / k, d / k, e / k, f / k;
      ok := true;
    }

    /** `interpolate`: a new matrix between this one and `m2` at `t`. */
    method Interpolate(m2: Matrix, t: real) returns (m: Matrix)
      ensures fresh(m) && m.Value() == Lerp(Value(), m2.Value(), t)
    {
      m := new Matrix();
      m.SetTransform(a + (m2.a - a) * t, b + (m2.b - b) * t, c + (m2.c - c) * t,
                     d + (m2.d - d) * t, e + (m2.e - e) * t, f + (m2.f - f) * t);

    }

    /** `isIdentity`. */
    predicate IsIdentity()
      reads this
    {
      IsIdentityValue(Value())
    }

    /** `isInvertible`. */
    predicate IsInvertible()
      reads this
    {
      Invertible(Value())
    }

    /** `isEqual`. */
    predicate IsEqual(m: Matrix)
      reads this, m
    {
      ApproxEqual(Value(), m.Value())
    }
  }
}
