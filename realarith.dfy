/** Facts about real arithmetic used by the derivative proofs, each stated on
    plain numbers so that the proofs about trees need only substitute. */
module RealArith {

  function Abs(a: real): (r: real)
    ensures r >= 0.0
  {
    if a < 0.0 then -a else a
  }

  function Min(a: real, b: real): (r: real)
    ensures r <= a && r <= b && (r == a || r == b)
  {
    if a < b then a else b
  }

  // ------------------------------------------------ first-order expansions

  /** `f` is `v + h * d + h * h * r`: a value `f` at a step `h` from a point
      where the value is `v`, the slope `d` and the second-order part `r`. */
  predicate Expands(f: real, v: real, d: real, r: real, h: real) {
    f == v + h * d + h * h * r
  }

  /** The slope `d` corrected by the second-order part `r` over a step `h`:
      `Expands(f, v, d, r, h)` says `f == v + h * Shift(d, r, h)`. */
  function Shift(d: real, r: real, h: real): real {
    d + h * r
  }

  /** The slope of a product of two factors with values `va`, `vb` and slopes
      `da`, `db`: `da * vb + va * db`. */
  function ProductSlope(va: real, da: real, vb: real, db: real): real {
    da * vb + va * db
  }

  /** The second-order coefficient of the product of two first-order
      expansions `va + h * da + h * h * ra` and `vb + h * db + h * h * rb`. */
  function ProductRem(va: real, da: real, ra: real, vb: real, db: real, rb: real, h: real): real {
    va * rb + ra * vb + Shift(da, ra, h) * Shift(db, rb, h)
  }

  lemma Factored(f: real, v: real, d: real, r: real, h: real)
    requires Expands(f, v, d, r, h)
    ensures f == v + h * Shift(d, r, h)
  {
  }

  /** The first-order expansion of a sum, from those of its terms. */
  lemma SumExpansion(fa: real, va: real, da: real, ra: real, fb: real, vb: real, db: real, rb: real, h: real)
    requires Expands(fa, va, da, ra, h) && Expands(fb, vb, db, rb, h)
    ensures Expands(fa + fb, va + vb, da + db, ra + rb, h)
  {
  }

  /** The first-order expansion of a product, from those of its factors: the
      slope is `ProductSlope` and the second-order part `ProductRem`. */
  lemma ProductExpansion(fa: real, va: real, da: real, ra: real, fb: real, vb: real, db: real, rb: real, h: real)
    requires Expands(fa, va, da, ra, h) && Expands(fb, vb, db, rb, h)
    ensures Expands(fb * fa, vb * va, ProductSlope(va, da, vb, db), ProductRem(va, da, ra, vb, db, rb, h), h)
  {
    Factored(fa, va, da, ra, h);
    Factored(fb, vb, db, rb, h);
    ShiftedProduct(fa, va, da, ra, fb, vb, db, rb, h);
  }

  lemma ShiftedProduct(fa: real, va: real, da: real, ra: real, fb: real, vb: real, db: real, rb: real, h: real)
    requires fa == va + h * Shift(da, ra, h) && fb == vb + h * Shift(db, rb, h)
    ensures fb * fa == vb * va + h * ProductSlope(va, da, vb, db) + h * h * ProductRem(va, da, ra, vb, db, rb, h)
  {
    var sa, sb := Shift(da, ra, h), Shift(db, rb, h);
    assert fb * fa == vb * va + h * (sb * va + vb * sa) + h * h * (sb * sa);
    assert sb * va + vb * sa == ProductSlope(va, da, vb, db) + h * (va * rb + ra * vb);
  }

  // ---------------------------------------------------------------- bounds

  lemma Triangle(a: real, b: real)
    ensures Abs(a + b) <= Abs(a) + Abs(b)
  {
  }

  lemma TriangleBound(p: real, q: real, bp: real, bq: real)
    requires Abs(p) <= bp && Abs(q) <= bq
    ensures Abs(p + q) <= bp + bq
  {
  }

  lemma AbsMul(a: real, b: real)
    ensures Abs(a * b) == Abs(a) * Abs(b)
  {
    if a < 0.0 {
      if b < 0.0 { assert a * b == (-a) * (-b); } else { assert -(a * b) == (-a) * b; }
    } else if b < 0.0 {
      assert -(a * b) == a * (-b);
    }
  }

  lemma MulMono(a: real, b: real, c: real, d: real)
    requires 0.0 <= a <= b && 0.0 <= c <= d
    ensures a * c <= b * d
  {
    assert a * c <= a * d;
    assert a * d <= b * d;
  }

  /** |p * q| <= bp * bq whenever |p| <= bp and |q| <= bq. */
  lemma AbsMulBound(p: real, q: real, bp: real, bq: real)
    requires Abs(p) <= bp && Abs(q) <= bq
    ensures Abs(p * q) <= bp * bq
  {
    AbsMul(p, q);
    MulMono(Abs(p), bp, Abs(q), bq);
  }

  /** The bound `|d| + m` on `|Shift(d, r, h)|` for `|h| <= 1` and `|r| <= m`. */
  function Reach(d: real, m: real): real {
    Abs(d) + m
  }

  lemma ShiftBound(d: real, r: real, m: real, h: real)
    requires Abs(h) <= 1.0 && Abs(r) <= m
    ensures Abs(Shift(d, r, h)) <= Reach(d, m)
  {
    AbsMulBound(h, r, 1.0, m);
    TriangleBound(d, h * r, Abs(d), m);
  }

  /** A bound on `ProductRem` for `|h| <= 1`, given bounds `ma`, `mb` on the
      factors' own second-order coefficients. */
  function ProductBound(va: real, da: real, ma: real, vb: real, db: real, mb: real): real {
    Abs(va) * mb + ma * Abs(vb) + Reach(da, ma) * Reach(db, mb)
  }

  lemma ProductBoundNonNegative(va: real, da: real, ma: real, vb: real, db: real, mb: real)
    requires ma >= 0.0 && mb >= 0.0
    ensures ProductBound(va, da, ma, vb, db, mb) >= 0.0
  {
    MulMono(0.0, Abs(va), 0.0, mb);
    MulMono(0.0, ma, 0.0, Abs(vb));
    MulMono(0.0, Reach(da, ma), 0.0, Reach(db, mb));
  }

  lemma CrossBound(va: real, ra: real, ma: real, vb: real, rb: real, mb: real)
    requires Abs(ra) <= ma && Abs(rb) <= mb
    ensures Abs(va * rb + ra * vb) <= Abs(va) * mb + ma * Abs(vb)
  {
    AbsMulBound(va, rb, Abs(va), mb);
    AbsMulBound(ra, vb, ma, Abs(vb));
    TriangleBound(va * rb, ra * vb, Abs(va) * mb, ma * Abs(vb));
  }

  lemma ShiftedProductBound(da: real, ra: real, ma: real, db: real, rb: real, mb: real, h: real)
    requires Abs(Shift(da, ra, h)) <= Reach(da, ma) && Abs(Shift(db, rb, h)) <= Reach(db, mb)
    ensures Abs(Shift(da, ra, h) * Shift(db, rb, h)) <= Reach(da, ma) * Reach(db, mb)
  {
    ReachProductBound(Shift(da, ra, h), Shift(db, rb, h), da, ma, db, mb);
  }

  lemma ReachProductBound(sa: real, sb: real, da: real, ma: real, db: real, mb: real)
    requires Abs(sa) <= Reach(da, ma) && Abs(sb) <= Reach(db, mb)
    ensures Abs(sa * sb) <= Reach(da, ma) * Reach(db, mb)
  {
    AbsMulBound(sa, sb, Reach(da, ma), Reach(db, mb));
  }

  /** `ProductBound` bounds `ProductRem` for every step `|h| <= 1`. */
  lemma ProductRemBounded(va: real, da: real, ra: real, ma: real,
                          vb: real, db: real, rb: real, mb: real, h: real)
    requires Abs(ra) <= ma && Abs(rb) <= mb && Abs(h) <= 1.0
    ensures ProductBound(va, da, ma, vb, db, mb) >= 0.0
    ensures Abs(ProductRem(va, da, ra, vb, db, rb, h)) <= ProductBound(va, da, ma, vb, db, mb)
  {
    CrossBound(va, ra, ma, vb, rb, mb);
    ShiftBound(da, ra, ma, h);
    ShiftBound(db, rb, mb, h);
    ShiftedProductBound(da, ra, ma, db, rb, mb, h);
    TriangleBound(va * rb + ra * vb, Shift(da, ra, h) * Shift(db, rb, h),
                  Abs(va) * mb + ma * Abs(vb), Reach(da, ma) * Reach(db, mb));
    ProductBoundNonNegative(va, da, ma, vb, db, mb);
  }

  // ------------------------------------------------------ difference quotients

  /** The difference quotient of a function with values `f0` and `f1` at two
      points a step `h` apart. */
  function DiffQuotient(f1: real, f0: real, h: real): real
    requires h != 0.0
  {
    (f1 - f0) / h
  }

  lemma QuotientOfStep(f1: real, f0: real, s: real, h: real)
    requires f1 == f0 + h * s && h != 0.0
    ensures DiffQuotient(f1, f0, h) == s
  {
    assert f1 - f0 == h * s;
  }

  /** `|h| * m`, the distance a step `h` allows between a difference
      quotient and a slope when the second-order part is within `m`. */
  function StepBound(h: real, m: real): real {
    Abs(h) * m
  }

  /** From `Expands(f1, f0, d, r, h)` with `|r| <= m`: the difference quotient
      is within `StepBound(h, m)` of the slope `d`. */
  lemma QuotientStep(f1: real, f0: real, d: real, r: real, h: real, m: real)
    requires Expands(f1, f0, d, r, h) && h != 0.0 && Abs(r) <= m
    ensures Abs(DiffQuotient(f1, f0, h) - d) <= StepBound(h, m)
  {
    Factored(f1, f0, d, r, h);
    QuotientOfStep(f1, f0, Shift(d, r, h), h);
    AbsMulBound(h, r, Abs(h), m);
  }

  /** A gap of at most `StepBound(h, m)` is below `eps` once `|h| < eps / (m + 1)`. */
  lemma LimitStep(gap: real, h: real, m: real, eps: real)
    requires gap <= StepBound(h, m) && m >= 0.0 && eps > 0.0 && Abs(h) < eps / (m + 1.0)
    ensures gap < eps
  {
    MulMono(Abs(h), Abs(h), m, m + 1.0);
    assert Abs(h) * (m + 1.0) < (eps / (m + 1.0)) * (m + 1.0);
  }
}
