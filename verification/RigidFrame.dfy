/** The 4x4 rigid-frame check: what its tolerances promise about the rotation part, over the reals. */
module RigidFrame {

  datatype Vec = Vec(x: real, y: real, z: real)

  /** A 3x3 matrix by its columns. */
  datatype Mat3 = Mat3(c0: Vec, c1: Vec, c2: Vec) {
    function Col(i: int): Vec {
      if i == 0 then c0 else if i == 1 then c1 else c2
    }
  }

  datatype Entry = Finite(value: real) | NonFinite

  datatype Verdict =
    | Accepted
    | NotFourByFour
    | NotFinite(row: nat, column: nat)
    | BadBottomRow
    | NotOrthonormal(row: nat, column: nat)
    | Reflection
    | Scaled

  const DEFAULT_EPS := 0.0001

  function Abs(a: real): real { if a < 0.0 then -a else a }

  function Dot(u: Vec, v: Vec): real { u.x * v.x + u.y * v.y + u.z * v.z }

  function Cross(u: Vec, v: Vec): Vec {
    Vec(u.y * v.z - u.z * v.y, u.z * v.x - u.x * v.z, u.x * v.y - u.y * v.x)
  }

  function NormSq(v: Vec): real { Dot(v, v) }

  function Apply(r: Mat3, v: Vec): Vec {
    Vec(r.c0.x * v.x + r.c1.x * v.y + r.c2.x * v.z,
        r.c0.y * v.x + r.c1.y * v.y + r.c2.y * v.z,
        r.c0.z * v.x + r.c1.z * v.y + r.c2.z * v.z)
  }

  /** The determinant, expanded along the first row as the code does. */
  function Det(r: Mat3): real {
    r.c0.x * (r.c1.y * r.c2.z - r.c2.y * r.c1.z)
    - r.c1.x * (r.c0.y * r.c2.z - r.c2.y * r.c0.z)
    + r.c2.x * (r.c0.y * r.c1.z - r.c1.y * r.c0.z)
  }

  // ---------------------------------------------------------------- the check

  function GramError(r: Mat3, i: int, j: int): real {
    Dot(r.Col(i), r.Col(j)) - if i == j then 1.0 else 0.0
  }

  function CellError(r: Mat3, c: nat): real { GramError(r, c / 3, c % 3) }

  /** The first cell of R^T*R, in row order from cell `k` on, that is off by more than `eps`. */
  function FirstBadCell(r: Mat3, eps: real, k: nat): (bad: nat)
    requires k <= 9
    ensures k <= bad <= 9
    ensures forall c :: k <= c < bad ==> Abs(CellError(r, c)) <= eps
    ensures bad < 9 ==> Abs(CellError(r, bad)) > eps
    decreases 9 - k
  {
    if k == 9 then 9
    else if Abs(CellError(r, k)) > eps then k
    else FirstBadCell(r, eps, k + 1)
  }

  /** The cells of a 4x4 matrix in reading order. */
  function Cell(m: seq<seq<Entry>>, c: nat): Entry
    requires |m| == 4 && (forall i :: 0 <= i < 4 ==> |m[i]| == 4) && c < 16
  {
    m[c / 4][c % 4]
  }

  function FirstNonFinite(m: seq<seq<Entry>>, k: nat): (bad: nat)
    requires |m| == 4 && (forall i :: 0 <= i < 4 ==> |m[i]| == 4) && k <= 16
    ensures k <= bad <= 16
    ensures forall c :: k <= c < bad ==> Cell(m, c).Finite?
    ensures bad < 16 ==> Cell(m, bad).NonFinite?
    decreases 16 - k
  {
    if k == 16 then 16
    else if Cell(m, k).NonFinite? then k
    else FirstNonFinite(m, k + 1)
  }

  lemma AllFinite(m: seq<seq<Entry>>)
    requires |m| == 4 && (forall i :: 0 <= i < 4 ==> |m[i]| == 4) && FirstNonFinite(m, 0) == 16
    ensures forall i, j :: 0 <= i < 4 && 0 <= j < 4 ==> m[i][j].Finite?
  {
    forall i, j | 0 <= i < 4 && 0 <= j < 4 ensures m[i][j].Finite? {
      var c := 4 * i + j;
      assert c / 4 == i && c % 4 == j && 0 <= c < 16;
      assert Cell(m, c).Finite? && Cell(m, c) == m[i][j];
    }
  }

  function Rotation(m: seq<seq<Entry>>): Mat3
    requires |m| == 4 && (forall i :: 0 <= i < 4 ==> |m[i]| == 4) && FirstNonFinite(m, 0) == 16
  {
    AllFinite(m);
    Mat3(Vec(m[0][0].value, m[1][0].value, m[2][0].value),
         Vec(m[0][1].value, m[1][1].value, m[2][1].value),
         Vec(m[0][2].value, m[1][2].value, m[2][2].value))
  }

  function CheckRotation(r: Mat3, eps: real): Verdict {
    var bad := FirstBadCell(r, eps, 0);
    if bad < 9 then NotOrthonormal(bad / 3, bad % 3)
    else if Abs(Det(r) - 1.0) > eps then
      if Abs(Det(r) + 1.0) <= eps then Reflection else Scaled
    else Accepted
  }

  /** `validate_rigid_frame_4x4`. */
  function Validate(m: seq<seq<Entry>>, eps: real): Verdict {
    if |m| != 4 || exists i :: 0 <= i < |m| && |m[i]| != 4 then NotFourByFour
    else
      var bad := FirstNonFinite(m, 0);
      if bad < 16 then NotFinite(bad / 4, bad % 4)
      else
        AllFinite(m);
        if Abs(m[3][0].value) > eps || Abs(m[3][1].value) > eps || Abs(m[3][2].value) > eps ||
           Abs(m[3][3].value - 1.0) > eps
        then BadBottomRow
        else CheckRotation(Rotation(m), eps)
  }

  /** The loop over R^T*R lets the matrix through. */
  ghost predicate Orthonormal(r: Mat3, eps: real) {
    forall i, j :: 0 <= i < 3 && 0 <= j < 3 ==> Abs(GramError(r, i, j)) <= eps
  }

  lemma PassingTheLoop(r: Mat3, eps: real)
    ensures FirstBadCell(r, eps, 0) == 9 <==> Orthonormal(r, eps)
  {
    var bad := FirstBadCell(r, eps, 0);
    if bad == 9 {
      forall i, j | 0 <= i < 3 && 0 <= j < 3 ensures Abs(GramError(r, i, j)) <= eps {
        var c := 3 * i + j;
        assert c / 3 == i && c % 3 == j && 0 <= c < 9;
      assert Abs(CellError(r, c)) <= eps;
      }
    } else {
      assert 0 <= bad / 3 < 3 && 0 <= bad % 3 < 3;
    }
  }

  // ---------------------------------------------------------------- lengths

  lemma SquareIsNotNegative(a: real)
    ensures a * a >= 0.0
  {
  }

  lemma AbsOfProduct(p: real, e: real)
    ensures Abs(p * e) == Abs(p) * Abs(e)
  {
  }

  lemma BoundedProduct(p: real, q: real, e: real, eps: real)
    requires Abs(p) <= q && Abs(e) <= eps
    ensures Abs(p * e) <= q * eps
  {
    AbsOfProduct(p, e);
    assert Abs(p) * Abs(e) <= q * Abs(e) <= q * eps;
  }

  /** A product with a small factor is small. */
  lemma ScaledProduct(x: real, y: real, e: real, eps: real)
    requires Abs(e) <= eps
    ensures Abs(x * y * e) <= (x * x * eps + y * y * eps) / 2.0
  {
    var p, q := x * y, (x * x + y * y) / 2.0;
    SquareIsNotNegative(x - y);
    SquareIsNotNegative(x + y);
    assert q - p == (x - y) * (x - y) / 2.0;
    assert q + p == (x + y) * (x + y) / 2.0;
    BoundedProduct(p, q, e, eps);
    assert q * eps == (x * x * eps + y * y * eps) / 2.0;
  }

  lemma SumOfErrors(a: real, b: real, c: real, d: real, e: real, f: real, x: real, y: real, z: real)
    requires Abs(a) <= (x + x) / 2.0 && Abs(b) <= (y + y) / 2.0 && Abs(c) <= (z + z) / 2.0
    requires Abs(d) <= (x + y) / 2.0 && Abs(e) <= (x + z) / 2.0 && Abs(f) <= (y + z) / 2.0
    ensures -3.0 * (x + y + z) <= a + b + c + 2.0 * d + 2.0 * e + 2.0 * f <= 3.0 * (x + y + z)
  {
  }

  predicate AllWithin(eps: real, e00: real, e11: real, e22: real, e01: real, e02: real, e12: real) {
    Abs(e00) <= eps && Abs(e11) <= eps && Abs(e22) <= eps && Abs(e01) <= eps && Abs(e02) <= eps && Abs(e12) <= eps
  }

  /** The quadratic form of a symmetric matrix with small entries. */
  lemma FormBound(
      x: real, y: real, z: real, e00: real, e11: real, e22: real, e01: real, e02: real, e12: real, eps: real,
      form: real)
    returns (bound: real)
    requires AllWithin(eps, e00, e11, e22, e01, e02, e12)
    requires form ==
      x * x * e00 + y * y * e11 + z * z * e22 + 2.0 * (x * y * e01) + 2.0 * (x * z * e02) + 2.0 * (y * z * e12)
    ensures bound == x * x * eps + y * y * eps + z * z * eps
    ensures Abs(form) <= 3.0 * bound
  {
    bound := x * x * eps + y * y * eps + z * z * eps;
    ScaledProduct(x, x, e00, eps);
    ScaledProduct(y, y, e11, eps);
    ScaledProduct(z, z, e22, eps);
    ScaledProduct(x, y, e01, eps);
    ScaledProduct(x, z, e02, eps);
    ScaledProduct(y, z, e12, eps);
    SumOfErrors(x * x * e00, y * y * e11, z * z * e22, x * y * e01, x * z * e02, y * z * e12, x * x * eps, y * y * eps,
      z * z * eps);
  }

  /** How far the squared length of the image is off: the quadratic form of R^T*R - I at (x, y, z). */
  lemma ChangeOfLength(r: Mat3, x: real, y: real, z: real)
    returns (form: real, e00: real, e11: real, e22: real, e01: real, e02: real, e12: real)
    ensures NormSq(Apply(r, Vec(x, y, z))) == NormSq(Vec(x, y, z)) + form
    ensures form ==
      x * x * e00 + y * y * e11 + z * z * e22 + 2.0 * (x * y * e01) + 2.0 * (x * z * e02) + 2.0 * (y * z * e12)
    ensures e00 == Dot(r.c0, r.c0) - 1.0 && e11 == Dot(r.c1, r.c1) - 1.0 && e22 == Dot(r.c2, r.c2) - 1.0
    ensures e01 == Dot(r.c0, r.c1) && e02 == Dot(r.c0, r.c2) && e12 == Dot(r.c1, r.c2)
  {
    e00, e11, e22 := Dot(r.c0, r.c0) - 1.0, Dot(r.c1, r.c1) - 1.0, Dot(r.c2, r.c2) - 1.0;
    e01, e02, e12 := Dot(r.c0, r.c1), Dot(r.c0, r.c2), Dot(r.c1, r.c2);
    form := x * x * e00 + y * y * e11 + z * z * e22 + 2.0 * (x * y * e01) + 2.0 * (x * z * e02) + 2.0 * (y * z * e12);
  }

  lemma SmallChangeOfLength(r: Mat3, eps: real, x: real, y: real, z: real)
    returns (form: real, e00: real, e11: real, e22: real, e01: real, e02: real, e12: real)
    requires Orthonormal(r, eps)
    ensures NormSq(Apply(r, Vec(x, y, z))) == NormSq(Vec(x, y, z)) + form
    ensures form ==
      x * x * e00 + y * y * e11 + z * z * e22 + 2.0 * (x * y * e01) + 2.0 * (x * z * e02) + 2.0 * (y * z * e12)
    ensures AllWithin(eps, e00, e11, e22, e01, e02, e12)
  {
    ErrorsAreSmall(r, eps);
    form, e00, e11, e22, e01, e02, e12 := ChangeOfLength(r, x, y, z);
  }

  lemma BoundedChangeOfLength(r: Mat3, eps: real, x: real, y: real, z: real) returns (form: real, bound: real)
    requires Orthonormal(r, eps)
    ensures NormSq(Apply(r, Vec(x, y, z))) == NormSq(Vec(x, y, z)) + form
    ensures bound == x * x * eps + y * y * eps + z * z * eps && Abs(form) <= 3.0 * bound
  {
    var e00, e11, e22, e01, e02, e12;
    form, e00, e11, e22, e01, e02, e12 := SmallChangeOfLength(r, eps, x, y, z);
    bound := FormBound(x, y, z, e00, e11, e22, e01, e02, e12, eps, form);
  }

  lemma ScaleNorm(x: real, y: real, z: real, eps: real, bound: real)
    requires bound == x * x * eps + y * y * eps + z * z * eps
    ensures 3.0 * eps * NormSq(Vec(x, y, z)) == 3.0 * bound
  {
  }

  /** Once the loop has passed, the rotation part changes no squared length by more than 3*eps of itself. */
  lemma LengthsNearlyKept(r: Mat3, eps: real, v: Vec)
    requires Orthonormal(r, eps)
    ensures Abs(NormSq(Apply(r, v)) - NormSq(v)) <= 3.0 * eps * NormSq(v)
  {
    hide NormSq, Apply, Orthonormal;
    assert v == Vec(v.x, v.y, v.z);
    LengthNearlyKeptAt(r, eps, v.x, v.y, v.z);
  }

  lemma LengthNearlyKeptAt(r: Mat3, eps: real, x: real, y: real, z: real)
    requires Orthonormal(r, eps)
    ensures Abs(NormSq(Apply(r, Vec(x, y, z))) - NormSq(Vec(x, y, z))) <= 3.0 * eps * NormSq(Vec(x, y, z))
  {
    var form, bound := BoundedChangeOfLength(r, eps, x, y, z);
    ScaleNorm(x, y, z, eps, bound);
  }

  lemma ErrorsAreSmall(r: Mat3, eps: real)
    requires Orthonormal(r, eps)
    ensures Abs(Dot(r.c0, r.c0) - 1.0) <= eps && Abs(Dot(r.c1, r.c1) - 1.0) <= eps && Abs(Dot(r.c2, r.c2) - 1.0) <= eps
    ensures Abs(Dot(r.c0, r.c1)) <= eps && Abs(Dot(r.c0, r.c2)) <= eps && Abs(Dot(r.c1, r.c2)) <= eps
  {
    assert Abs(GramError(r, 0, 0)) <= eps && Abs(GramError(r, 1, 1)) <= eps && Abs(GramError(r, 2, 2)) <= eps;
    assert Abs(GramError(r, 0, 1)) <= eps && Abs(GramError(r, 0, 2)) <= eps && Abs(GramError(r, 1, 2)) <= eps;
  }

  // ---------------------------------------------------------------- the determinant

  lemma DetIsTripleProduct(r: Mat3)
    ensures Det(r) == Dot(r.c0, Cross(r.c1, r.c2))
  {
  }

  lemma Lagrange(u: Vec, v: Vec)
    ensures NormSq(Cross(u, v)) == NormSq(u) * NormSq(v) - Dot(u, v) * Dot(u, v)
  {
  }

  lemma DoubleCross(w: Vec, u: Vec, v: Vec)
    ensures Cross(w, Cross(u, v)) == Combine(u, Dot(w, v), v, Dot(w, u))
  {
    DoubleCrossAt(w.x, w.y, w.z, u.x, u.y, u.z, v.x, v.y, v.z, Dot(w, v), Dot(w, u));
    DoubleCrossAt(w.y, w.z, w.x, u.y, u.z, u.x, v.y, v.z, v.x, Dot(w, v), Dot(w, u));
    DoubleCrossAt(w.z, w.x, w.y, u.z, u.x, u.y, v.z, v.x, v.y, Dot(w, v), Dot(w, u));
  }

  lemma DoubleCrossAt(
      w0: real, w1: real, w2: real, u0: real, u1: real, u2: real, v0: real, v1: real, v2: real, wv: real, wu: real)
    requires wv == w0 * v0 + w1 * v1 + w2 * v2 && wu == w0 * u0 + w1 * u1 + w2 * u2
    ensures w1 * (u0 * v1 - u1 * v0) - w2 * (u2 * v0 - u0 * v2) == u0 * wv - v0 * wu
  {
  }

  function Combine(u: Vec, a: real, v: Vec, b: real): Vec {
    Vec(u.x * a - v.x * b, u.y * a - v.y * b, u.z * a - v.z * b)
  }

  lemma SquareOfDifference(p: real, a: real, q: real, b: real)
    ensures (p * a - q * b) * (p * a - q * b) == p * p * (a * a) + q * q * (b * b) - 2.0 * (p * q * (a * b))
  {
  }

  lemma Distribute(p: real, q: real, r: real, m: real)
    ensures (p + q + r) * m == p * m + q * m + r * m
  {
  }

  lemma CombinationNorm(u: Vec, v: Vec, a: real, b: real)
    ensures NormSq(Combine(u, a, v, b)) == NormSq(u) * (a * a) + NormSq(v) * (b * b) - 2.0 * (Dot(u, v) * (a * b))
  {
    SumOfSquares(u.x, u.y, u.z, v.x, v.y, v.z, a, b);
  }

  lemma SumOfSquares(u0: real, u1: real, u2: real, v0: real, v1: real, v2: real, a: real, b: real)
    ensures (u0 * a - v0 * b) * (u0 * a - v0 * b) + (u1 * a - v1 * b) * (u1 * a - v1 * b) +
      (u2 * a - v2 * b) * (u2 * a - v2 * b)
      == (u0 * u0 + u1 * u1 + u2 * u2) * (a * a) + (v0 * v0 + v1 * v1 + v2 * v2) * (b * b) -
      2.0 * ((u0 * v0 + u1 * v1 + u2 * v2) * (a * b))
  {
    SquareOfDifference(u0, a, v0, b);
    SquareOfDifference(u1, a, v1, b);
    SquareOfDifference(u2, a, v2, b);
    Distribute(u0 * u0, u1 * u1, u2 * u2, a * a);
    Distribute(v0 * v0, v1 * v1, v2 * v2, b * b);
    Distribute(u0 * v0, u1 * v1, u2 * v2, a * b);
  }

  /** The determinant of a symmetric 3x3 matrix by its diagonal `a`, `b`, `c` and its entries `d` (0,1), `e` (0,2), `f`
      (1,2). */
  function SymmetricDet(a: real, b: real, c: real, d: real, e: real, f: real): real {
    a * (b * c - f * f) - (b * (e * e) + c * (d * d) - 2.0 * (f * (e * d)))
  }

  lemma TripleProductSquared(w: Vec, u: Vec, v: Vec)
    ensures Dot(w, Cross(u, v)) * Dot(w, Cross(u, v)) ==
      SymmetricDet(NormSq(w), NormSq(u), NormSq(v), Dot(w, u), Dot(w, v), Dot(u, v))
  {
    var n := Cross(u, v);
    Lagrange(w, n);
    Lagrange(u, v);
    DoubleCross(w, u, v);
    CombinationNorm(u, v, Dot(w, v), Dot(w, u));
    Assemble(Dot(w, n), NormSq(w), NormSq(u), NormSq(v), Dot(w, u), Dot(w, v), Dot(u, v), NormSq(n),
      NormSq(Cross(w, n)));
  }

  lemma Assemble(t: real, a: real, b: real, c: real, d: real, e: real, f: real, n2: real, x2: real)
    requires x2 == a * n2 - t * t
    requires n2 == b * c - f * f
    requires x2 == b * (e * e) + c * (d * d) - 2.0 * (f * (e * d))
    ensures t * t == SymmetricDet(a, b, c, d, e, f)
  {
  }

  /** det(R)^2 is the determinant of R^T*R. */
  lemma DetSquaredIsGram(r: Mat3)
    ensures Det(r) * Det(r) ==
            SymmetricDet(NormSq(r.c0), NormSq(r.c1), NormSq(r.c2), Dot(r.c0, r.c1), Dot(r.c0, r.c2), Dot(r.c1, r.c2))
  {
    DetIsTripleProduct(r);
    TripleProductSquared(r.c0, r.c1, r.c2);
  }

  lemma GramExpands(p: real, q: real, r: real, d: real, e: real, f: real)
    ensures SymmetricDet(1.0 + p, 1.0 + q, 1.0 + r, d, e, f) - 1.0
            == (p + q + r) + (p * q + p * r + q * r - d * d - e * e - f * f)
               + (p * q * r - p * (f * f) - q * (e * e) - r * (d * d) + 2.0 * (f * (e * d)))
  {
  }

  lemma TwoSmall(a: real, b: real, eps: real)
    requires Abs(a) <= eps && Abs(b) <= eps
    ensures Abs(a * b) <= eps * eps
  {
    BoundedProduct(a, eps, b, eps);
  }

  lemma ThreeSmall(a: real, b: real, c: real, eps: real)
    requires Abs(a) <= eps && Abs(b) <= eps && Abs(c) <= eps
    ensures Abs(a * (b * c)) <= eps * eps * eps
  {
    TwoSmall(b, c, eps);
    BoundedProduct(b * c, eps * eps, a, eps);
  }

  lemma SecondOrder(p: real, q: real, r: real, d: real, e: real, f: real, eps: real)
    requires Abs(p) <= eps && Abs(q) <= eps && Abs(r) <= eps && Abs(d) <= eps && Abs(e) <= eps && Abs(f) <= eps
    ensures Abs(p * q + p * r + q * r - d * d - e * e - f * f) <= 6.0 * (eps * eps)
  {
    TwoSmall(p, q, eps);
    TwoSmall(p, r, eps);
    TwoSmall(q, r, eps);
    TwoSmall(d, d, eps);
    TwoSmall(e, e, eps);
    TwoSmall(f, f, eps);
    SumOfSix(p * q, p * r, q * r, d * d, e * e, f * f, eps * eps);
  }

  lemma SumOfSix(a: real, b: real, c: real, d: real, e: real, f: real, bound: real)
    requires Abs(a) <= bound && Abs(b) <= bound && Abs(c) <= bound && Abs(d) <= bound && Abs(e) <= bound
    requires Abs(f) <= bound
    ensures Abs(a + b + c - d - e - f) <= 6.0 * bound
    ensures Abs(a - b - c - d + 2.0 * e) <= 6.0 * bound
  {
  }

  lemma ThirdOrder(p: real, q: real, r: real, d: real, e: real, f: real, eps: real)
    requires Abs(p) <= eps && Abs(q) <= eps && Abs(r) <= eps && Abs(d) <= eps && Abs(e) <= eps && Abs(f) <= eps
    ensures Abs(p * q * r - p * (f * f) - q * (e * e) - r * (d * d) + 2.0 * (f * (e * d))) <= 6.0 * (eps * eps * eps)
  {
    ThreeSmall(r, p, q, eps);
    ThreeSmall(p, f, f, eps);
    ThreeSmall(q, e, e, eps);
    ThreeSmall(r, d, d, eps);
    ThreeSmall(f, e, d, eps);
    assert r * (p * q) == p * q * r;
    SumOfSix(p * q * r, p * (f * f), q * (e * e), r * (d * d), f * (e * d), f * (e * d), eps * eps * eps);
  }

  /** Once the loop has passed, det(R)^2 is within 3*eps + 6*eps^2 + 6*eps^3 of 1. */
  lemma DetSquaredNearOne(r: Mat3, eps: real)
    requires Orthonormal(r, eps)
    ensures Abs(Det(r) * Det(r) - 1.0) <= 3.0 * eps + 6.0 * (eps * eps) + 6.0 * (eps * eps * eps)
  {
    var p, q, s := Dot(r.c0, r.c0) - 1.0, Dot(r.c1, r.c1) - 1.0, Dot(r.c2, r.c2) - 1.0;
    var d, e, f := Dot(r.c0, r.c1), Dot(r.c0, r.c2), Dot(r.c1, r.c2);
    DetSquaredIsGram(r);
    ErrorsAreSmall(r, eps);
    SymmetricNearOne(p, q, s, d, e, f, eps);
  }

  lemma SymmetricNearOne(p: real, q: real, r: real, d: real, e: real, f: real, eps: real)
    requires Abs(p) <= eps && Abs(q) <= eps && Abs(r) <= eps && Abs(d) <= eps && Abs(e) <= eps && Abs(f) <= eps
    ensures Abs(SymmetricDet(1.0 + p, 1.0 + q, 1.0 + r, d, e, f) - 1.0) <=
      3.0 * eps + 6.0 * (eps * eps) + 6.0 * (eps * eps * eps)
  {
    GramExpands(p, q, r, d, e, f);
    SecondOrder(p, q, r, d, e, f, eps);
    ThirdOrder(p, q, r, d, e, f, eps);
  }

  /** At the default tolerance a matrix that passes the loop has a determinant within 2*eps of 1 or of -1, so "scaled"
      can only mean that little. */
  lemma DeterminantNearUnit(r: Mat3)
    requires Orthonormal(r, DEFAULT_EPS)
    ensures Abs(Abs(Det(r)) - 1.0) <= 2.0 * DEFAULT_EPS
  {
    var t := Abs(Det(r));
    DetSquaredNearOne(r, DEFAULT_EPS);
    assert DEFAULT_EPS * DEFAULT_EPS == 0.00000001 && DEFAULT_EPS * DEFAULT_EPS * DEFAULT_EPS == 0.000000000001;
    assert t * t == Det(r) * Det(r);
    NearUnit(t);
  }

  lemma NearUnit(t: real)
    requires t >= 0.0 && Abs(t * t - 1.0) <= 0.000301
    ensures Abs(t - 1.0) <= 0.0002
  {
    SquareKeepsOrder(1.0002, t);
    SquareKeepsOrder(t, 0.9998);
  }

  lemma SquareKeepsOrder(a: real, b: real)
    requires a >= 0.0 && b >= 0.0
    ensures a <= b ==> a * a <= b * b
  {
    if a <= b {
      assert a * a <= a * b <= b * b;
    }
  }

  lemma ScaledWhen(r: Mat3, eps: real)
    requires Orthonormal(r, eps)
    ensures CheckRotation(r, eps) == Scaled <==> Abs(Det(r) - 1.0) > eps && Abs(Det(r) + 1.0) > eps
  {
    PassingTheLoop(r, eps);
  }

  function Diagonal(k: real): Mat3 {
    Mat3(Vec(k, 0.0, 0.0), Vec(0.0, k, 0.0), Vec(0.0, 0.0, k))
  }

  lemma DiagonalPasses(k: real, eps: real)
    requires Abs(k * k - 1.0) <= eps
    ensures Orthonormal(Diagonal(k), eps)
  {
    var r := Diagonal(k);
    forall i, j | 0 <= i < 3 && 0 <= j < 3 ensures Abs(GramError(r, i, j)) <= eps {
      assert i == 0 || i == 1 || i == 2;
      assert j == 0 || j == 1 || j == 2;
      assert Dot(r.Col(i), r.Col(j)) == if i == j then k * k else 0.0;
    }
  }

  lemma DiagonalDet(k: real)
    ensures Det(Diagonal(k)) == k * (k * k)
  {
  }

  lemma DiagonalIsScaled(k: real, eps: real)
    requires Abs(k * k - 1.0) <= eps && k * (k * k) > 1.0 + eps
    ensures Orthonormal(Diagonal(k), eps) && CheckRotation(Diagonal(k), eps) == Scaled
  {
    DiagonalPasses(k, eps);
    DiagonalDet(k);
    ScaledWhen(Diagonal(k), eps);
  }

  /** The "scaled" branch is reached by a matrix that passes the loop. */
  lemma ScaledIsReachable()
    ensures Orthonormal(Diagonal(1.00004), DEFAULT_EPS) && CheckRotation(Diagonal(1.00004), DEFAULT_EPS) == Scaled
  {
    var k := 1.00004;
    assert k * k == 1.0000800016 && k * (k * k) == 1.000120004800064;
    DiagonalIsScaled(k, DEFAULT_EPS);
  }

  /** An exact orthonormal frame is never called scaled: it is accepted when right-handed and a reflection otherwise. */
  lemma ExactFrames(r: Mat3, eps: real)
    requires Orthonormal(r, 0.0) && 0.0 <= eps < 2.0
    ensures Det(r) == 1.0 || Det(r) == -1.0
    ensures CheckRotation(r, eps) == if Det(r) == 1.0 then Accepted else Reflection
  {
    DetSquaredNearOne(r, 0.0);
    assert (Det(r) - 1.0) * (Det(r) + 1.0) == 0.0;
    assert Orthonormal(r, eps);
    PassingTheLoop(r, eps);
  }

  /** An accepted frame turns lengths, and with them the determinant, by no more than its tolerance allows. */
  lemma AcceptedMeansRigid(m: seq<seq<Entry>>, eps: real, v: Vec)
    requires Validate(m, eps) == Accepted
    ensures FirstNonFinite(m, 0) == 16
    ensures Abs(NormSq(Apply(Rotation(m), v)) - NormSq(v)) <= 3.0 * eps * NormSq(v)
    ensures Abs(Det(Rotation(m)) - 1.0) <= eps
  {
    PassingTheLoop(Rotation(m), eps);
    LengthsNearlyKept(Rotation(m), eps, v);
  }

  // ---------------------------------------------------------------- the verdict, entry by entry

  predicate IsFourByFour(m: seq<seq<Entry>>) {
    |m| == 4 && |m[0]| == 4 && |m[1]| == 4 && |m[2]| == 4 && |m[3]| == 4
  }

  /** Every entry is a finite number. */
  predicate IsFinite(m: seq<seq<Entry>>)
    requires IsFourByFour(m)
  {
    forall i, j :: 0 <= i < 4 && 0 <= j < 4 ==> m[i][j].Finite?
  }

  /** The bottom row is 0, 0, 0, 1 within the tolerance. */
  predicate IsAffine(m: seq<seq<Entry>>, eps: real)
    requires IsFourByFour(m) && IsFinite(m)
  {
    && -eps <= m[3][0].value <= eps && -eps <= m[3][1].value <= eps && -eps <= m[3][2].value <= eps
    && 1.0 - eps <= m[3][3].value <= 1.0 + eps
  }

  /** The product of two columns of the rotation. */
  function ColumnProduct(m: seq<seq<Entry>>, i: int, j: int): real
    requires IsFourByFour(m) && IsFinite(m) && 0 <= i < 3 && 0 <= j < 3
  {
    m[0][i].value * m[0][j].value + m[1][i].value * m[1][j].value + m[2][i].value * m[2][j].value
  }

  /** The columns have length one and stand at right angles, within the tolerance. */
  predicate IsOrthonormal(m: seq<seq<Entry>>, eps: real)
    requires IsFourByFour(m) && IsFinite(m)
  {
    forall i, j :: 0 <= i < 3 && 0 <= j < 3 ==>
      var expected := if i == j then 1.0 else 0.0;
      expected - eps <= ColumnProduct(m, i, j) <= expected + eps
  }

  /** The determinant of the rotation, term by term. */
  function DetOf(m: seq<seq<Entry>>): real
    requires IsFourByFour(m) && IsFinite(m)
  {
    m[0][0].value * m[1][1].value * m[2][2].value + m[0][1].value * m[1][2].value * m[2][0].value
    + m[0][2].value * m[1][0].value * m[2][1].value - m[0][2].value * m[1][1].value * m[2][0].value
    - m[0][1].value * m[1][0].value * m[2][2].value - m[0][0].value * m[1][2].value * m[2][1].value
  }

  lemma FiniteIff(m: seq<seq<Entry>>)
    requires IsFourByFour(m)
    ensures IsFinite(m) <==> FirstNonFinite(m, 0) == 16
  {
    var bad := FirstNonFinite(m, 0);
    if bad == 16 {
      AllFinite(m);
    } else {
      assert Cell(m, bad) == m[bad / 4][bad % 4] && 0 <= bad / 4 < 4 && 0 <= bad % 4 < 4;
    }
  }

  lemma DetExpands(a: real, b: real, c: real, d: real, e: real, f: real, g: real, h: real, i: real)
    ensures a * (e * i - f * h) - b * (d * i - f * g) + c * (d * h - e * g) ==
      a * e * i + b * f * g + c * d * h - c * e * g - b * d * i - a * f * h
  {
    assert a * (e * i - f * h) == a * e * i - a * f * h;
    assert b * (d * i - f * g) == b * d * i - b * f * g;
    assert c * (d * h - e * g) == c * d * h - c * e * g;
  }

  lemma DetIs(m: seq<seq<Entry>>)
    requires IsFourByFour(m) && IsFinite(m) && FirstNonFinite(m, 0) == 16
    ensures Det(Rotation(m)) == DetOf(m)
  {
    hide FirstNonFinite;
    DetExpands(
      m[0][0].value, m[0][1].value, m[0][2].value, m[1][0].value, m[1][1].value, m[1][2].value,
      m[2][0].value, m[2][1].value, m[2][2].value);
  }

  lemma ProductIs(m: seq<seq<Entry>>, i: int, j: int)
    requires IsFourByFour(m) && IsFinite(m) && FirstNonFinite(m, 0) == 16 && 0 <= i < 3 && 0 <= j < 3
    ensures Dot(Rotation(m).Col(i), Rotation(m).Col(j)) == ColumnProduct(m, i, j)
  {
    hide FirstNonFinite;
  }

  lemma OrthonormalIff(m: seq<seq<Entry>>, eps: real)
    requires IsFourByFour(m) && IsFinite(m) && FirstNonFinite(m, 0) == 16
    ensures IsOrthonormal(m, eps) <==> Orthonormal(Rotation(m), eps)
  {
    forall i, j | 0 <= i < 3 && 0 <= j < 3
      ensures Dot(Rotation(m).Col(i), Rotation(m).Col(j)) == ColumnProduct(m, i, j)
    {
      ProductIs(m, i, j);
    }
    hide Rotation, ColumnProduct, Dot, FirstNonFinite, IsFinite;
    forall i, j {:trigger ColumnProduct(m, i, j)} | 0 <= i < 3 && 0 <= j < 3
      ensures GramError(Rotation(m), i, j) == ColumnProduct(m, i, j) - if i == j then 1.0 else 0.0
    {
    }
  }

  /** A matrix is accepted exactly when it is 4x4, finite, with the bottom row, the products of columns and the
      determinant all within the tolerance of what they should be; otherwise the first of these that fails is what is
      complained of, and a determinant near -1 is called a reflection. */
  lemma ValidateDecides(m: seq<seq<Entry>>, eps: real)
    ensures var verdict := Validate(m, eps);
      if !IsFourByFour(m) then verdict == NotFourByFour
      else if !IsFinite(m) then verdict.NotFinite?
      else if !IsAffine(m, eps) then verdict == BadBottomRow
      else if !IsOrthonormal(m, eps) then verdict.NotOrthonormal?
      else if 1.0 - eps <= DetOf(m) <= 1.0 + eps then verdict == Accepted
      else if -1.0 - eps <= DetOf(m) <= -1.0 + eps then verdict == Reflection
      else verdict == Scaled
  {
    assert IsFourByFour(m) <==> |m| == 4 && forall i :: 0 <= i < |m| ==> |m[i]| == 4;
    if IsFourByFour(m) {
      FiniteIff(m);
      hide FirstNonFinite;
      if IsFinite(m) {
        OrthonormalIff(m, eps);
        PassingTheLoop(Rotation(m), eps);
        DetIs(m);
        hide Rotation, Det, DetOf, Orthonormal, IsOrthonormal, IsFinite, FirstBadCell;
      }
    }
  }

  /** The complaint names the first entry, in reading order, that is not finite. */
  lemma FirstComplaint(m: seq<seq<Entry>>, eps: real, row: nat, column: nat)
    requires Validate(m, eps) == NotFinite(row, column)
    ensures row < 4 && column < 4 && |m| == 4 && |m[row]| == 4 && m[row][column].NonFinite?
    ensures forall i, j :: 0 <= i < 4 && 0 <= j < 4 && |m[i]| == 4 && (i < row || (i == row && j < column)) ==>
      m[i][j].Finite?
  {
    var bad := FirstNonFinite(m, 0);
    assert Cell(m, bad) == m[bad / 4][bad % 4];
    forall i, j | 0 <= i < 4 && 0 <= j < 4 && (i < row || (i == row && j < column)) ensures m[i][j].Finite? {
      var c := 4 * i + j;
      assert c / 4 == i && c % 4 == j && 0 <= c < bad;
      assert Cell(m, c).Finite?;
    }
  }
}
