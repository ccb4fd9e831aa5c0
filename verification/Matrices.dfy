/** 4 x 4 real matrices: the algebra node transforms are composed with. */
module Matrices {

  datatype Row = Row(x: real, y: real, z: real, w: real)

  datatype Mat = Mat(a: Row, b: Row, c: Row, d: Row)

  const IDENTITY := Mat(Row(1.0, 0.0, 0.0, 0.0), Row(0.0, 1.0, 0.0, 0.0), Row(0.0, 0.0, 1.0, 0.0), Row(0.0, 0.0, 0.0, 1.0))

  /** The product of two entries, named so that the proofs below can use its laws and nothing else. */
  function Times(p: real, q: real): real {
    p * q
  }

  lemma TimesLaws(p: real, q: real, r: real)
    ensures Times(Times(p, q), r) == Times(p, Times(q, r))
    ensures Times(p + q, r) == Times(p, r) + Times(q, r)
    ensures Times(p, q + r) == Times(p, q) + Times(p, r)
  {
  }

  function Scale(s: real, r: Row): Row {
    Row(Times(s, r.x), Times(s, r.y), Times(s, r.z), Times(s, r.w))
  }

  function Add(r: Row, s: Row): Row {
    Row(r.x + s.x, r.y + s.y, r.z + s.z, r.w + s.w)
  }

  /** A row times a matrix: the combination of the matrix's rows with the row's entries as weights. */
  function Apply(r: Row, m: Mat): Row {
    Add(Add(Scale(r.x, m.a), Scale(r.y, m.b)), Add(Scale(r.z, m.c), Scale(r.w, m.d)))
  }

  function Mul(m: Mat, n: Mat): Mat {
    Mat(Apply(m.a, n), Apply(m.b, n), Apply(m.c, n), Apply(m.d, n))
  }

  /** One entry of a row times a column. */
  function Dot(r: Row, a: real, b: real, c: real, d: real): real {
    (Times(r.x, a) + Times(r.y, b)) + (Times(r.z, c) + Times(r.w, d))
  }

  lemma DotScale(s: real, r: Row, a: real, b: real, c: real, d: real)
    ensures Dot(Scale(s, r), a, b, c, d) == Times(s, Dot(r, a, b, c, d))
  {
    hide Times;
    TimesLaws(s, r.x, a);
    TimesLaws(s, r.y, b);
    TimesLaws(s, r.z, c);
    TimesLaws(s, r.w, d);
    TimesLaws(s, Times(r.x, a), Times(r.y, b));
    TimesLaws(s, Times(r.z, c), Times(r.w, d));
    TimesLaws(s, Times(r.x, a) + Times(r.y, b), Times(r.z, c) + Times(r.w, d));
  }

  lemma DotAdd(r: Row, s: Row, a: real, b: real, c: real, d: real)
    ensures Dot(Add(r, s), a, b, c, d) == Dot(r, a, b, c, d) + Dot(s, a, b, c, d)
  {
    hide Times;
    TimesLaws(r.x, s.x, a);
    TimesLaws(r.y, s.y, b);
    TimesLaws(r.z, s.z, c);
    TimesLaws(r.w, s.w, d);
  }

  lemma ApplyIsDots(r: Row, m: Mat)
    ensures Apply(r, m) == Row(Dot(r, m.a.x, m.b.x, m.c.x, m.d.x), Dot(r, m.a.y, m.b.y, m.c.y, m.d.y),
                               Dot(r, m.a.z, m.b.z, m.c.z, m.d.z), Dot(r, m.a.w, m.b.w, m.c.w, m.d.w))
  {
    hide Times;
  }

  lemma ApplyScale(s: real, r: Row, m: Mat)
    ensures Apply(Scale(s, r), m) == Scale(s, Apply(r, m))
  {
    hide Times, Dot;
    ApplyIsDots(r, m);
    ApplyIsDots(Scale(s, r), m);
    DotScale(s, r, m.a.x, m.b.x, m.c.x, m.d.x);
    DotScale(s, r, m.a.y, m.b.y, m.c.y, m.d.y);
    DotScale(s, r, m.a.z, m.b.z, m.c.z, m.d.z);
    DotScale(s, r, m.a.w, m.b.w, m.c.w, m.d.w);
  }

  lemma ApplyAdd(r: Row, s: Row, m: Mat)
    ensures Apply(Add(r, s), m) == Add(Apply(r, m), Apply(s, m))
  {
    hide Times, Dot;
    ApplyIsDots(r, m);
    ApplyIsDots(s, m);
    ApplyIsDots(Add(r, s), m);
    DotAdd(r, s, m.a.x, m.b.x, m.c.x, m.d.x);
    DotAdd(r, s, m.a.y, m.b.y, m.c.y, m.d.y);
    DotAdd(r, s, m.a.z, m.b.z, m.c.z, m.d.z);
    DotAdd(r, s, m.a.w, m.b.w, m.c.w, m.d.w);
  }

  lemma ApplyTwice(r: Row, m: Mat, n: Mat)
    ensures Apply(Apply(r, m), n) == Apply(r, Mul(m, n))
  {
    hide Times, Dot;
    ApplyAdd(Add(Scale(r.x, m.a), Scale(r.y, m.b)), Add(Scale(r.z, m.c), Scale(r.w, m.d)), n);
    ApplyAdd(Scale(r.x, m.a), Scale(r.y, m.b), n);
    ApplyAdd(Scale(r.z, m.c), Scale(r.w, m.d), n);
    ApplyScale(r.x, m.a, n);
    ApplyScale(r.y, m.b, n);
    ApplyScale(r.z, m.c, n);
    ApplyScale(r.w, m.d, n);
  }

  /** `out` is row r times the matrix m, entry by entry. */
  predicate RowTimesColumns(r: Row, m: Mat, out: Row) {
    && out.x == r.x * m.a.x + r.y * m.b.x + r.z * m.c.x + r.w * m.d.x
    && out.y == r.x * m.a.y + r.y * m.b.y + r.z * m.c.y + r.w * m.d.y
    && out.z == r.x * m.a.z + r.y * m.b.z + r.z * m.c.z + r.w * m.d.z
    && out.w == r.x * m.a.w + r.y * m.b.w + r.z * m.c.w + r.w * m.d.w
  }

  /** Each entry of a product is the row of the left factor times the column of the right one. */
  lemma MulIsRowsTimesColumns(m: Mat, n: Mat)
    ensures RowTimesColumns(m.a, n, Mul(m, n).a) && RowTimesColumns(m.b, n, Mul(m, n).b)
    ensures RowTimesColumns(m.c, n, Mul(m, n).c) && RowTimesColumns(m.d, n, Mul(m, n).d)
  {
    ApplyIsRow(m.a, n);
    ApplyIsRow(m.b, n);
    ApplyIsRow(m.c, n);
    ApplyIsRow(m.d, n);
  }

  lemma ApplyIsRow(r: Row, m: Mat)
    ensures RowTimesColumns(r, m, Apply(r, m))
  {
  }

  lemma MulAssoc(l: Mat, m: Mat, n: Mat)
    ensures Mul(Mul(l, m), n) == Mul(l, Mul(m, n))
  {
    ApplyTwice(l.a, m, n);
    ApplyTwice(l.b, m, n);
    ApplyTwice(l.c, m, n);
    ApplyTwice(l.d, m, n);
  }

  lemma ApplyUnit(m: Mat)
    ensures Apply(IDENTITY.a, m) == m.a && Apply(IDENTITY.b, m) == m.b
    ensures Apply(IDENTITY.c, m) == m.c && Apply(IDENTITY.d, m) == m.d
  {
    UnitScale(m.a);
    UnitScale(m.b);
    UnitScale(m.c);
    UnitScale(m.d);
  }

  lemma UnitScale(r: Row)
    ensures Scale(1.0, r) == r && Scale(0.0, r) == Row(0.0, 0.0, 0.0, 0.0)
    ensures Scale(-1.0, r) == Row(-r.x, -r.y, -r.z, -r.w)
  {
  }

  lemma ApplyIdentity(r: Row)
    ensures Apply(r, IDENTITY) == r
  {
  }

  lemma MulIdentity(m: Mat)
    ensures Mul(m, IDENTITY) == m && Mul(IDENTITY, m) == m
  {
    ApplyUnit(m);
    ApplyIdentity(m.a);
    ApplyIdentity(m.b);
    ApplyIdentity(m.c);
    ApplyIdentity(m.d);
    hide Apply;
  }

  /** The content-to-body map on directions, (x, y, z) -> (z, y, -x), as the matrix it is built into. */
  const TO_BODY := Mat(Row(0.0, 0.0, 1.0, 0.0), Row(0.0, 1.0, 0.0, 0.0), Row(-1.0, 0.0, 0.0, 0.0), Row(0.0, 0.0, 0.0, 1.0))

  function Transpose(m: Mat): Mat {
    Mat(Row(m.a.x, m.b.x, m.c.x, m.d.x), Row(m.a.y, m.b.y, m.c.y, m.d.y),
        Row(m.a.z, m.b.z, m.c.z, m.d.z), Row(m.a.w, m.b.w, m.c.w, m.d.w))
  }

  lemma ToBodyActsAsMap(x: real, y: real, z: real)
    ensures (Dot(TO_BODY.a, x, y, z, 1.0), Dot(TO_BODY.b, x, y, z, 1.0), Dot(TO_BODY.c, x, y, z, 1.0)) == (z, y, -x)
    ensures Dot(TO_BODY.d, x, y, z, 1.0) == 1.0
  {
  }

  lemma ToBodyPermutes(m: Mat)
    ensures Mul(TO_BODY, m) == Mat(m.c, m.b, Scale(-1.0, m.a), m.d)
    ensures Mul(Transpose(TO_BODY), m) == Mat(Scale(-1.0, m.c), m.b, m.a, m.d)
  {
    UnitScale(m.a);
    UnitScale(m.b);
    UnitScale(m.c);
    UnitScale(m.d);
  }

  /** The transposed map undoes it: content -> body -> content is the identity, both ways round. */
  lemma ToBodyIsOrthonormal()
    ensures Mul(TO_BODY, Transpose(TO_BODY)) == IDENTITY && Mul(Transpose(TO_BODY), TO_BODY) == IDENTITY
  {
    ToBodyPermutes(Transpose(TO_BODY));
    ToBodyPermutes(TO_BODY);
    hide Mul;
  }

  /** A content-frame node transform as it acts on vertices already rotated into the body frame. */
  function InBody(m: Mat): Mat {
    Mul(Mul(TO_BODY, m), Transpose(TO_BODY))
  }

  /** Conjugation respects composition, so node transforms may be composed in either frame. */
  lemma InBodyComposes(m: Mat, n: Mat)
    ensures InBody(Mul(m, n)) == Mul(InBody(m), InBody(n))
  {
    hide Mul, Transpose;
    var q, t := TO_BODY, Transpose(TO_BODY);
    calc {
      Mul(InBody(m), InBody(n));
      { MulAssoc(Mul(q, m), t, Mul(Mul(q, n), t)); }
      Mul(Mul(q, m), Mul(t, Mul(Mul(q, n), t)));
      { MulAssoc(t, Mul(q, n), t); MulAssoc(t, q, n); ToBodyIsOrthonormal(); MulIdentity(n); }
      Mul(Mul(q, m), Mul(n, t));
      { MulAssoc(Mul(q, m), n, t); MulAssoc(q, m, n); }
      InBody(Mul(m, n));
    }
  }

  /** Rotating a vertex and then moving it in the body frame is moving it in the content frame and then rotating. */
  lemma InBodyActsOnRotated(m: Mat)
    ensures Mul(InBody(m), TO_BODY) == Mul(TO_BODY, m)
  {
    hide Mul, Transpose;
    MulAssoc(Mul(TO_BODY, m), Transpose(TO_BODY), TO_BODY);
    ToBodyIsOrthonormal();
    MulIdentity(Mul(TO_BODY, m));
  }

  lemma InBodyIdentity()
    ensures InBody(IDENTITY) == IDENTITY
  {
    MulIdentity(TO_BODY);
    ToBodyIsOrthonormal();
  }
}
