/** Formation stations: where each slot of a flight flies relative to its lead. Lengths are exact reals. */
module Formation {

  datatype Vec = Vec(x: real, y: real, z: real)

  datatype Params = Params(lateral: real, aft: real, vertical: real)

  /** The lead's right, level-forward and up directions. */
  datatype Basis = Basis(right: Vec, fwd: Vec, up: Vec)

  function Times(p: real, q: real): real {
    p * q
  }

  lemma TimesLaws(p: real, q: real, r: real)
    ensures Times(Times(p, q), r) == Times(p, Times(q, r))
    ensures Times(p + q, r) == Times(p, r) + Times(q, r)
    ensures Times(p - q, r) == Times(p, r) - Times(q, r)
    ensures Times(p, q) == Times(q, p)
  {
  }

  function Sq(x: real): real {
    Times(x, x)
  }

  function Add(v: Vec, w: Vec): Vec {
    Vec(v.x + w.x, v.y + w.y, v.z + w.z)
  }

  function Sub(v: Vec, w: Vec): Vec {
    Vec(v.x - w.x, v.y - w.y, v.z - w.z)
  }

  function Scale(s: real, v: Vec): Vec {
    Vec(Times(s, v.x), Times(s, v.y), Times(s, v.z))
  }

  function Dot(v: Vec, w: Vec): real {
    Times(v.x, w.x) + Times(v.y, w.y) + Times(v.z, w.z)
  }

  predicate Orthonormal(b: Basis) {
    && Dot(b.right, b.right) == 1.0 && Dot(b.fwd, b.fwd) == 1.0 && Dot(b.up, b.up) == 1.0
    && Dot(b.right, b.fwd) == 0.0 && Dot(b.right, b.up) == 0.0 && Dot(b.fwd, b.up) == 0.0
  }

  function Rank(slot: nat): nat {
    slot / 2 + 1
  }

  function Side(slot: nat): int {
    if slot % 2 == 0 then 1 else -1
  }

  /** {right, forward, up} metres in the lead's frame: pairs to either side, stepping out, back and up per rank. */
  function FormationSlotOffset(slot: nat, p: Params): Vec {
    var rank := Rank(slot) as real;
    Vec(Times(Times(p.lateral, rank), Side(slot) as real), Times(-p.aft, rank), Times(p.vertical, rank))
  }

  /**
   Where the slots are: the first of each pair to the lead's right, the second to its left, each pair one
   lateral spacing further out, one aft spacing further behind and one vertical spacing further up.
   */
  lemma SlotsByPair(k: nat, p: Params)
    ensures FormationSlotOffset(2 * k, p)
         == Vec(p.lateral * (k + 1) as real, -(p.aft * (k + 1) as real), p.vertical * (k + 1) as real)
    ensures FormationSlotOffset(2 * k + 1, p)
         == Vec(-(p.lateral * (k + 1) as real), -(p.aft * (k + 1) as real), p.vertical * (k + 1) as real)
  {
    assert Rank(2 * k) == k + 1 && Rank(2 * k + 1) == k + 1;
    assert Side(2 * k) == 1 && Side(2 * k + 1) == -1;
  }

  /** And a slot's point is the lead's, moved along the lead's own right, forward and up. */
  lemma SlotPointIsBesideLead(lead: Vec, b: Basis, slot: nat, p: Params)
    ensures var o, q := FormationSlotOffset(slot, p), SlotPoint(lead, b, slot, p);
            && q.x == lead.x + o.x * b.right.x + o.y * b.fwd.x + o.z * b.up.x
            && q.y == lead.y + o.x * b.right.y + o.y * b.fwd.y + o.z * b.up.y
            && q.z == lead.z + o.x * b.right.z + o.y * b.fwd.z + o.z * b.up.z
  {
    hide FormationSlotOffset;
  }

  function Along(b: Basis, o: Vec): Vec {
    Add(Add(Scale(o.x, b.right), Scale(o.y, b.fwd)), Scale(o.z, b.up))
  }

  function SlotPoint(lead: Vec, b: Basis, slot: nat, p: Params): Vec {
    Add(lead, Along(b, FormationSlotOffset(slot, p)))
  }

  function DistSq(v: Vec, w: Vec): real {
    Dot(Sub(v, w), Sub(v, w))
  }

  // Distances in an orthonormal basis.

  lemma DotAdd(v: Vec, w: Vec, z: Vec)
    ensures Dot(Add(v, w), z) == Dot(v, z) + Dot(w, z)
  {
    hide Times;
    TimesLaws(v.x, w.x, z.x);
    TimesLaws(v.y, w.y, z.y);
    TimesLaws(v.z, w.z, z.z);
  }

  lemma DotSwap(v: Vec, w: Vec)
    ensures Dot(v, w) == Dot(w, v)
  {
    hide Times;
    TimesLaws(v.x, w.x, 0.0);
    TimesLaws(v.y, w.y, 0.0);
    TimesLaws(v.z, w.z, 0.0);
  }

  lemma DotScale(s: real, v: Vec, w: Vec)
    ensures Dot(Scale(s, v), w) == Times(s, Dot(v, w))
  {
    hide Times;
    TimesLaws(s, v.x, w.x);
    TimesLaws(s, v.y, w.y);
    TimesLaws(s, v.z, w.z);
    TimesLaws(Times(v.x, w.x), Times(v.y, w.y), s);
    TimesLaws(Times(v.x, w.x) + Times(v.y, w.y), Times(v.z, w.z), s);
    TimesLaws(s, Dot(v, w), 0.0);
    TimesLaws(s, Times(v.x, w.x), 0.0);
    TimesLaws(s, Times(v.y, w.y), 0.0);
    TimesLaws(s, Times(v.z, w.z), 0.0);
  }

  /** The component of a combination along one direction. */
  lemma AlongDot(b: Basis, o: Vec, z: Vec)
    ensures Dot(Along(b, o), z) == Times(o.x, Dot(b.right, z)) + Times(o.y, Dot(b.fwd, z)) + Times(o.z, Dot(b.up, z))
  {
    hide Times, Dot, Add, Scale;
    DotAdd(Add(Scale(o.x, b.right), Scale(o.y, b.fwd)), Scale(o.z, b.up), z);
    DotAdd(Scale(o.x, b.right), Scale(o.y, b.fwd), z);
    DotScale(o.x, b.right, z);
    DotScale(o.y, b.fwd, z);
    DotScale(o.z, b.up, z);
  }

  lemma TimesUnit(p: real)
    ensures Times(p, 1.0) == p && Times(p, 0.0) == 0.0
  {
  }

  lemma AlongComponents(b: Basis, o: Vec)
    requires Orthonormal(b)
    ensures Dot(Along(b, o), b.right) == o.x && Dot(Along(b, o), b.fwd) == o.y && Dot(Along(b, o), b.up) == o.z
  {
    hide Times, Dot, Along;
    AlongDot(b, o, b.right);
    AlongDot(b, o, b.fwd);
    AlongDot(b, o, b.up);
    DotSwap(b.right, b.fwd);
    DotSwap(b.right, b.up);
    DotSwap(b.fwd, b.up);
    TimesUnit(o.x);
    TimesUnit(o.y);
    TimesUnit(o.z);
  }

  /** In an orthonormal basis, squared length is the sum of squared components. */
  lemma AlongLength(b: Basis, o: Vec)
    requires Orthonormal(b)
    ensures Dot(Along(b, o), Along(b, o)) == Sq(o.x) + Sq(o.y) + Sq(o.z)
  {
    hide Times, Dot, Along, Orthonormal;
    AlongComponents(b, o);
    AlongDot(b, o, Along(b, o));
    DotSwap(b.right, Along(b, o));
    DotSwap(b.fwd, Along(b, o));
    DotSwap(b.up, Along(b, o));
  }

  lemma AlongDifference(b: Basis, o: Vec, q: Vec)
    ensures Sub(Along(b, o), Along(b, q)) == Along(b, Sub(o, q))
  {
    hide Times;
    ScaleDifference(o.x, q.x, b.right);
    ScaleDifference(o.y, q.y, b.fwd);
    ScaleDifference(o.z, q.z, b.up);
  }

  lemma ScaleDifference(s: real, t: real, v: Vec)
    ensures Scale(s - t, v) == Sub(Scale(s, v), Scale(t, v))
  {
    hide Times;
    TimesLaws(s, t, v.x);
    TimesLaws(s, t, v.y);
    TimesLaws(s, t, v.z);
  }

  /** The squared distance of two stations is that of their offsets. */
  lemma StationDistance(lead: Vec, b: Basis, s: nat, t: nat, p: Params)
    requires Orthonormal(b)
    ensures var d := Sub(FormationSlotOffset(s, p), FormationSlotOffset(t, p));
            DistSq(SlotPoint(lead, b, s, p), SlotPoint(lead, b, t, p)) == Sq(d.x) + Sq(d.y) + Sq(d.z)
  {
    hide Times, Dot, Along, FormationSlotOffset, Orthonormal;
    var o, q := FormationSlotOffset(s, p), FormationSlotOffset(t, p);
    AlongDifference(b, o, q);
    assert Sub(SlotPoint(lead, b, s, p), SlotPoint(lead, b, t, p)) == Sub(Along(b, o), Along(b, q));
    AlongLength(b, Sub(o, q));
  }

  /** In units of the spacings: how far apart two slots are sideways, and in rank. */
  lemma OffsetDifference(s: nat, t: nat, p: Params)
    ensures var d := Sub(FormationSlotOffset(s, p), FormationSlotOffset(t, p));
            var m, n := Rank(s) * Side(s) - Rank(t) * Side(t), Rank(s) - Rank(t);
            Sq(d.x) == Times(Sq(p.lateral), (m * m) as real) && Sq(d.y) == Times(Sq(p.aft), (n * n) as real)
            && Sq(d.z) == Times(Sq(p.vertical), (n * n) as real)
  {
    var rs, rt := Rank(s), Rank(t);
    var m, n := rs * Side(s) - rt * Side(t), rs - rt;
    hide Times, Sq, Rank, Side;
    SquareOfMultiple(p.lateral, m);
    SquareOfMultiple(-p.aft, n);
    SquareOfMultiple(p.vertical, n);
    SideIsUnit(s);
    SideIsUnit(t);
    Lateral(p.lateral, rs, Side(s), rt, Side(t));
    Spread(-p.aft, rs, rt);
    Spread(p.vertical, rs, rt);
    SqNegated(p.aft);
  }

  lemma SideIsUnit(s: nat)
    ensures Side(s) == 1 || Side(s) == -1
  {
  }

  lemma Spread(x: real, a: int, b: int)
    ensures Times(x, a as real) - Times(x, b as real) == Times(x, (a - b) as real)
  {
  }

  lemma SqNegated(x: real)
    ensures Sq(-x) == Sq(x)
  {
  }

  lemma Lateral(l: real, a: nat, sa: int, b: nat, sb: int)
    requires (sa == 1 || sa == -1) && (sb == 1 || sb == -1)
    ensures Times(Times(l, a as real), sa as real) - Times(Times(l, b as real), sb as real) == Times(l, (a * sa - b * sb) as real)
  {
  }

  lemma SquareOfMultiple(x: real, n: int)
    ensures Sq(Times(x, n as real)) == Times(Sq(x), (n * n) as real)
  {
    assert (n * n) as real == n as real * n as real;
  }

  /** Two slots of one rank are on opposite sides; slots of different ranks differ sideways as well as in rank. */
  lemma SlotGaps(s: nat, t: nat)
    requires s != t
    ensures var m, n := Rank(s) * Side(s) - Rank(t) * Side(t), Rank(s) - Rank(t);
            (n == 0 && m * m >= 4) || (n * n >= 1 && m * m >= 1)
  {
    var m, n := Rank(s) * Side(s) - Rank(t) * Side(t), Rank(s) - Rank(t);
    if n == 0 {
      assert Side(s) != Side(t);
      assert m == 2 * Rank(s) || m == -2 * Rank(s);
      Far(m, 2);
    } else {
      Far(n, 1);
      Far(m, 1);
    }
  }

  lemma Far(m: int, k: nat)
    requires m >= k || m + k <= 0
    ensures m * m >= k * k
  {
    var a := if m >= 0 then m else -m;
    NonNegativeProduct(a - k, a + k);
    assert (a - k) * (a + k) == a * a - k * k;
    assert m * m == a * a;
  }

  lemma NonNegativeProduct(x: int, y: int)
    requires x >= 0 && y >= 0
    ensures x * y >= 0
  {
  }

  function Closest(p: Params): real {
    var side, rank := 4.0 * Sq(p.lateral), Sq(p.lateral) + Sq(p.aft) + Sq(p.vertical);
    if side <= rank then side else rank
  }

  lemma AtLeast(x: real, n: int, k: nat)
    requires n >= k && x >= 0.0
    ensures Times(x, n as real) >= Times(x, k as real)
  {
  }

  lemma SqNonNegative(x: real)
    ensures Sq(x) >= 0.0
  {
  }

  /** Any two members of a flight of any size keep at least the closest spacing, whatever the lead's pose. */
  lemma StationsKeepTheirDistance(lead: Vec, b: Basis, s: nat, t: nat, p: Params)
    requires Orthonormal(b) && s != t
    ensures DistSq(SlotPoint(lead, b, s, p), SlotPoint(lead, b, t, p)) >= Closest(p)
  {
    hide Orthonormal, DistSq, SlotPoint, Rank, Side, FormationSlotOffset, Sq, Times;
    var m, n := Rank(s) * Side(s) - Rank(t) * Side(t), Rank(s) - Rank(t);
    StationDistance(lead, b, s, t, p);
    OffsetDifference(s, t, p);
    SlotGaps(s, t);
    SqNonNegative(p.lateral);
    SqNonNegative(p.aft);
    SqNonNegative(p.vertical);
    if n == 0 {
      AtLeast(Sq(p.lateral), m * m, 4);
      TimesFour(Sq(p.lateral));
      TimesUnit(Sq(p.aft));
      TimesUnit(Sq(p.vertical));
    } else {
      AtLeast(Sq(p.lateral), m * m, 1);
      AtLeast(Sq(p.aft), n * n, 1);
      AtLeast(Sq(p.vertical), n * n, 1);
      TimesUnit(Sq(p.lateral));
      TimesUnit(Sq(p.aft));
      TimesUnit(Sq(p.vertical));
    }
  }

  lemma TimesFour(x: real)
    ensures Times(x, 4.0) == 4.0 * x
  {
  }

  /** And the first three members already fly that close: the bound is the exact minimum. */
  lemma ClosestIsAttained(lead: Vec, b: Basis, p: Params)
    requires Orthonormal(b)
    ensures DistSq(SlotPoint(lead, b, 0, p), SlotPoint(lead, b, 1, p)) == Closest(p)
         || DistSq(SlotPoint(lead, b, 0, p), SlotPoint(lead, b, 2, p)) == Closest(p)
  {
    hide Orthonormal, DistSq, SlotPoint, FormationSlotOffset, Sq, Times;
    StationDistance(lead, b, 0, 1, p);
    StationDistance(lead, b, 0, 2, p);
    OffsetDifference(0, 1, p);
    OffsetDifference(0, 2, p);
    TimesFour(Sq(p.lateral));
    TimesUnit(Sq(p.lateral));
    TimesUnit(Sq(p.aft));
    TimesUnit(Sq(p.vertical));
  }

  /** Every two members of a flight fly different stations. */
  ghost predicate NoneShared(lead: Vec, b: Basis, p: Params) {
    forall s: nat, t: nat :: s != t ==> SlotPoint(lead, b, s, p) != SlotPoint(lead, b, t, p)
  }

  lemma SamePointNoDistance(v: Vec, w: Vec)
    requires v == w
    ensures DistSq(v, w) == 0.0
  {
  }

  lemma SquareOfPositive(x: real)
    requires x > 0.0
    ensures Sq(x) > 0.0
  {
    PositiveProduct(x, x);
  }

  lemma PositiveProduct(x: real, y: real)
    requires x > 0.0 && y > 0.0
    ensures Times(x, y) > 0.0
  {
  }

  lemma SquareOfZero()
    ensures Sq(0.0) == 0.0
  {
  }

  lemma PositiveSquare(x: real)
    ensures Sq(x) == 0.0 <==> x == 0.0
  {
    hide Sq;
    SquareOfZero();
    if x > 0.0 {
      SquareOfPositive(x);
    } else if x < 0.0 {
      SquareOfPositive(-x);
      SqNegated(x);
    }
  }

  /**
   No two members share a station exactly when there is lateral spacing. Zero lateral spacing does not put
   the flight line astern, as the parameter's comment has it: it puts the two members of a rank together.
   */
  lemma SharedIffNoLateralSpacing(lead: Vec, b: Basis, p: Params)
    requires Orthonormal(b)
    ensures NoneShared(lead, b, p) <==> p.lateral != 0.0
  {
    hide Orthonormal, DistSq, SlotPoint, Sq;
    SqNonNegative(p.aft);
    SqNonNegative(p.vertical);
    SqNonNegative(p.lateral);
    PositiveSquare(p.lateral);
    if p.lateral != 0.0 {
      forall s: nat, t: nat | s != t ensures SlotPoint(lead, b, s, p) != SlotPoint(lead, b, t, p) {
        StationsKeepTheirDistance(lead, b, s, t, p);
        if SlotPoint(lead, b, s, p) == SlotPoint(lead, b, t, p) {
          SamePointNoDistance(SlotPoint(lead, b, s, p), SlotPoint(lead, b, t, p));
        }
      }
    } else {
      ZeroLateral(lead, b, p);
    }
  }

  lemma ZeroLateral(lead: Vec, b: Basis, p: Params)
    requires p.lateral == 0.0
    ensures SlotPoint(lead, b, 0, p) == SlotPoint(lead, b, 1, p)
  {
    hide Along;
    assert FormationSlotOffset(0, p) == FormationSlotOffset(1, p);
  }
}
