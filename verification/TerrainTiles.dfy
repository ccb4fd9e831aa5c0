/**
 Selecting the terrain tiles that cover a latitude/longitude box: a pruned quadtree descent that has to
 agree with filtering the full enumeration of 4^level tiles per face.
 */
module TerrainTiles {
  import opened SeqOps

  datatype Tile = Tile(face: int, level: nat, i: nat, j: nat)

  datatype Box = Box(latMin: real, lonMin: real, latMax: real, lonMax: real)

  datatype Selection = Tiles(tiles: seq<Tile>) | BadBox

  predicate Intersects(bounds: Box, box: Box) {
    if bounds.latMax < box.latMin || bounds.latMin > box.latMax then false
    else if bounds.lonMax < box.lonMin || bounds.lonMin > box.lonMax then false
    else true
  }

  datatype Point = Point(lat: real, lon: real)

  /** A box with its corners the right way round. */
  predicate Proper(b: Box) {
    b.latMin <= b.latMax && b.lonMin <= b.lonMax
  }

  /** The four comparisons find exactly the pairs of boxes that have a point in common. */
  lemma IntersectsIffPointShared(a: Box, b: Box)
    requires a.latMin <= a.latMax && a.lonMin <= a.lonMax && b.latMin <= b.latMax && b.lonMin <= b.lonMax
    ensures Intersects(a, b)
        <==> exists p: Point :: && a.latMin <= p.lat <= a.latMax && a.lonMin <= p.lon <= a.lonMax
                                && b.latMin <= p.lat <= b.latMax && b.lonMin <= p.lon <= b.lonMax
  {
    var p := Point(if a.latMin <= b.latMin then b.latMin else a.latMin, if a.lonMin <= b.lonMin then b.lonMin else a.lonMin);
    if Intersects(a, b) {
      assert a.latMin <= p.lat <= a.latMax && b.latMin <= p.lat <= b.latMax;
    }
  }

  predicate Inside(a: Box, b: Box) {
    b.latMin <= a.latMin && a.latMax <= b.latMax && b.lonMin <= a.lonMin && a.lonMax <= b.lonMax
  }

  function Pow2(level: nat): (n: nat)
    ensures n > 0
  {
    if level == 0 then 1 else 2 * Pow2(level - 1)
  }

  predicate OnFace(x: Tile) {
    x.i < Pow2(x.level) && x.j < Pow2(x.level)
  }

  function Root(face: int): Tile {
    Tile(face, 0, 0, 0)
  }

  function Child(t: Tile, di: nat, dj: nat): Tile {
    Tile(t.face, t.level + 1, 2 * t.i + di, 2 * t.j + dj)
  }

  function Parent(x: Tile): Tile
    requires x.level > 0
  {
    Tile(x.face, x.level - 1, x.i / 2, x.j / 2)
  }

  function AncestorAt(x: Tile, level: nat): (t: Tile)
    requires level <= x.level
    ensures t.level == level && t.face == x.face
    decreases x.level
  {
    if x.level == level then x else AncestorAt(Parent(x), level)
  }

  /** x meets the box, and so does each of its ancestors down from `level`. */
  predicate HitsFrom(hits: Tile -> bool, x: Tile, level: nat)
    requires level <= x.level
    decreases x.level
  {
    hits(x) && (x.level == level || HitsFrom(hits, Parent(x), level))
  }

  function Row(face: int, level: nat, j: nat, n: nat): seq<Tile> {
    seq(n, i requires i >= 0 => Tile(face, level, i, j))
  }

  function Grid(face: int, level: nat, rows: nat): seq<Tile> {
    if rows == 0 then [] else Grid(face, level, rows - 1) + Row(face, level, rows - 1, Pow2(level))
  }

  function LevelTiles(faces: seq<int>, level: nat): seq<Tile> {
    if faces == [] then []
    else LevelTiles(faces[..|faces| - 1], level) + Grid(faces[|faces| - 1], level, Pow2(level))
  }

  /** Every tile of the level range, coarse first: by level, then face, then j, then i. */
  function Enumeration(faces: seq<int>, minLevel: nat, upTo: nat): seq<Tile> {
    if upTo <= minLevel then []
    else Enumeration(faces, minLevel, upTo - 1) + LevelTiles(faces, upTo - 1)
  }

  lemma {:induction false} GridSize(face: int, level: nat, rows: nat)
    ensures |Grid(face, level, rows)| == rows * Pow2(level)
  {
    if rows > 0 {
      GridSize(face, level, rows - 1);
    }
  }

  /** Within a face the rows of equal j come one after another, and i runs along each: tile (i, j) is at j * 2^level + i. */
  lemma {:induction false} GridRunsAlongRows(face: int, level: nat, rows: nat, i: nat, j: nat)
    requires j < rows && i < Pow2(level)
    ensures var n := Pow2(level);
            j * n + i < |Grid(face, level, rows)| == rows * n && Grid(face, level, rows)[j * n + i] == Tile(face, level, i, j)
  {
    GridSize(face, level, rows);
    GridSize(face, level, rows - 1);
    var n := Pow2(level);
    if j == rows - 1 {
      assert Grid(face, level, rows)[(rows - 1) * n + i] == Row(face, level, rows - 1, n)[i];
    } else {
      GridRunsAlongRows(face, level, rows - 1, i, j);
    }
  }

  method AppendGrid(tiles: seq<Tile>, face: int, level: nat) returns (out: seq<Tile>)
    ensures out == tiles + Grid(face, level, Pow2(level))
  {
    var n := Pow2(level);
    out := tiles;
    var j := 0;
    while j < n
      invariant 0 <= j <= n && out == tiles + Grid(face, level, j)
    {
      ghost var above := out;
      var i := 0;
      while i < n
        invariant 0 <= i <= n && out == above + Row(face, level, j, i)
      {
        out := out + [Tile(face, level, i, j)];
        i := i + 1;
      }
      Assoc(tiles, Grid(face, level, j), Row(face, level, j, n));
      j := j + 1;
    }
  }

  method AppendLevel(tiles: seq<Tile>, faces: seq<int>, level: nat) returns (out: seq<Tile>)
    ensures out == tiles + LevelTiles(faces, level)
  {
    hide Grid;
    out := tiles;
    var f := 0;
    while f < |faces|
      invariant 0 <= f <= |faces| && out == tiles + LevelTiles(faces[..f], level)
    {
      out := AppendGrid(out, faces[f], level);
      assert faces[..f + 1][..f] == faces[..f];
      Assoc(tiles, LevelTiles(faces[..f], level), Grid(faces[f], level, Pow2(level)));
      f := f + 1;
    }
    assert faces[..f] == faces;
  }

  method EnumerateTiles(faces: seq<int>, minLevel: nat, maxLevel: nat) returns (out: seq<Tile>)
    ensures out == Enumeration(faces, minLevel, maxLevel + 1)
  {
    hide LevelTiles;
    out := [];
    var level := minLevel;
    while level < maxLevel + 1
      invariant level == minLevel || minLevel < level <= maxLevel + 1
      invariant out == Enumeration(faces, minLevel, level)
    {
      out := AppendLevel(out, faces, level);
      level := level + 1;
    }
  }

  /** The tiles a descent from t keeps, in the order it meets them. */
  function Kept(hits: Tile -> bool, t: Tile, maxLevel: nat): seq<Tile>
    decreases maxLevel - t.level
  {
    if !hits(t) then []
    else if t.level >= maxLevel then [t]
    else
      [t] + (Kept(hits, Child(t, 0, 0), maxLevel) + Kept(hits, Child(t, 1, 0), maxLevel)
             + (Kept(hits, Child(t, 0, 1), maxLevel) + Kept(hits, Child(t, 1, 1), maxLevel)))
  }

  function AllKept(hits: Tile -> bool, faces: seq<int>, maxLevel: nat): seq<Tile> {
    if faces == [] then [] else AllKept(hits, faces[..|faces| - 1], maxLevel) + Kept(hits, Root(faces[|faces| - 1]), maxLevel)
  }

  /** How many tiles a descent from t tests. */
  function Tests(hits: Tile -> bool, t: Tile, maxLevel: nat): nat
    decreases maxLevel - t.level
  {
    if !hits(t) || t.level >= maxLevel then 1
    else 1 + Tests(hits, Child(t, 0, 0), maxLevel) + Tests(hits, Child(t, 1, 0), maxLevel)
         + Tests(hits, Child(t, 0, 1), maxLevel) + Tests(hits, Child(t, 1, 1), maxLevel)
  }

  function AtLevel(q: seq<Tile>, level: nat): seq<Tile> {
    Filter(q, (x: Tile) => x.level == level)
  }

  // What a descent keeps.

  lemma {:induction false} AncestorStep(x: Tile, level: nat)
    requires level < x.level
    ensures AncestorAt(x, level) == Parent(AncestorAt(x, level + 1))
    decreases x.level
  {
    if x.level > level + 1 {
      AncestorStep(Parent(x), level);
    }
  }

  lemma {:induction false} HitsStep(hits: Tile -> bool, x: Tile, level: nat)
    requires level < x.level
    ensures HitsFrom(hits, x, level) <==> HitsFrom(hits, x, level + 1) && hits(AncestorAt(x, level))
    decreases x.level
  {
    if x.level > level + 1 {
      HitsStep(hits, Parent(x), level);
    }
  }

  lemma ChildrenOf(t: Tile, c: Tile)
    requires c.level > 0
    ensures Parent(c) == t <==> c == Child(t, 0, 0) || c == Child(t, 1, 0) || c == Child(t, 0, 1) || c == Child(t, 1, 1)
  {
  }

  ghost predicate Below(hits: Tile -> bool, t: Tile, maxLevel: nat, x: Tile) {
    t.level <= x.level <= maxLevel && AncestorAt(x, t.level) == t && HitsFrom(hits, x, t.level)
  }

  /** A tile is below t through hits when it is t, or below one of t's children. */
  lemma BelowStep(hits: Tile -> bool, t: Tile, maxLevel: nat, x: Tile)
    requires t.level < maxLevel
    ensures Below(hits, t, maxLevel, x) <==>
              hits(t) && (x == t || Below(hits, Child(t, 0, 0), maxLevel, x) || Below(hits, Child(t, 1, 0), maxLevel, x)
                          || Below(hits, Child(t, 0, 1), maxLevel, x) || Below(hits, Child(t, 1, 1), maxLevel, x))
  {
    if x.level > t.level {
      AncestorStep(x, t.level);
      HitsStep(hits, x, t.level);
      ChildrenOf(t, AncestorAt(x, t.level + 1));
    }
  }

  lemma {:induction false} KeptMembers(hits: Tile -> bool, t: Tile, maxLevel: nat, x: Tile)
    requires t.level <= maxLevel
    ensures x in Kept(hits, t, maxLevel) <==> Below(hits, t, maxLevel, x)
    decreases maxLevel - t.level
  {
    hide Below;
    if t.level == maxLevel {
      BelowLeaf(hits, t, x);
    } else {
      BelowStep(hits, t, maxLevel, x);
      KeptMembers(hits, Child(t, 0, 0), maxLevel, x);
      KeptMembers(hits, Child(t, 1, 0), maxLevel, x);
      KeptMembers(hits, Child(t, 0, 1), maxLevel, x);
      KeptMembers(hits, Child(t, 1, 1), maxLevel, x);
    }
  }

  lemma BelowLeaf(hits: Tile -> bool, t: Tile, x: Tile)
    ensures Below(hits, t, t.level, x) <==> hits(t) && x == t
  {
  }

  lemma KeptUnderOneChild(hits: Tile -> bool, a: Tile, b: Tile, maxLevel: nat)
    requires a.level == b.level <= maxLevel && a != b
    ensures forall x :: x in Kept(hits, a, maxLevel) ==> x !in Kept(hits, b, maxLevel)
  {
    forall x | x in Kept(hits, a, maxLevel) ensures x !in Kept(hits, b, maxLevel) {
      KeptMembers(hits, a, maxLevel, x);
      KeptMembers(hits, b, maxLevel, x);
    }
  }

  lemma {:induction false} KeptNoDup(hits: Tile -> bool, t: Tile, maxLevel: nat)
    requires t.level <= maxLevel
    ensures NoDup(Kept(hits, t, maxLevel))
    decreases maxLevel - t.level
  {
    if t.level < maxLevel && hits(t) {
      var a, b, c, d := Child(t, 0, 0), Child(t, 1, 0), Child(t, 0, 1), Child(t, 1, 1);
      var ka, kb, kc, kd := Kept(hits, a, maxLevel), Kept(hits, b, maxLevel), Kept(hits, c, maxLevel), Kept(hits, d, maxLevel);
      KeptNoDup(hits, a, maxLevel);
      KeptNoDup(hits, b, maxLevel);
      KeptNoDup(hits, c, maxLevel);
      KeptNoDup(hits, d, maxLevel);
      KeptUnderOneChild(hits, a, b, maxLevel);
      KeptUnderOneChild(hits, c, d, maxLevel);
      KeptUnderOneChild(hits, a, c, maxLevel);
      KeptUnderOneChild(hits, a, d, maxLevel);
      KeptUnderOneChild(hits, b, c, maxLevel);
      KeptUnderOneChild(hits, b, d, maxLevel);
      forall x | x in [a, b, c, d] ensures t !in Kept(hits, x, maxLevel) {
        KeptMembers(hits, x, maxLevel, t);
      }
      assert a in [a, b, c, d] && b in [a, b, c, d] && c in [a, b, c, d] && d in [a, b, c, d];
      Join(t, ka, kb, kc, kd);
    }
  }

  // What the enumeration lists.

  lemma {:induction false} GridMembers(face: int, level: nat, rows: nat, x: Tile)
    ensures x in Grid(face, level, rows) <==> x.face == face && x.level == level && x.i < Pow2(level) && x.j < rows
  {
    if rows > 0 {
      GridMembers(face, level, rows - 1, x);
      var r := Row(face, level, rows - 1, Pow2(level));
      if x.face == face && x.level == level && x.i < Pow2(level) && x.j == rows - 1 {
        assert r[x.i] == x;
      }
    }
  }

  /** The grid's order: rows first, then columns; faces before either. */
  predicate Leq(x: Tile, y: Tile) {
    x.face < y.face || (x.face == y.face && (x.j < y.j || (x.j == y.j && x.i <= y.i)))
  }

  ghost predicate Ordered(q: seq<Tile>) {
    forall i, j :: 0 <= i < j < |q| ==> Leq(q[i], q[j])
  }

  lemma OrderedConcat(a: seq<Tile>, b: seq<Tile>)
    requires Ordered(a) && Ordered(b) && forall x, y :: x in a && y in b ==> Leq(x, y)
    ensures Ordered(a + b)
  {
    forall i, j | 0 <= i < j < |a + b| ensures Leq((a + b)[i], (a + b)[j]) {
      if i < |a| <= j {
        assert (a + b)[i] in a && (a + b)[j] in b;
      }
    }
  }

  lemma {:induction false} GridOrdered(face: int, level: nat, rows: nat)
    ensures Ordered(Grid(face, level, rows)) && NoDup(Grid(face, level, rows))
  {
    hide Pow2;
    if rows > 0 {
      GridOrdered(face, level, rows - 1);
      var a, b := Grid(face, level, rows - 1), Row(face, level, rows - 1, Pow2(level));
      forall x | x in a ensures x.face == face && x.j < rows - 1 {
        GridMembers(face, level, rows - 1, x);
      }
      OrderedConcat(a, b);
      NoDupConcat(a, b);
    }
  }

  ghost predicate Ascending(faces: seq<int>) {
    forall a, b :: 0 <= a < b < |faces| ==> faces[a] < faces[b]
  }

  lemma {:induction false} LevelTilesMembers(faces: seq<int>, level: nat, x: Tile)
    ensures x in LevelTiles(faces, level) <==> x.face in faces && x.level == level && OnFace(x)
  {
    hide Pow2, Grid;
    if faces != [] {
      var n := |faces| - 1;
      LevelTilesMembers(faces[..n], level, x);
      GridMembers(faces[n], level, Pow2(level), x);
      assert faces == faces[..n] + [faces[n]];
    }
  }

  lemma {:induction false} LevelTilesOrdered(faces: seq<int>, level: nat)
    requires Ascending(faces)
    ensures Ordered(LevelTiles(faces, level))
  {
    hide Pow2, Grid;
    if faces != [] {
      var n := |faces| - 1;
      LevelTilesOrdered(faces[..n], level);
      GridOrdered(faces[n], level, Pow2(level));
      var a, b := LevelTiles(faces[..n], level), Grid(faces[n], level, Pow2(level));
      forall x, y | x in a && y in b ensures Leq(x, y) {
        LevelTilesMembers(faces[..n], level, x);
        GridMembers(faces[n], level, Pow2(level), y);
      }
      OrderedConcat(a, b);
    }
  }

  lemma {:induction false} FilterOrdered(q: seq<Tile>, keep: Tile -> bool)
    requires Ordered(q)
    ensures Ordered(Filter(q, keep))
  {
    if q != [] {
      var q', x := q[..|q| - 1], q[|q| - 1];
      FilterOrdered(q', keep);
      forall y | y in Filter(q', keep) ensures Leq(y, x) {
        var i :| 0 <= i < |q'| && q'[i] == y;
        assert q[i] == y;
      }
      OrderedConcat(Filter(q', keep), if keep(x) then [x] else []);
    }
  }

  /** Tiles of one level have only one ordered arrangement. */
  lemma {:induction false} OneOrder(a: seq<Tile>, b: seq<Tile>, level: nat)
    requires Ordered(a) && Ordered(b) && multiset(a) == multiset(b)
    requires forall x :: x in a ==> x.level == level
    ensures a == b
    decreases |a|
  {
    if a == [] || b == [] {
      assert |multiset(a)| == |a| && |multiset(b)| == |b|;
    } else {
      SameHead(a, b, level);
      SameTail(a, b);
      assert Ordered(a[1..]) && Ordered(b[1..]);
      assert forall x :: x in a[1..] ==> x in a;
      hide Ordered;
      OneOrder(a[1..], b[1..], level);
      assert a == [a[0]] + a[1..] && b == [b[0]] + b[1..];
    }
  }

  lemma SameTail(a: seq<Tile>, b: seq<Tile>)
    requires a != [] && b != [] && a[0] == b[0] && multiset(a) == multiset(b)
    ensures multiset(a[1..]) == multiset(b[1..])
  {
    MultisetTail(a);
    MultisetTail(b);
    assert multiset(a[1..]) == multiset(a) - multiset{a[0]};
    assert multiset(b[1..]) == multiset(b) - multiset{b[0]};
  }

  lemma SameHead(a: seq<Tile>, b: seq<Tile>, level: nat)
    requires Ordered(a) && Ordered(b) && multiset(a) == multiset(b) && a != [] && b != []
    requires forall x :: x in a ==> x.level == level
    ensures a[0] == b[0]
  {
    assert a[0] in multiset(b) && b[0] in multiset(a);
    var i :| 0 <= i < |b| && b[i] == a[0];
    var j :| 0 <= j < |a| && a[j] == b[0];
    assert Leq(a[0], a[j]) && Leq(b[0], b[i]);
  }

  function Insert(q: seq<Tile>, x: Tile): seq<Tile> {
    if q == [] || Leq(q[|q| - 1], x) then q + [x] else Insert(q[..|q| - 1], x) + [q[|q| - 1]]
  }

  /** The tiles of one level ordered by face, then j, then i. */
  function Sorted(q: seq<Tile>): seq<Tile> {
    if q == [] then [] else Insert(Sorted(q[..|q| - 1]), q[|q| - 1])
  }

  lemma {:induction false} InsertSorts(q: seq<Tile>, x: Tile)
    requires Ordered(q)
    ensures Ordered(Insert(q, x)) && multiset(Insert(q, x)) == multiset(q) + multiset{x}
  {
    if q == [] || Leq(q[|q| - 1], x) {
      OrderedConcat(q, [x]);
    } else {
      var q', y := q[..|q| - 1], q[|q| - 1];
      assert q == q' + [y];
      InsertSorts(q', x);
      forall z | z in Insert(q', x) ensures Leq(z, y) {
        assert z in multiset(Insert(q', x));
        assert z in q' || z == x;
      }
      OrderedConcat(Insert(q', x), [y]);
    }
  }

  lemma {:induction false} SortedSorts(q: seq<Tile>)
    ensures Ordered(Sorted(q)) && multiset(Sorted(q)) == multiset(q)
  {
    if q != [] {
      SortedSorts(q[..|q| - 1]);
      InsertSorts(Sorted(q[..|q| - 1]), q[|q| - 1]);
      assert q == q[..|q| - 1] + [q[|q| - 1]];
    }
  }

  // The descent against the filter.

  lemma {:induction false} RootOf(x: Tile)
    ensures OnFace(x) <==> AncestorAt(x, 0) == Root(x.face)
    decreases x.level
  {
    if x.level > 0 {
      RootOf(Parent(x));
    }
  }

  lemma {:induction false} AllKeptMembers(hits: Tile -> bool, faces: seq<int>, maxLevel: nat, x: Tile)
    ensures x in AllKept(hits, faces, maxLevel)
        <==> x.face in faces && OnFace(x) && x.level <= maxLevel && HitsFrom(hits, x, 0)
  {
    hide Kept, HitsFrom, OnFace;
    if faces != [] {
      var n := |faces| - 1;
      AllKeptMembers(hits, faces[..n], maxLevel, x);
      KeptMembers(hits, Root(faces[n]), maxLevel, x);
      RootOf(x);
      assert faces == faces[..n] + [faces[n]];
    }
  }

  /** Every tile of the level that meets the box has ancestors that all meet it too. */
  ghost predicate NotCutOff(hits: Tile -> bool, faces: seq<int>, level: nat) {
    forall x: Tile :: x.level == level && x.face in faces && OnFace(x) && hits(x) ==> HitsFrom(hits, x, 0)
  }

  lemma SameMembers(a: seq<Tile>, b: seq<Tile>)
    requires NoDup(a) && NoDup(b) && forall x :: x in a <==> x in b
    ensures multiset(a) == multiset(b)
  {
    forall x ensures multiset(a)[x] == multiset(b)[x] {
      CountNoDup(a, x);
      CountNoDup(b, x);
    }
  }

  /** On one face: what a level of the descent keeps, against what filtering the grid keeps. */
  lemma FaceLevel(hits: Tile -> bool, face: int, maxLevel: nat, level: nat)
    requires level <= maxLevel
    ensures NoDup(AtLevel(Kept(hits, Root(face), maxLevel), level))
    ensures NoDup(Filter(Grid(face, level, Pow2(level)), hits))
    ensures forall x :: x in AtLevel(Kept(hits, Root(face), maxLevel), level) ==>
                          x in Filter(Grid(face, level, Pow2(level)), hits)
    ensures NotCutOff(hits, [face], level) ==>
              forall x :: x in Filter(Grid(face, level, Pow2(level)), hits) ==>
                            x in AtLevel(Kept(hits, Root(face), maxLevel), level)
  {
    hide Kept, Grid, Pow2;
    KeptNoDup(hits, Root(face), maxLevel);
    FilterNoDup(Kept(hits, Root(face), maxLevel), (x: Tile) => x.level == level);
    GridOrdered(face, level, Pow2(level));
    FilterNoDup(Grid(face, level, Pow2(level)), hits);
    forall x: Tile
      ensures x in Kept(hits, Root(face), maxLevel)
          <==> x.face == face && OnFace(x) && x.level <= maxLevel && HitsFrom(hits, x, 0)
      ensures x in Grid(face, level, Pow2(level)) <==> x.face == face && x.level == level && OnFace(x) {
      KeptMembers(hits, Root(face), maxLevel, x);
      RootOf(x);
      GridMembers(face, level, Pow2(level), x);
    }
  }

  /** One level of the descent never keeps more than the filter does. */
  lemma {:induction false} LevelSmaller(hits: Tile -> bool, faces: seq<int>, maxLevel: nat, level: nat)
    requires level <= maxLevel
    ensures |AtLevel(AllKept(hits, faces, maxLevel), level)| <= |Filter(LevelTiles(faces, level), hits)|
  {
    hide Kept, Grid, Pow2, OnFace;
    if faces != [] {
      var n := |faces| - 1;
      LevelSmaller(hits, faces[..n], maxLevel, level);
      FaceLevel(hits, faces[n], maxLevel, level);
      var k, g := Kept(hits, Root(faces[n]), maxLevel), Grid(faces[n], level, Pow2(level));
      SubsetShorter(AtLevel(k, level), Filter(g, hits));
      FilterConcat(AllKept(hits, faces[..n], maxLevel), k, (x: Tile) => x.level == level);
      FilterConcat(LevelTiles(faces[..n], level), g, hits);
    }
  }

  lemma {:induction false} LevelSame(hits: Tile -> bool, faces: seq<int>, maxLevel: nat, level: nat)
    requires level <= maxLevel && NotCutOff(hits, faces, level)
    ensures multiset(AtLevel(AllKept(hits, faces, maxLevel), level)) == multiset(Filter(LevelTiles(faces, level), hits))
  {
    hide Kept, Grid, Pow2, OnFace;
    if faces != [] {
      var n := |faces| - 1;
      assert NotCutOff(hits, faces[..n], level) && NotCutOff(hits, [faces[n]], level);
      LevelSame(hits, faces[..n], maxLevel, level);
      FaceLevel(hits, faces[n], maxLevel, level);
      var k, g := Kept(hits, Root(faces[n]), maxLevel), Grid(faces[n], level, Pow2(level));
      SameMembers(AtLevel(k, level), Filter(g, hits));
      FilterConcat(AllKept(hits, faces[..n], maxLevel), k, (x: Tile) => x.level == level);
      FilterConcat(LevelTiles(faces[..n], level), g, hits);
    }
  }

  /** What the descent hands back: each level's tiles sorted, coarse first. */
  function Collected(kept: seq<Tile>, minLevel: nat, upTo: nat): seq<Tile> {
    if upTo <= minLevel then [] else Collected(kept, minLevel, upTo - 1) + Sorted(AtLevel(kept, upTo - 1))
  }

  lemma SortedMembers(q: seq<Tile>, x: Tile)
    ensures x in Sorted(q) <==> x in q
  {
    hide Sorted;
    SortedSorts(q);
    assert x in Sorted(q) <==> x in multiset(Sorted(q));
  }

  lemma {:induction false} CollectedMembers(kept: seq<Tile>, minLevel: nat, upTo: nat, x: Tile)
    ensures x in Collected(kept, minLevel, upTo) <==> x in kept && minLevel <= x.level < upTo
  {
    hide Sorted;
    if upTo > minLevel {
      CollectedMembers(kept, minLevel, upTo - 1, x);
      SortedMembers(AtLevel(kept, upTo - 1), x);
    }
  }

  lemma {:induction false} EnumerationMembers(faces: seq<int>, minLevel: nat, upTo: nat, x: Tile)
    ensures x in Enumeration(faces, minLevel, upTo) <==> x.face in faces && OnFace(x) && minLevel <= x.level < upTo
  {
    hide OnFace, LevelTiles;
    if upTo > minLevel {
      EnumerationMembers(faces, minLevel, upTo - 1, x);
      LevelTilesMembers(faces, upTo - 1, x);
    }
  }

  ghost predicate NoneCutOff(hits: Tile -> bool, faces: seq<int>, minLevel: nat, upTo: nat) {
    forall level :: minLevel <= level < upTo ==> NotCutOff(hits, faces, level)
  }

  /** A descent that lost nothing lists the same tiles as the filter, whatever the faces. */
  lemma {:induction false} SameTiles(hits: Tile -> bool, faces: seq<int>, maxLevel: nat, minLevel: nat, upTo: nat)
    requires upTo <= maxLevel + 1 && NoneCutOff(hits, faces, minLevel, upTo)
    ensures multiset(Collected(AllKept(hits, faces, maxLevel), minLevel, upTo))
         == multiset(Filter(Enumeration(faces, minLevel, upTo), hits))
  {
    hide AllKept, LevelTiles, NotCutOff, Sorted, Filter, AtLevel, Ordered;
    if upTo > minLevel {
      SameTiles(hits, faces, maxLevel, minLevel, upTo - 1);
      LevelSame(hits, faces, maxLevel, upTo - 1);
      SortedSorts(AtLevel(AllKept(hits, faces, maxLevel), upTo - 1));
      FilterConcat(Enumeration(faces, minLevel, upTo - 1), LevelTiles(faces, upTo - 1), hits);
    }
  }

  /** What the filter keeps of every level is already in the descent's order. */
  ghost predicate LevelsOrdered(hits: Tile -> bool, faces: seq<int>, minLevel: nat, upTo: nat) {
    forall level: nat :: minLevel <= level < upTo ==> Ordered(Filter(LevelTiles(faces, level), hits))
  }

  /** On one level: the sorted list is the filtered one exactly when the filtered one is ordered. */
  lemma LevelOrder(hits: Tile -> bool, faces: seq<int>, maxLevel: nat, level: nat)
    requires level <= maxLevel && NotCutOff(hits, faces, level)
    ensures var k, f := Sorted(AtLevel(AllKept(hits, faces, maxLevel), level)), Filter(LevelTiles(faces, level), hits);
            |k| == |f| && (k == f <==> Ordered(f))
  {
    hide AllKept, LevelTiles, NotCutOff, Ordered, Sorted, Filter;
    LevelSame(hits, faces, maxLevel, level);
    var k := AtLevel(AllKept(hits, faces, maxLevel), level);
    var f := Filter(LevelTiles(faces, level), hits);
    SortedSorts(k);
    assert |Sorted(k)| == |multiset(Sorted(k))| == |multiset(f)| == |f|;
    if Ordered(f) {
      forall x | x in Sorted(k) ensures x.level == level {
        SortedMembers(k, x);
      }
      OneOrder(Sorted(k), f, level);
    }
  }

  lemma SameParts<T>(a: seq<T>, b: seq<T>, c: seq<T>, d: seq<T>)
    requires |b| == |d|
    ensures a + b == c + d <==> a == c && b == d
  {
    if a + b == c + d {
      assert |a| == |c|;
      assert (a + b)[..|a|] == a && (c + d)[..|a|] == c && (a + b)[|a|..] == b && (c + d)[|a|..] == d;
    }
  }

  /** A descent that lost nothing lists the tiles in the filter's order exactly when each level's are ordered. */
  lemma {:induction false} SameOrder(hits: Tile -> bool, faces: seq<int>, maxLevel: nat, minLevel: nat, upTo: nat)
    requires upTo <= maxLevel + 1 && NoneCutOff(hits, faces, minLevel, upTo)
    ensures Collected(AllKept(hits, faces, maxLevel), minLevel, upTo) == Filter(Enumeration(faces, minLevel, upTo), hits)
        <==> LevelsOrdered(hits, faces, minLevel, upTo)
  {
    hide AllKept, LevelTiles, NotCutOff, Ordered, Sorted, Filter, AtLevel;
    if upTo <= minLevel {
      FilterEmpty(hits);
    } else {
      var l := upTo - 1;
      SameOrder(hits, faces, maxLevel, minLevel, l);
      LevelOrder(hits, faces, maxLevel, l);
      FilterConcat(Enumeration(faces, minLevel, l), LevelTiles(faces, l), hits);
      SameParts(Collected(AllKept(hits, faces, maxLevel), minLevel, l), Sorted(AtLevel(AllKept(hits, faces, maxLevel), l)),
                Filter(Enumeration(faces, minLevel, l), hits), Filter(LevelTiles(faces, l), hits));
    }
  }

  /** If nothing the filter lists is missing, no tile that meets the box sits under one that does not. */
  lemma NothingMissing(hits: Tile -> bool, faces: seq<int>, maxLevel: nat, minLevel: nat, upTo: nat)
    requires upTo <= maxLevel + 1
    requires multiset(Collected(AllKept(hits, faces, maxLevel), minLevel, upTo))
          == multiset(Filter(Enumeration(faces, minLevel, upTo), hits))
    ensures NoneCutOff(hits, faces, minLevel, upTo)
  {
    hide AllKept, Collected, Enumeration, OnFace, HitsFrom;
    var c, e := Collected(AllKept(hits, faces, maxLevel), minLevel, upTo), Enumeration(faces, minLevel, upTo);
    forall x: Tile | x.face in faces && OnFace(x) && hits(x) && minLevel <= x.level < upTo ensures HitsFrom(hits, x, 0) {
      EnumerationMembers(faces, minLevel, upTo, x);
      assert x in multiset(Filter(e, hits)) && x in multiset(c);
      CollectedMembers(AllKept(hits, faces, maxLevel), minLevel, upTo, x);
      AllKeptMembers(hits, faces, maxLevel, x);
    }
  }

  /**
   The descent selects exactly the tiles that filtering the whole enumeration selects, if and only if no
   tile that meets the box has an ancestor whose bounds miss it; and it lists them in the same order if
   and only if, besides, what the filter keeps of each level is ordered by face, then j, then i.
   */
  lemma DescentIsTheFilter(hits: Tile -> bool, faces: seq<int>, minLevel: nat, maxLevel: nat)
    ensures multiset(Collected(AllKept(hits, faces, maxLevel), minLevel, maxLevel + 1))
         == multiset(Filter(Enumeration(faces, minLevel, maxLevel + 1), hits))
        <==> NoneCutOff(hits, faces, minLevel, maxLevel + 1)
    ensures Collected(AllKept(hits, faces, maxLevel), minLevel, maxLevel + 1)
         == Filter(Enumeration(faces, minLevel, maxLevel + 1), hits)
        <==> NoneCutOff(hits, faces, minLevel, maxLevel + 1) && LevelsOrdered(hits, faces, minLevel, maxLevel + 1)
  {
    hide *;
    if NoneCutOff(hits, faces, minLevel, maxLevel + 1) {
      SameTiles(hits, faces, maxLevel, minLevel, maxLevel + 1);
      SameOrder(hits, faces, maxLevel, minLevel, maxLevel + 1);
    } else if multiset(Collected(AllKept(hits, faces, maxLevel), minLevel, maxLevel + 1))
        == multiset(Filter(Enumeration(faces, minLevel, maxLevel + 1), hits)) {
      NothingMissing(hits, faces, maxLevel, minLevel, maxLevel + 1);
    }
  }

  /** Every tile's bounds lie within its parent's. */
  ghost predicate Nested(bounds: Tile -> Box) {
    forall x: Tile :: x.level > 0 && OnFace(x) ==> Inside(bounds(x), bounds(Parent(x)))
  }

  function Hits(bounds: Tile -> Box, box: Box): Tile -> bool {
    (x: Tile) => Intersects(bounds(x), box)
  }

  lemma {:induction false} NestedHits(bounds: Tile -> Box, box: Box, x: Tile)
    requires Nested(bounds) && OnFace(x) && Hits(bounds, box)(x)
    ensures HitsFrom(Hits(bounds, box), x, 0)
    decreases x.level
  {
    if x.level > 0 {
      assert Inside(bounds(x), bounds(Parent(x)));
      NestedHits(bounds, box, Parent(x));
    }
  }

  /** Bounds that nest never cut anything off. */
  lemma NestingSuffices(bounds: Tile -> Box, box: Box, faces: seq<int>, minLevel: nat, upTo: nat)
    requires Nested(bounds)
    ensures NoneCutOff(Hits(bounds, box), faces, minLevel, upTo)
  {
    forall x: Tile | OnFace(x) && Hits(bounds, box)(x) ensures HitsFrom(Hits(bounds, box), x, 0) {
      NestedHits(bounds, box, x);
    }
  }

  // When the order matches for every box.

  ghost predicate NonDescending(faces: seq<int>) {
    forall a, b :: 0 <= a < b < |faces| ==> faces[a] <= faces[b]
  }

  /** Each face after the ones below it; a repeated face is harmless only when its grid is a single tile. */
  ghost predicate FacesInOrder(faces: seq<int>, maxLevel: nat) {
    if maxLevel == 0 then NonDescending(faces) else Ascending(faces)
  }

  /** Whatever the tiles that meet the box, provided none is cut off, the descent keeps the enumeration's order. */
  ghost predicate OrderAlwaysMatches(faces: seq<int>, minLevel: nat, maxLevel: nat) {
    forall hits: Tile -> bool :: NoneCutOff(hits, faces, minLevel, maxLevel + 1) ==>
      Collected(AllKept(hits, faces, maxLevel), minLevel, maxLevel + 1)
      == Filter(Enumeration(faces, minLevel, maxLevel + 1), hits)
  }

  /** The same, of bounds that nest and any box. */
  ghost predicate BoxOrderAlwaysMatches(faces: seq<int>, minLevel: nat, maxLevel: nat) {
    forall bounds: Tile -> Box, box: Box :: Nested(bounds) ==>
      Collected(AllKept(Hits(bounds, box), faces, maxLevel), minLevel, maxLevel + 1)
      == Filter(Enumeration(faces, minLevel, maxLevel + 1), Hits(bounds, box))
  }

  lemma {:induction false} RootsOrdered(faces: seq<int>)
    requires NonDescending(faces)
    ensures Ordered(LevelTiles(faces, 0))
  {
    hide Grid;
    if faces != [] {
      var n := |faces| - 1;
      RootsOrdered(faces[..n]);
      RootLevel(faces[n]);
      forall x | x in LevelTiles(faces[..n], 0) ensures Leq(x, Root(faces[n])) {
        LevelTilesMembers(faces[..n], 0, x);
      }
      OrderedConcat(LevelTiles(faces[..n], 0), [Root(faces[n])]);
    }
  }

  /** In an ordered level, whatever is on an earlier face of the list precedes whatever is on a later one. */
  lemma {:induction false} EarlierFaceFirst(faces: seq<int>, level: nat, a: nat, b: nat, x: Tile, y: Tile)
    requires Ordered(LevelTiles(faces, level)) && a < b < |faces|
    requires x.level == y.level == level && OnFace(x) && OnFace(y) && x.face == faces[a] && y.face == faces[b]
    ensures Leq(x, y)
  {
    hide Grid, OnFace;
    var n := |faces| - 1;
    var front, last := LevelTiles(faces[..n], level), Grid(faces[n], level, Pow2(level));
    var all := LevelTiles(faces, level);
    LevelTilesMembers(faces[..n], level, x);
    if b == n {
      InGrid(y);
      assert faces[..n][a] == x.face;
      var i :| 0 <= i < |front| && front[i] == x;
      var j :| 0 <= j < |last| && last[j] == y;
      assert all[i] == x && all[|front| + j] == y;
    } else {
      assert forall i, j :: 0 <= i < j < |front| ==> front[i] == all[i] && front[j] == all[j];
      EarlierFaceFirst(faces[..n], level, a, b, x, y);
    }
  }

  lemma InGrid(y: Tile)
    requires OnFace(y)
    ensures y in Grid(y.face, y.level, Pow2(y.level))
  {
    GridMembers(y.face, y.level, Pow2(y.level), y);
  }

  /** A whole level in order forces the faces into order. */
  lemma OrderForcesFaces(faces: seq<int>, level: nat)
    requires Ordered(LevelTiles(faces, level))
    ensures FacesInOrder(faces, level)
  {
    var n := Pow2(level) - 1;
    forall a, b | 0 <= a < b < |faces| ensures faces[a] <= faces[b] && (level > 0 ==> faces[a] < faces[b]) {
      EarlierFaceFirst(faces, level, a, b, Tile(faces[a], level, n, n), Tile(faces[b], level, 0, 0));
    }
  }

  lemma FacesMakeOrder(hits: Tile -> bool, faces: seq<int>, minLevel: nat, maxLevel: nat)
    requires FacesInOrder(faces, maxLevel)
    ensures LevelsOrdered(hits, faces, minLevel, maxLevel + 1)
  {
    hide LevelTiles, Filter, Ordered;
    forall level: nat | minLevel <= level < maxLevel + 1 ensures Ordered(Filter(LevelTiles(faces, level), hits)) {
      if maxLevel == 0 {
        RootsOrdered(faces);
      } else {
        LevelTilesOrdered(faces, level);
      }
      FilterOrdered(LevelTiles(faces, level), hits);
    }
  }

  lemma {:induction false} KeepEverything(q: seq<Tile>, keep: Tile -> bool)
    requires forall x :: keep(x)
    ensures Filter(q, keep) == q
  {
    hide Filter;
    FilterEmpty(keep);
    if q != [] {
      var n := |q| - 1;
      KeepEverything(q[..n], keep);
      FilterAppend(q[..n], q[n], keep);
      assert q == q[..n] + [q[n]];
    }
  }

  /** When every tile meets the box, only faces in order keep the order. */
  lemma EverythingHitsNeedsOrder(hits: Tile -> bool, faces: seq<int>, minLevel: nat, maxLevel: nat)
    requires minLevel <= maxLevel && (forall x :: hits(x))
    requires LevelsOrdered(hits, faces, minLevel, maxLevel + 1)
    ensures FacesInOrder(faces, maxLevel)
  {
    hide LevelTiles, Filter, Ordered, FacesInOrder;
    KeepEverything(LevelTiles(faces, maxLevel), hits);
    OrderForcesFaces(faces, maxLevel);
  }

  const GLOBE := Box(-90.0, -180.0, 90.0, 180.0)

  /** The coarsest bounds there are: every tile might be anywhere. */
  function Everywhere(): Tile -> Box {
    (x: Tile) => GLOBE
  }

  lemma EverywhereMeetsGlobe()
    ensures Nested(Everywhere()) && forall x :: Hits(Everywhere(), GLOBE)(x)
  {
    var e := Everywhere();
    assert forall x :: e(x) == GLOBE;
    forall x ensures Hits(e, GLOBE)(x) {
      assert Intersects(e(x), GLOBE);
    }
  }

  lemma FacesInOrderSuffice(faces: seq<int>, minLevel: nat, maxLevel: nat)
    requires FacesInOrder(faces, maxLevel)
    ensures OrderAlwaysMatches(faces, minLevel, maxLevel)
  {
    hide FacesInOrder, LevelsOrdered, NoneCutOff, Collected, AllKept, Enumeration, Filter;
    forall hits: Tile -> bool | NoneCutOff(hits, faces, minLevel, maxLevel + 1)
      ensures Collected(AllKept(hits, faces, maxLevel), minLevel, maxLevel + 1)
           == Filter(Enumeration(faces, minLevel, maxLevel + 1), hits) {
      FacesMakeOrder(hits, faces, minLevel, maxLevel);
      DescentIsTheFilter(hits, faces, minLevel, maxLevel);
    }
  }

  lemma BoxesAreSelections(faces: seq<int>, minLevel: nat, maxLevel: nat)
    requires OrderAlwaysMatches(faces, minLevel, maxLevel)
    ensures BoxOrderAlwaysMatches(faces, minLevel, maxLevel)
  {
    hide NoneCutOff, Collected, AllKept, Enumeration, Filter, Nested, Hits;
    forall bounds: Tile -> Box, box: Box | Nested(bounds)
      ensures Collected(AllKept(Hits(bounds, box), faces, maxLevel), minLevel, maxLevel + 1)
           == Filter(Enumeration(faces, minLevel, maxLevel + 1), Hits(bounds, box)) {
      NestingSuffices(bounds, box, faces, minLevel, maxLevel + 1);
    }
  }

  lemma BoxesNeedFacesInOrder(faces: seq<int>, minLevel: nat, maxLevel: nat)
    requires minLevel <= maxLevel && BoxOrderAlwaysMatches(faces, minLevel, maxLevel)
    ensures FacesInOrder(faces, maxLevel)
  {
    hide FacesInOrder, LevelsOrdered, NoneCutOff, Collected, AllKept, Enumeration, Filter, Nested, Hits, Everywhere;
    EverywhereMeetsGlobe();
    var hits := Hits(Everywhere(), GLOBE);
    DescentIsTheFilter(hits, faces, minLevel, maxLevel);
    EverythingHitsNeedsOrder(hits, faces, minLevel, maxLevel);
  }

  /**
   The order matches the enumeration's for every box if and only if the faces are given in order: strictly
   ascending, or merely not descending when only the face roots are asked for. The same condition decides
   it for bounds that nest and for any selection that cuts nothing off.
   */
  lemma OrderMatchesIffFacesInOrder(faces: seq<int>, minLevel: nat, maxLevel: nat)
    requires minLevel <= maxLevel
    ensures OrderAlwaysMatches(faces, minLevel, maxLevel) <==> FacesInOrder(faces, maxLevel)
    ensures BoxOrderAlwaysMatches(faces, minLevel, maxLevel) <==> FacesInOrder(faces, maxLevel)
  {
    hide *;
    if FacesInOrder(faces, maxLevel) {
      FacesInOrderSuffice(faces, minLevel, maxLevel);
    }
    if OrderAlwaysMatches(faces, minLevel, maxLevel) {
      BoxesAreSelections(faces, minLevel, maxLevel);
    }
    if BoxOrderAlwaysMatches(faces, minLevel, maxLevel) {
      BoxesNeedFacesInOrder(faces, minLevel, maxLevel);
    }
  }

  // The cost of the descent.

  function AllTests(hits: Tile -> bool, faces: seq<int>, maxLevel: nat): nat {
    if faces == [] then 0 else AllTests(hits, faces[..|faces| - 1], maxLevel) + Tests(hits, Root(faces[|faces| - 1]), maxLevel)
  }

  function Above(q: seq<Tile>, level: nat): seq<Tile> {
    Filter(q, (x: Tile) => x.level < level)
  }

  lemma AboveConcat(a: seq<Tile>, b: seq<Tile>, level: nat)
    ensures Above(a + b, level) == Above(a, level) + Above(b, level)
  {
    FilterConcat(a, b, (x: Tile) => x.level < level);
  }

  /** Each kept tile above the deepest level costs four tests; the root costs the first. */
  lemma {:induction false} TestsAreFourPerTile(hits: Tile -> bool, t: Tile, maxLevel: nat)
    requires t.level <= maxLevel
    ensures Tests(hits, t, maxLevel) == 1 + 4 * |Above(Kept(hits, t, maxLevel), maxLevel)|
    decreases maxLevel - t.level
  {
    hide Filter;
    AboveOne(t, maxLevel);
    if hits(t) && t.level < maxLevel {
      var a, b, c, d := Child(t, 0, 0), Child(t, 1, 0), Child(t, 0, 1), Child(t, 1, 1);
      var ka, kb, kc, kd := Kept(hits, a, maxLevel), Kept(hits, b, maxLevel), Kept(hits, c, maxLevel), Kept(hits, d, maxLevel);
      TestsAreFourPerTile(hits, a, maxLevel);
      TestsAreFourPerTile(hits, b, maxLevel);
      TestsAreFourPerTile(hits, c, maxLevel);
      TestsAreFourPerTile(hits, d, maxLevel);
      AboveConcat(ka, kb, maxLevel);
      AboveConcat(kc, kd, maxLevel);
      AboveConcat(ka + kb, kc + kd, maxLevel);
      AboveConcat([t], ka + kb + (kc + kd), maxLevel);
    }
  }

  lemma AboveOne(t: Tile, level: nat)
    ensures Above([t], level) == if t.level < level then [t] else []
    ensures Above([], level) == []
  {
    FilterAppend([], t, (x: Tile) => x.level < level);
    assert [] + [t] == [t];
  }

  lemma {:induction false} AboveByLevel(q: seq<Tile>, level: nat)
    ensures |Above(q, level + 1)| == |Above(q, level)| + |AtLevel(q, level)|
  {
    if q != [] {
      AboveByLevel(q[..|q| - 1], level);
    }
  }

  lemma {:induction false} AboveSmaller(hits: Tile -> bool, faces: seq<int>, maxLevel: nat, level: nat)
    requires level <= maxLevel
    ensures |Above(AllKept(hits, faces, maxLevel), level)| <= |Filter(Enumeration(faces, 0, level), hits)|
  {
    hide AllKept, LevelTiles;
    var k := AllKept(hits, faces, maxLevel);
    if level == 0 {
      NothingAbove(k);
    } else {
      AboveSmaller(hits, faces, maxLevel, level - 1);
      AboveByLevel(k, level - 1);
      LevelSmaller(hits, faces, maxLevel, level - 1);
      FilterConcat(Enumeration(faces, 0, level - 1), LevelTiles(faces, level - 1), hits);
    }
  }

  lemma {:induction false} NothingAbove(q: seq<Tile>)
    ensures Above(q, 0) == []
  {
    if q != [] {
      NothingAbove(q[..|q| - 1]);
    }
  }

  lemma {:induction false} AllTestsCount(hits: Tile -> bool, faces: seq<int>, maxLevel: nat)
    ensures AllTests(hits, faces, maxLevel) == |faces| + 4 * |Above(AllKept(hits, faces, maxLevel), maxLevel)|
  {
    hide Kept, Tests, Filter;
    if faces == [] {
      AboveOne(Root(0), maxLevel);
    } else {
      var n := |faces| - 1;
      AllTestsCount(hits, faces[..n], maxLevel);
      TestsAreFourPerTile(hits, Root(faces[n]), maxLevel);
      AboveConcat(AllKept(hits, faces[..n], maxLevel), Kept(hits, Root(faces[n]), maxLevel), maxLevel);
    }
  }

  /** One test per face, and four per tile above the deepest level that meets the box, at most. */
  lemma TestsBounded(hits: Tile -> bool, faces: seq<int>, maxLevel: nat)
    ensures AllTests(hits, faces, maxLevel) <= |faces| + 4 * |Filter(Enumeration(faces, 0, maxLevel), hits)|
  {
    AllTestsCount(hits, faces, maxLevel);
    AboveSmaller(hits, faces, maxLevel, maxLevel);
  }

  lemma RootLevel(face: int)
    ensures Grid(face, 0, Pow2(0)) == [Root(face)]
  {
    assert Pow2(0) == 1 && Row(face, 0, 0, 1) == [Root(face)] && Grid(face, 0, 0) == [];
  }

  lemma RootLevelOf(hi: int, lo: int)
    ensures Enumeration([hi, lo], 0, 1) == [Root(hi), Root(lo)]
  {
    hide Grid, Row, Pow2;
    RootLevel(hi);
    RootLevel(lo);
    assert [hi, lo][..1] == [hi] && [hi][..0] == [];
    assert LevelTiles([hi], 0) == [Root(hi)];
    assert Enumeration([hi, lo], 0, 0) == [];
  }

  lemma KeptPair(hits: Tile -> bool, hi: int, lo: int)
    requires hits(Root(lo)) && hits(Root(hi))
    ensures AllKept(hits, [hi, lo], 0) == [Root(hi), Root(lo)]
  {
    assert [hi, lo][..1] == [hi] && [hi][..0] == [];
    assert AllKept(hits, [hi], 0) == [Root(hi)];
  }

  /** A witness: two faces out of order are put back in order by the descent but not by the enumeration. */
  lemma UnorderedFacesDiffer(hits: Tile -> bool, hi: int, lo: int)
    requires lo < hi && hits(Root(lo)) && hits(Root(hi))
    ensures Collected(AllKept(hits, [hi, lo], 0), 0, 1) == [Root(lo), Root(hi)]
    ensures Filter(Enumeration([hi, lo], 0, 1), hits) == [Root(hi), Root(lo)]
  {
    hide AllKept, Enumeration, Filter;
    RootLevelOf(hi, lo);
    KeptPair(hits, hi, lo);
    FilterPair(Root(hi), Root(lo), hits);
    FilterPair(Root(hi), Root(lo), (x: Tile) => x.level == 0);
    var q := [Root(hi), Root(lo)];
    assert q[..1] == [Root(hi)] && q[..1][..0] == [];
    assert Sorted(q[..1]) == [Root(hi)];
    assert Sorted(q) == Insert([Root(hi)], Root(lo)) == [Root(lo), Root(hi)];
    assert Collected(q, 0, 0) == [];
  }

  /** `after` is `before` with the tiles of q appended, each to its level's list. */
  ghost predicate Extended(before: map<nat, seq<Tile>>, q: seq<Tile>, after: map<nat, seq<Tile>>) {
    after.Keys == before.Keys && forall l :: l in before ==> after[l] == before[l] + AtLevel(q, l)
  }

  lemma ExtendedByNothing(m: map<nat, seq<Tile>>)
    ensures Extended(m, [], m)
  {
  }

  lemma ExtendedByOne(m: map<nat, seq<Tile>>, t: Tile)
    ensures Extended(m, [t], if t.level in m then m[t.level := m[t.level] + [t]] else m)
  {
    forall l | l in m ensures AtLevel([t], l) == if l == t.level then [t] else [] {
      FilterAppend([], t, (x: Tile) => x.level == l);
      assert [] + [t] == [t];
    }
  }

  lemma ExtendedByMore(a: map<nat, seq<Tile>>, q: seq<Tile>, b: map<nat, seq<Tile>>, q': seq<Tile>, c: map<nat, seq<Tile>>)
    requires Extended(a, q, b) && Extended(b, q', c)
    ensures Extended(a, q + q', c)
  {
    hide Filter;
    forall l | l in a ensures c[l] == a[l] + AtLevel(q + q', l) {
      FilterConcat(q, q', (x: Tile) => x.level == l);
      assert b[l] == a[l] + AtLevel(q, l) && c[l] == b[l] + AtLevel(q', l);
    }
  }

  function EmptyTable(minLevel: nat, upTo: nat): (m: map<nat, seq<Tile>>)
    ensures forall l: nat :: l in m <==> minLevel <= l < upTo
    ensures forall l :: l in m ==> m[l] == []
  {
    if upTo <= minLevel then map[] else EmptyTable(minLevel, upTo - 1)[upTo - 1 := []]
  }

  /** The table of kept tiles by level that the descent fills. */
  class Descent {
    var byLevel: map<nat, seq<Tile>>
    /** How many tiles' bounds have been tested. */
    ghost var tests: nat

    constructor (minLevel: nat, maxLevel: nat)
      ensures byLevel == EmptyTable(minLevel, maxLevel + 1) && tests == 0
    {
      byLevel := EmptyTable(minLevel, maxLevel + 1);
      tests := 0;
    }

    /** Test t and, if it meets the box, record it and go on to its children, row by row. */
    method Descend(bounds: Tile -> Box, box: Box, minLevel: nat, maxLevel: nat, t: Tile)
      requires t.level <= maxLevel && forall l: nat :: l in byLevel <==> minLevel <= l <= maxLevel
      modifies this
      ensures Extended(old(byLevel), Kept(Hits(bounds, box), t, maxLevel), byLevel)
      ensures byLevel.Keys == old(byLevel.Keys)
      ensures tests == old(tests) + Tests(Hits(bounds, box), t, maxLevel)
      decreases maxLevel - t.level
    {
      hide Extended;
      ghost var a, hits := byLevel, Hits(bounds, box);
      tests := tests + 1;
      ExtendedByNothing(a);
      if !Intersects(bounds(t), box) {
        return;
      }
      ExtendedByOne(a, t);
      if t.level >= minLevel {
        byLevel := byLevel[t.level := byLevel[t.level] + [t]];
      }
      if t.level < maxLevel {
        ghost var b := byLevel;
        DescendInto(bounds, box, minLevel, maxLevel, t, 0);
        ghost var c := byLevel;
        DescendInto(bounds, box, minLevel, maxLevel, t, 1);
        ghost var k0, k1 := PairKept(hits, t, maxLevel, 0), PairKept(hits, t, maxLevel, 1);
        ExtendedByMore(b, k0, c, k1, byLevel);
        ExtendedByMore(a, [t], b, k0 + k1, byLevel);
      }
    }

    method DescendInto(bounds: Tile -> Box, box: Box, minLevel: nat, maxLevel: nat, t: Tile, dj: nat)
      requires t.level < maxLevel && forall l: nat :: l in byLevel <==> minLevel <= l <= maxLevel
      modifies this
      ensures Extended(old(byLevel), PairKept(Hits(bounds, box), t, maxLevel, dj), byLevel)
      ensures byLevel.Keys == old(byLevel.Keys)
      ensures tests == old(tests) + Tests(Hits(bounds, box), Child(t, 0, dj), maxLevel)
                       + Tests(Hits(bounds, box), Child(t, 1, dj), maxLevel)
      decreases maxLevel - t.level, 0
    {
      ghost var a, hits := byLevel, Hits(bounds, box);
      Descend(bounds, box, minLevel, maxLevel, Child(t, 0, dj));
      ghost var b := byLevel;
      Descend(bounds, box, minLevel, maxLevel, Child(t, 1, dj));
      ExtendedByMore(a, Kept(hits, Child(t, 0, dj), maxLevel), b, Kept(hits, Child(t, 1, dj), maxLevel), byLevel);
    }
  }

  function PairKept(hits: Tile -> bool, t: Tile, maxLevel: nat, dj: nat): seq<Tile> {
    Kept(hits, Child(t, 0, dj), maxLevel) + Kept(hits, Child(t, 1, dj), maxLevel)
  }

  /** Descend from every face's root in turn. */
  method DescendAll(bounds: Tile -> Box, faces: seq<int>, minLevel: nat, maxLevel: nat, box: Box)
    returns (byLevel: map<nat, seq<Tile>>, ghost tests: nat)
    ensures Extended(EmptyTable(minLevel, maxLevel + 1), AllKept(Hits(bounds, box), faces, maxLevel), byLevel)
    ensures tests == AllTests(Hits(bounds, box), faces, maxLevel)
  {
    hide Extended;
    ghost var hits, empty := Hits(bounds, box), EmptyTable(minLevel, maxLevel + 1);
    var d := new Descent(minLevel, maxLevel);
    ExtendedByNothing(empty);
    var f := 0;
    while f < |faces|
      invariant 0 <= f <= |faces| && d.byLevel.Keys == empty.Keys
      invariant Extended(empty, AllKept(hits, faces[..f], maxLevel), d.byLevel)
      invariant d.tests == AllTests(hits, faces[..f], maxLevel)
    {
      ghost var a := d.byLevel;
      d.Descend(bounds, box, minLevel, maxLevel, Root(faces[f]));
      assert faces[..f + 1][..f] == faces[..f];
      ExtendedByMore(empty, AllKept(hits, faces[..f], maxLevel), a, Kept(hits, Root(faces[f]), maxLevel), d.byLevel);
      f := f + 1;
    }
    assert faces[..f] == faces;
    byLevel, tests := d.byLevel, d.tests;
  }

  lemma EntryOf(byLevel: map<nat, seq<Tile>>, kept: seq<Tile>, minLevel: nat, maxLevel: nat, level: nat)
    requires Extended(EmptyTable(minLevel, maxLevel + 1), kept, byLevel) && minLevel <= level <= maxLevel
    ensures level in byLevel && byLevel[level] == AtLevel(kept, level)
  {
    assert level in EmptyTable(minLevel, maxLevel + 1);
  }

  /** Sort each level's list and join them, coarse first. */
  method Gather(byLevel: map<nat, seq<Tile>>, ghost kept: seq<Tile>, minLevel: nat, maxLevel: nat) returns (out: seq<Tile>)
    requires Extended(EmptyTable(minLevel, maxLevel + 1), kept, byLevel)
    ensures out == Collected(kept, minLevel, maxLevel + 1)
  {
    hide Extended, EmptyTable, AtLevel, Sorted;
    out := [];
    var level := minLevel;
    while level < maxLevel + 1
      invariant level == minLevel || minLevel < level <= maxLevel + 1
      invariant out == Collected(kept, minLevel, level)
    {
      EntryOf(byLevel, kept, minLevel, maxLevel, level);
      out := out + Sorted(byLevel[level]);
      level := level + 1;
    }
  }

  /** Under nesting, the descent ends up with the tiles of the level range that share a point with the box. */
  lemma SelectedShareAPoint(bounds: Tile -> Box, faces: seq<int>, minLevel: nat, maxLevel: nat, box: Box, x: Tile)
    requires Nested(bounds) && (forall y :: OnFace(y) ==> Proper(bounds(y))) && Proper(box)
    ensures x in Collected(AllKept(Hits(bounds, box), faces, maxLevel), minLevel, maxLevel + 1)
        <==> && x.face in faces && OnFace(x) && minLevel <= x.level <= maxLevel
             && exists p: Point :: && bounds(x).latMin <= p.lat <= bounds(x).latMax
                                   && bounds(x).lonMin <= p.lon <= bounds(x).lonMax
                                   && box.latMin <= p.lat <= box.latMax && box.lonMin <= p.lon <= box.lonMax
  {
    hide Collected, AllKept, Intersects, OnFace, HitsFrom, Nested;
    CollectedMembers(AllKept(Hits(bounds, box), faces, maxLevel), minLevel, maxLevel + 1, x);
    AllKeptMembers(Hits(bounds, box), faces, maxLevel, x);
    if OnFace(x) {
      IntersectsIffPointShared(bounds(x), box);
      if Hits(bounds, box)(x) {
        NestedHits(bounds, box, x);
      } else {
        HitsItself(Hits(bounds, box), x, 0);
      }
    }
  }

  lemma HitsItself(hits: Tile -> bool, x: Tile, level: nat)
    requires level <= x.level
    ensures HitsFrom(hits, x, level) ==> hits(x)
  {
  }

  /** The tiles covering a box, found by descending the quadtree. */
  method BboxTiles(bounds: Tile -> Box, faces: seq<int>, minLevel: nat, maxLevel: nat, box: Box)
    returns (r: Selection, ghost tests: nat)
    ensures r.BadBox? <==> box.latMin > box.latMax || box.lonMin > box.lonMax
    ensures r.Tiles? ==> r.tiles == Collected(AllKept(Hits(bounds, box), faces, maxLevel), minLevel, maxLevel + 1)
    ensures r.Tiles? ==> tests == AllTests(Hits(bounds, box), faces, maxLevel)
    ensures r.Tiles? && Nested(bounds) && (forall y :: OnFace(y) ==> Proper(bounds(y))) ==>
              forall x :: x in r.tiles
                <==> && x.face in faces && OnFace(x) && minLevel <= x.level <= maxLevel
                     && exists p: Point :: && bounds(x).latMin <= p.lat <= bounds(x).latMax
                                           && bounds(x).lonMin <= p.lon <= bounds(x).lonMax
                                           && box.latMin <= p.lat <= box.latMax && box.lonMin <= p.lon <= box.lonMax
  {
    hide Collected, AllKept, Hits, Nested, OnFace;
    if box.latMin > box.latMax || box.lonMin > box.lonMax {
      return BadBox, 0;
    }
    var byLevel;
    byLevel, tests := DescendAll(bounds, faces, minLevel, maxLevel, box);
    var out := Gather(byLevel, AllKept(Hits(bounds, box), faces, maxLevel), minLevel, maxLevel);
    r := Tiles(out);
    if Nested(bounds) && (forall y :: OnFace(y) ==> Proper(bounds(y))) {
      forall x: Tile {
        SelectedShareAPoint(bounds, faces, minLevel, maxLevel, box, x);
      }
    }
  }

  /** With or without a box, what a caller asking for tiles is given. */
  method SelectTiles(bounds: Tile -> Box, faces: seq<int>, minLevel: nat, maxLevel: nat, box: seq<Box>) returns (r: Selection)
    requires |box| <= 1
    ensures box == [] ==> r == Tiles(Enumeration(faces, minLevel, maxLevel + 1))
    ensures r.BadBox? <==> box != [] && (box[0].latMin > box[0].latMax || box[0].lonMin > box[0].lonMax)
    ensures box != [] && r.Tiles? && Nested(bounds) && (forall y :: OnFace(y) ==> Proper(bounds(y))) ==>
              forall x :: x in r.tiles
                <==> && x.face in faces && OnFace(x) && minLevel <= x.level <= maxLevel
                     && exists p: Point :: && bounds(x).latMin <= p.lat <= bounds(x).latMax
                                           && bounds(x).lonMin <= p.lon <= bounds(x).lonMax
                                           && box[0].latMin <= p.lat <= box[0].latMax && box[0].lonMin <= p.lon <= box[0].lonMax
    ensures box != [] && Nested(bounds) && FacesInOrder(faces, maxLevel) && r.Tiles? ==>
              r.tiles == Filter(Enumeration(faces, minLevel, maxLevel + 1), Hits(bounds, box[0]))
  {
    hide Enumeration, Collected, AllKept, Filter, Hits, Nested, FacesInOrder, OnFace, Proper;
    if box != [] {
      ghost var tests;
      r, tests := BboxTiles(bounds, faces, minLevel, maxLevel, box[0]);
      if Nested(bounds) && FacesInOrder(faces, maxLevel) {
        NestedInOrder(bounds, box[0], faces, minLevel, maxLevel);
      }
    } else {
      var all := EnumerateTiles(faces, minLevel, maxLevel);
      r := Tiles(all);
    }
  }

  lemma NestedInOrder(bounds: Tile -> Box, box: Box, faces: seq<int>, minLevel: nat, maxLevel: nat)
    requires Nested(bounds) && FacesInOrder(faces, maxLevel)
    ensures Collected(AllKept(Hits(bounds, box), faces, maxLevel), minLevel, maxLevel + 1)
         == Filter(Enumeration(faces, minLevel, maxLevel + 1), Hits(bounds, box))
  {
    hide Enumeration, Collected, AllKept, Filter, Hits, Nested, FacesInOrder, NoneCutOff, LevelsOrdered;
    DescentIsTheFilter(Hits(bounds, box), faces, minLevel, maxLevel);
    NestingSuffices(bounds, box, faces, minLevel, maxLevel + 1);
    FacesMakeOrder(Hits(bounds, box), faces, minLevel, maxLevel);
  }
}
