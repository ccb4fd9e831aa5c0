/**
 Which third-party headers a platform header reaches through its own platform includes: a recursive walk
 of a possibly cyclic include graph with one shared set of visited names.
 */
module IncludeSeam {

  /** What scanning a header's text yields: the third-party headers and the platform headers it names. */
  datatype Header = Header(thirdParty: seq<string>, includes: seq<string>)

  /** The platform headers that exist; an include may name one that does not. */
  type Tree = map<string, Header>

  predicate Includes(tree: Tree, a: string, b: string) {
    a in tree && b in tree[a].includes
  }

  ghost predicate Path(tree: Tree, path: seq<string>) {
    path != [] && forall i :: 0 < i < |path| ==> Includes(tree, path[i - 1], path[i])
  }

  /** b is a, or included, directly or not, by it. */
  ghost predicate Reaches(tree: Tree, a: string, b: string) {
    exists path :: Path(tree, path) && path[0] == a && path[|path| - 1] == b
  }

  lemma ReachesSelf(tree: Tree, a: string)
    ensures Reaches(tree, a, a)
  {
    assert Path(tree, [a]);
  }

  lemma ReachesStep(tree: Tree, a: string, b: string, c: string)
    requires Includes(tree, a, b) && Reaches(tree, b, c)
    ensures Reaches(tree, a, c)
  {
    var path :| Path(tree, path) && path[0] == b && path[|path| - 1] == c;
    var longer := [a] + path;
    forall i | 0 < i < |longer| ensures Includes(tree, longer[i - 1], longer[i]) {
      if i > 1 {
        assert Includes(tree, path[(i - 1) - 1], path[i - 1]);
      }
    }
    assert Path(tree, longer);
  }

  /** Every existing header of xs has all its includes in `seen`. */
  ghost predicate Closed(tree: Tree, xs: set<string>, seen: set<string>) {
    forall x, y :: x in xs && Includes(tree, x, y) ==> y in seen
  }

  ghost predicate AllReached(tree: Tree, a: string, xs: set<string>) {
    forall x :: x in xs ==> Reaches(tree, a, x)
  }

  /** h is included directly by some existing header of xs. */
  ghost predicate Named(tree: Tree, xs: set<string>, h: string) {
    exists x :: x in xs && x in tree && h in tree[x].thirdParty
  }

  /** The headers found are exactly the third-party headers of the existing headers of xs. */
  ghost predicate FoundIn(tree: Tree, xs: set<string>, found: seq<string>) {
    (forall h :: h in found ==> Named(tree, xs, h)) && (forall h :: Named(tree, xs, h) ==> h in found)
  }

  lemma FoundJoin(tree: Tree, a: set<string>, found: seq<string>, b: set<string>, more: seq<string>)
    requires FoundIn(tree, a, found) && FoundIn(tree, b, more)
    ensures FoundIn(tree, a + b, found + more)
  {
    forall h ensures h in found + more <==> Named(tree, a + b, h) {
      assert Named(tree, a, h) || Named(tree, b, h) <==> Named(tree, a + b, h);
    }
  }

  /**
   What a walk from rel contributes: it grows `before` to `after`, with every header it added reached from
   rel and closed under inclusion, and finds exactly those headers' third-party headers.
   */
  ghost predicate Walked(tree: Tree, rel: string, before: set<string>, after: set<string>, found: seq<string>) {
    && before <= after && rel in after && Closed(tree, after - before, after)
    && AllReached(tree, rel, after - before) && FoundIn(tree, after - before, found)
  }

  /** The same, part way through rel's own includes: those up to i are seen. */
  ghost predicate WalkedTo(tree: Tree, rel: string, i: nat, before: set<string>, after: set<string>, found: seq<string>) {
    && before + {rel} <= after && Closed(tree, after - before - {rel}, after)
    && AllReached(tree, rel, after - before) && FoundIn(tree, after - before, found)
    && (rel in tree ==> i <= |tree[rel].includes| && forall k :: 0 <= k < i ==> tree[rel].includes[k] in after)
  }

  lemma WalkStart(tree: Tree, rel: string, before: set<string>)
    requires rel !in before
    ensures WalkedTo(tree, rel, 0, before, before + {rel}, if rel in tree then tree[rel].thirdParty else [])
  {
    hide Reaches;
    ReachesSelf(tree, rel);
    assert (before + {rel}) - before == {rel};
    if rel in tree {
      forall h | h in tree[rel].thirdParty ensures Named(tree, {rel}, h) {
        assert rel in {rel};
      }
    }
  }

  lemma WalkStep(tree: Tree, rel: string, i: nat, before: set<string>, was: set<string>, found: seq<string>,
                 now: set<string>, more: seq<string>)
    requires rel in tree && i < |tree[rel].includes| && WalkedTo(tree, rel, i, before, was, found)
    requires Walked(tree, tree[rel].includes[i], was, now, more)
    ensures WalkedTo(tree, rel, i + 1, before, now, found + more)
  {
    hide Reaches, Named;
    forall x | x in now - was ensures Reaches(tree, rel, x) {
      ReachesStep(tree, rel, tree[rel].includes[i], x);
    }
    FoundJoin(tree, was - before, found, now - was, more);
    assert (was - before) + (now - was) == now - before;
  }

  lemma WalkEnd(tree: Tree, rel: string, i: nat, before: set<string>, after: set<string>, found: seq<string>)
    requires WalkedTo(tree, rel, i, before, after, found) && (rel in tree ==> i == |tree[rel].includes|)
    ensures Walked(tree, rel, before, after, found)
  {
    hide Reaches, Named;
  }

  lemma NothingNew(tree: Tree, rel: string, before: set<string>)
    requires rel in before
    ensures Walked(tree, rel, before, before, [])
  {
    assert before - before == {};
  }

  /** How many existing headers are still unseen. */
  function Unseen(tree: Tree, seen: set<string>): nat {
    |tree.Keys - seen|
  }

  lemma UnseenShrinks(tree: Tree, before: set<string>, after: set<string>)
    requires before <= after
    ensures Unseen(tree, after) <= Unseen(tree, before)
    ensures forall x :: x in tree && x in after && x !in before ==> Unseen(tree, after) < Unseen(tree, before)
  {
    NotLarger(tree.Keys - after, tree.Keys - before);
    forall x | x in tree && x in after && x !in before ensures Unseen(tree, after) < Unseen(tree, before) {
      NotLarger(tree.Keys - after, tree.Keys - before - {x});
    }
  }

  class Walk {
    var seen: set<string>

    constructor ()
      ensures seen == {}
    {
      seen := {};
    }

    /** The third-party headers reached from `rel` through headers not seen before; marks them seen. */
    method ThirdParty(tree: Tree, rel: string) returns (found: seq<string>)
      modifies this
      ensures old(seen) <= seen && Walked(tree, rel, old(seen), seen, found)
      decreases Unseen(tree, seen)
    {
      hide Walked, WalkedTo, Unseen;
      ghost var before := seen;
      if rel in seen {
        NothingNew(tree, rel, before);
        return [];
      }
      seen := seen + {rel};
      WalkStart(tree, rel, before);
      if rel !in tree {
        WalkEnd(tree, rel, 0, before, seen, []);
        return [];
      }
      found := tree[rel].thirdParty;
      var includes := tree[rel].includes;
      UnseenShrinks(tree, before, seen);
      var i := 0;
      while i < |includes|
        invariant 0 <= i <= |includes| && before + {rel} <= seen
        invariant Unseen(tree, seen) < Unseen(tree, before)
        invariant WalkedTo(tree, rel, i, before, seen, found)
      {
        ghost var was := seen;
        var more := ThirdParty(tree, includes[i]);
        UnseenShrinks(tree, was, seen);
        WalkStep(tree, rel, i, before, was, found, seen, more);
        found := found + more;
        i := i + 1;
      }
      WalkEnd(tree, rel, i, before, seen, found);
    }
  }

  lemma {:induction false} NotLarger(a: set<string>, b: set<string>)
    requires a <= b
    ensures |a| <= |b|
  {
    if a != {} {
      var x :| x in a;
      NotLarger(a - {x}, b - {x});
    }
  }

  /** What a walk from an empty set has seen is everything its start reaches, and nothing else. */
  lemma ClosedIsReachable(tree: Tree, a: string, seen: set<string>, b: string)
    requires a in seen && Closed(tree, seen, seen) && AllReached(tree, a, seen)
    ensures b in seen <==> Reaches(tree, a, b)
  {
    if Reaches(tree, a, b) {
      var path :| Path(tree, path) && path[0] == a && path[|path| - 1] == b;
      PathStays(tree, seen, path, |path| - 1);
    }
  }

  lemma {:induction false} PathStays(tree: Tree, seen: set<string>, path: seq<string>, k: nat)
    requires Path(tree, path) && path[0] in seen && Closed(tree, seen, seen) && k < |path|
    ensures path[k] in seen
    decreases k
  {
    if k > 0 {
      PathStays(tree, seen, path, k - 1);
      assert Includes(tree, path[k - 1], path[k]);
    }
  }

  /** Some existing platform header reachable from rel includes h directly. */
  ghost predicate ReachesThirdParty(tree: Tree, rel: string, h: string) {
    exists x :: Reaches(tree, rel, x) && x in tree && h in tree[x].thirdParty
  }

  /** On any include graph, cyclic or not, the walk ends and finds exactly the third-party headers reached. */
  method PlatformHeaderThirdParty(tree: Tree, rel: string) returns (found: seq<string>)
    ensures forall h :: h in found ==> ReachesThirdParty(tree, rel, h)
    ensures forall h :: ReachesThirdParty(tree, rel, h) ==> h in found
  {
    hide Reaches, Named, ReachesThirdParty;
    var walk := new Walk();
    found := walk.ThirdParty(tree, rel);
    assert walk.seen - {} == walk.seen;
    forall h ensures h in found <==> ReachesThirdParty(tree, rel, h) {
      ExactlyReached(tree, rel, walk.seen, found, h);
    }
  }

  lemma ExactlyReached(tree: Tree, rel: string, seen: set<string>, found: seq<string>, h: string)
    requires rel in seen && Closed(tree, seen, seen) && AllReached(tree, rel, seen) && FoundIn(tree, seen, found)
    ensures h in found <==> ReachesThirdParty(tree, rel, h)
  {
    hide Reaches;
    if ReachesThirdParty(tree, rel, h) {
      var x :| Reaches(tree, rel, x) && x in tree && h in tree[x].thirdParty;
      ClosedIsReachable(tree, rel, seen, x);
      assert Named(tree, seen, h);
    }
  }
}
