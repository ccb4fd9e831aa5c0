/**
 What a finished plan's records mean: damage flags along the recorded forest, and the composition of
 node transforms under poses.
 */
module MeshPose {
  import opened Matrices
  import opened MeshNodePlan

  /** A chain of recorded parent links from a listed node `a` down to `x`. */
  ghost predicate Chain(plan: Plan, path: seq<nat>) {
    && path != [] && (forall i :: 0 <= i < |path| ==> path[i] in plan.order && path[i] < |plan.nodes|)
    && (forall i :: 0 < i < |path| ==> plan.nodes[path[i]].parent == path[i - 1])
  }

  /** x is a itself or one of its recorded descendants. */
  ghost predicate Descends(plan: Plan, a: nat, x: nat) {
    exists path :: Chain(plan, path) && path[0] == a && path[|path| - 1] == x
  }

  lemma DescendsSelf(plan: Plan, x: nat)
    requires x in plan.order && x < |plan.nodes|
    ensures Descends(plan, x, x)
  {
    assert Chain(plan, [x]);
  }

  lemma DescendsChild(plan: Plan, a: nat, p: nat, x: nat)
    requires Descends(plan, a, p) && x in plan.order && x < |plan.nodes| && plan.nodes[x].parent == p
    ensures Descends(plan, a, x)
  {
    var path :| Chain(plan, path) && path[0] == a && path[|path| - 1] == p;
    var longer := path + [x];
    assert forall i :: 0 <= i < |path| ==> longer[i] == path[i];
    assert Chain(plan, longer);
  }

  /** The listed node at position k, and where its parent is listed. */
  lemma ParentPosition(plan: Plan, k: nat) returns (j: nat)
    requires Forest(plan) && k < |plan.order|
    ensures plan.order[k] < |plan.nodes| && -1 <= plan.nodes[plan.order[k]].parent
    ensures plan.nodes[plan.order[k]].parent >= 0 ==>
              j < k && plan.order[j] == plan.nodes[plan.order[k]].parent && plan.order[j] < |plan.nodes|
  {
    assert ParentBefore(plan, k);
    j := 0;
    if plan.nodes[plan.order[k]].parent != -1 {
      j :| 0 <= j < k && plan.order[j] == plan.nodes[plan.order[k]].parent;
    }
  }

  ghost predicate DamagedAbove(m: Model, plan: Plan, x: nat) {
    exists a: nat :: Descends(plan, a, x) && a < |m.nodes| && NamedDamage(m, a)
  }

  ghost predicate ShadowedAbove(m: Model, plan: Plan, x: nat) {
    exists a: nat :: Descends(plan, a, x) && a < |m.nodes| && HasDamageSibling(m, a)
  }

  /** A set flag is owed to the node itself or to a recorded ancestor. */
  lemma {:induction false} FlagsAreOwed(m: Model, plan: Plan, k: nat)
    requires Sized(m, plan) && Forest(plan) && AllRecorded(m, plan) && k < |plan.order|
    ensures plan.order[k] < |m.nodes|
    ensures plan.nodes[plan.order[k]].damageVariant ==> DamagedAbove(m, plan, plan.order[k])
    ensures plan.nodes[plan.order[k]].shadowedByDamage ==> ShadowedAbove(m, plan, plan.order[k])
    decreases k
  {
    hide Forest, Descends, NamedDamage, HasDamageSibling, RestGlobal, Roots, Edge;
    var j := ParentPosition(plan, k);
    var x := plan.order[k];
    assert x in plan.order && Recorded(m, plan, x);
    DescendsSelf(plan, x);
    var p := plan.nodes[x].parent;
    if p >= 0 {
      FlagsAreOwed(m, plan, j);
      if DamagedAbove(m, plan, p) {
        var a: nat :| Descends(plan, a, p) && a < |m.nodes| && NamedDamage(m, a);
        DescendsChild(plan, a, p, x);
      }
      if ShadowedAbove(m, plan, p) {
        var a: nat :| Descends(plan, a, p) && a < |m.nodes| && HasDamageSibling(m, a);
        DescendsChild(plan, a, p, x);
      }
    }
  }

  /** A named node's flag reaches every recorded descendant. */
  lemma {:induction false} FlagsAreInherited(m: Model, plan: Plan, path: seq<nat>)
    requires Sized(m, plan) && AllRecorded(m, plan) && Chain(plan, path)
    ensures NamedDamage(m, path[0]) ==> plan.nodes[path[|path| - 1]].damageVariant
    ensures HasDamageSibling(m, path[0]) ==> plan.nodes[path[|path| - 1]].shadowedByDamage
    decreases |path|
  {
    hide NamedDamage, HasDamageSibling, RestGlobal, Roots, Edge;
    var n := |path| - 1;
    assert Recorded(m, plan, path[n]);
    if n > 0 {
      var shorter := path[..n];
      assert forall i :: 0 <= i < n ==> shorter[i] == path[i];
      FlagsAreInherited(m, plan, shorter);
      assert plan.nodes[path[n]].parent == path[n - 1];
    }
  }

  lemma FlagsReach(m: Model, plan: Plan, a: nat, x: nat)
    requires Sized(m, plan) && AllRecorded(m, plan) && Descends(plan, a, x) && a < |m.nodes|
    ensures x < |m.nodes|
    ensures NamedDamage(m, a) ==> plan.nodes[x].damageVariant
    ensures HasDamageSibling(m, a) ==> plan.nodes[x].shadowedByDamage
  {
    hide NamedDamage, HasDamageSibling, AllRecorded;
    var path :| Chain(plan, path) && path[0] == a && path[|path| - 1] == x;
    FlagsAreInherited(m, plan, path);
  }

  /** A listed node is drawn as damage, or hidden by it, exactly when it or a recorded ancestor is so named. */
  lemma FlagsMarkSubtrees(m: Model, variant: string, plan: Plan, x: nat)
    requires Planned(m, variant, plan) && x in plan.order
    ensures x < |plan.nodes|
    ensures plan.nodes[x].damageVariant <==> DamagedAbove(m, plan, x)
    ensures plan.nodes[x].shadowedByDamage <==> ShadowedAbove(m, plan, x)
  {
    hide AllRecorded, Roots, Descends, NamedDamage, HasDamageSibling, Reachable, Dfs;
    var k :| 0 <= k < |plan.order| && plan.order[k] == x;
    FlagsAreOwed(m, plan, k);
    if DamagedAbove(m, plan, x) {
      var a: nat :| Descends(plan, a, x) && a < |m.nodes| && NamedDamage(m, a);
      FlagsReach(m, plan, a, x);
    }
    if ShadowedAbove(m, plan, x) {
      var a: nat :| Descends(plan, a, x) && a < |m.nodes| && HasDamageSibling(m, a);
      FlagsReach(m, plan, a, x);
    }
  }

  datatype Pose = Pose(node: nat, local: Mat)

  /** The local transform in force at node x: the first pose that names it, else its rest transform. */
  function LocalAt(plan: Plan, poses: seq<Pose>, x: nat): Mat
    requires x < |plan.nodes|
  {
    if poses == [] then plan.nodes[x].restLocal
    else if poses[0].node == x then poses[0].local
    else LocalAt(plan, poses[1..], x)
  }

  ghost predicate ComposedAt(plan: Plan, poses: seq<Pose>, out: seq<Mat>, x: nat)
    requires x < |plan.nodes| == |out| && -1 <= plan.nodes[x].parent < |out|
  {
    out[x] == if plan.nodes[x].parent >= 0 then Mul(out[plan.nodes[x].parent], LocalAt(plan, poses, x))
              else LocalAt(plan, poses, x)
  }

  ghost predicate ParentsListed(plan: Plan) {
    forall x :: x in plan.order ==> x < |plan.nodes| && -1 <= plan.nodes[x].parent < |plan.nodes|
  }

  /** Every listed node's transform is its parent's times its own; every other node's is the identity. */
  ghost predicate Composed(plan: Plan, poses: seq<Pose>, out: seq<Mat>) {
    && |out| == |plan.nodes| && ParentsListed(plan)
    && (forall x :: x in plan.order ==> ComposedAt(plan, poses, out, x))
    && (forall x :: 0 <= x < |out| && x !in plan.order ==> out[x] == IDENTITY)
  }

  lemma ForestListsParents(plan: Plan)
    requires Forest(plan)
    ensures ParentsListed(plan)
  {
    forall x | x in plan.order ensures x < |plan.nodes| && -1 <= plan.nodes[x].parent < |plan.nodes| {
      var k :| 0 <= k < |plan.order| && plan.order[k] == x;
      var j := ParentPosition(plan, k);
    }
  }

  ghost predicate ComposedUpTo(plan: Plan, poses: seq<Pose>, out: seq<Mat>, k: nat)
    requires k <= |plan.order| && ParentsListed(plan)
  {
    && |out| == |plan.nodes|
    && (forall i :: 0 <= i < k ==> plan.order[i] in plan.order && ComposedAt(plan, poses, out, plan.order[i]))
    && (forall x :: 0 <= x < |out| && x !in plan.order[..k] ==> out[x] == IDENTITY)
  }

  lemma ComposeStep(plan: Plan, poses: seq<Pose>, out: seq<Mat>, k: nat)
    requires Forest(plan) && ParentsListed(plan) && k < |plan.order| && ComposedUpTo(plan, poses, out, k)
    ensures plan.order[k] in plan.order
    ensures var x := plan.order[k];
            var p := plan.nodes[x].parent;
            var l := LocalAt(plan, poses, x);
            ComposedUpTo(plan, poses, out[x := if p >= 0 then Mul(out[p], l) else l], k + 1)
  {
    hide Mul, LocalAt, Forest;
    var x := plan.order[k];
    assert x in plan.order;
    var p, l := plan.nodes[x].parent, LocalAt(plan, poses, x);
    var out' := out[x := if p >= 0 then Mul(out[p], l) else l];
    forall i | 0 <= i < k + 1 ensures plan.order[i] in plan.order && ComposedAt(plan, poses, out', plan.order[i]) {
      assert plan.order[i] in plan.order;
      ParentIsEarlier(plan, i, k);
    }
    assert plan.order[..k + 1] == plan.order[..k] + [x];
  }

  lemma ParentIsEarlier(plan: Plan, i: nat, k: nat)
    requires Forest(plan) && i <= k < |plan.order|
    ensures plan.order[i] < |plan.nodes| && plan.nodes[plan.order[i]].parent != plan.order[k]
    ensures i < k ==> plan.order[i] != plan.order[k]
  {
    var j := ParentPosition(plan, i);
  }

  lemma {:induction false} FirstPoseCounts(plan: Plan, poses: seq<Pose>, x: nat, i: nat)
    requires x < |plan.nodes| && i < |poses| && poses[i].node == x
    requires forall j :: 0 <= j < i ==> poses[j].node != x
    ensures LocalAt(plan, poses, x) == poses[i].local
  {
    if i > 0 {
      assert poses[0].node != x;
      FirstPoseCounts(plan, poses[1..], x, i - 1);
    }
  }

  lemma {:induction false} UnposedRests(plan: Plan, poses: seq<Pose>, x: nat)
    requires x < |plan.nodes| && forall j :: 0 <= j < |poses| ==> poses[j].node != x
    ensures LocalAt(plan, poses, x) == plan.nodes[x].restLocal
  {
    if poses != [] {
      UnposedRests(plan, poses[1..], x);
    }
  }

  /**
   What each listed node comes out as: its parent's transform times the local transform of the first
   pose that names the node, or times its own rest transform when no pose does; a root has no parent factor.
   */
  lemma FirstPoseDecides(plan: Plan, poses: seq<Pose>, out: seq<Mat>, x: nat)
    requires Composed(plan, poses, out) && x in plan.order
    ensures x < |plan.nodes| == |out| && -1 <= plan.nodes[x].parent < |out|
    ensures forall i :: 0 <= i < |poses| && poses[i].node == x && (forall j :: 0 <= j < i ==> poses[j].node != x) ==>
              out[x] == if plan.nodes[x].parent >= 0 then Mul(out[plan.nodes[x].parent], poses[i].local) else poses[i].local
    ensures (forall j :: 0 <= j < |poses| ==> poses[j].node != x) ==>
              out[x] == if plan.nodes[x].parent >= 0 then Mul(out[plan.nodes[x].parent], plan.nodes[x].restLocal)
                        else plan.nodes[x].restLocal
  {
    hide Mul, LocalAt;
    assert ComposedAt(plan, poses, out, x);
    forall i | 0 <= i < |poses| && poses[i].node == x && (forall j :: 0 <= j < i ==> poses[j].node != x)
      ensures LocalAt(plan, poses, x) == poses[i].local {
      FirstPoseCounts(plan, poses, x, i);
    }
    if forall j :: 0 <= j < |poses| ==> poses[j].node != x {
      UnposedRests(plan, poses, x);
    }
  }

  /** One forward pass over the list composes every node's transform. */
  method ComposeNodeGlobals(plan: Plan, poses: seq<Pose>) returns (out: seq<Mat>)
    requires Forest(plan)
    ensures Composed(plan, poses, out)
    ensures forall x :: x in plan.order ==>
      && x < |plan.nodes| == |out| && -1 <= plan.nodes[x].parent < |out|
      && (forall i :: 0 <= i < |poses| && poses[i].node == x && (forall j :: 0 <= j < i ==> poses[j].node != x) ==>
            out[x] == if plan.nodes[x].parent >= 0 then Mul(out[plan.nodes[x].parent], poses[i].local) else poses[i].local)
      && ((forall j :: 0 <= j < |poses| ==> poses[j].node != x) ==>
            out[x] == if plan.nodes[x].parent >= 0 then Mul(out[plan.nodes[x].parent], plan.nodes[x].restLocal)
                      else plan.nodes[x].restLocal)
  {
    hide Forest, Mul;
    ForestListsParents(plan);
    out := seq(|plan.nodes|, _ => IDENTITY);
    var k := 0;
    while k < |plan.order|
      invariant 0 <= k <= |plan.order| && ComposedUpTo(plan, poses, out, k)
    {
      ComposeStep(plan, poses, out, k);
      var n := plan.order[k];
      var node := plan.nodes[n];
      var local := node.restLocal;
      var i := 0;
      while i < |poses| && poses[i].node != n
        invariant 0 <= i <= |poses| && LocalAt(plan, poses, n) == LocalAt(plan, poses[i..], n)
      {
        i := i + 1;
      }
      if i < |poses| {
        local := poses[i].local;
      }
      out := out[n := if node.parent >= 0 then Mul(out[node.parent], local) else local];
      k := k + 1;
    }
    assert plan.order[..k] == plan.order;
    assert Composed(plan, poses, out);
    forall x | x in plan.order {
      FirstPoseDecides(plan, poses, out, x);
    }
  }

  lemma RestComposes(m: Model, variant: string, plan: Plan)
    requires Planned(m, variant, plan)
    ensures Composed(plan, [], plan.globalRest)
  {
    hide Mul, Roots;
    ForestListsParents(plan);
    forall x | x in plan.order ensures ComposedAt(plan, [], plan.globalRest, x) {
      assert Recorded(m, plan, x);
    }
  }

  /** Two pose lists that agree outside a subtree compose to the same transforms outside that subtree. */
  lemma {:induction false} PosesActDownward(plan: Plan, poses: seq<Pose>, out: seq<Mat>,
                                            poses': seq<Pose>, out': seq<Mat>, n: nat, k: nat)
    requires Forest(plan) && Composed(plan, poses, out) && Composed(plan, poses', out') && k < |plan.order|
    requires forall x :: 0 <= x < |plan.nodes| && x != n ==> LocalAt(plan, poses, x) == LocalAt(plan, poses', x)
    requires !Descends(plan, n, plan.order[k])
    ensures plan.order[k] < |plan.nodes| == |out| == |out'| && out[plan.order[k]] == out'[plan.order[k]]
    decreases k
  {
    hide Forest, Mul, Descends;
    var x := plan.order[k];
    assert x in plan.order;
    DescendsSelf(plan, x);
    var j := ParentPosition(plan, k);
    assert ComposedAt(plan, poses, out, x) && ComposedAt(plan, poses', out', x);
    if plan.nodes[x].parent >= 0 {
      if Descends(plan, n, plan.order[j]) {
        DescendsChild(plan, n, plan.order[j], x);
      }
      PosesActDownward(plan, poses, out, poses', out', n, j);
    }
  }

  /** A pose changes its own node and that node's recorded descendants, and nothing else; on an absent node, nothing. */
  lemma PoseStaysInSubtree(plan: Plan, poses: seq<Pose>, out: seq<Mat>, poses': seq<Pose>, out': seq<Mat>, n: nat, x: nat)
    requires Forest(plan) && Composed(plan, poses, out) && Composed(plan, poses', out') && x < |plan.nodes|
    requires forall y :: 0 <= y < |plan.nodes| && y != n ==> LocalAt(plan, poses, y) == LocalAt(plan, poses', y)
    requires !Descends(plan, n, x)
    ensures out[x] == out'[x]
  {
    hide Mul, Descends;
    if x in plan.order {
      var k :| 0 <= k < |plan.order| && plan.order[k] == x;
      PosesActDownward(plan, poses, out, poses', out', n, k);
    }
  }

  lemma AbsentPoseIsIgnored(plan: Plan, poses: seq<Pose>, out: seq<Mat>, poses': seq<Pose>, out': seq<Mat>, n: nat)
    requires Forest(plan) && Composed(plan, poses, out) && Composed(plan, poses', out') && n !in plan.order
    requires forall y :: 0 <= y < |plan.nodes| && y != n ==> LocalAt(plan, poses, y) == LocalAt(plan, poses', y)
    ensures out == out'
  {
    forall x | 0 <= x < |plan.nodes| ensures out[x] == out'[x] {
      assert !Descends(plan, n, x);
      PoseStaysInSubtree(plan, poses, out, poses', out', n, x);
    }
  }

  /** A forest and its poses determine the composed transforms. */
  lemma ComposedIsUnique(plan: Plan, poses: seq<Pose>, out: seq<Mat>, out': seq<Mat>)
    requires Forest(plan) && Composed(plan, poses, out) && Composed(plan, poses, out')
    ensures out == out'
  {
    hide Forest, Composed;
    ListedBelow(plan);
    AbsentPoseIsIgnored(plan, poses, out, poses, out', |plan.nodes|);
  }

  lemma ListedBelow(plan: Plan)
    requires Forest(plan)
    ensures |plan.nodes| !in plan.order
  {
  }

  /** With no pose applied, composition reproduces the rest transforms the plan was built with. */
  lemma RestIsComposed(m: Model, variant: string, plan: Plan, out: seq<Mat>)
    requires Planned(m, variant, plan) && Composed(plan, [], out)
    ensures out == plan.globalRest
  {
    hide Composed, Forest, AllRecorded, Dfs, Reachable, Roots;
    RestComposes(m, variant, plan);
    ComposedIsUnique(plan, [], out, plan.globalRest);
  }

  /** Adding a pose for n anywhere in the list leaves every other node's local transform as it was. */
  lemma {:induction false} OnePoseOneLocal(plan: Plan, a: seq<Pose>, n: nat, local: Mat, b: seq<Pose>, x: nat)
    requires x < |plan.nodes| && x != n
    ensures LocalAt(plan, a + [Pose(n, local)] + b, x) == LocalAt(plan, a + b, x)
  {
    var all := a + [Pose(n, local)] + b;
    if a == [] {
      assert all[1..] == b && a + b == b;
    } else {
      assert all[1..] == a[1..] + [Pose(n, local)] + b && (a + b)[1..] == a[1..] + b;
      OnePoseOneLocal(plan, a[1..], n, local, b, x);
    }
  }

  /** The same plan with every transform conjugated into the body frame. */
  function PlanInBody(plan: Plan): Plan {
    plan.(nodes := seq(|plan.nodes|, i requires 0 <= i < |plan.nodes| =>
                         plan.nodes[i].(restLocal := InBody(plan.nodes[i].restLocal))),
          globalRest := AllInBody(plan.globalRest))
  }

  lemma ForestInBody(plan: Plan)
    requires Forest(plan)
    ensures Forest(PlanInBody(plan))
  {
    hide InBody, Mul;
    InBodyIdentity();
    var b := PlanInBody(plan);
    forall k | 0 <= k < |b.order| ensures b.order[k] < |b.nodes| && ParentBefore(b, k) {
      assert ParentBefore(plan, k);
    }
  }

  function PosesInBody(poses: seq<Pose>): (r: seq<Pose>)
    ensures |r| == |poses|
  {
    seq(|poses|, i requires 0 <= i < |poses| => Pose(poses[i].node, InBody(poses[i].local)))
  }

  function AllInBody(out: seq<Mat>): seq<Mat> {
    seq(|out|, i requires 0 <= i < |out| => InBody(out[i]))
  }

  lemma {:induction false} LocalInBody(plan: Plan, poses: seq<Pose>, x: nat)
    requires x < |plan.nodes|
    ensures LocalAt(PlanInBody(plan), PosesInBody(poses), x) == InBody(LocalAt(plan, poses, x))
  {
    hide InBody;
    if poses != [] {
      assert PosesInBody(poses)[1..] == PosesInBody(poses[1..]);
      LocalInBody(plan, poses[1..], x);
    }
  }

  lemma RotatedIsComposed(plan: Plan, poses: seq<Pose>, out: seq<Mat>)
    requires Composed(plan, poses, out)
    ensures Composed(PlanInBody(plan), PosesInBody(poses), AllInBody(out))
  {
    hide InBody, Mul, LocalAt, PosesInBody;
    var b := PlanInBody(plan);
    forall x | x in b.order
      ensures ComposedAt(b, PosesInBody(poses), AllInBody(out), x) {
      LocalInBody(plan, poses, x);
      assert ComposedAt(plan, poses, out, x);
      if plan.nodes[x].parent >= 0 {
        InBodyComposes(out[plan.nodes[x].parent], LocalAt(plan, poses, x));
      }
    }
    InBodyIdentity();
  }

  /** Composing in the content frame and then rotating into the body frame is composing in the body frame. */
  lemma ConjugationCommutes(plan: Plan, poses: seq<Pose>, out: seq<Mat>, bodyOut: seq<Mat>)
    requires Forest(plan) && Composed(plan, poses, out)
    requires Composed(PlanInBody(plan), PosesInBody(poses), bodyOut)
    ensures bodyOut == AllInBody(out)
  {
    hide Forest, Composed, PlanInBody, PosesInBody, AllInBody;
    ForestInBody(plan);
    RotatedIsComposed(plan, poses, out);
    ComposedIsUnique(PlanInBody(plan), PosesInBody(poses), bodyOut, AllInBody(out));
  }
}
