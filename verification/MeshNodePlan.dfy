/**
 The scene-graph walk behind a mesh's draw plan: an iterative depth-first search over a node graph that
 may be cyclic, share children or name children out of range, with variant pruning.
 */
module MeshNodePlan {
  import opened SeqOps
  import opened Matrices

  /** A node's variant tag: absent, one name, a list whose non-string entries are ignored, or malformed. */
  datatype Tag = Untagged | Single(name: string) | Several(names: seq<string>) | Malformed

  datatype Node = Node(name: string, children: seq<int>, tag: Tag, local: Mat, mesh: int)

  /** `meshes` gives the number of primitives of each mesh. */
  datatype Model = Model(nodes: seq<Node>, scenes: seq<seq<int>>, defaultScene: int, meshes: seq<nat>)

  datatype PlanNode = PlanNode(parent: int, restLocal: Mat, damageVariant: bool, shadowedByDamage: bool, present: bool)

  const ABSENT := PlanNode(-1, IDENTITY, false, false, false)

  datatype Primitive = Primitive(node: nat, mesh: nat, index: nat)

  datatype Plan = Plan(nodes: seq<PlanNode>, order: seq<nat>, globalRest: seq<Mat>, primitives: seq<Primitive>,
                       hasNodeTransforms: bool)

  predicate Matches(n: Node, variant: string) {
    match n.tag
    case Untagged => true
    case Single(t) => variant != "" && t == variant
    case Several(ts) => variant != "" && variant in ts
    case Malformed => true
  }

  /**
   Which nodes a variant keeps: every node without a usable tag, under any variant, and of the tagged ones
   those whose tag names the variant. Asking for no variant keeps no tagged node.
   */
  lemma VariantKeeps(n: Node, variant: string)
    ensures n.tag == Untagged || n.tag == Malformed ==> Matches(n, variant)
    ensures n.tag.Single? || n.tag.Several? ==> !Matches(n, "")
    ensures forall name :: n.tag == Single(name) && variant != "" ==> (Matches(n, variant) <==> name == variant)
    ensures forall names :: n.tag == Several(names) && variant != "" ==>
              (Matches(n, variant) <==> exists i :: 0 <= i < |names| && names[i] == variant)
  {
  }

  predicate InRange(m: Model, i: int) {
    0 <= i < |m.nodes|
  }

  predicate Selected(m: Model, variant: string, i: int) {
    InRange(m, i) && Matches(m.nodes[i], variant)
  }

  predicate Edge(m: Model, p: int, c: int) {
    InRange(m, p) && InRange(m, c) && c in m.nodes[p].children
  }

  /** A walk from a root through selected nodes. */
  ghost predicate Walk(m: Model, variant: string, roots: seq<nat>, path: seq<int>) {
    && path != [] && path[0] >= 0 && path[0] in roots
    && (forall i :: 0 <= i < |path| ==> Selected(m, variant, path[i]))
    && (forall i :: 0 < i < |path| ==> Edge(m, path[i - 1], path[i]))
  }

  ghost predicate Reachable(m: Model, variant: string, roots: seq<nat>, x: int) {
    exists path :: Walk(m, variant, roots, path) && path[|path| - 1] == x
  }

  function SceneIndex(m: Model): int {
    if 0 <= m.defaultScene < |m.scenes| then m.defaultScene else if m.scenes == [] then -1 else 0
  }

  function InRangeOnly(m: Model, xs: seq<int>): (r: seq<nat>)
    ensures forall x: nat :: x in r <==> x in xs && InRange(m, x)
  {
    if xs == [] then []
    else (if InRange(m, xs[0]) then [xs[0]] else []) + InRangeOnly(m, xs[1..])
  }

  predicate IsChild(m: Model, c: int) {
    exists p :: 0 <= p < |m.nodes| && c in m.nodes[p].children
  }

  /** The nodes below n that are nobody's child, in index order. */
  function Parentless(m: Model, n: nat): (r: seq<nat>)
    requires n <= |m.nodes|
    ensures forall x: nat :: x in r <==> x < n && !IsChild(m, x)
  {
    if n == 0 then [] else Parentless(m, n - 1) + (if IsChild(m, n - 1) then [] else [n - 1])
  }

  /** Where the walk starts: the scene's in-range nodes, or every parentless node when no scene is declared. */
  function Roots(m: Model): seq<nat> {
    if SceneIndex(m) >= 0 then InRangeOnly(m, m.scenes[SceneIndex(m)]) else Parentless(m, |m.nodes|)
  }

  /** The default scene decides if it exists, else the first scene; without scenes, whatever is nobody's child. */
  lemma WhereTheWalkStarts(m: Model, x: nat)
    ensures 0 <= m.defaultScene < |m.scenes| ==>
              (x in Roots(m) <==> x < |m.nodes| && x as int in m.scenes[m.defaultScene])
    ensures !(0 <= m.defaultScene < |m.scenes|) && m.scenes != [] ==>
              (x in Roots(m) <==> x < |m.nodes| && x as int in m.scenes[0])
    ensures m.scenes == [] ==>
              (x in Roots(m) <==> x < |m.nodes| && forall p :: 0 <= p < |m.nodes| ==> x as int !in m.nodes[p].children)
  {
  }

  predicate NamedDamage(m: Model, i: nat)
    requires i < |m.nodes|
  {
    var nm := m.nodes[i].name;
    |nm| > 2 && nm[|nm| - 2..] == "_b"
  }

  /** A damage node's name is some name that is not empty, with "_b" appended. */
  lemma DamageNames(m: Model, i: nat)
    requires i < |m.nodes|
    ensures NamedDamage(m, i) <==> exists stem :: stem != "" && m.nodes[i].name == stem + "_b"
  {
    var nm := m.nodes[i].name;
    if NamedDamage(m, i) {
      var stem := nm[..|nm| - 2];
      assert stem != "" && nm == stem + "_b";
    }
  }

  /** i is the first node of its name, and some node is named after it with "_b" appended. */
  ghost predicate HasDamageSibling(m: Model, i: nat)
    requires i < |m.nodes|
  {
    && m.nodes[i].name != ""
    && (forall j :: 0 <= j < i ==> m.nodes[j].name != m.nodes[i].name)
    && exists j :: 0 <= j < |m.nodes| && NamedDamage(m, j) && m.nodes[j].name == m.nodes[i].name + "_b"
  }

  /** One pending visit. */
  datatype Frame = Frame(node: nat, parent: int, damaged: bool, shadowed: bool)

  function RestGlobal(plan: Plan, x: nat): Mat
    requires x < |plan.nodes| == |plan.globalRest|
    requires -1 <= plan.nodes[x].parent < |plan.nodes|
  {
    if plan.nodes[x].parent >= 0 then Mul(plan.globalRest[plan.nodes[x].parent], plan.nodes[x].restLocal)
    else plan.nodes[x].restLocal
  }

  /** The recorded forest: parents listed before their children, absent nodes at their defaults. */
  ghost predicate Forest(plan: Plan) {
    && |plan.nodes| == |plan.globalRest| && NoDup(plan.order)
    && (forall x :: 0 <= x < |plan.nodes| ==> (plan.nodes[x].present <==> x in plan.order))
    && (forall k :: 0 <= k < |plan.order| ==> plan.order[k] < |plan.nodes| && ParentBefore(plan, k))
    && (forall x :: 0 <= x < |plan.nodes| && x !in plan.order ==>
          plan.nodes[x] == ABSENT && plan.globalRest[x] == IDENTITY)
  }

  ghost predicate ParentBefore(plan: Plan, k: nat)
    requires k < |plan.order| && plan.order[k] < |plan.nodes|
  {
    var p := plan.nodes[plan.order[k]].parent;
    p == -1 || exists j :: 0 <= j < k && plan.order[j] == p
  }

  /** What the plan records of a present node, beyond its place in the order. */
  ghost predicate Recorded(m: Model, plan: Plan, x: nat)
    requires x < |m.nodes| == |plan.nodes| == |plan.globalRest|
  {
    var n := plan.nodes[x];
    && (n.parent == -1 || n.parent in plan.order) && -1 <= n.parent < |plan.nodes|
    && n.restLocal == m.nodes[x].local
    && (if n.parent == -1 then x in Roots(m) else Edge(m, n.parent, x))
    && n.damageVariant == (NamedDamage(m, x) || (n.parent >= 0 && plan.nodes[n.parent].damageVariant))
    && n.shadowedByDamage == (HasDamageSibling(m, x) || (n.parent >= 0 && plan.nodes[n.parent].shadowedByDamage))
    && plan.globalRest[x] == RestGlobal(plan, x)
  }

  /** The visit order of a recursive depth-first search over `todo`, after `seen` has been listed. */
  function Dfs(m: Model, variant: string, todo: seq<nat>, seen: seq<nat>): (r: seq<nat>)
    requires NoDup(seen) && forall x :: x in seen ==> x < |m.nodes|
    ensures NoDup(r) && (forall x :: x in r ==> x < |m.nodes|) && |seen| <= |r|
    decreases |m.nodes| - |seen|, |todo|
  {
    NoDupBound(seen, |m.nodes|);
    if todo == [] then seen
    else if todo[0] in seen || !Selected(m, variant, todo[0]) then Dfs(m, variant, todo[1..], seen)
    else
      NoDupBound(seen + [todo[0]], |m.nodes|);
      var below := Dfs(m, variant, InRangeOnly(m, m.nodes[todo[0]].children), seen + [todo[0]]);
      Dfs(m, variant, todo[1..], below)
  }

  /** Searching two lists in one go is searching them one after the other. */
  lemma {:induction false} DfsConcat(m: Model, variant: string, a: seq<nat>, b: seq<nat>, seen: seq<nat>)
    requires NoDup(seen) && forall x :: x in seen ==> x < |m.nodes|
    ensures Dfs(m, variant, a + b, seen) == Dfs(m, variant, b, Dfs(m, variant, a, seen))
    decreases |m.nodes| - |seen|, |a|
  {
    NoDupBound(seen, |m.nodes|);
    if a == [] {
      assert a + b == b;
    } else {
      assert (a + b)[1..] == a[1..] + b;
      if a[0] in seen || !Selected(m, variant, a[0]) {
        DfsConcat(m, variant, a[1..], b, seen);
      } else {
        NoDupBound(seen + [a[0]], |m.nodes|);
        DfsConcat(m, variant, a[1..], b, Dfs(m, variant, InRangeOnly(m, m.nodes[a[0]].children), seen + [a[0]]));
      }
    }
  }

  /** What popping a node pushes: its in-range children, the first on top. */
  function Pushed(m: Model, xs: seq<int>, parent: nat, damaged: bool, shadowed: bool): seq<Frame> {
    if xs == [] then []
    else Pushed(m, xs[1..], parent, damaged, shadowed)
         + (if InRange(m, xs[0]) then [Frame(xs[0], parent, damaged, shadowed)] else [])
  }

  function TopFirst(stack: seq<Frame>): seq<nat> {
    if stack == [] then [] else [stack[|stack| - 1].node] + TopFirst(stack[..|stack| - 1])
  }

  lemma TopFirstSnoc(stack: seq<Frame>, f: Frame)
    ensures TopFirst(stack + [f]) == [f.node] + TopFirst(stack)
  {
    assert (stack + [f])[..|stack|] == stack;
  }

  lemma {:induction false} TopFirstPushed(m: Model, stack: seq<Frame>, xs: seq<int>, parent: nat, damaged: bool, shadowed: bool)
    ensures TopFirst(stack + Pushed(m, xs, parent, damaged, shadowed)) == InRangeOnly(m, xs) + TopFirst(stack)
  {
    hide TopFirst;
    if xs == [] {
      assert stack + [] == stack && [] + TopFirst(stack) == TopFirst(stack);
    } else {
      TopFirstPushed(m, stack, xs[1..], parent, damaged, shadowed);
      var rest := Pushed(m, xs[1..], parent, damaged, shadowed);
      if InRange(m, xs[0]) {
        var f := Frame(xs[0], parent, damaged, shadowed);
        Assoc(stack, rest, [f]);
        TopFirstSnoc(stack + rest, f);
        Assoc([f.node], InRangeOnly(m, xs[1..]), TopFirst(stack));
      } else {
        assert rest + [] == rest && [] + InRangeOnly(m, xs[1..]) == InRangeOnly(m, xs[1..]);
      }
    }
  }

  function Blank(m: Model): Plan {
    Plan(seq(|m.nodes|, _ => ABSENT), [], seq(|m.nodes|, _ => IDENTITY), [], false)
  }

  /** The plan after a pending visit has been made. */
  function Visit(m: Model, plan: Plan, f: Frame, named: bool, sibling: bool): Plan
    requires f.node < |m.nodes| == |plan.nodes| == |plan.globalRest| && -1 <= f.parent < |plan.nodes|
  {
    var local := m.nodes[f.node].local;
    plan.(nodes := plan.nodes[f.node := PlanNode(f.parent, local, f.damaged || named, f.shadowed || sibling, true)],
          globalRest := plan.globalRest[f.node := if f.parent >= 0 then Mul(plan.globalRest[f.parent], local) else local],
          order := plan.order + [f.node],
          hasNodeTransforms := plan.hasNodeTransforms || local != IDENTITY)
  }

  ghost predicate Sized(m: Model, plan: Plan) {
    |m.nodes| == |plan.nodes| == |plan.globalRest|
  }

  ghost predicate AllRecorded(m: Model, plan: Plan)
    requires Sized(m, plan)
  {
    forall x :: x in plan.order ==> x < |m.nodes| && Recorded(m, plan, x)
  }

  ghost predicate AllReachable(m: Model, variant: string, order: seq<nat>) {
    forall x :: x in order ==> Reachable(m, variant, Roots(m), x)
  }

  /** A pending visit comes from a root, or from a listed node whose flags it carries. */
  ghost predicate FrameSound(m: Model, plan: Plan, f: Frame)
    requires |m.nodes| == |plan.nodes|
  {
    && f.node < |m.nodes|
    && (if f.parent == -1 then f.node in Roots(m) && !f.damaged && !f.shadowed
        else && f.parent in plan.order && Edge(m, f.parent, f.node)
             && f.damaged == plan.nodes[f.parent].damageVariant
             && f.shadowed == plan.nodes[f.parent].shadowedByDamage)
  }

  /** Listed, or due to be visited, or not to be listed at all. */
  ghost predicate Accounted(m: Model, variant: string, order: seq<nat>, stack: seq<Frame>, x: int) {
    Selected(m, variant, x) ==> x in order || exists i :: 0 <= i < |stack| && stack[i].node == x
  }

  ghost predicate Covered(m: Model, variant: string, order: seq<nat>, stack: seq<Frame>) {
    && (forall r :: r in Roots(m) ==> Accounted(m, variant, order, stack, r))
    && (forall p, c :: p in order && Edge(m, p, c) ==> Accounted(m, variant, order, stack, c))
  }

  ghost predicate Walking(m: Model, variant: string, plan: Plan, stack: seq<Frame>) {
    && Sized(m, plan) && Forest(plan)
    && AllRecorded(m, plan) && AllReachable(m, variant, plan.order)
    && (forall i :: 0 <= i < |stack| ==> FrameSound(m, plan, stack[i]))
    && Covered(m, variant, plan.order, stack)
    && Dfs(m, variant, TopFirst(stack), plan.order) == Dfs(m, variant, Roots(m), [])
  }

  /** A popped node that is listed already, or filtered out, changes nothing. */
  lemma SkipKeepsWalking(m: Model, variant: string, plan: Plan, stack: seq<Frame>)
    requires Walking(m, variant, plan, stack) && stack != []
    requires var x := stack[|stack| - 1].node; x in plan.order || !Selected(m, variant, x)
    ensures Walking(m, variant, plan, stack[..|stack| - 1])
  {
    hide Forest, AllRecorded, AllReachable, FrameSound;
    var rest, f := stack[..|stack| - 1], stack[|stack| - 1];
    assert stack == rest + [f];
    assert forall i :: 0 <= i < |rest| ==> rest[i] == stack[i];
    forall x | Accounted(m, variant, plan.order, stack, x) ensures Accounted(m, variant, plan.order, rest, x) {
      if Selected(m, variant, x) && x !in plan.order {
        var i :| 0 <= i < |stack| && stack[i].node == x;
        assert rest[i].node == x;
      }
    }
    TopFirstSnoc(rest, f);
    assert ([f.node] + TopFirst(rest))[1..] == TopFirst(rest);
  }

  lemma WalkExtends(m: Model, variant: string, p: int, x: int)
    requires Reachable(m, variant, Roots(m), p) && Edge(m, p, x) && Selected(m, variant, x)
    ensures Reachable(m, variant, Roots(m), x)
  {
    var path :| Walk(m, variant, Roots(m), path) && path[|path| - 1] == p;
    var longer := path + [x];
    assert forall i :: 0 <= i < |path| ==> longer[i] == path[i];
    assert Walk(m, variant, Roots(m), longer);
  }

  lemma RootReachable(m: Model, variant: string, x: nat)
    requires x in Roots(m) && Selected(m, variant, x)
    ensures Reachable(m, variant, Roots(m), x)
  {
    assert Walk(m, variant, Roots(m), [x as int]);
  }

  lemma VisitForest(m: Model, plan: Plan, f: Frame, d: bool, h: bool)
    requires f.node < |m.nodes| == |plan.nodes| == |plan.globalRest| && Forest(plan) && f.node !in plan.order
    requires f.parent == -1 || f.parent in plan.order
    ensures Forest(Visit(m, plan, f, d, h))
  {
    var t := Visit(m, plan, f, d, h);
    var n := |plan.order|;
    forall k | 0 <= k < |t.order| ensures t.order[k] < |t.nodes| && ParentBefore(t, k) {
      if k < n {
        assert t.order[k] == plan.order[k] && plan.order[k] in plan.order;
        assert ParentBefore(plan, k);
        var p := plan.nodes[plan.order[k]].parent;
        if p != -1 {
          var j :| 0 <= j < k && plan.order[j] == p;
          assert t.order[j] == p;
        }
      } else if f.parent != -1 {
        var j :| 0 <= j < n && plan.order[j] == f.parent;
        assert t.order[j] == f.parent;
      }
    }
  }

  lemma VisitRecorded(m: Model, plan: Plan, f: Frame)
    requires Sized(m, plan) && AllRecorded(m, plan)
    requires FrameSound(m, plan, f) && f.node !in plan.order
    requires forall x :: x in plan.order ==> x < |m.nodes|
    ensures AllRecorded(m, Visit(m, plan, f, NamedDamage(m, f.node), HasDamageSibling(m, f.node)))
  {
    hide Roots, Edge, Mul, NamedDamage, HasDamageSibling;
    var t := Visit(m, plan, f, NamedDamage(m, f.node), HasDamageSibling(m, f.node));
    forall x | x in t.order ensures x < |m.nodes| && Recorded(m, t, x) {
      if x != f.node {
        assert Recorded(m, plan, x);
        assert t.nodes[x] == plan.nodes[x];
      }
    }
  }

  lemma {:induction false} PushedFrames(m: Model, xs: seq<int>, parent: nat, damaged: bool, shadowed: bool)
    ensures forall g :: g in Pushed(m, xs, parent, damaged, shadowed) ==>
              g.node < |m.nodes| && g.node in xs && g == Frame(g.node, parent, damaged, shadowed)
    ensures forall c: nat :: c in xs && InRange(m, c) ==>
              Frame(c, parent, damaged, shadowed) in Pushed(m, xs, parent, damaged, shadowed)
  {
    if xs != [] {
      PushedFrames(m, xs[1..], parent, damaged, shadowed);
      assert xs == [xs[0]] + xs[1..];
    }
  }

  lemma VisitFrames(m: Model, plan: Plan, stack: seq<Frame>, d: bool, h: bool)
    requires stack != [] && |m.nodes| == |plan.nodes| == |plan.globalRest|
    requires forall i :: 0 <= i < |stack| ==> FrameSound(m, plan, stack[i])
    requires stack[|stack| - 1].node !in plan.order && FrameSound(m, plan, stack[|stack| - 1])
    requires forall x :: x in plan.order ==> x < |m.nodes|
    ensures var f := stack[|stack| - 1];
            var t := Visit(m, plan, f, d, h);
            var stack' := stack[..|stack| - 1] + Pushed(m, m.nodes[f.node].children, f.node,
                                                        t.nodes[f.node].damageVariant, t.nodes[f.node].shadowedByDamage);
            forall i :: 0 <= i < |stack'| ==> FrameSound(m, t, stack'[i])
  {
    hide Roots;
    var f, rest := stack[|stack| - 1], stack[..|stack| - 1];
    assert FrameSound(m, plan, f);
    var t := Visit(m, plan, f, d, h);
    var n := t.nodes[f.node];
    var xs := m.nodes[f.node].children;
    var fs := Pushed(m, xs, f.node, n.damageVariant, n.shadowedByDamage);
    PushedFrames(m, xs, f.node, n.damageVariant, n.shadowedByDamage);
    forall i | 0 <= i < |rest + fs| ensures FrameSound(m, t, (rest + fs)[i]) {
      if i < |rest| {
        var g := stack[i];
        assert (rest + fs)[i] == g && FrameSound(m, plan, g);
        assert g.parent != -1 ==> g.parent in t.order && t.nodes[g.parent] == plan.nodes[g.parent];
      } else {
        var g := fs[i - |rest|];
        assert (rest + fs)[i] == g && g in fs;
        assert t.order[|plan.order|] == f.node;
        assert Edge(m, f.node, g.node);
      }
    }
  }

  lemma VisitCovered(m: Model, variant: string, order: seq<nat>, stack: seq<Frame>, d: bool, s: bool)
    requires stack != [] && Covered(m, variant, order, stack) && stack[|stack| - 1].node < |m.nodes|
    ensures var x := stack[|stack| - 1].node;
            Covered(m, variant, order + [x], stack[..|stack| - 1] + Pushed(m, m.nodes[x].children, x, d, s))
  {
    hide Roots, Selected;
    var x, rest := stack[|stack| - 1].node, stack[..|stack| - 1];
    var fs := Pushed(m, m.nodes[x].children, x, d, s);
    PushedFrames(m, m.nodes[x].children, x, d, s);
    var stack' := rest + fs;
    forall y | Accounted(m, variant, order, stack, y) ensures Accounted(m, variant, order + [x], stack', y) {
      if i :| 0 <= i < |stack| && stack[i].node == y {
        assert i < |rest| ==> stack'[i].node == y;
      }
    }
    forall c | Edge(m, x, c) ensures Accounted(m, variant, order + [x], stack', c) {
      assert Frame(c, x, d, s) in fs;
      var i :| 0 <= i < |fs| && fs[i] == Frame(c, x, d, s);
      assert stack'[|rest| + i].node == c;
    }
  }

  lemma VisitSearch(m: Model, variant: string, order: seq<nat>, stack: seq<Frame>, d: bool, s: bool)
    requires stack != [] && NoDup(order) && forall x :: x in order ==> x < |m.nodes|
    requires var x := stack[|stack| - 1].node; x < |m.nodes| && x !in order && Selected(m, variant, x)
    ensures var x := stack[|stack| - 1].node;
            && (NoDup(order + [x]) && forall y :: y in order + [x] ==> y < |m.nodes|)
            && Dfs(m, variant, TopFirst(stack), order)
               == Dfs(m, variant, TopFirst(stack[..|stack| - 1] + Pushed(m, m.nodes[x].children, x, d, s)), order + [x])
  {
    var x, rest := stack[|stack| - 1].node, stack[..|stack| - 1];
    TopFirstPushed(m, rest, m.nodes[x].children, x, d, s);
    DfsConcat(m, variant, InRangeOnly(m, m.nodes[x].children), TopFirst(rest), order + [x]);
    assert TopFirst(stack)[1..] == TopFirst(rest);
  }

  /** Making a pending visit keeps everything the walk maintains. */
  lemma VisitKeepsWalking(m: Model, variant: string, plan: Plan, stack: seq<Frame>)
    requires Walking(m, variant, plan, stack) && stack != []
    requires var x := stack[|stack| - 1].node; x !in plan.order && Selected(m, variant, x)
    ensures var f := stack[|stack| - 1];
            var t := Visit(m, plan, f, NamedDamage(m, f.node), HasDamageSibling(m, f.node));
            Walking(m, variant, t,
                    stack[..|stack| - 1] + Pushed(m, m.nodes[f.node].children, f.node,
                                                  t.nodes[f.node].damageVariant, t.nodes[f.node].shadowedByDamage))
  {
    hide AllRecorded, Recorded, Covered, Accounted, Dfs, TopFirst, Pushed, Roots, Selected, Reachable;
    var f := stack[|stack| - 1];
    assert FrameSound(m, plan, f);
    var t := Visit(m, plan, f, NamedDamage(m, f.node), HasDamageSibling(m, f.node));
    var d, s := t.nodes[f.node].damageVariant, t.nodes[f.node].shadowedByDamage;
    if f.parent == -1 {
      RootReachable(m, variant, f.node);
    } else {
      WalkExtends(m, variant, f.parent, f.node);
    }
    VisitForest(m, plan, f, NamedDamage(m, f.node), HasDamageSibling(m, f.node));
    VisitRecorded(m, plan, f);
    VisitFrames(m, plan, stack, NamedDamage(m, f.node), HasDamageSibling(m, f.node));
    VisitCovered(m, variant, plan.order, stack, d, s);
    VisitSearch(m, variant, plan.order, stack, d, s);
  }

  function StartFrames(roots: seq<nat>): seq<Frame> {
    if roots == [] then [] else StartFrames(roots[1..]) + [Frame(roots[0], -1, false, false)]
  }

  lemma {:induction false} StartFramesOf(roots: seq<nat>)
    ensures TopFirst(StartFrames(roots)) == roots
    ensures forall f :: f in StartFrames(roots) ==> f == Frame(f.node, -1, false, false) && f.node in roots
    ensures forall r: nat :: r in roots ==> Frame(r, -1, false, false) in StartFrames(roots)
  {
    if roots != [] {
      StartFramesOf(roots[1..]);
      TopFirstSnoc(StartFrames(roots[1..]), Frame(roots[0], -1, false, false));
      assert roots == [roots[0]] + roots[1..];
    }
  }

  lemma RootsInRange(m: Model)
    ensures forall r :: r in Roots(m) ==> r < |m.nodes|
  {
  }

  lemma StartWalking(m: Model, variant: string)
    ensures Walking(m, variant, Blank(m), StartFrames(Roots(m)))
  {
    hide Roots;
    var roots := Roots(m);
    var stack := StartFrames(roots);
    RootsInRange(m);
    StartFramesOf(roots);
    forall i | 0 <= i < |stack| ensures FrameSound(m, Blank(m), stack[i]) {
      assert stack[i] in stack;
    }
    forall r | r in roots ensures Accounted(m, variant, [], stack, r) {
      assert Frame(r, -1, false, false) in stack;
      var i :| 0 <= i < |stack| && stack[i] == Frame(r, -1, false, false);
      assert stack[i].node == r;
    }
  }

  /** Once nothing is pending, every walk stays inside the list. */
  lemma {:induction false} WalkStaysListed(m: Model, variant: string, order: seq<nat>, path: seq<int>, k: nat)
    requires Covered(m, variant, order, []) && Walk(m, variant, Roots(m), path) && k < |path|
    ensures path[k] in order
    decreases k
  {
    hide Roots;
    assert Selected(m, variant, path[k]);
    if k == 0 {
      assert Accounted(m, variant, order, [], path[0]);
    } else {
      WalkStaysListed(m, variant, order, path, k - 1);
      assert Edge(m, path[k - 1], path[k]);
      assert Accounted(m, variant, order, [], path[k]);
    }
  }

  /** What a finished plan says of its node graph. */
  ghost predicate Planned(m: Model, variant: string, plan: Plan) {
    && Sized(m, plan) && Forest(plan) && AllRecorded(m, plan)
    && (forall x: nat :: x in plan.order <==> Reachable(m, variant, Roots(m), x))
    && plan.order == Dfs(m, variant, Roots(m), [])
  }

  lemma WalkDone(m: Model, variant: string, plan: Plan)
    requires Walking(m, variant, plan, [])
    ensures Planned(m, variant, plan)
  {
    hide Forest, AllRecorded, Roots;
    forall x: nat | Reachable(m, variant, Roots(m), x) ensures x in plan.order {
      var path :| Walk(m, variant, Roots(m), path) && path[|path| - 1] == x;
      WalkStaysListed(m, variant, plan.order, path, |path| - 1);
    }
  }

  predicate FirstNamed(m: Model, name: string, k: nat)
    requires k < |m.nodes|
  {
    m.nodes[k].name == name && forall j :: 0 <= j < k ==> m.nodes[j].name != name
  }

  /** The table holds the first node of each name there is. */
  ghost predicate NameTable(m: Model, byName: map<string, nat>, upTo: nat)
    requires upTo <= |m.nodes|
  {
    && (forall nm :: nm in byName ==> nm != "" && byName[nm] < upTo && FirstNamed(m, nm, byName[nm]))
    && (forall j :: 0 <= j < upTo && m.nodes[j].name != "" ==> m.nodes[j].name in byName)
  }

  method IndexByName(m: Model) returns (byName: map<string, nat>)
    ensures NameTable(m, byName, |m.nodes|)
  {
    byName := map[];
    var i := 0;
    while i < |m.nodes|
      invariant 0 <= i <= |m.nodes| && NameTable(m, byName, i)
    {
      var nm := m.nodes[i].name;
      if nm != "" && nm !in byName {
        byName := byName[nm := i];
      }
      i := i + 1;
    }
  }

  ghost predicate DamageVariantBelow(m: Model, x: nat, i: nat)
    requires x < |m.nodes| && i <= |m.nodes|
  {
    exists j :: 0 <= j < i && NamedDamage(m, j) && m.nodes[j].name == m.nodes[x].name + "_b"
  }

  lemma BaseName(m: Model, j: nat)
    requires j < |m.nodes| && NamedDamage(m, j)
    ensures var nm := m.nodes[j].name; nm[..|nm| - 2] != "" && nm[..|nm| - 2] + "_b" == nm
  {
  }

  /** x is the first of its name, and a node before i is named after it with "_b" appended. */
  ghost predicate SiblingBelow(m: Model, x: nat, i: nat)
    requires x < |m.nodes| && i <= |m.nodes|
  {
    m.nodes[x].name != "" && FirstNamed(m, m.nodes[x].name, x) && DamageVariantBelow(m, x, i)
  }

  ghost predicate SiblingsBelow(m: Model, hasSibling: seq<bool>, i: nat)
    requires i <= |m.nodes|
  {
    |hasSibling| == |m.nodes| && forall x :: 0 <= x < |m.nodes| ==> hasSibling[x] == SiblingBelow(m, x, i)
  }

  /** Looking at node i marks the node it is a damage variant of, if there is one. */
  function MarkSibling(m: Model, byName: map<string, nat>, hasSibling: seq<bool>, i: nat): seq<bool>
    requires i < |m.nodes| == |hasSibling| && forall nm :: nm in byName ==> byName[nm] < |m.nodes|
  {
    var nm := m.nodes[i].name;
    if NamedDamage(m, i) && nm[..|nm| - 2] in byName then hasSibling[byName[nm[..|nm| - 2]] := true] else hasSibling
  }

  /** Which nodes are named as damage variants, and which have one. */
  method ClassifyDamage(m: Model) returns (isDamage: seq<bool>, hasSibling: seq<bool>)
    ensures |isDamage| == |hasSibling| == |m.nodes|
    ensures forall x :: 0 <= x < |m.nodes| ==> isDamage[x] == NamedDamage(m, x)
    ensures forall x :: 0 <= x < |m.nodes| ==> hasSibling[x] == HasDamageSibling(m, x)
  {
    hide SiblingsBelow, NameTable, HasDamageSibling;
    var byName := IndexByName(m);
    isDamage, hasSibling := seq(|m.nodes|, _ => false), seq(|m.nodes|, _ => false);
    NothingBelow(m, hasSibling);
    var i := 0;
    while i < |m.nodes|
      invariant 0 <= i <= |m.nodes| == |isDamage| == |hasSibling|
      invariant forall x :: 0 <= x < i ==> isDamage[x] == NamedDamage(m, x)
      invariant forall x :: i <= x < |m.nodes| ==> !isDamage[x]
      invariant SiblingsBelow(m, hasSibling, i)
    {
      SiblingsStep(m, byName, hasSibling, i);
      var nm := m.nodes[i].name;
      if |nm| > 2 && nm[|nm| - 2..] == "_b" {
        isDamage := isDamage[i := true];
        if nm[..|nm| - 2] in byName {
          hasSibling := hasSibling[byName[nm[..|nm| - 2]] := true];
        }
      }
      i := i + 1;
    }
    SiblingsFound(m, hasSibling);
  }

  lemma NothingBelow(m: Model, hasSibling: seq<bool>)
    requires |hasSibling| == |m.nodes| && forall x :: 0 <= x < |m.nodes| ==> !hasSibling[x]
    ensures SiblingsBelow(m, hasSibling, 0)
  {
  }

  lemma SiblingsFound(m: Model, hasSibling: seq<bool>)
    requires SiblingsBelow(m, hasSibling, |m.nodes|)
    ensures forall x :: 0 <= x < |m.nodes| ==> hasSibling[x] == HasDamageSibling(m, x)
  {
    forall x | 0 <= x < |m.nodes| ensures hasSibling[x] == HasDamageSibling(m, x) {
      assert hasSibling[x] == SiblingBelow(m, x, |m.nodes|);
    }
  }

  lemma SiblingsStep(m: Model, byName: map<string, nat>, hasSibling: seq<bool>, i: nat)
    requires NameTable(m, byName, |m.nodes|) && i < |m.nodes| && SiblingsBelow(m, hasSibling, i)
    ensures forall nm :: nm in byName ==> byName[nm] < |m.nodes|
    ensures |hasSibling| == |m.nodes| && SiblingsBelow(m, MarkSibling(m, byName, hasSibling, i), i + 1)
  {
    hide SiblingBelow, FirstNamed, NamedDamage;
    forall x | 0 <= x < |m.nodes| ensures MarkSibling(m, byName, hasSibling, i)[x] == SiblingBelow(m, x, i + 1) {
      SiblingStepAt(m, byName, hasSibling, i, x);
    }
  }

  lemma SiblingStepAt(m: Model, byName: map<string, nat>, hasSibling: seq<bool>, i: nat, x: nat)
    requires NameTable(m, byName, |m.nodes|) && i < |m.nodes| == |hasSibling| && x < |m.nodes|
    requires hasSibling[x] == SiblingBelow(m, x, i)
    ensures MarkSibling(m, byName, hasSibling, i)[x] == SiblingBelow(m, x, i + 1)
  {
    hide FirstNamed, DamageVariantBelow, NamedDamage;
    DamageStep(m, x, i);
    var nm := m.nodes[x].name;
    if NamedDamage(m, i) {
      BaseName(m, i);
      FirstNameOf(m, byName, m.nodes[i].name[..|m.nodes[i].name| - 2]);
    }
    if nm != "" && FirstNamed(m, nm, x) {
      OnlyFirst(m, x, byName[nm]);
    }
  }

  lemma FirstNameOf(m: Model, byName: map<string, nat>, nm: string)
    requires nm in byName ==> byName[nm] < |m.nodes| && FirstNamed(m, nm, byName[nm])
    ensures nm in byName ==> m.nodes[byName[nm]].name == nm
  {
  }

  lemma OnlyFirst(m: Model, x: nat, y: nat)
    requires x < |m.nodes| && y < |m.nodes| && FirstNamed(m, m.nodes[x].name, x) && FirstNamed(m, m.nodes[x].name, y)
    ensures x == y
  {
  }

  lemma DamageStep(m: Model, x: nat, i: nat)
    requires x < |m.nodes| && i < |m.nodes|
    ensures DamageVariantBelow(m, x, i + 1)
        <==> DamageVariantBelow(m, x, i)
             || (NamedDamage(m, i) && m.nodes[i].name[..|m.nodes[i].name| - 2] == m.nodes[x].name)
  {
    if NamedDamage(m, i) {
      BaseName(m, i);
      if m.nodes[i].name == m.nodes[x].name + "_b" {
        assert (m.nodes[x].name + "_b")[..|m.nodes[x].name|] == m.nodes[x].name;
      }
    }
  }

  /** The nodes that some node names as a child. */
  method MarkChildren(m: Model) returns (isChild: seq<bool>)
    ensures |isChild| == |m.nodes| && forall x :: 0 <= x < |m.nodes| ==> isChild[x] == IsChild(m, x)
  {
    isChild := seq(|m.nodes|, _ => false);
    var i := 0;
    while i < |m.nodes|
      invariant 0 <= i <= |m.nodes| == |isChild|
      invariant forall x :: 0 <= x < |m.nodes| ==> isChild[x] == exists p :: 0 <= p < i && x in m.nodes[p].children
    {
      var cs := m.nodes[i].children;
      ghost var before := isChild;
      var k := 0;
      while k < |cs|
        invariant 0 <= k <= |cs| && |isChild| == |m.nodes|
        invariant forall x :: 0 <= x < |m.nodes| ==> isChild[x] == (before[x] || x in cs[..k])
      {
        if 0 <= cs[k] < |m.nodes| {
          isChild := isChild[cs[k] := true];
        }
        k := k + 1;
      }
      assert cs[..k] == cs;
      i := i + 1;
    }
  }

  lemma KeepStep(m: Model, xs: seq<int>, k: nat)
    requires k < |xs|
    ensures InRangeOnly(m, xs[k..]) == (if InRange(m, xs[k]) then [xs[k] as nat] else []) + InRangeOnly(m, xs[k + 1..])
  {
    assert xs[k..][1..] == xs[k + 1..];
  }

  method KeepInRange(m: Model, xs: seq<int>) returns (roots: seq<nat>)
    ensures roots == InRangeOnly(m, xs)
  {
    roots := [];
    var k := 0;
    assert [] + InRangeOnly(m, xs) == InRangeOnly(m, xs) && xs[0..] == xs;
    while k < |xs|
      invariant 0 <= k <= |xs|
      invariant roots + InRangeOnly(m, xs[k..]) == InRangeOnly(m, xs)
    {
      hide InRangeOnly;
      KeepStep(m, xs, k);
      if 0 <= xs[k] < |m.nodes| {
        Assoc(roots, [xs[k] as nat], InRangeOnly(m, xs[k + 1..]));
        roots := roots + [xs[k]];
      } else {
        assert [] + InRangeOnly(m, xs[k + 1..]) == InRangeOnly(m, xs[k + 1..]);
      }
      k := k + 1;
    }
  }

  method FindRoots(m: Model) returns (roots: seq<nat>)
    ensures roots == Roots(m)
  {
    var scene := if 0 <= m.defaultScene < |m.scenes| then m.defaultScene else if m.scenes == [] then -1 else 0;
    if scene >= 0 {
      roots := KeepInRange(m, m.scenes[scene]);
    } else {
      var isChild := MarkChildren(m);
      roots := [];
      var i := 0;
      while i < |m.nodes|
        invariant 0 <= i <= |m.nodes|
        invariant roots == Parentless(m, i)
      {
        if !isChild[i] {
          roots := roots + [i];
        }
        i := i + 1;
      }
    }
  }

  /** The primitives of one node: every primitive of its mesh, if it has one. */
  function PrimitivesOfNode(m: Model, n: nat): seq<Primitive>
    requires n < |m.nodes|
  {
    var mesh := m.nodes[n].mesh;
    if 0 <= mesh < |m.meshes| then seq(m.meshes[mesh], p requires p >= 0 => Primitive(n, mesh, p)) else []
  }

  function PrimitivesOf(m: Model, order: seq<nat>): seq<Primitive>
    requires forall i :: 0 <= i < |order| ==> order[i] < |m.nodes|
  {
    if order == [] then []
    else PrimitivesOf(m, order[..|order| - 1]) + PrimitivesOfNode(m, order[|order| - 1])
  }

  /** The plan draws every primitive of every listed node's mesh, each once, grouped in the list's order. */
  lemma {:induction false} PrimitivesComplete(m: Model, order: seq<nat>)
    requires NoDup(order)
    requires forall i :: 0 <= i < |order| ==> order[i] < |m.nodes|
    ensures forall q :: q in PrimitivesOf(m, order) <==>
              q.node in order && q.mesh < |m.meshes| && m.nodes[q.node].mesh == q.mesh && q.index < m.meshes[q.mesh]
    ensures NoDup(PrimitivesOf(m, order))
  {
    if order != [] {
      var n := order[|order| - 1];
      var front := order[..|order| - 1];
      PrimitivesComplete(m, front);
      assert order == front + [n];
      var here := PrimitivesOfNode(m, n);
      forall q: Primitive | q.node == n && q.mesh < |m.meshes| && m.nodes[n].mesh == q.mesh && q.index < m.meshes[q.mesh]
        ensures q in here {
        assert here[q.index] == q;
      }
    }
  }

  method CollectPrimitives(m: Model, order: seq<nat>) returns (primitives: seq<Primitive>)
    requires forall i :: 0 <= i < |order| ==> order[i] < |m.nodes|
    ensures primitives == PrimitivesOf(m, order)
  {
    primitives := [];
    var k := 0;
    while k < |order|
      invariant 0 <= k <= |order| && primitives == PrimitivesOf(m, order[..k])
    {
      var n := order[k];
      var mesh := m.nodes[n].mesh;
      assert order[..k + 1][..k] == order[..k];
      if 0 <= mesh < |m.meshes| {
        ghost var before := primitives;
        var p := 0;
        while p < m.meshes[mesh]
          invariant 0 <= p <= m.meshes[mesh]
          invariant primitives == before + PrimitivesOfNode(m, n)[..p]
        {
          primitives := primitives + [Primitive(n, mesh, p)];
          p := p + 1;
        }
        assert PrimitivesOfNode(m, n)[..p] == PrimitivesOfNode(m, n);
      }
      k := k + 1;
    }
    assert order[..k] == order;
  }

  /** The stack the walk starts from: the roots pushed last to first. */
  method PushRoots(roots: seq<nat>) returns (stack: seq<Frame>)
    ensures stack == StartFrames(roots)
  {
    stack := [];
    var i := |roots|;
    while i > 0
      invariant 0 <= i <= |roots| && stack == StartFrames(roots[i..])
    {
      i := i - 1;
      assert roots[i..][1..] == roots[i + 1..];
      stack := stack + [Frame(roots[i], -1, false, false)];
    }
  }

  method PushChildren(m: Model, stack: seq<Frame>, parent: nat, damaged: bool, shadowed: bool) returns (r: seq<Frame>)
    requires parent < |m.nodes|
    ensures r == stack + Pushed(m, m.nodes[parent].children, parent, damaged, shadowed)
  {
    var cs := m.nodes[parent].children;
    r := stack;
    var i := |cs|;
    while i > 0
      invariant 0 <= i <= |cs| && r == stack + Pushed(m, cs[i..], parent, damaged, shadowed)
    {
      i := i - 1;
      assert cs[i..][1..] == cs[i + 1..];
      if 0 <= cs[i] < |m.nodes| {
        r := r + [Frame(cs[i], parent, damaged, shadowed)];
      }
    }
  }

  /** Some listed node carries a transform of its own. */
  ghost predicate SomeMoved(m: Model, order: seq<nat>) {
    exists x :: x in order && x < |m.nodes| && m.nodes[x].local != IDENTITY
  }

  lemma NothingMoved(m: Model)
    ensures !SomeMoved(m, [])
  {
  }

  lemma PlannedWithPrimitives(m: Model, variant: string, plan: Plan, primitives: seq<Primitive>)
    requires Planned(m, variant, plan)
    ensures Planned(m, variant, plan.(primitives := primitives))
  {
    var t := plan.(primitives := primitives);
    assert Forest(t) by {
      assert forall k :: 0 <= k < |plan.order| ==> ParentBefore(plan, k) && ParentBefore(t, k);
    }
    assert forall x :: x in plan.order ==> Recorded(m, plan, x) && Recorded(m, t, x);
  }

  lemma PlannedBelow(m: Model, variant: string, plan: Plan)
    requires Planned(m, variant, plan)
    ensures forall i :: 0 <= i < |plan.order| ==> plan.order[i] < |m.nodes|
  {
  }

  lemma MovedSnoc(m: Model, order: seq<nat>, x: nat)
    requires x < |m.nodes|
    ensures SomeMoved(m, order + [x]) <==> SomeMoved(m, order) || m.nodes[x].local != IDENTITY
  {
    if y :| y in order && y < |m.nodes| && m.nodes[y].local != IDENTITY {
      assert y in order + [x];
    }
    assert x in order + [x];
  }

  lemma WalkingTop(m: Model, variant: string, plan: Plan, stack: seq<Frame>)
    requires Walking(m, variant, plan, stack) && stack != []
    ensures |m.nodes| == |plan.nodes| == |plan.globalRest| && |plan.order| <= |m.nodes|
    ensures var f := stack[|stack| - 1]; f.node < |m.nodes| && -1 <= f.parent < |m.nodes|
    ensures var f := stack[|stack| - 1]; Matches(m.nodes[f.node], variant) <==> Selected(m, variant, f.node)
  {
    hide AllRecorded, AllReachable, Covered, Dfs, Roots;
    assert FrameSound(m, plan, stack[|stack| - 1]);
    NoDupBound(plan.order, |m.nodes|);
  }

  method RecordNode(m: Model, plan: Plan, f: Frame, isDamage: bool, hasSibling: bool) returns (t: Plan)
    requires f.node < |m.nodes| == |plan.nodes| == |plan.globalRest| && -1 <= f.parent < |plan.nodes|
    ensures t == Visit(m, plan, f, isDamage, hasSibling)
  {
    t := plan;
    var local := m.nodes[f.node].local;
    t := t.(nodes := t.nodes[f.node := PlanNode(f.parent, local, f.damaged || isDamage, f.shadowed || hasSibling, true)]);
    if local != IDENTITY {
      t := t.(hasNodeTransforms := true);
    }
    t := t.(globalRest := t.globalRest[f.node := if f.parent >= 0 then Mul(t.globalRest[f.parent], local) else local]);
    t := t.(order := t.order + [f.node]);
  }

  /** Build the plan: every reachable node once, parents first, with its flags, transforms and primitives. */
  method BuildMeshNodePlan(m: Model, variant: string) returns (plan: Plan)
    ensures Planned(m, variant, plan)
    ensures plan.primitives == PrimitivesOf(m, plan.order)
    ensures plan.hasNodeTransforms <==> SomeMoved(m, plan.order)
  {
    hide Walking, Planned, FrameSound, Selected, Roots, SomeMoved, PrimitivesOf;
    plan := Blank(m);
    var isDamage, hasSibling := ClassifyDamage(m);
    var roots := FindRoots(m);
    var stack := PushRoots(roots);
    StartWalking(m, variant);
    NothingMoved(m);
    var visited := seq(|m.nodes|, _ => false);
    while stack != []
      invariant Walking(m, variant, plan, stack) && |visited| == |m.nodes|
      invariant forall x :: 0 <= x < |m.nodes| ==> visited[x] == (x in plan.order)
      invariant plan.hasNodeTransforms <==> SomeMoved(m, plan.order)
      invariant plan.primitives == []
      decreases |m.nodes| - |plan.order|, |stack|
    {
      WalkingTop(m, variant, plan, stack);
      var f := stack[|stack| - 1];
      if visited[f.node] || !Matches(m.nodes[f.node], variant) {
        SkipKeepsWalking(m, variant, plan, stack);
        stack := stack[..|stack| - 1];
      } else {
        VisitKeepsWalking(m, variant, plan, stack);
        MovedSnoc(m, plan.order, f.node);
        stack := stack[..|stack| - 1];
        visited := visited[f.node := true];
        plan := RecordNode(m, plan, f, isDamage[f.node], hasSibling[f.node]);
        var n := plan.nodes[f.node];
        stack := PushChildren(m, stack, f.node, n.damageVariant, n.shadowedByDamage);
      }
    }
    WalkDone(m, variant, plan);
    PlannedBelow(m, variant, plan);
    var primitives := CollectPrimitives(m, plan.order);
    PlannedWithPrimitives(m, variant, plan, primitives);
    plan := plan.(primitives := primitives);
  }
}
