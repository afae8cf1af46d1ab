/**
 The EE ABI inference's backward liveness (tools/eeabi.py, KernelAbi.run): registers live into each node,
 iterated to a fixed point over a dictionary updated in place.
 */
module Liveness {

  type Node = int
  type Register = int

  /** The graph and each node's register effects; a key that is missing has no effect and no live registers. */
  datatype Graph = Graph(successors: map<Node, seq<Node>>, uses: map<Node, set<Register>>,
                         defs: map<Node, set<Register>>)

  function Get(m: map<Node, set<Register>>, n: Node): set<Register> {
    if n in m then m[n] else {}
  }

  // ----- what liveness means --------------------------------------------------------------------

  /** A walk along the successors whose last node uses `r`, with no earlier node defining it. */
  ghost predicate Reaches(g: Graph, path: seq<Node>, r: Register) {
    && path != [] && (forall i :: 0 <= i < |path| ==> path[i] in g.successors)
    && (forall i, j :: 0 <= i < j < |path| && j == i + 1 ==> path[j] in g.successors[path[i]])
    && r in Get(g.uses, path[|path| - 1])
    && (forall i :: 0 <= i < |path| - 1 ==> r !in Get(g.defs, path[i]))
  }

  ghost predicate LiveAt(g: Graph, n: Node, r: Register) {
    exists path :: Reaches(g, path, r) && path[0] == n
  }

  // ----- one node's equation --------------------------------------------------------------------

  ghost function Out(targets: seq<Node>, live: map<Node, set<Register>>): set<Register> {
    if targets == [] then {} else Get(live, targets[0]) + Out(targets[1..], live)
  }

  ghost function In(g: Graph, live: map<Node, set<Register>>, n: Node): set<Register>
    requires n in g.successors
  {
    Get(g.uses, n) + (Out(g.successors[n], live) - Get(g.defs, n))
  }

  lemma {:induction false} OutHolds(targets: seq<Node>, live: map<Node, set<Register>>, r: Register)
    ensures r in Out(targets, live) <==> exists t :: t in targets && r in Get(live, t)
  {
    if targets != [] {
      OutHolds(targets[1..], live, r);
      assert forall t :: t in targets <==> t == targets[0] || t in targets[1..];
    }
  }

  lemma {:induction false} OutSnoc(targets: seq<Node>, live: map<Node, set<Register>>, k: nat)
    requires k < |targets|
    ensures Out(targets[..k + 1], live) == Out(targets[..k], live) + Get(live, targets[k])
  {
    if k == 0 {
      assert targets[..1][1..] == [] && targets[..0] == [];
    } else {
      OutSnoc(targets[1..], live, k - 1);
      assert targets[..k + 1][1..] == targets[1..][..k] && targets[..k][1..] == targets[1..][..k - 1];
    }
  }

  ghost predicate Below(a: map<Node, set<Register>>, b: map<Node, set<Register>>) {
    forall n {:trigger Get(a, n)} {:trigger Get(b, n)} :: Get(a, n) <= Get(b, n)
  }

  lemma InGrows(g: Graph, a: map<Node, set<Register>>, b: map<Node, set<Register>>, n: Node)
    requires Below(a, b) && n in g.successors
    ensures In(g, a, n) <= In(g, b, n)
  {
    forall r | r in Out(g.successors[n], a)
      ensures r in Out(g.successors[n], b)
    {
      OutHolds(g.successors[n], a, r);
      OutHolds(g.successors[n], b, r);
    }
  }

  // ----- the two halves of the fixed point ------------------------------------------------------

  ghost predicate Sound(g: Graph, live: map<Node, set<Register>>) {
    forall n, r {:trigger r in Get(live, n)} :: r in Get(live, n) ==> LiveAt(g, n, r)
  }

  /** One node's equation keeps to registers with a path. */
  lemma InSound(g: Graph, live: map<Node, set<Register>>, n: Node, r: Register)
    requires Sound(g, live) && n in g.successors && r in In(g, live, n)
    ensures LiveAt(g, n, r)
  {
    if r in Get(g.uses, n) {
      assert Reaches(g, [n], r);
    } else {
      OutHolds(g.successors[n], live, r);
      var t :| t in g.successors[n] && r in Get(live, t);
      var path :| Reaches(g, path, r) && path[0] == t;
      var longer := [n] + path;
      assert forall i :: 0 < i < |longer| ==> longer[i] == path[i - 1];
      assert Reaches(g, longer, r);
    }
  }

  ghost predicate Fixed(g: Graph, live: map<Node, set<Register>>) {
    forall n :: n in g.successors ==> Get(live, n) == In(g, live, n)
  }

  /** At a fixed point every path shows in its first node. */
  lemma {:induction false} FixedComplete(g: Graph, live: map<Node, set<Register>>, path: seq<Node>, r: Register)
    requires Fixed(g, live) && Reaches(g, path, r)
    ensures r in Get(live, path[0])
    decreases |path|
  {
    var n := path[0];
    if |path| > 1 {
      var rest := path[1..];
      assert forall i :: 0 <= i < |rest| ==> rest[i] == path[i + 1];
      FixedComplete(g, live, rest, r);
      assert path[1] in g.successors[n];
      OutHolds(g.successors[n], live, r);
    }
    assert n in g.successors;
  }

  /** A sound fixed point is liveness itself, so there is only one. */
  lemma FixedIsLiveness(g: Graph, live: map<Node, set<Register>>, n: Node, r: Register)
    requires Fixed(g, live) && Sound(g, live)
    ensures r in Get(live, n) <==> LiveAt(g, n, r)
  {
    if LiveAt(g, n, r) {
      var path :| Reaches(g, path, r) && path[0] == n;
      FixedComplete(g, live, path, r);
    }
  }

  // ----- how far it can still grow --------------------------------------------------------------

  ghost function Universe(g: Graph, order: seq<Node>): set<Register> {
    if order == [] then {} else Get(g.uses, order[0]) + Universe(g, order[1..])
  }

  lemma {:induction false} UniverseHolds(g: Graph, order: seq<Node>, n: Node)
    requires n in order
    ensures Get(g.uses, n) <= Universe(g, order)
  {
    if n != order[0] { UniverseHolds(g, order[1..], n); }
  }

  ghost predicate Within(live: map<Node, set<Register>>, all: set<Register>) {
    forall n {:trigger Get(live, n)} :: Get(live, n) <= all
  }

  lemma {:induction false} OutWithin(targets: seq<Node>, live: map<Node, set<Register>>, all: set<Register>)
    requires Within(live, all)
    ensures Out(targets, live) <= all
  {
    if targets != [] { OutWithin(targets[1..], live, all); }
  }

  /** Registers times nodes, less what is live already. */
  ghost function Room(live: map<Node, set<Register>>, order: seq<Node>, all: set<Register>): (r: nat)
    requires Within(live, all)
  {
    if order == [] then 0
    else
      Subset(Get(live, order[0]), all);
      |all| - |Get(live, order[0])| + Room(live, order[1..], all)
  }

  lemma Subset(a: set<Register>, b: set<Register>)
    requires a <= b
    ensures |a| <= |b| && (a != b ==> |a| < |b|)
  {
    var d := b - a;
    assert b == a + d && a !! d;
    assert |b| == |a| + |d|;
  }

  lemma {:induction false} RoomBound(live: map<Node, set<Register>>, order: seq<Node>, all: set<Register>)
    requires Within(live, all)
    ensures Room(live, order, all) <= |all| * |order|
  {
    if order != [] { RoomBound(live, order[1..], all); }
  }

  lemma {:induction false} RoomShrinks(a: map<Node, set<Register>>, b: map<Node, set<Register>>, order: seq<Node>,
                                       all: set<Register>, n: Node)
    requires Within(a, all) && Within(b, all) && Below(a, b)
    ensures Room(b, order, all) <= Room(a, order, all)
    ensures n in order && Get(a, n) != Get(b, n) ==> Room(b, order, all) < Room(a, order, all)
  {
    if order != [] {
      Subset(Get(a, order[0]), Get(b, order[0]));
      RoomShrinks(a, b, order[1..], all, n);
    }
  }

  // ----- the loop -------------------------------------------------------------------------------

  /** The union over the successors, gathered in a loop. */
  method LiveOut(targets: seq<Node>, live: map<Node, set<Register>>) returns (out: set<Register>)
    ensures out == Out(targets, live)
  {
    out := {};
    var k := 0;
    while k < |targets|
      invariant 0 <= k <= |targets| && out == Out(targets[..k], live)
    {
      OutSnoc(targets, live, k);
      out := out + Get(live, targets[k]);
      k := k + 1;
    }
    assert targets[..k] == targets;
  }

  /** Storing a node's new set keeps everything the loop needs. */
  lemma StoreKeeps(g: Graph, live: map<Node, set<Register>>, n: Node, all: set<Register>)
    requires Sound(g, live) && Within(live, all) && n in g.successors && n in live && Get(g.uses, n) <= all
    requires forall m :: m in g.successors ==> Get(live, m) <= In(g, live, m)
    ensures var after := live[n := In(g, live, n)];
      && Sound(g, after) && Within(after, all) && Below(live, after)
      && forall m :: m in g.successors ==> Get(after, m) <= In(g, after, m)
  {
    var newSet := In(g, live, n);
    var after := live[n := newSet];
    OutWithin(g.successors[n], live, all);
    assert Below(live, after);
    forall m, r {:trigger r in Get(after, m)} | r in Get(after, m)
      ensures LiveAt(g, m, r)
    {
      if m == n { InSound(g, live, n, r); } else { assert r in Get(live, m); }
    }
    forall m | m in g.successors
      ensures Get(after, m) <= In(g, after, m)
    {
      InGrows(g, live, after, m);
    }
  }

  /** Everything the loop keeps. */
  ghost predicate Growing(g: Graph, live: map<Node, set<Register>>, all: set<Register>) {
    && live.Keys == g.successors.Keys && Sound(g, live) && Within(live, all)
    && forall m :: m in g.successors ==> Get(live, m) <= In(g, live, m)
  }

  lemma BelowSelf(a: map<Node, set<Register>>)
    ensures Below(a, a)
  {
  }

  lemma BelowThen(a: map<Node, set<Register>>, b: map<Node, set<Register>>, c: map<Node, set<Register>>)
    requires Below(a, b) && Below(b, c)
    ensures Below(a, c)
  {
  }

  /** One pass over the nodes: what is live has grown, or nothing changed and the pass found a fixed point. */
  method Pass(g: Graph, order: seq<Node>, start: map<Node, set<Register>>, ghost all: set<Register>)
    returns (live: map<Node, set<Register>>, changed: bool)
    requires (forall n :: n in order <==> n in g.successors) && all == Universe(g, order) && Growing(g, start, all)
    ensures Growing(g, live, all) && Below(start, live)
    ensures if changed then Room(live, order, all) < Room(start, order, all) else live == start && Fixed(g, live)
  {
    hide Sound, Within, Below, In, LiveAt, Fixed, Room, Universe;
    live, changed := start, false;
    BelowSelf(start);
    var k := 0;
    while k < |order|
      invariant 0 <= k <= |order| && Growing(g, live, all) && Below(start, live)
      invariant if changed then Room(live, order, all) < Room(start, order, all) else live == start
      invariant !changed ==> forall i :: 0 <= i < k ==> Get(live, order[i]) == In(g, live, order[i])
    {
      var n := order[k];
      assert n in order;
      var out := LiveOut(g.successors[n], live);
      var freshSet := Get(g.uses, n) + (out - Get(g.defs, n));
      InIs(g, live, n);
      if freshSet != live[n] {
        UniverseHolds(g, order, n);
        StoreKeeps(g, live, n, all);
        RoomShrinks(live, live[n := freshSet], order, all, n);
        BelowThen(start, live, live[n := freshSet]);
        live := live[n := freshSet];
        changed := true;
      }
      k := k + 1;
    }
    if !changed { AllFixed(g, live, order); }
  }

  /**
   The fixed-point loop over the nodes in dictionary order.  It ends after at most one pass for each register of
   each node and one more, and on every key of the graph the answer is exactly liveness.
   */
  method Solve(g: Graph, order: seq<Node>) returns (live: map<Node, set<Register>>, ghost passes: nat)
    requires forall n :: n in order <==> n in g.successors
    ensures live.Keys == g.successors.Keys
    ensures forall n, r {:trigger r in live[n]} :: n in live ==> (r in live[n] <==> LiveAt(g, n, r))
    ensures passes <= |Universe(g, order)| * |order| + 1
  {
    hide Sound, Within, Below, In, LiveAt, Fixed, Room, Universe;
    live := map n | n in g.successors :: {};
    ghost var all := Universe(g, order);
    Started(g, live, all);
    RoomBound(live, order, all);
    passes := 0;
    var changed := true;
    while changed
      invariant Growing(g, live, all) && (!changed ==> Fixed(g, live))
      invariant passes + Room(live, order, all) <= |all| * |order| + if changed then 0 else 1
      decreases Room(live, order, all), if changed then 1 else 0
    {
      live, changed := Pass(g, order, live, all);
      passes := passes + 1;
    }
    forall n, r {:trigger r in live[n]} | n in live
      ensures r in live[n] <==> LiveAt(g, n, r)
    {
      FixedIsLiveness(g, live, n, r);
    }
  }

  lemma InIs(g: Graph, live: map<Node, set<Register>>, n: Node)
    requires n in g.successors
    ensures In(g, live, n) == Get(g.uses, n) + (Out(g.successors[n], live) - Get(g.defs, n))
  {
  }

  lemma Started(g: Graph, live: map<Node, set<Register>>, all: set<Register>)
    requires forall n :: n in live ==> live[n] == {}
    ensures Sound(g, live) && Within(live, all)
  {
  }

  lemma AllFixed(g: Graph, live: map<Node, set<Register>>, order: seq<Node>)
    requires forall n :: n in order <==> n in g.successors
    requires forall i :: 0 <= i < |order| ==> Get(live, order[i]) == In(g, live, order[i])
    ensures Fixed(g, live)
  {
  }
}
