/** The scene graph as the warp tools see it, and the upstream walk that
    finds the deformers and animation curves driving a node
    (`get_inputs` in scripts/core.py). */
module Scene {
  import opened Lists

  type Node = string

  /** The concrete animation-curve types; the two letters name the input
      and the output unit (T time, U unitless, A angle, L linear). */
  datatype CurveType = TA | TL | TT | TU | UA | UL | UT | UU

  /** Node types, grouped by the families the code filters on. Every
      `animCurve*` type derives from `animCurve`; skin clusters, blend
      shapes and the other deformers derive from `geometryFilter`. */
  datatype NodeType =
    | AnimCurve(curve: CurveType)
    | GeometryFilter(deformer: string)
    | WarpStatusType
    | TimeType
    | OtherType(name: string)

  /** The `type=` argument of a connection query. */
  datatype TypeFilter = AnyType | AnimCurveFamily | GeometryFilterFamily

  predicate Matches(t: NodeType, f: TypeFilter)
  {
    match f
    case AnyType => true
    case AnimCurveFamily => t.AnimCurve?
    case GeometryFilterFamily => t.GeometryFilter?
  }

  /** The sources `get_inputs` follows: deformers and animation curves. */
  predicate IsProducer(t: NodeType)
  {
    t.AnimCurve? || t.GeometryFilter?
  }

  datatype Plug = Plug(node: Node, attr: string)

  /** A live connection `src -> dst`. */
  datatype Link = Link(src: Plug, dst: Plug)

  /** A scene: the type of every node and the connections, oldest first. */
  datatype Graph = Graph(types: map<Node, NodeType>, links: seq<Link>)

  /** Every plug has at most one incoming connection. */
  ghost predicate SingleSource(links: seq<Link>)
  {
    forall i, j :: 0 <= i < j < |links| ==> links[i].dst != links[j].dst
  }

  /** The host keeps at most one incoming connection per plug and only
      connects nodes that exist. */
  ghost predicate WellFormed(g: Graph)
  {
    && (forall l :: l in g.links ==> l.src.node in g.types && l.dst.node in g.types)
    && SingleSource(g.links)
  }

  function TypeOf(g: Graph, n: Node): NodeType
  {
    if n in g.types then g.types[n] else OtherType("")
  }

  /** Connection `i` of the scene runs from node `m` into node `n`. */
  ghost predicate LinkFromTo(g: Graph, i: int, m: Node, n: Node)
  {
    0 <= i < |g.links| && g.links[i].src.node == m && g.links[i].dst.node == n
  }

  /** `m` is a producer connected into some attribute of `n`. */
  ghost predicate Drives(g: Graph, m: Node, n: Node)
  {
    IsProducer(TypeOf(g, m)) && exists i :: LinkFromTo(g, i, m, n)
  }

  /** The sources of the connections among `ls` that lead into `n` and
      whose node type passes `f`, in connection order, repeats kept. */
  function SourcesAmong(g: Graph, ls: seq<Link>, n: Node, f: TypeFilter): (r: seq<Node>)
    ensures forall m :: m in r <==> Matches(TypeOf(g, m), f) && exists l :: l in ls && l.src.node == m && l.dst.node == n
  {
    if ls == [] then []
    else
      var rest := SourcesAmong(g, ls[1..], n, f);
      assert forall l :: l in ls <==> l == ls[0] || l in ls[1..];
      if ls[0].dst.node == n && Matches(TypeOf(g, ls[0].src.node), f) then [ls[0].src.node] + rest else rest
  }

  /** `listConnections(n, source=True, destination=False, type=f) or []`. */
  function ListSources(g: Graph, n: Node, f: TypeFilter): seq<Node>
  {
    SourcesAmong(g, g.links, n, f)
  }

  /** The destinations of the connections among `ls` that leave `n`, in
      connection order, repeats kept. */
  function DestinationsAmong(ls: seq<Link>, n: Node): (r: seq<Node>)
    ensures forall m :: m in r <==> exists l :: l in ls && l.src.node == n && l.dst.node == m
  {
    if ls == [] then []
    else
      var rest := DestinationsAmong(ls[1..], n);
      assert forall l :: l in ls <==> l == ls[0] || l in ls[1..];
      if ls[0].src.node == n then [ls[0].dst.node] + rest else rest
  }

  /** `listConnections(n, source=False, destination=True) or []`. */
  function ListDestinations(g: Graph, n: Node): seq<Node>
  {
    DestinationsAmong(g.links, n)
  }

  /** The de-duplicated direct inputs of `get_inputs`: the deformer sources
      and the animation-curve sources of `n` as one set. */
  function DirectInputs(g: Graph, n: Node): set<Node>
  {
    Elems(ListSources(g, n, GeometryFilterFamily)) + Elems(ListSources(g, n, AnimCurveFamily))
  }

  /** The direct inputs of `n` are exactly the producers connected into
      it: the deformer and curve filters together miss no producer. */
  lemma DirectInputsAreDrivers(g: Graph, n: Node, m: Node)
    ensures m in DirectInputs(g, n) <==> Drives(g, m, n)
  {
    if m in DirectInputs(g, n) {
      var l :| l in g.links && l.src.node == m && l.dst.node == n;
      var i :| 0 <= i < |g.links| && g.links[i] == l;
      assert LinkFromTo(g, i, m, n);
    }
    if Drives(g, m, n) {
      var i :| LinkFromTo(g, i, m, n);
      assert g.links[i] in g.links;
    }
  }

  /** A rank that strictly grows along every producer connection: the
      witness that the producer relation has no cycle. */
  ghost predicate Ranked(g: Graph, rank: map<Node, nat>)
  {
    forall i :: 0 <= i < |g.links| && IsProducer(TypeOf(g, g.links[i].src.node)) ==>
      && g.links[i].src.node in rank
      && g.links[i].dst.node in rank
      && rank[g.links[i].src.node] < rank[g.links[i].dst.node]
  }

  lemma DrivesRanked(g: Graph, rank: map<Node, nat>, m: Node, n: Node)
    requires Ranked(g, rank) && m in DirectInputs(g, n)
    ensures m in rank && n in rank && rank[m] < rank[n]
  {
    DirectInputsAreDrivers(g, n, m);
    var i :| LinkFromTo(g, i, m, n);
  }

  /** `get_inputs(n)`: the direct inputs, and recursively the inputs of
      each of them. Like the source it keeps no visited set, so it is
      defined only where the producer relation is acyclic. */
  function GetInputs(g: Graph, ghost rank: map<Node, nat>, n: Node): (r: set<Node>)
    requires Ranked(g, rank)
    ensures DirectInputs(g, n) <= r
    ensures r == {} <==> DirectInputs(g, n) == {}
    ensures forall x :: x in r ==> x in rank && n in rank && rank[x] < rank[n]
    ensures n !in r
    decreases if n in rank then rank[n] + 1 else 0
  {
    var inputs := DirectInputs(g, n);
    if inputs == {} then {}
    else
      assert forall c :: c in inputs ==> c in rank && n in rank && rank[c] < rank[n] by {
        forall c | c in inputs ensures c in rank && n in rank && rank[c] < rank[n] {
          DrivesRanked(g, rank, c, n);
        }
      }
      inputs + (set c, x | c in inputs && x in GetInputs(g, rank, c) :: x)
  }

  /** A set of nodes is closed when it holds the direct inputs of each of
      its members. */
  ghost predicate Closed(g: Graph, s: set<Node>)
  {
    forall x {:trigger DirectInputs(g, x)} :: x in s ==> DirectInputs(g, x) <= s
  }

  /** All producer sources of the scene: a finite bound for the walk. */
  function AllSources(g: Graph): (s: set<Node>)
    ensures forall n :: DirectInputs(g, n) <= s
  {
    var s := set i | 0 <= i < |g.links| :: g.links[i].src.node;
    assert forall n :: DirectInputs(g, n) <= s by {
      forall n, m | m in DirectInputs(g, n) ensures m in s {
        DirectInputsAreDrivers(g, n, m);
        var i :| LinkFromTo(g, i, m, n);
      }
    }
    s
  }

  /** The upstream closure of `n`: the sources that belong to every closed
      set holding the direct inputs of `n`, that is, the producers that
      reach `n` through a chain of producer connections. */
  ghost function Upstream(g: Graph, n: Node): set<Node>
  {
    set x | x in AllSources(g) && forall t {:trigger Closed(g, t)} :: DirectInputs(g, n) <= t && Closed(g, t) ==> x in t
  }

  /** The closure holds the direct inputs and is itself closed. */
  lemma UpstreamIsClosed(g: Graph, n: Node)
    ensures DirectInputs(g, n) <= Upstream(g, n)
    ensures Closed(g, Upstream(g, n))
  {
    var u := Upstream(g, n);
    forall x, y | x in u && y in DirectInputs(g, x) ensures y in u {
      forall t | DirectInputs(g, n) <= t && Closed(g, t) ensures y in t {
        assert x in t;
      }
    }
  }

  /** What `get_inputs` returns is the transitive upstream closure: it holds
      the direct inputs, holds the inputs of everything it holds, is empty
      exactly when there is no direct input, and lies inside every other
      set with the first two properties. */
  lemma {:induction false} GetInputsIsClosure(g: Graph, rank: map<Node, nat>, n: Node)
    requires Ranked(g, rank)
    ensures DirectInputs(g, n) <= GetInputs(g, rank, n)
    ensures Closed(g, GetInputs(g, rank, n))
    ensures GetInputs(g, rank, n) == {} <==> DirectInputs(g, n) == {}
    decreases if n in rank then rank[n] + 1 else 0, 1
  {
    forall x | x in GetInputs(g, rank, n) ensures DirectInputs(g, x) <= GetInputs(g, rank, n) {
      GetInputsClosedAt(g, rank, n, x);
    }
  }

  lemma {:induction false} GetInputsClosedAt(g: Graph, rank: map<Node, nat>, n: Node, x: Node)
    requires Ranked(g, rank) && x in GetInputs(g, rank, n)
    ensures DirectInputs(g, x) <= GetInputs(g, rank, n)
    decreases if n in rank then rank[n] + 1 else 0, 0
  {
    var inputs := DirectInputs(g, n);
    var c :| c in inputs && (c == x || x in GetInputs(g, rank, c));
    DrivesRanked(g, rank, c, n);
    GetInputsWithin(g, rank, n, c);
    if c == x {
      GetInputsIsClosure(g, rank, x);
    } else {
      GetInputsClosedAt(g, rank, c, x);
    }
  }

  /** The inputs of a direct input are among the inputs. */
  lemma GetInputsWithin(g: Graph, rank: map<Node, nat>, n: Node, c: Node)
    requires Ranked(g, rank) && c in DirectInputs(g, n)
    ensures GetInputs(g, rank, c) <= GetInputs(g, rank, n)
  {
  }

  /** Minimality: every closed set that holds the direct inputs of `n`
      holds all of `get_inputs(n)`. */
  lemma {:induction false} GetInputsLeast(g: Graph, rank: map<Node, nat>, n: Node, t: set<Node>)
    requires Ranked(g, rank)
    requires DirectInputs(g, n) <= t && Closed(g, t)
    ensures GetInputs(g, rank, n) <= t
    decreases if n in rank then rank[n] + 1 else 0
  {
    forall c | c in DirectInputs(g, n) ensures GetInputs(g, rank, c) <= t {
      DrivesRanked(g, rank, c, n);
      GetInputsLeast(g, rank, c, t);
    }
  }

  /** On an acyclic scene the recursive `get_inputs` computes exactly the
      upstream closure. */
  lemma GetInputsIsUpstream(g: Graph, rank: map<Node, nat>, n: Node)
    requires Ranked(g, rank)
    ensures GetInputs(g, rank, n) == Upstream(g, n)
  {
    var r := GetInputs(g, rank, n);
    assert Upstream(g, n) <= r by {
      GetInputsIsClosure(g, rank, n);
      UpstreamLeast(g, n, r);
    }
    assert r <= Upstream(g, n) by {
      GetInputsWithinUpstream(g, rank, n);
    }
  }

  lemma GetInputsWithinUpstream(g: Graph, rank: map<Node, nat>, n: Node)
    requires Ranked(g, rank)
    ensures GetInputs(g, rank, n) <= Upstream(g, n)
  {
    var r := GetInputs(g, rank, n);
    GetInputsLeast(g, rank, n, AllSources(g));
    forall x | x in r ensures x in Upstream(g, n) {
      forall t | DirectInputs(g, n) <= t && Closed(g, t) ensures x in t {
        GetInputsLeast(g, rank, n, t);
      }
    }
  }

  /** The closure lies inside every closed set holding the direct inputs. */
  lemma UpstreamLeast(g: Graph, n: Node, t: set<Node>)
    requires DirectInputs(g, n) <= t && Closed(g, t)
    ensures Upstream(g, n) <= t
  {
  }

  /** The state of the walk after expanding the first `i` nodes of `r`:
      nothing repeats, nothing outside the closure was found, and the
      direct inputs of `n` and of every expanded node were found. */
  ghost predicate Walk(g: Graph, n: Node, r: seq<Node>, i: int)
  {
    && 0 <= i <= |r|
    && Distinct(r)
    && Elems(r) <= Upstream(g, n)
    && DirectInputs(g, n) <= Elems(r)
    && (forall k :: 0 <= k < i ==> DirectInputs(g, r[k]) <= Elems(r))
  }

  /** The walk starts from the direct inputs, none expanded yet. */
  lemma WalkStart(g: Graph, n: Node, r: seq<Node>)
    requires Distinct(r) && Elems(r) == DirectInputs(g, n)
    ensures Walk(g, n, r, 0)
  {
    UpstreamIsClosed(g, n);
  }

  /** Expanding node `i` appends its not yet visited inputs. */
  lemma WalkStep(g: Graph, n: Node, r: seq<Node>, i: int, more: seq<Node>)
    requires Walk(g, n, r, i) && i < |r|
    requires Distinct(more) && Elems(more) == DirectInputs(g, r[i]) - Elems(r)
    ensures Walk(g, n, r + more, i + 1)
  {
    ElemsAppend(r, more);
    DistinctAppend(r, more);
    assert Elems(more) <= Upstream(g, n) by {
      UpstreamIsClosed(g, n);
      assert r[i] in Elems(r);
    }
    ExpandedAppend(g, r, i, more);
  }

  /** After the append, the first `i + 1` nodes have all their direct
      inputs in the list. */
  lemma ExpandedAppend(g: Graph, r: seq<Node>, i: int, more: seq<Node>)
    requires 0 <= i < |r|
    requires forall k :: 0 <= k < i ==> DirectInputs(g, r[k]) <= Elems(r)
    requires DirectInputs(g, r[i]) <= Elems(r + more)
    requires Elems(r + more) == Elems(r) + Elems(more)
    ensures forall k :: 0 <= k < i + 1 ==> DirectInputs(g, (r + more)[k]) <= Elems(r + more)
  {
    forall k | 0 <= k < i + 1 ensures DirectInputs(g, (r + more)[k]) <= Elems(r + more) {
      assert (r + more)[k] == r[k];
    }
  }

  /** Each expansion either adds an unvisited source or adds nothing. */
  lemma WalkShrinks(g: Graph, r: seq<Node>, x: Node, more: seq<Node>)
    requires Elems(more) == DirectInputs(g, x) - Elems(r)
    ensures more == [] ==> r + more == r
    ensures more != [] ==> AllSources(g) - Elems(r + more) < AllSources(g) - Elems(r)
  {
    assert Elems(r + more) == Elems(r) + Elems(more);
    if more != [] {
      assert more[0] in Elems(more);
      DifferenceShrinks(AllSources(g), Elems(r), Elems(more));
    }
  }

  /** A walk that has expanded every node it found holds the upstream
      closure. */
  lemma WalkDone(g: Graph, n: Node, r: seq<Node>)
    requires Walk(g, n, r, |r|)
    ensures Elems(r) == Upstream(g, n)
  {
    assert Closed(g, Elems(r)) by {
      forall x | x in Elems(r) ensures DirectInputs(g, x) <= Elems(r) {
        var k :| 0 <= k < |r| && r[k] == x;
      }
    }
    UpstreamLeast(g, n, Elems(r));
  }

  /** The upstream walk with a visited set: terminates on every scene,
      cycles included, and returns each upstream producer once. */
  method CollectInputs(g: Graph, n: Node) returns (r: seq<Node>)
    ensures Distinct(r)
    ensures Elems(r) == Upstream(g, n)
  {
    r := ListOfSet(DirectInputs(g, n));
    WalkStart(g, n, r);
    var i := 0;
    while i < |r|
      invariant Walk(g, n, r, i)
      decreases AllSources(g) - Elems(r), |r| - i
    {
      var more := ListOfSet(DirectInputs(g, r[i]) - Elems(r));
      WalkStep(g, n, r, i, more);
      WalkShrinks(g, r, r[i], more);
      r := r + more;
      i := i + 1;
    }
    WalkDone(g, n, r);
  }

  /** Two animation curves driving each other: `a.output -> b.input` and
      `b.output -> a.input`. */
  function TwoCurveCycle(): Graph
  {
    Graph(map["a" := AnimCurve(TU), "b" := AnimCurve(TU)],
          [Link(Plug("a", "output"), Plug("b", "input")), Link(Plug("b", "output"), Plug("a", "input"))])
  }

  /** The recursive walk has no terminating measure on a cycle: no rank
      fits the two-curve cycle. */
  lemma TwoCurveCycleHasNoRank(rank: map<Node, nat>)
    ensures !Ranked(TwoCurveCycle(), rank)
  {
    var g := TwoCurveCycle();
    assert IsProducer(TypeOf(g, g.links[0].src.node));
    assert IsProducer(TypeOf(g, g.links[1].src.node));
  }

  lemma TwoCurveCycleInputs()
    ensures DirectInputs(TwoCurveCycle(), "a") == {"b"}
    ensures DirectInputs(TwoCurveCycle(), "b") == {"a"}
  {
    TwoCurveCycleSources();
    assert Elems(["b"]) == {"b"} && Elems(["a"]) == {"a"};
  }

  lemma TwoCurveCycleSources()
    ensures ListSources(TwoCurveCycle(), "a", GeometryFilterFamily) == []
    ensures ListSources(TwoCurveCycle(), "a", AnimCurveFamily) == ["b"]
    ensures ListSources(TwoCurveCycle(), "b", GeometryFilterFamily) == []
    ensures ListSources(TwoCurveCycle(), "b", AnimCurveFamily) == ["a"]
  {
    var g := TwoCurveCycle();
    assert g.links[1..][1..] == [];
  }

  /** On the cycle the upstream closure of `a` is both curves. */
  lemma TwoCurveCycleUpstream()
    ensures Upstream(TwoCurveCycle(), "a") == {"a", "b"}
  {
    TwoCurveCycleInputs();
    MutualUpstream(TwoCurveCycle(), "a", "b");
  }

  /** Two nodes that are each other's only direct input form the whole
      upstream closure of either. */
  lemma MutualUpstream(g: Graph, a: Node, b: Node)
    requires DirectInputs(g, a) == {b} && DirectInputs(g, b) == {a}
    ensures Upstream(g, a) == {a, b}
  {
    MutualClosed(g, a, b);
    UpstreamLeast(g, a, {a, b});
    MutualUpstreamHolds(g, a, b);
  }

  lemma MutualClosed(g: Graph, a: Node, b: Node)
    requires DirectInputs(g, a) == {b} && DirectInputs(g, b) == {a}
    ensures Closed(g, {a, b})
  {
    forall x | x in {a, b} ensures DirectInputs(g, x) <= {a, b} {
      if x == a {
        assert DirectInputs(g, x) == {b};
      } else {
        assert DirectInputs(g, x) == {a};
      }
    }
  }

  lemma MutualUpstreamHolds(g: Graph, a: Node, b: Node)
    requires DirectInputs(g, a) == {b} && DirectInputs(g, b) == {a}
    ensures a in Upstream(g, a) && b in Upstream(g, a)
  {
    UpstreamIsClosed(g, a);
    assert b in Upstream(g, a);
    assert a in DirectInputs(g, b);
  }

  /** So the visited-set walk on the cycle, started from `a`, returns both
      curves, each once. */
  lemma TwoCurveCycleCollected(r: seq<Node>)
    requires Distinct(r) && Elems(r) == Upstream(TwoCurveCycle(), "a")
    ensures Elems(r) == {"a", "b"} && |r| == 2
  {
    TwoCurveCycleUpstream();
    DistinctSize(r);
  }

  lemma {:induction false} DistinctSize<T>(r: seq<T>)
    requires Distinct(r)
    ensures |Elems(r)| == |r|
  {
    if r != [] {
      var front := r[..|r| - 1];
      assert Distinct(front);
      DistinctSize(front);
      assert r == front + [r[|r| - 1]];
      assert Elems(r) == Elems(front) + {r[|r| - 1]};
      assert r[|r| - 1] !in Elems(front);
    }
  }
}
