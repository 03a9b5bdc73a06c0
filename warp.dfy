/** The warp tools of scripts/core.py: creating a warp, applying it to the
    selection, and finding or selecting what a warp drives. */
module Warp {
  import opened Lists
  import opened Strings
  import opened Scene

  /** `connectAttr(..., force=True)` rewires the inputs of these curve types
      only: curves driven by time whose output is unitless, an angle or a
      distance. */
  predicate IsTimeDrivenCurve(t: NodeType)
  {
    t == AnimCurve(TU) || t == AnimCurve(TA) || t == AnimCurve(TL)
  }

  /** The connections of `links` that do not lead into `dst`. */
  function DropInto(links: seq<Link>, dst: Plug): seq<Link>
  {
    if links == [] then []
    else if links[0].dst == dst then DropInto(links[1..], dst)
    else [links[0]] + DropInto(links[1..], dst)
  }

  /** Dropping keeps exactly the connections into other plugs, and keeps a
      single-source list single-source. */
  lemma {:induction false} DropIntoSpec(links: seq<Link>, dst: Plug)
    ensures forall l :: l in DropInto(links, dst) <==> l in links && l.dst != dst
    ensures SingleSource(links) ==> SingleSource(DropInto(links, dst))
  {
    if links != [] {
      var rest := links[1..];
      DropIntoSpec(rest, dst);
      assert forall l :: l in links <==> l == links[0] || l in rest;
      if SingleSource(links) {
        assert SingleSource(rest) by {
          forall i, j | 0 <= i < j < |rest| ensures rest[i].dst != rest[j].dst {
            assert rest[i] == links[i + 1] && rest[j] == links[j + 1];
          }
        }
        if links[0].dst != dst {
          var r := DropInto(links, dst);
          var kept := DropInto(rest, dst);
          assert r == [links[0]] + kept;
          forall l | l in kept ensures l.dst != links[0].dst {
            var m :| 0 <= m < |rest| && rest[m] == l;
            assert l == links[m + 1];
          }
          forall i, j | 0 <= i < j < |r| ensures r[i].dst != r[j].dst {
            assert r[j] == kept[j - 1] && r[j] in kept;
            if i > 0 {
              assert r[i] == kept[i - 1];
            }
          }
        }
      }
    }
  }

  /** `connectAttr(src, dst, force=True)`: afterwards `src -> dst` is the one
      connection into `dst`, and every connection into another plug is
      kept. Connecting what is already connected changes nothing. */
  function ForceConnect(links: seq<Link>, src: Plug, dst: Plug): (r: seq<Link>)
    requires SingleSource(links)
    ensures SingleSource(r)
    ensures Link(src, dst) in r
    ensures forall l :: l in r && l.dst == dst ==> l == Link(src, dst)
    ensures forall l :: l in links && l.dst != dst ==> l in r
    ensures forall l :: l in r ==> l in links || l == Link(src, dst)
  {
    if Link(src, dst) in links then links
    else
      var kept := DropInto(links, dst);
      DropIntoSpec(links, dst);
      var r := kept + [Link(src, dst)];
      assert SingleSource(r) by {
        forall i, j | 0 <= i < j < |r| ensures r[i].dst != r[j].dst {
          if j == |r| - 1 {
            assert r[i] in kept;
          }
        }
      }
      r
  }

  /** The connection `apply_warp` makes from a warp into curve `c`. */
  function WarpLink(warp: Node, c: Node): Link
  {
    Link(Plug(warp, "output"), Plug(c, "input"))
  }

  /** Everything upstream of some selected node. */
  ghost function Collected(g: Graph, sel: seq<Node>): set<Node>
  {
    set s, x | s in sel && x in Upstream(g, s) :: x
  }

  /** The curves `apply_warp` rewires for a selection. */
  ghost function Targets(g: Graph, sel: seq<Node>): set<Node>
  {
    set x | x in Collected(g, sel) && IsTimeDrivenCurve(TypeOf(g, x))
  }

  /** Each upstream node is the source of a connection, hence exists in a
      well-formed scene. */
  lemma CollectedExist(g: Graph, sel: seq<Node>)
    requires WellFormed(g)
    ensures Collected(g, sel) <= AllSources(g)
    ensures AllSources(g) <= g.types.Keys
  {
    forall x | x in AllSources(g) ensures x in g.types {
      var i :| 0 <= i < |g.links| && g.links[i].src.node == x;
      assert g.links[i] in g.links;
    }
  }

  lemma CollectedSnoc(g: Graph, sel: seq<Node>, k: nat)
    requires k < |sel|
    ensures Collected(g, sel[..k + 1]) == Collected(g, sel[..k]) + Upstream(g, sel[k])
  {
    assert sel[..k + 1] == sel[..k] + [sel[k]];
  }

  /** The first loop of `apply_warp`: the union, over the selected nodes,
      of their `get_inputs`, turned back into a list after each node. */
  method InputNodes(g: Graph, sel: seq<Node>) returns (inputNodes: seq<Node>)
    ensures Distinct(inputNodes)
    ensures Elems(inputNodes) == Collected(g, sel)
  {
    inputNodes := [];
    for k := 0 to |sel|
      invariant Distinct(inputNodes)
      invariant Elems(inputNodes) == Collected(g, sel[..k])
    {
      var found := CollectInputs(g, sel[k]);
      CollectedSnoc(g, sel, k);
      inputNodes := ListOfSet(Elems(inputNodes) + Elems(found));
    }
    assert sel[..|sel|] == sel;
  }

  /** What `apply_warp` has achieved after rewiring the curves among
      `done`, with `links` as the scene's connections. */
  ghost predicate Rewired(g0: Graph, sel: seq<Node>, warp: Node, done: seq<Node>, links: seq<Link>)
  {
    && WellFormed(Graph(g0.types, links))
    && (forall c :: c in done && IsTimeDrivenCurve(TypeOf(g0, c)) ==> WarpLink(warp, c) in links)
    && (forall l :: l in links ==>
          l in g0.links || (l.dst.node in Targets(g0, sel) && l == WarpLink(warp, l.dst.node)))
    && (forall l :: l in g0.links && !(l.dst.attr == "input" && l.dst.node in Targets(g0, sel)) ==>
          l in links)
  }

  /** Rewiring one more target curve keeps what was achieved. */
  lemma RewireStep(g0: Graph, sel: seq<Node>, warp: Node, done: seq<Node>, links: seq<Link>, c: Node)
    requires WellFormed(g0) && warp in g0.types
    requires Rewired(g0, sel, warp, done, links)
    requires c in Collected(g0, sel) && IsTimeDrivenCurve(TypeOf(g0, c))
    ensures Rewired(g0, sel, warp, done + [c], ForceConnect(links, Plug(warp, "output"), Plug(c, "input")))
  {
    CollectedExist(g0, sel);
    var r := ForceConnect(links, Plug(warp, "output"), Plug(c, "input"));
    assert c in Targets(g0, sel);
    forall d | d in done + [c] && IsTimeDrivenCurve(TypeOf(g0, d)) ensures WarpLink(warp, d) in r {
      if d != c {
        assert d in done;
        assert WarpLink(warp, d) in links;
      }
    }
  }

  /** The destinations of the destinations of `curves`, curve by curve, in
      connection order and with repeats. */
  function TwoHop(g: Graph, curves: seq<Node>): seq<Node>
  {
    if curves == [] then []
    else TwoHop(g, curves[..|curves| - 1]) + ListDestinations(g, curves[|curves| - 1])
  }

  lemma {:induction false} TwoHopMembers(g: Graph, curves: seq<Node>, x: Node)
    ensures x in TwoHop(g, curves) <==> exists c :: c in curves && x in ListDestinations(g, c)
  {
    if curves != [] {
      var front := curves[..|curves| - 1];
      TwoHopMembers(g, front, x);
      assert curves == front + [curves[|curves| - 1]];
    }
  }

  /** What `get_warped_nodes` evidently means to return: the nodes driven by
      the curves the warp drives, each once, in first-seen order. */
  function WarpedNodes(g: Graph, warp: Node): seq<Node>
  {
    AppendNew([], TwoHop(g, ListDestinations(g, warp)))
  }

  /** The warped nodes are exactly the destinations of the warp's
      destinations, without repeats; a warp that drives nothing has none. */
  lemma WarpedNodesSpec(g: Graph, warp: Node)
    ensures Distinct(WarpedNodes(g, warp))
    ensures forall x :: x in WarpedNodes(g, warp) <==>
      exists c :: c in ListDestinations(g, warp) && x in ListDestinations(g, c)
    ensures ListDestinations(g, warp) == [] ==> WarpedNodes(g, warp) == []
  {
    var curves := ListDestinations(g, warp);
    AppendNewSpec([], TwoHop(g, curves));
    forall x ensures x in WarpedNodes(g, warp) <==> exists c :: c in curves && x in ListDestinations(g, c) {
      TwoHopMembers(g, curves, x);
      assert x in WarpedNodes(g, warp) <==> x in Elems(WarpedNodes(g, warp));
    }
  }

  /** First-seen order: one warped node precedes another exactly when it is
      met first while walking the warp's curves and their destinations. */
  lemma WarpedNodesFirstSeen(g: Graph, warp: Node, x: Node, y: Node)
    requires x in WarpedNodes(g, warp) && y in WarpedNodes(g, warp)
    ensures IndexOf(WarpedNodes(g, warp), x) < IndexOf(WarpedNodes(g, warp), y)
        <==> IndexOf(TwoHop(g, ListDestinations(g, warp)), x) < IndexOf(TwoHop(g, ListDestinations(g, warp)), y)
  {
    var s := TwoHop(g, ListDestinations(g, warp));
    AppendNewSpec([], s);
    assert x in Elems(WarpedNodes(g, warp)) && y in Elems(WarpedNodes(g, warp));
    AppendNewOrder([], s, x, y);
  }

  /** What `get_warped_nodes` does as written: `warped = list` binds the
      list type. With no curve it returns that type object; otherwise the
      first `node not in warped` test (or iterating a `None` result) raises
      a TypeError. */
  datatype WarpedOutcome = ListTypeObject | RaisesTypeError | Nodes(nodes: seq<Node>)

  function GetWarpedNodesAsWritten(g: Graph, warp: Node): (r: WarpedOutcome)
    ensures !r.Nodes?
    ensures r.ListTypeObject? ==> WarpedNodes(g, warp) == []
  {
    if ListDestinations(g, warp) == [] then ListTypeObject else RaisesTypeError
  }

  /** A warp driving one curve that drives one node: as written the query
      raises, where the intended query returns that node. */
  function WarpChain(): Graph
  {
    Graph(map["warp" := WarpStatusType, "curve" := AnimCurve(TU), "cube" := OtherType("transform")],
          [Link(Plug("warp", "output"), Plug("curve", "input")), Link(Plug("curve", "output"), Plug("cube", "translateX"))])
  }

  lemma WarpedNodesAsWrittenFails()
    ensures GetWarpedNodesAsWritten(WarpChain(), "warp") == RaisesTypeError
    ensures WarpedNodes(WarpChain(), "warp") == ["cube"]
  {
    var g := WarpChain();
    assert ListDestinations(g, "warp") == ["curve"];
    assert ListDestinations(g, "curve") == ["cube"];
    assert TwoHop(g, ["curve"]) == TwoHop(g, []) + ["cube"];
  }

  /** The inner loop of `get_warped_nodes`: the destinations of one curve
      not collected yet are appended in order. */
  method AddNew(warped: seq<Node>, ghost before: seq<Node>, nodes: seq<Node>) returns (r: seq<Node>)
    requires warped == AppendNew([], before)
    ensures r == AppendNew([], before + nodes)
  {
    r := warped;
    assert before + nodes[..0] == before;
    for j := 0 to |nodes|
      invariant r == AppendNew([], before + nodes[..j])
    {
      AppendNewSnoc([], before + nodes[..j], nodes[j]);
      assert before + nodes[..j + 1] == (before + nodes[..j]) + [nodes[j]];
      if nodes[j] !in r {
        r := r + [nodes[j]];
      }
    }
    assert nodes[..|nodes|] == nodes;
  }

  /** One more node at the end of the input of `AppendNew`. */
  lemma {:induction false} AppendNewSnoc(seen: seq<Node>, s: seq<Node>, x: Node)
    ensures AppendNew(seen, s + [x]) ==
      (if x in AppendNew(seen, s) then AppendNew(seen, s) else AppendNew(seen, s) + [x])
    decreases |s|
  {
    if s == [] {
      assert AppendNew(seen, [x]) == AppendNew(if x in seen then seen else seen + [x], []);
    } else {
      assert (s + [x])[0] == s[0] && (s + [x])[1..] == s[1..] + [x];
      var seen' := if s[0] in seen then seen else seen + [s[0]];
      AppendNewSnoc(seen', s[1..], x);
    }
  }

  /** `listConnections(warp + ".wi", source=True, destination=False)`: the
      nodes connected into the warp's `warpInput` plug. */
  function PlugSources(ls: seq<Link>, p: Plug): (r: seq<Node>)
    ensures forall m :: m in r <==> exists l :: l in ls && l.dst == p && l.src.node == m
  {
    if ls == [] then []
    else
      var rest := PlugSources(ls[1..], p);
      assert forall l :: l in ls <==> l == ls[0] || l in ls[1..];
      if ls[0].dst == p then [ls[0].src.node] + rest else rest
  }

  /** The sources of every node of `ns`, node after node. */
  function SourcesOfAll(g: Graph, ns: seq<Node>): (r: seq<Node>)
    ensures forall m :: m in r <==> exists c :: c in ns && m in ListSources(g, c, AnyType)
  {
    if ns == [] then []
    else
      var rest := SourcesOfAll(g, ns[1..]);
      assert forall c :: c in ns <==> c == ns[0] || c in ns[1..];
      ListSources(g, ns[0], AnyType) + rest
  }

  /** Node `c` is connected into the warp's `warpInput` plug. */
  predicate FeedsWarp(g: Graph, warp: Node, c: Node)
  {
    exists l :: l in g.links && l.dst == Plug(warp, "warpInput") && l.src.node == c
  }

  /** `get_warp_curve`: the sources of whatever feeds the warp's
      `warpInput`; None when that query finds nothing. */
  function GetWarpCurve(g: Graph, warp: Node): (r: Option<seq<Node>>)
    ensures r.Some? ==> r.value != []
    ensures forall x :: (r.Some? && x in r.value) <==>
      exists c :: FeedsWarp(g, warp, c) && x in ListSources(g, c, AnyType)
  {
    var feeders := PlugSources(g.links, Plug(warp, "warpInput"));
    assert forall c :: c in feeders <==> FeedsWarp(g, warp, c);
    var found := SourcesOfAll(g, feeders);
    if found == [] then None else Some(found)
  }

  /** Name of the warp curve `create_warp` asks for: the given name (or the
      default when none is given), with `_AntiWarp` appended for an
      anti-warp. An empty name counts as none, as in Python. */
  function CurveName(warpName: string, antiWarp: bool): string
  {
    var base := if warpName != "" then warpName else "atk_WarpCurve";
    if antiWarp then base + "_AntiWarp" else base
  }

  /** Name of the settings: `<name>_warpSettings`, or the default. */
  function SettingsName(warpName: string): string
  {
    if warpName != "" then warpName + "_warpSettings" else "atk_warpSettings"
  }

  /** The naming rules of `create_warp`. */
  lemma NamingRules(warpName: string)
    ensures CurveName("", false) == "atk_WarpCurve" && SettingsName("") == "atk_warpSettings"
    ensures warpName != "" ==> CurveName(warpName, false) == warpName
    ensures warpName != "" ==> SettingsName(warpName) == warpName + "_warpSettings"
    ensures CurveName(warpName, true) == CurveName(warpName, false) + "_AntiWarp"
  {
  }

  /** The status node name as written: every occurrence of the requested
      curve name in the settings name replaced by the name the curve got. */
  function StatusNameAsWritten(curveName: string, warpNode: Node, settings: string): string
    requires curveName != ""
  {
    ReplaceAll(settings, curveName, warpNode)
  }

  /** The status node name as evidently intended: a settings name that
      starts with the requested curve name gets the curve's actual name in
      its place; any other settings name is kept. */
  function StatusName(curveName: string, warpNode: Node, settings: string): (r: string)
    requires curveName != ""
    ensures |curveName| <= |settings| && settings[..|curveName|] == curveName ==>
      r == warpNode + settings[|curveName|..]
    ensures !(|curveName| <= |settings| && settings[..|curveName|] == curveName) ==> r == settings
  {
    if |curveName| <= |settings| && settings[..|curveName|] == curveName
    then warpNode + settings[|curveName|..] else settings
  }

  /** Replacing a pattern by itself changes nothing. */
  lemma {:induction false} ReplaceAllSelf(s: string, p: string)
    requires p != ""
    ensures ReplaceAll(s, p, p) == s
    decreases |s|
  {
    if |s| >= |p| {
      if s[..|p|] == p {
        ReplaceAllSelf(s[|p|..], p);
        assert s == s[..|p|] + s[|p|..];
      } else {
        ReplaceAllSelf(s[1..], p);
        assert s == [s[0]] + s[1..];
      }
    }
  }

  /** When the host keeps the requested curve name, both versions ask for
      the status node under the settings name; and a named warp's status
      is requested as `<curve>_warpSettings` by the intended rule. */
  lemma StatusNameKept(warpName: string, antiWarp: bool, warpNode: Node)
    ensures var c := CurveName(warpName, antiWarp);
      StatusNameAsWritten(c, c, SettingsName(warpName)) == SettingsName(warpName) &&
      StatusName(c, c, SettingsName(warpName)) == SettingsName(warpName)
    ensures warpName != "" ==>
      StatusName(CurveName(warpName, false), warpNode, SettingsName(warpName)) == warpNode + "_warpSettings"
  {
    var c := CurveName(warpName, antiWarp);
    ReplaceAllSelf(SettingsName(warpName), c);
    if warpName != "" {
      var s := SettingsName(warpName);
      assert s[..|warpName|] == warpName && s[|warpName|..] == "_warpSettings";
    }
  }

  /** The two versions agree unless the requested curve name occurs again
      past the start of the settings name. */
  lemma StatusNameAgrees(curveName: string, warpNode: Node, settings: string)
    requires curveName != ""
    requires |curveName| <= |settings| && settings[..|curveName|] == curveName ==>
      !Contains(settings[|curveName|..], curveName)
    requires !(|curveName| <= |settings| && settings[..|curveName|] == curveName) ==>
      !Contains(settings, curveName)
    ensures StatusNameAsWritten(curveName, warpNode, settings) == StatusName(curveName, warpNode, settings)
  {
    if |curveName| <= |settings| && settings[..|curveName|] == curveName {
      ReplaceAllAbsent(settings[|curveName|..], curveName, warpNode);
    } else {
      ReplaceAllAbsent(settings, curveName, warpNode);
    }
  }

  /** A second warp named "warp": the host calls the curve "warp1", and the
      replacement also rewrites the "warp" inside "_warpSettings". */
  lemma StatusNameRepeated(w: string, actual: Node, t: string)
    requires w != [] && w[0] != '_' && w[0] !in t
    ensures StatusNameAsWritten(w, actual, w + "_" + w + t) == actual + "_" + actual + t
    ensures StatusName(w, actual, w + "_" + w + t) == actual + "_" + w + t
  {
    AbsentFirstChar(t, w);
    ReplaceRepeated(w, '_', t, actual);
    var s := w + "_" + w + t;
    assert s[..|w|] == w && s[|w|..] == "_" + w + t;
  }

  /** In `w<sep>w<t>` both copies of `w` are replaced. */
  lemma ReplaceRepeated(w: string, sep: char, t: string, w': string)
    requires w != [] && w[0] != sep && !Contains(t, w)
    ensures ReplaceAll(w + [sep] + w + t, w, w') == w' + [sep] + w' + t
  {
    var u := w + t;
    var rest := [sep] + u;
    calc {
      ReplaceAll(w + [sep] + w + t, w, w');
      { assert w + [sep] + w + t == w + rest; }
      ReplaceAll(w + rest, w, w');
      { ReplaceAllAtStart(rest, w, w'); }
      w' + ReplaceAll(rest, w, w');
      { ReplaceAfterMismatch(sep, u, w, w'); }
      w' + ([sep] + ReplaceAll(u, w, w'));
      { ReplaceAllAtStart(t, w, w'); ReplaceAllAbsent(t, w, w'); }
      w' + ([sep] + (w' + t));
      w' + [sep] + w' + t;
    }
  }

  /** A character that cannot start the pattern is copied and the scan
      goes on after it. */
  lemma ReplaceAfterMismatch(c: char, u: string, pat: string, rep: string)
    requires pat != [] && pat[0] != c
    ensures ReplaceAll([c] + u, pat, rep) == [c] + ReplaceAll(u, pat, rep)
  {
    var s := [c] + u;
    assert s[1..] == u;
    if |s| >= |pat| {
      assert s[..|pat|][0] == c;
    } else {
      assert ReplaceAll(u, pat, rep) == u;
    }
  }

  /** The scene as the warp tools see it. `selection` is what
      `ls(selection=True, dag=True, long=True)` lists; `keys` maps every
      keyed curve to its keys, time to value; `values` holds the integer
      attribute values that were set. */
  class Maya {
    var types: map<Node, NodeType>
    var links: seq<Link>
    var selection: seq<Node>
    var keys: map<Node, map<real, real>>
    var values: map<Plug, int>

    function View(): Graph
      reads this
    {
      Graph(types, links)
    }

    ghost predicate Valid()
      reads this
    {
      WellFormed(View())
    }

    /** `apply_warp`: nothing to do without a selection; otherwise every
        time-driven curve upstream of any selected node gets its `input`
        from the warp's `output`, replacing what fed it, and nothing else
        changes. True for any non-empty selection, even with no curve to
        rewire. */
    method ApplyWarp(warp: Node) returns (applied: bool)
      requires Valid() && warp in types
      modifies this`links
      ensures Valid()
      ensures applied <==> selection != []
      ensures selection == [] ==> links == old(links)
      ensures forall c :: c in Targets(old(View()), selection) ==> WarpLink(warp, c) in links
      ensures forall l :: l in links ==>
        l in old(links) || (l.dst.node in Targets(old(View()), selection) && l == WarpLink(warp, l.dst.node))
      ensures forall l :: l in old(links) && !(l.dst.attr == "input" && l.dst.node in Targets(old(View()), selection)) ==>
        l in links
    {
      if selection == [] {
        return false;
      }
      ghost var g0 := View();
      var inputNodes := InputNodes(View(), selection);
      ConnectAll(warp, inputNodes, g0);
      assert forall c :: c in Targets(g0, selection) ==> c in inputNodes;
      return true;
    }

    /** The second loop of `apply_warp`: every time-driven curve among
        `inputNodes` is force-connected to the warp's output. */
    method ConnectAll(warp: Node, inputNodes: seq<Node>, ghost g0: Graph)
      requires WellFormed(g0) && warp in g0.types && g0 == View()
      requires Elems(inputNodes) == Collected(g0, selection)
      modifies this`links
      ensures Rewired(g0, selection, warp, inputNodes, links)
    {
      CollectedExist(g0, selection);
      for k := 0 to |inputNodes|
        invariant Rewired(g0, selection, warp, inputNodes[..k], links)
      {
        var c := inputNodes[k];
        assert inputNodes[..k + 1] == inputNodes[..k] + [c];
        if IsTimeDrivenCurve(TypeOf(View(), c)) {
          RewireStep(g0, selection, warp, inputNodes[..k], links, c);
          links := ForceConnect(links, Plug(warp, "output"), Plug(c, "input"));
        }
      }
      assert inputNodes[..|inputNodes|] == inputNodes;
    }

    /** `get_warped_nodes` as evidently intended: two nested loops that
        collect the destinations of the warp's destinations, skipping the
        ones already collected. */
    method GetWarpedNodes(warp: Node) returns (warped: seq<Node>)
      ensures warped == WarpedNodes(View(), warp)
    {
      var g := View();
      warped := [];
      var curves := ListDestinations(g, warp);
      if curves == [] {
        return;
      }
      for k := 0 to |curves|
        invariant warped == AppendNew([], TwoHop(g, curves[..k]))
      {
        var nodes := ListDestinations(g, curves[k]);
        warped := AddNew(warped, TwoHop(g, curves[..k]), nodes);
        assert curves[..k + 1][..k] == curves[..k] && curves[..k + 1][k] == curves[k];
      }
      assert curves[..|curves|] == curves;
    }

    /** `select_warped_nodes`: the selection becomes exactly the warped
        nodes; with none, it is cleared. */
    method SelectWarpedNodes(warp: Node)
      modifies this`selection
      ensures selection == WarpedNodes(View(), warp)
    {
      var warped := GetWarpedNodes(warp);
      if warped != [] {
        selection := warped;
      } else {
        selection := [];
      }
    }

    /** The first steps of `create_warp`: a time-to-time curve under the
        curve name, whose pre- and post-infinity are set to linear (1). The
        host's choice of a unique node name is the parameter `hostName`. */
    method NewCurve(warpName: string, antiWarp: bool, hostName: string -> Node) returns (warpNode: Node)
      requires Valid() && CurveNode(warpName, antiWarp, hostName) !in types
      modifies this`types, this`values
      ensures Valid()
      ensures warpNode == CurveNode(warpName, antiWarp, hostName)
      ensures types == old(types)[warpNode := AnimCurve(TT)]
      ensures values == old(values)[Plug(warpNode, "preInfinity") := 1][Plug(warpNode, "postInfinity") := 1]
    {
      warpNode := hostName(CurveName(warpName, antiWarp));
      types := types[warpNode := AnimCurve(TT)];
      values := values[Plug(warpNode, "preInfinity") := 1][Plug(warpNode, "postInfinity") := 1];
    }

    /** The last steps of `create_warp`: a status node under the host's
        name for the requested `statusName`, wired
        `curve.output -> status.warpInput` and
        `time1.outTime -> status.timeInput`. */
    method AddStatus(hostName: string -> Node, warpNode: Node, statusName: string)
      requires Valid() && "time1" in types && warpNode in types
      requires hostName(statusName) !in types
      modifies this`types, this`links
      ensures Valid()
      ensures var status := hostName(statusName);
        && types == old(types)[status := WarpStatusType]
        && links == old(links) + [Link(Plug(warpNode, "output"), Plug(status, "warpInput")),
                                  Link(Plug("time1", "outTime"), Plug(status, "timeInput"))]
    {
      var status := hostName(statusName);
      var wired := Wire(View(), warpNode, status);
      types, links := wired.types, wired.links;
    }

    /** `create_warp` as written. The playback range `playbackOptions`
        answers is a pair of floats, `minTime` and `maxTime`. A plain warp
        is keyed at (min, min) and (max, max) and gets its status node. For
        an anti-warp, `range(min_time, max_time + 1)` raises TypeError (see
        `PlaybackRangeRaises`) once the curve and its infinity settings
        exist: no key is set, no status node is made, nothing is
        connected. */
    method CreateWarp(warpName: string, antiWarp: bool, minTime: real, maxTime: real, hostName: string -> Node)
      returns (outcome: Creation)
      requires Valid() && "time1" in types
      requires CurveNode(warpName, antiWarp, hostName) !in types
      requires !antiWarp ==> StatusNodeAsWritten(warpName, antiWarp, hostName) !in types
      requires !antiWarp ==> StatusNodeAsWritten(warpName, antiWarp, hostName) != CurveNode(warpName, antiWarp, hostName)
      modifies this`types, this`links, this`keys, this`values
      ensures Valid()
      ensures var c := CurveNode(warpName, antiWarp, hostName);
        values == old(values)[Plug(c, "preInfinity") := 1][Plug(c, "postInfinity") := 1]
      ensures antiWarp ==> var c := CurveNode(warpName, antiWarp, hostName);
        && outcome == RangeTypeError(c)
        && types == old(types)[c := AnimCurve(TT)] && links == old(links) && keys == old(keys)
      ensures !antiWarp ==> var c, status := CurveNode(warpName, antiWarp, hostName), StatusNodeAsWritten(warpName, antiWarp, hostName);
        && outcome == Created(c)
        && types == old(types)[c := AnimCurve(TT)][status := WarpStatusType]
        && links == old(links) + [Link(Plug(c, "output"), Plug(status, "warpInput")),
                                  Link(Plug("time1", "outTime"), Plug(status, "timeInput"))]
        && keys == old(keys)[c := PlainKeys(minTime, maxTime)]
    {
      var warpNode := NewCurve(warpName, antiWarp, hostName);
      if antiWarp {
        outcome := RangeTypeError(warpNode);
        return;
      }
      keys := keys[warpNode := PlainKeys(minTime, maxTime)];
      AddStatus(hostName, warpNode, StatusNameAsWritten(CurveName(warpName, antiWarp), warpNode, SettingsName(warpName)));
      outcome := Created(warpNode);
    }

    /** `create_warp` as evidently intended: the anti-warp loop runs over
        the whole frames of the playback range, `int(min_time)` up to and
        including `int(max_time)`, keying each at the scene time
        `sceneTime(f)` that `time1.outTime` reads at frame `f`; the rest is
        as written. */
    method CreateWarpWholeFrames(warpName: string, antiWarp: bool, minTime: real, maxTime: real,
                                 hostName: string -> Node, sceneTime: int -> real)
      returns (warpNode: Node)
      requires Valid() && "time1" in types
      requires CurveNode(warpName, antiWarp, hostName) !in types
      requires StatusNode(warpName, antiWarp, hostName) !in types
      requires StatusNode(warpName, antiWarp, hostName) != CurveNode(warpName, antiWarp, hostName)
      modifies this`types, this`links, this`keys, this`values
      ensures Valid()
      ensures warpNode == CurveNode(warpName, antiWarp, hostName)
      ensures var status := StatusNode(warpName, antiWarp, hostName);
        && types == old(types)[warpNode := AnimCurve(TT)][status := WarpStatusType]
        && links == old(links) + [Link(Plug(warpNode, "output"), Plug(status, "warpInput")),
                                  Link(Plug("time1", "outTime"), Plug(status, "timeInput"))]
      ensures values == old(values)[Plug(warpNode, "preInfinity") := 1][Plug(warpNode, "postInfinity") := 1]
      ensures keys == old(keys)[warpNode := InitialKeys(antiWarp, minTime, maxTime, sceneTime)]
    {
      warpNode := NewCurve(warpName, antiWarp, hostName);
      var curveKeys := WarpKeys(antiWarp, minTime, maxTime, sceneTime);
      keys := keys[warpNode := curveKeys];
      AddStatus(hostName, warpNode, StatusName(CurveName(warpName, antiWarp), warpNode, SettingsName(warpName)));
    }
  }

  /** What `create_warp` ends with: the new curve, or the TypeError raised
      after the curve was made. */
  datatype Creation = Created(warpNode: Node) | RangeTypeError(curve: Node)

  /** A Python number. */
  datatype Number = Int(i: int) | Float(f: real)

  /** Python's `+` on numbers: a float on either side makes a float. */
  function Add(a: Number, b: Number): (r: Number)
    ensures r.Float? <==> a.Float? || b.Float?
    ensures r.Int? ==> r.i == a.i + b.i
  {
    match (a, b)
    case (Int(x), Int(y)) => Int(x + y)
    case (Int(x), Float(y)) => Float(x as real + y)
    case (Float(x), Int(y)) => Float(x + y as real)
    case (Float(x), Float(y)) => Float(x + y)
  }

  /** Python's `range(lo, hi)`: the whole numbers from `lo` up to, not
      including, `hi`; a float bound raises TypeError (`None`). */
  function Range(lo: Number, hi: Number): (r: Option<seq<int>>)
    ensures r.None? <==> lo.Float? || hi.Float?
    ensures r.Some? ==> |r.value| == (if lo.i <= hi.i then hi.i - lo.i else 0)
    ensures r.Some? ==> forall k :: 0 <= k < |r.value| ==> r.value[k] == lo.i + k
  {
    if lo.Float? || hi.Float? then None
    else Some(seq(if lo.i <= hi.i then hi.i - lo.i else 0, k => lo.i + k))
  }

  /** The anti-warp loop of `create_warp` never runs: whatever the
      playback range, its bounds are floats, and so is `max_time + 1`. */
  lemma PlaybackRangeRaises(minTime: real, maxTime: real)
    ensures Range(Float(minTime), Add(Float(maxTime), Int(1))) == None
  {
  }

  /** Python's `int()` on a float: the whole part, rounding towards zero. */
  function Trunc(x: real): (r: int)
    ensures 0.0 <= x ==> r as real <= x < r as real + 1.0
    ensures x < 0.0 ==> r as real - 1.0 < x <= r as real
  {
    if 0.0 <= x then x.Floor else -((-x).Floor)
  }

  /** The node the new warp curve gets: the host picks a name near the
      requested one. */
  function CurveNode(warpName: string, antiWarp: bool, hostName: string -> Node): Node
  {
    hostName(CurveName(warpName, antiWarp))
  }

  /** The node the new status node gets as written: `re.sub` of the
      requested curve name by the curve's actual name. */
  function StatusNodeAsWritten(warpName: string, antiWarp: bool, hostName: string -> Node): Node
  {
    var c := CurveName(warpName, antiWarp);
    hostName(StatusNameAsWritten(c, hostName(c), SettingsName(warpName)))
  }

  /** A second warp named "warp", whose curve the host calls "warp1": as
      written its status node is requested as "warp1_warp1Settings", where
      the corrected rule requests "warp1_warpSettings". */
  lemma StatusNodeAsWrittenMangles(hostName: string -> Node)
    ensures var a := hostName("warp");
      && StatusNodeAsWritten("warp", false, hostName) == hostName(a + "_" + a + "Settings")
      && StatusNode("warp", false, hostName) == hostName(a + "_warpSettings")
      && (a != "warp" ==> a + "_" + a + "Settings" != a + "_warpSettings")
  {
    var a := hostName("warp");
    NamingRules("warp");
    assert SettingsName("warp") == "warp" + "_" + "warp" + "Settings";
    StatusNameRepeated("warp", a, "Settings");
    RenamedSettingsDiffer(a);
  }

  /** The two names differ once the curve is no longer called `warp`. */
  lemma RenamedSettingsDiffer(a: string)
    ensures a != "warp" ==> a + "_" + a + "Settings" != a + "_warpSettings"
  {
    var x, y := a + "_" + a + "Settings", a + "_warpSettings";
    if a != "warp" && |x| == |y| {
      assert x[5..9] == a;
      assert y[5..9] == "warp";
    }
  }

  /** The node the new status node gets as evidently intended. */
  function StatusNode(warpName: string, antiWarp: bool, hostName: string -> Node): Node
  {
    var c := CurveName(warpName, antiWarp);
    hostName(StatusName(c, hostName(c), SettingsName(warpName)))
  }

  /** The two keys of a new plain warp: the identity, keyed at the first
      and the last frame of the playback range. */
  function PlainKeys(minTime: real, maxTime: real): (r: map<real, real>)
    ensures r.Keys == {minTime, maxTime} && forall t :: t in r ==> r[t] == t
  {
    map[minTime := minTime][maxTime := maxTime]
  }

  /** The keys of a new warp curve: an anti-warp inverts the scene's time
      over the whole frames of the playback range. */
  function InitialKeys(antiWarp: bool, minTime: real, maxTime: real, sceneTime: int -> real): map<real, real>
  {
    if antiWarp then AntiWarpKeys(sceneTime, Trunc(minTime), Trunc(maxTime) + 1)
    else PlainKeys(minTime, maxTime)
  }

  /** The keys a new curve gets, frame by frame for an anti-warp. */
  method WarpKeys(antiWarp: bool, minTime: real, maxTime: real, sceneTime: int -> real)
    returns (curveKeys: map<real, real>)
    ensures curveKeys == InitialKeys(antiWarp, minTime, maxTime, sceneTime)
  {
    curveKeys := map[];
    if antiWarp {
      var first, last := Trunc(minTime), Trunc(maxTime);
      var frame := first;
      while frame < last + 1
        invariant first <= frame <= if first <= last + 1 then last + 1 else first
        invariant curveKeys == AntiWarpKeys(sceneTime, first, frame)
      {
        curveKeys := curveKeys[sceneTime(frame) := AsTime(frame)];
        frame := frame + 1;
      }
    } else {
      curveKeys := curveKeys[minTime := minTime];
      curveKeys := curveKeys[maxTime := maxTime];
    }
  }

  /** A whole frame number as a time. */
  function AsTime(f: int): real
  {
    f as real
  }

  /** The keys of an anti-warp over frames `lo` up to (not including)
      `hi`: each frame is keyed at the scene time it plays at, and a later
      frame at the same time replaces the earlier key. */
  function AntiWarpKeys(sceneTime: int -> real, lo: int, hi: int): map<real, real>
    decreases hi - lo
  {
    if hi <= lo then map[]
    else AntiWarpKeys(sceneTime, lo, hi - 1)[sceneTime(hi - 1) := AsTime(hi - 1)]
  }

  /** The anti-warp maps every scene time of the range back to the frame
      that plays at it, the last such frame when several do; so where the
      scene's time is one-to-one the curve inverts it. */
  lemma {:induction false} AntiWarpKeysInvert(sceneTime: int -> real, lo: int, hi: int)
    ensures AntiWarpKeys(sceneTime, lo, hi).Keys == set f | lo <= f < hi :: sceneTime(f)
    ensures forall t :: t in AntiWarpKeys(sceneTime, lo, hi) ==>
      var v := AntiWarpKeys(sceneTime, lo, hi)[t];
      exists f: int :: lo <= f < hi && v == AsTime(f) && sceneTime(f) == t &&
                  (forall f': int :: f < f' < hi ==> sceneTime(f') != t)
    decreases hi - lo
  {
    if hi > lo {
      AntiWarpKeysInvert(sceneTime, lo, hi - 1);
      var m := AntiWarpKeys(sceneTime, lo, hi);
      forall t | t in m
        ensures exists f: int :: lo <= f < hi && m[t] == AsTime(f) && sceneTime(f) == t &&
                            (forall f': int :: f < f' < hi ==> sceneTime(f') != t)
      {
        if t == sceneTime(hi - 1) {
          assert m[t] == AsTime(hi - 1);
        } else {
          var f: int :| lo <= f < hi - 1 && AntiWarpKeys(sceneTime, lo, hi - 1)[t] == AsTime(f) && sceneTime(f) == t &&
                   (forall f': int :: f < f' < hi - 1 ==> sceneTime(f') != t);
          assert m[t] == AsTime(f);
        }
      }
    }
  }

  /** The scene after `create_warp` has added status node `st` to curve
      `c`, in the order the connections are made. */
  function Wire(g: Graph, c: Node, st: Node): (r: Graph)
    requires WellFormed(g) && "time1" in g.types && c in g.types && st !in g.types
    ensures WellFormed(r)
    ensures r.types == g.types[st := WarpStatusType]
    ensures r.links == g.links + [Link(Plug(c, "output"), Plug(st, "warpInput")),
                                  Link(Plug("time1", "outTime"), Plug(st, "timeInput"))]
  {
    var types := g.types[st := WarpStatusType];
    var l1 := Link(Plug(c, "output"), Plug(st, "warpInput"));
    var l2 := Link(Plug("time1", "outTime"), Plug(st, "timeInput"));
    ConnectFresh(g.links, l1.src, l1.dst);
    var links1 := ForceConnect(g.links, l1.src, l1.dst);
    assert forall l :: l in links1 ==> l.dst != l2.dst by {
      assert forall l :: l in links1 ==> l in g.links || l == l1;
    }
    ConnectFresh(links1, l2.src, l2.dst);
    var links2 := ForceConnect(links1, l2.src, l2.dst);
    assert forall l :: l in links2 ==> l in g.links || l == l1 || l == l2;
    Graph(types, links2)
  }

  /** Connecting into a plug nothing leads into appends the connection. */
  lemma ConnectFresh(links: seq<Link>, src: Plug, dst: Plug)
    requires SingleSource(links)
    requires forall l :: l in links ==> l.dst != dst
    ensures ForceConnect(links, src, dst) == links + [Link(src, dst)]
  {
    var kept := DropInto(links, dst);
    assert kept == links by {
      DropIntoNone(links, dst);
    }
  }

  lemma {:induction false} DropIntoNone(links: seq<Link>, dst: Plug)
    requires forall l :: l in links ==> l.dst != dst
    ensures DropInto(links, dst) == links
  {
    if links != [] {
      var rest := links[1..];
      assert links[0] in links;
      DropIntoNone(rest, dst);
      assert links == [links[0]] + rest;
    }
  }
}
