/**
 * Platform-independent helpers over an accessibility tree: topology hashing,
 * landmark extraction, interactive-element counting and heading extraction.
 *
 * These helpers use their own role lists, which differ from the fingerprinter's:
 * six landmark roles (no `form`, no `region`) and seven interactive roles
 * (with `menuitem`, without `searchbox` and `spinbutton`).
 */
module AccessibilityExtractor {
  import opened Wrappers
  import opened Values
  import opened AccessibilityTree

  /** Depth beyond which the topology walk stops (guards against runaway input). */
  const MaxDepth: nat := 10

  const LandmarkRoles: seq<string> := ["banner", "navigation", "main", "contentinfo", "complementary", "search"]

  const InteractiveRoles: seq<string> := ["button", "link", "textbox", "combobox", "checkbox", "radio", "menuitem"]

  /**
   * The nested list `_get_tree_topology` builds: `Cut` is the empty list returned
   * below the depth limit, `Topo(role, branches)` is `[role, *branches]`.
   */
  datatype Topology = Cut | Topo(role: string, branches: seq<Topology>)

  /** Length of the Python list a topology value stands for. */
  function ListLength(t: Topology): nat {
    match t
    case Cut => 0
    case Topo(_, bs) => 1 + |bs|
  }

  function TreeTopology(n: Node, depth: nat): (r: Topology)
    ensures ListLength(r) == if depth > MaxDepth then 0 else 1 + |n.children|
    decreases n
  {
    if depth > MaxDepth then Cut
    else Topo(n.role, seq(|n.children|, i requires 0 <= i < |n.children| => TreeTopology(n.children[i], depth + 1)))
  }

  /** `hash_tree_structure`: a digest (sha256 of the printed topology, truncated) of the topology. */
  function HashTreeStructure(n: Node, digest: Topology -> string): string {
    digest(TreeTopology(n, 0))
  }

  /**
   * Two trees agree from `depth` on when, down to the depth limit, they have the
   * same roles and the same number of children at every node.
   */
  predicate AgreeFrom(a: Node, b: Node, depth: nat)
    decreases a
  {
    depth > MaxDepth ||
    (a.role == b.role && |a.children| == |b.children| &&
     forall i :: 0 <= i < |a.children| ==> AgreeFrom(a.children[i], b.children[i], depth + 1))
  }

  /** Same roles and shape everywhere; names, attributes and depth play no part. */
  predicate SameRoleShape(a: Node, b: Node)
    decreases a
  {
    a.role == b.role && |a.children| == |b.children| &&
    forall i :: 0 <= i < |a.children| ==> SameRoleShape(a.children[i], b.children[i])
  }

  /** The topology is exactly what two trees must agree on, down to the depth limit. */
  lemma {:induction false} TopologyEqualIffAgree(a: Node, b: Node, depth: nat)
    ensures TreeTopology(a, depth) == TreeTopology(b, depth) <==> AgreeFrom(a, b, depth)
    decreases a
  {
    if depth <= MaxDepth {
      var ta := TreeTopology(a, depth);
      var tb := TreeTopology(b, depth);
      if ta == tb {
        assert |a.children| == |ta.branches| == |tb.branches| == |b.children|;
        forall i | 0 <= i < |a.children|
          ensures AgreeFrom(a.children[i], b.children[i], depth + 1)
        {
          assert ta.branches[i] == tb.branches[i];
          TopologyEqualIffAgree(a.children[i], b.children[i], depth + 1);
        }
      }
      if AgreeFrom(a, b, depth) {
        forall i | 0 <= i < |a.children|
          ensures ta.branches[i] == tb.branches[i]
        {
          TopologyEqualIffAgree(a.children[i], b.children[i], depth + 1);
        }
        assert ta.branches == tb.branches;
      }
    }
  }

  lemma {:induction false} SameRoleShapeAgrees(a: Node, b: Node, depth: nat)
    requires SameRoleShape(a, b)
    ensures AgreeFrom(a, b, depth)
    decreases a
  {
    if depth <= MaxDepth {
      forall i | 0 <= i < |a.children|
        ensures AgreeFrom(a.children[i], b.children[i], depth + 1)
      {
        SameRoleShapeAgrees(a.children[i], b.children[i], depth + 1);
      }
    }
  }

  /** The hash sees only the topology: trees that agree on it hash equally, whatever the digest. */
  lemma HashDependsOnlyOnTopology(a: Node, b: Node, digest: Topology -> string)
    requires AgreeFrom(a, b, 0)
    ensures HashTreeStructure(a, digest) == HashTreeStructure(b, digest)
  {
    TopologyEqualIffAgree(a, b, 0);
  }

  /** Trees that differ only in names and attributes hash equally. */
  lemma HashIgnoresNames(a: Node, b: Node, digest: Topology -> string)
    requires SameRoleShape(a, b)
    ensures HashTreeStructure(a, digest) == HashTreeStructure(b, digest)
  {
    SameRoleShapeAgrees(a, b, 0);
    TopologyEqualIffAgree(a, b, 0);
  }

  function LandmarkEmit(v: Visit): seq<string> {
    if v.node.role in LandmarkRoles then [v.node.role] else []
  }

  predicate IsLandmark(v: Visit) {
    v.node.role in LandmarkRoles
  }

  /** `extract_landmarks`: one entry per landmark node, in pre-order, duplicates kept. */
  function ExtractLandmarks(n: Node): (r: seq<string>)
    ensures r == FlatMap(Visits(n, []), LandmarkEmit)
    ensures |r| == CountWhere(Visits(n, []), IsLandmark)
    ensures forall x :: x in r ==> x in LandmarkRoles
  {
    CollectRoles(n, LandmarkEmit, IsLandmark, LandmarkRoles);
    Collect(n, LandmarkEmit)
  }

  predicate IsInteractive(v: Visit) {
    v.node.role in InteractiveRoles
  }

  /** `count_interactive`: the number of nodes with an interactive role; at most the node count. */
  function CountInteractive(n: Node): (r: nat)
    ensures r == CountWhere(Visits(n, []), IsInteractive)
    ensures r <= NodeCount(n)
  {
    CountIsCountWhere(n, IsInteractive);
    Count(n, IsInteractive)
  }

  /** A heading record `{"level": level, "text": name}`. */
  datatype Heading = Heading(level: Value, text: string)

  predicate IsNamedHeading(v: Visit) {
    v.node.role == "heading" && v.node.name != ""
  }

  function HeadingEmit(v: Visit): seq<Heading> {
    if IsNamedHeading(v) then [Heading(Attr(v.node, "level").GetOr(Int(0)), v.node.name)] else []
  }

  /** `extract_headings`: one record per heading node with a non-empty name, level defaulting to 0. */
  function ExtractHeadings(n: Node): (r: seq<Heading>)
    ensures r == FlatMap(Visits(n, []), HeadingEmit)
    ensures |r| == CountWhere(Visits(n, []), IsNamedHeading)
    ensures forall h :: h in r ==> h.text != ""
  {
    CollectIsFlatMap(n, HeadingEmit);
    var vs := Visits(n, []);
    FlatMapLength(vs, HeadingEmit, IsNamedHeading);
    forall h | h in FlatMap(vs, HeadingEmit)
      ensures h.text != ""
    {
      FlatMapMember(vs, HeadingEmit, h);
    }
    Collect(n, HeadingEmit)
  }
}
