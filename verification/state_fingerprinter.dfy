/**
 * The state fingerprinter: turns an accessibility tree, a URL, a title and a
 * main heading into a `Fingerprint`.
 *
 * The digest of the structure hash (md5 of the sorted JSON text, cut to eight
 * hex digits) and `parse_qsl` are parameters; the URL arrives already split by
 * `urlparse`.
 */
module StateFingerprinter {
  import opened Wrappers
  import opened Values
  import opened Strings
  import opened AccessibilityTree
  import opened Fingerprints

  const LandmarkRoles: seq<string> := ["navigation", "main", "complementary", "contentinfo", "banner", "search", "form", "region"]

  const InteractiveRoles: seq<string> := ["button", "link", "textbox", "combobox", "checkbox", "radio", "searchbox", "spinbutton"]

  const InputRoles: seq<string> := ["textbox", "combobox", "searchbox", "spinbutton"]

  // ---------------------------------------------------------------- URL pattern

  /** Single-page apps route on the fragment, so it wins over the path when present. */
  function RoutePath(u: Url): string {
    if u.fragment != "" then u.fragment else u.path
  }

  /** A hash-bang route loses its one leading `!`. */
  function DropBang(p: string): (r: string)
    ensures if p != [] && p[0] == '!' then p == "!" + r else r == p
  {
    if p != [] && p[0] == '!' then p[1..] else p
  }

  predicate AllSlashes(s: string) {
    forall i :: 0 <= i < |s| ==> s[i] == '/'
  }

  /** `r` is `s` with some slashes cut from its front and its back. */
  predicate Framed(s: string, r: string) {
    exists a, b ::
      0 <= a <= b <= |s| && r == s[a..b] &&
      (forall i :: 0 <= i < a ==> s[i] == '/') && (forall i :: b <= i < |s| ==> s[i] == '/')
  }

  /** Stripping slashes leaves a framed piece of the input, empty exactly when the input is all slashes. */
  lemma StripSlashes(p: string)
    ensures Framed(p, StripChar(p, '/'))
    ensures AllSlashes(p) <==> StripChar(p, '/') == ""
  {
    var r := StripChar(p, '/');
    var a, b := StripCharBounds(p, '/');
    assert Framed(p, r);
    if r == "" {
      forall i | 0 <= i < |p| ensures p[i] == '/' {
        if i >= a {
          assert i >= b;
        }
      }
    } else {
      StripCharFacts(p, '/');
      assert r[0] == p[a];
    }
  }

  /**
   * `_extract_url_pattern`: the route path without its leading `!`, with every
   * slash at either end removed, or `"root"` when nothing is left.
   */
  function UrlPattern(u: Url): (r: string)
    ensures r != "" && r[0] != '/' && r[|r| - 1] != '/'
    ensures AllSlashes(DropBang(RoutePath(u))) ==> r == "root"
    ensures !AllSlashes(DropBang(RoutePath(u))) ==> Framed(DropBang(RoutePath(u)), r)
  {
    var path := DropBang(RoutePath(u));
    var stripped := StripChar(path, '/');
    StripSlashes(path);
    JoinSplit(stripped, '/');
    var joined := Join(Split(stripped, '/'), "/");
    if joined == "" then "root" else joined
  }

  /** One leading slash in front of a slash-free-ended string is stripped. */
  lemma StripOneSlash(t: string)
    requires t != [] && t[0] != '/' && t[|t| - 1] != '/'
    ensures StripChar("/" + t, '/') == t
  {
    var p := "/" + t;
    assert p[1..] == t;
    assert TrimLeft(p, x => x == '/') == t;
    assert TrimRight(t, x => x == '/') == t;
  }

  /**
   * A pattern fed back in as a path comes out unchanged, unless it starts with
   * `!`: then one more `!` is dropped.
   */
  lemma UrlPatternIdempotent(u: Url, query: string)
    requires UrlPattern(u)[0] != '!'
    ensures UrlPattern(Url(UrlPattern(u), query, "")) == UrlPattern(u)
  {
    var p := UrlPattern(u);
    var v := Url(p, query, "");
    assert RoutePath(v) == p && DropBang(p) == p;
    StripCharNoop(p, '/');
    JoinSplit(p, '/');
  }

  /** The counterexample to idempotence in general: a doubled hash-bang. */
  lemma UrlPatternDoubleBang()
    ensures UrlPattern(Url("", "", "!!x")) == "!x"
    ensures UrlPattern(Url("!x", "", "")) == "x"
  {
    StripCharNoop("!x", '/');
    JoinSplit("!x", '/');
    StripCharNoop("x", '/');
    JoinSplit("x", '/');
  }

  /** The pattern depends on the URL only through its route path. */
  lemma UrlPatternOfRoute(u: Url, v: Url)
    requires RoutePath(u) == RoutePath(v)
    ensures UrlPattern(u) == UrlPattern(v)
  {
  }

  /**
   * The fragment wins over the path: when one is present, the path and query
   * play no part and the fragment is read exactly as a path would be.
   */
  lemma UrlPatternPrefersFragment(u: Url, path: string, query: string)
    requires u.fragment != ""
    ensures UrlPattern(u) == UrlPattern(Url(path, query, u.fragment))
    ensures UrlPattern(u) == UrlPattern(Url(u.fragment, query, ""))
    ensures UrlPattern(Url("/admin/config", "id=123", "section")) == "section"
  {
    UrlPatternOfRoute(u, Url(path, query, u.fragment));
    UrlPatternOfRoute(u, Url(u.fragment, query, ""));
    UrlPatternOfRoute(Url("/admin/config", "id=123", "section"), Url("section", "", ""));
    StripCharNoop("section", '/');
    JoinSplit("section", '/');
  }

  /** Without a fragment the path is used, its leading slash stripped. */
  lemma UrlPatternOfPath()
    ensures UrlPattern(Url("/admin/config", "id=123", "")) == "admin/config"
  {
    var t := "admin/config";
    assert "/admin/config" == "/" + t;
    StripOneSlash(t);
    JoinSplit(t, '/');
  }

  // --------------------------------------------------------------- route params

  /** The keys of a list of query pairs. */
  function PairKeys(pairs: seq<(string, string)>): set<string> {
    set i | 0 <= i < |pairs| :: pairs[i].0
  }

  /** The values listed under `key`, in order of appearance. */
  function ValuesFor(pairs: seq<(string, string)>, key: string): (r: seq<string>)
    ensures |r| <= |pairs|
    ensures r == [] <==> key !in PairKeys(pairs)
  {
    if pairs == [] then []
    else
      var rest := ValuesFor(pairs[1..], key);
      assert PairKeys(pairs) == {pairs[0].0} + PairKeys(pairs[1..]) by {
        forall k | k in PairKeys(pairs) ensures k in {pairs[0].0} + PairKeys(pairs[1..]) {
          var i :| 0 <= i < |pairs| && pairs[i].0 == k;
          if i > 0 {
            assert pairs[1..][i - 1].0 == k;
          }
        }
        forall k | k in PairKeys(pairs[1..]) ensures k in PairKeys(pairs) {
          var i :| 0 <= i < |pairs[1..]| && pairs[1..][i].0 == k;
          assert pairs[i + 1].0 == k;
        }
      }
      (if pairs[0].0 == key then [pairs[0].1] else []) + rest
  }

  /** A key with one value maps to that value; a repeated key keeps its whole list. */
  function Flatten(vs: seq<string>): ParamValue {
    if |vs| == 1 then One(vs[0]) else Many(vs)
  }

  /** `parse_qs` followed by the flattening of single-value lists. */
  function FlatParams(pairs: seq<(string, string)>): map<string, ParamValue> {
    map k | k in PairKeys(pairs) :: Flatten(ValuesFor(pairs, k))
  }

  /** The pairs of the URL's query string, parsed only when it is non-empty. */
  function QueryPairs(u: Url, qsl: string -> seq<(string, string)>): seq<(string, string)> {
    if u.query != "" then qsl(u.query) else []
  }

  /** The pairs after the first `?` of the fragment, when the fragment has one. */
  function FragmentPairs(u: Url, qsl: string -> seq<(string, string)>): seq<(string, string)> {
    if u.fragment != "" && '?' in u.fragment then qsl(SplitOnce(u.fragment, '?').1.value) else []
  }

  /**
   * `_extract_route_params`: query parameters first, then the fragment's, which
   * win on a key clash.
   */
  function RouteParams(u: Url, qsl: string -> seq<(string, string)>): (r: map<string, ParamValue>)
    ensures r.Keys == PairKeys(QueryPairs(u, qsl)) + PairKeys(FragmentPairs(u, qsl))
    ensures forall k :: k in PairKeys(FragmentPairs(u, qsl)) ==> r[k] == Flatten(ValuesFor(FragmentPairs(u, qsl), k))
    ensures forall k :: k in r && k !in PairKeys(FragmentPairs(u, qsl)) ==> r[k] == Flatten(ValuesFor(QueryPairs(u, qsl), k))
    ensures forall k :: k in r ==> (r[k].One? <==> |ValuesFor(if k in PairKeys(FragmentPairs(u, qsl)) then FragmentPairs(u, qsl) else QueryPairs(u, qsl), k)| == 1)
  {
    var fromQuery := if u.query != "" then FlatParams(qsl(u.query)) else map[];
    var fromFragment := if u.fragment != "" && '?' in u.fragment then FlatParams(qsl(SplitOnce(u.fragment, '?').1.value)) else map[];
    fromQuery + fromFragment
  }

  // ---------------------------------------------------------------- tree walks

  predicate IsLandmark(v: Visit) {
    v.node.role in LandmarkRoles
  }

  function LandmarkEmit(v: Visit): seq<string> {
    if IsLandmark(v) then [v.node.role] else []
  }

  /** `_extract_landmarks`: the role of every landmark node, in pre-order, duplicates kept. */
  function ExtractLandmarks(n: Node): (r: seq<string>)
    ensures r == FlatMap(Visits(n, []), LandmarkEmit)
    ensures |r| == CountWhere(Visits(n, []), IsLandmark)
    ensures forall x :: x in r ==> x in LandmarkRoles
  {
    CollectRoles(n, LandmarkEmit, IsLandmark, LandmarkRoles);
    Collect(n, LandmarkEmit)
  }

  predicate IsInteractive(v: Visit) {
    v.node.role in InteractiveRoles
  }

  /** `_count_interactive`: the number of nodes with an interactive role. */
  function CountInteractive(n: Node): (r: nat)
    ensures r == CountWhere(Visits(n, []), IsInteractive)
    ensures r <= NodeCount(n)
  {
    CountIsCountWhere(n, IsInteractive);
    Count(n, IsInteractive)
  }

  predicate IsNamedHeading(v: Visit) {
    v.node.role == "heading" && v.node.name != ""
  }

  /** `f"h{level}: {name}"`, the level defaulting to 0. */
  function HeadingLabel(n: Node): string {
    "h" + Format(Attr(n, "level").GetOr(Int(0))) + ": " + n.name
  }

  function HeadingEmit(v: Visit): seq<string> {
    if IsNamedHeading(v) then [HeadingLabel(v.node)] else []
  }

  /** `_extract_headings`: one label per heading node with a non-empty name, in pre-order. */
  function ExtractHeadings(n: Node): (r: seq<string>)
    ensures r == FlatMap(Visits(n, []), HeadingEmit)
    ensures |r| == CountWhere(Visits(n, []), IsNamedHeading)
    ensures forall h :: h in r ==> |h| > 0 && h[0] == 'h'
  {
    CollectIsFlatMap(n, HeadingEmit);
    var vs := Visits(n, []);
    FlatMapLength(vs, HeadingEmit, IsNamedHeading);
    forall h | h in FlatMap(vs, HeadingEmit)
      ensures |h| > 0 && h[0] == 'h'
    {
      FlatMapMember(vs, HeadingEmit, h);
    }
    Collect(n, HeadingEmit)
  }

  // ------------------------------------------------------- actionable elements

  /** `_get_node_aria_states`. */
  function NodeStates(n: Node): NodeAriaStates {
    NodeAriaStates(Attr(n, "expanded"), Attr(n, "selected"), Attr(n, "checked"),
                   Attr(n, "disabled"), Attr(n, "pressed"), Attr(n, "current"))
  }

  function ButtonElement(n: Node): Element {
    Element("button", n.name, None, NodeStates(n), "getByRole('button', { name: '" + n.name + "' })")
  }

  function LinkElement(n: Node): Element {
    Element("link", n.name, Attr(n, "value"), NodeStates(n), "getByRole('link', { name: '" + n.name + "' })")
  }

  function InputElement(n: Node): Element {
    Element(n.role, n.name, None, NodeStates(n),
            if n.name != "" then "getByLabel('" + n.name + "')" else "getByRole('" + n.role + "')")
  }

  predicate IsButton(v: Visit) {
    v.node.role == "button"
  }

  predicate IsLink(v: Visit) {
    v.node.role == "link"
  }

  predicate IsInput(v: Visit) {
    v.node.role in InputRoles
  }

  function ButtonEmit(v: Visit): seq<Element> {
    if IsButton(v) then [ButtonElement(v.node)] else []
  }

  function LinkEmit(v: Visit): seq<Element> {
    if IsLink(v) then [LinkElement(v.node)] else []
  }

  function InputEmit(v: Visit): seq<Element> {
    if IsInput(v) then [InputElement(v.node)] else []
  }

  /** The three lists the walker fills. */
  datatype ElementLists = ElementLists(buttons: seq<Element>, links: seq<Element>, inputs: seq<Element>)

  /** One step of the walker: a node goes to at most one list, tested in the order button, link, input. */
  function ActionStep(acc: ElementLists, v: Visit): ElementLists {
    var role := v.node.role;
    if role == "button" then acc.(buttons := acc.buttons + [ButtonElement(v.node)])
    else if role == "link" then acc.(links := acc.links + [LinkElement(v.node)])
    else if role in InputRoles then acc.(inputs := acc.inputs + [InputElement(v.node)])
    else acc
  }

  /** The button list of the walker's fold: the buttons visited, in order. */
  lemma ActionButtons(vs: seq<Visit>)
    ensures var l := FoldVisits(vs, ElementLists([], [], []), ActionStep).buttons;
      l == FlatMap(vs, ButtonEmit) && |l| == CountWhere(vs, IsButton) &&
      forall e :: e in l ==> e.role == "button"
  {
    FoldProjection(vs, ElementLists([], [], []), ActionStep, (l: ElementLists) => l.buttons, ButtonEmit);
    FlatMapLength(vs, ButtonEmit, IsButton);
    forall e | e in FlatMap(vs, ButtonEmit) ensures e.role == "button" {
      FlatMapMember(vs, ButtonEmit, e);
    }
  }

  /** The link list of the walker's fold: the links visited, in order. */
  lemma ActionLinks(vs: seq<Visit>)
    ensures var l := FoldVisits(vs, ElementLists([], [], []), ActionStep).links;
      l == FlatMap(vs, LinkEmit) && |l| == CountWhere(vs, IsLink) &&
      forall e :: e in l ==> e.role == "link"
  {
    FoldProjection(vs, ElementLists([], [], []), ActionStep, (l: ElementLists) => l.links, LinkEmit);
    FlatMapLength(vs, LinkEmit, IsLink);
    forall e | e in FlatMap(vs, LinkEmit) ensures e.role == "link" {
      FlatMapMember(vs, LinkEmit, e);
    }
  }

  /** The input list of the walker's fold: the form fields visited, in order. */
  lemma ActionInputs(vs: seq<Visit>)
    ensures var l := FoldVisits(vs, ElementLists([], [], []), ActionStep).inputs;
      l == FlatMap(vs, InputEmit) && |l| == CountWhere(vs, IsInput) &&
      forall e :: e in l ==> e.role in InputRoles
  {
    assert "button" !in InputRoles && "link" !in InputRoles;
    FoldProjection(vs, ElementLists([], [], []), ActionStep, (l: ElementLists) => l.inputs, InputEmit);
    FlatMapLength(vs, InputEmit, IsInput);
    forall e | e in FlatMap(vs, InputEmit) ensures e.role in InputRoles {
      FlatMapMember(vs, InputEmit, e);
    }
  }

  /**
   * `_extract_actionable_elements`: buttons, links and inputs in pre-order,
   * each with the role it was filed under, and their total.
   */
  function ExtractActionables(n: Node): (r: Actionables)
    ensures r.totalCount == |r.buttons| + |r.links| + |r.inputs|
    ensures r.buttons == FlatMap(Visits(n, []), ButtonEmit)
    ensures r.links == FlatMap(Visits(n, []), LinkEmit)
    ensures r.inputs == FlatMap(Visits(n, []), InputEmit)
    ensures |r.buttons| == CountWhere(Visits(n, []), IsButton)
    ensures |r.links| == CountWhere(Visits(n, []), IsLink)
    ensures |r.inputs| == CountWhere(Visits(n, []), IsInput)
    ensures forall e :: e in r.buttons ==> e.role == "button"
    ensures forall e :: e in r.links ==> e.role == "link"
    ensures forall e :: e in r.inputs ==> e.role in InputRoles
  {
    var vs := Visits(n, []);
    var empty := ElementLists([], [], []);
    var lists := Walk(n, [], empty, ActionStep);
    WalkIsFold(n, [], empty, ActionStep);
    ActionButtons(vs);
    ActionLinks(vs);
    ActionInputs(vs);
    Actionables(lists.buttons, lists.links, lists.inputs, |lists.buttons| + |lists.links| + |lists.inputs|)
  }

  // ------------------------------------------------------------ structure hash

  /** The `{role, name[:20], children}` record the structure hash is taken of. */
  datatype Shape = Shape(role: string, name: string, children: seq<Shape>)

  function Structure(n: Node): (r: Shape)
    ensures r.role == n.role && r.name == Take(n.name, 20) && |r.children| == |n.children|
    decreases n
  {
    Shape(n.role, Take(n.name, 20),
          seq(|n.children|, i requires 0 <= i < |n.children| => Structure(n.children[i])))
  }

  /** Same roles, same first 20 characters of every name, same shape. */
  predicate SameStructure(a: Node, b: Node)
    decreases a
  {
    a.role == b.role && Take(a.name, 20) == Take(b.name, 20) && |a.children| == |b.children| &&
    forall i :: 0 <= i < |a.children| ==> SameStructure(a.children[i], b.children[i])
  }

  /** The hashed record is exactly what `SameStructure` compares. */
  lemma {:induction false} StructureEqualIff(a: Node, b: Node)
    ensures Structure(a) == Structure(b) <==> SameStructure(a, b)
    decreases a
  {
    var sa, sb := Structure(a), Structure(b);
    if sa == sb {
      forall i | 0 <= i < |a.children|
        ensures SameStructure(a.children[i], b.children[i])
      {
        assert sa.children[i] == sb.children[i];
        StructureEqualIff(a.children[i], b.children[i]);
      }
    }
    if SameStructure(a, b) {
      forall i | 0 <= i < |a.children|
        ensures sa.children[i] == sb.children[i]
      {
        StructureEqualIff(a.children[i], b.children[i]);
      }
      assert sa.children == sb.children;
    }
  }

  /** `_hash_tree_structure`, with the digest of the record as a parameter. */
  function HashTreeStructure(n: Node, digest: Shape -> string): string {
    digest(Structure(n))
  }

  /** Trees that agree on roles, shape and the first 20 characters of names hash equally. */
  lemma HashIgnoresLongNames(a: Node, b: Node, digest: Shape -> string)
    requires SameStructure(a, b)
    ensures HashTreeStructure(a, digest) == HashTreeStructure(b, digest)
  {
    StructureEqualIff(a, b);
  }

  // ------------------------------------------------------------- key landmarks

  /** The record stored for a key landmark; its path is the ancestors' roles and its own, joined by " > ". */
  function KeyEntry(v: Visit): KeyLandmark {
    KeyLandmark(v.node.role, v.node.name, Join(v.ancestors + [v.node.role], " > "))
  }

  /** `f"nav_{len(landmarks)}"` */
  function NavKey(i: nat): string {
    "nav_" + NatToString(i)
  }

  predicate IsNamedNav(v: Visit) {
    v.node.role == "navigation" && v.node.name != ""
  }

  /** One step of the key-landmark walker. */
  function KeyStep(m: map<string, KeyLandmark>, v: Visit): map<string, KeyLandmark> {
    var role := v.node.role;
    var m1 := if role == "navigation" && v.node.name != "" then m[NavKey(|m|) := KeyEntry(v)] else m;
    var m2 := if role == "main" then m1["main_content" := KeyEntry(v)] else m1;
    if role == "search" then m2["search" := KeyEntry(v)] else m2
  }

  predicate IsNavKey(k: string) {
    |k| > 4 && k[..4] == "nav_" && IsDigits(k[4..])
  }

  function NavIndex(k: string): nat
    requires IsNavKey(k)
  {
    DigitsValue(k[4..])
  }

  /** Every key is a slot key or a navigation key numbered below the current size. */
  predicate KeysWellFormed(m: map<string, KeyLandmark>) {
    forall k :: k in m ==> k == "main_content" || k == "search" || (IsNavKey(k) && NavIndex(k) < |m|)
  }

  lemma NavKeyFresh(m: map<string, KeyLandmark>)
    requires KeysWellFormed(m)
    ensures IsNavKey(NavKey(|m|)) && NavIndex(NavKey(|m|)) == |m|
    ensures NavKey(|m|) !in m
    ensures NavKey(|m|) != "main_content" && NavKey(|m|) != "search"
  {
    var k := NavKey(|m|);
    assert k[..4] == "nav_" && k[4..] == NatToString(|m|);
    DigitsValueOfNatToString(|m|);
    assert k[0] == 'n';
  }

  lemma KeyStepFacts(m: map<string, KeyLandmark>, v: Visit)
    requires KeysWellFormed(m)
    ensures KeysWellFormed(KeyStep(m, v))
    ensures |KeyStep(m, v)| == |m| + (if IsNamedNav(v) then 1 else 0)
                                   + (if v.node.role == "main" && "main_content" !in m then 1 else 0)
                                   + (if v.node.role == "search" && "search" !in m then 1 else 0)
  {
    NavKeyFresh(m);
  }

  /** The slot `key` holds the entry of the last node with role `role`, or what it held before. */
  lemma {:induction false} KeyFoldSlot(vs: seq<Visit>, m: map<string, KeyLandmark>, key: string, role: string)
    requires (key, role) == ("main_content", "main") || (key, role) == ("search", "search")
    ensures var r := FoldVisits(vs, m, KeyStep);
      (key in r <==> key in m || HasRole(vs, role)) &&
      (HasRole(vs, role) ==> r[key] == KeyEntry(LastWithRole(vs, role).value)) &&
      (!HasRole(vs, role) && key in m ==> r[key] == m[key])
  {
    if vs != [] {
      var m' := KeyStep(m, vs[0]);
      assert key != NavKey(|m|) by {
        assert NavKey(|m|)[0] == 'n';
      }
      KeyFoldSlot(vs[1..], m', key, role);
    }
  }

  lemma {:induction false} KeyFoldSize(vs: seq<Visit>, m: map<string, KeyLandmark>)
    requires KeysWellFormed(m)
    ensures var r := FoldVisits(vs, m, KeyStep);
      KeysWellFormed(r) &&
      |r| == |m| + CountWhere(vs, IsNamedNav)
                 + (if HasRole(vs, "main") && "main_content" !in m then 1 else 0)
                 + (if HasRole(vs, "search") && "search" !in m then 1 else 0)
  {
    if vs != [] {
      var m' := KeyStep(m, vs[0]);
      KeyStepFacts(m, vs[0]);
      assert "main_content" in m' <==> "main_content" in m || vs[0].node.role == "main" by {
        NavKeyFresh(m);
      }
      assert "search" in m' <==> "search" in m || vs[0].node.role == "search" by {
        NavKeyFresh(m);
      }
      KeyFoldSize(vs[1..], m');
    }
  }

  /**
   * The number the `j`-th visit's `nav_` key gets: the named navigation nodes
   * before it, plus one for each of the main-content and search slots already filled.
   */
  function NavNumber(vs: seq<Visit>, j: nat): nat
    requires j <= |vs|
  {
    CountWhere(vs[..j], IsNamedNav)
      + (if HasRole(vs[..j], "main") then 1 else 0)
      + (if HasRole(vs[..j], "search") then 1 else 0)
  }

  /** A navigation key already present keeps its entry through the rest of the walk. */
  lemma {:induction false} KeyFoldKeepsNav(vs: seq<Visit>, m: map<string, KeyLandmark>, k: string)
    requires KeysWellFormed(m) && k in m && k != "main_content" && k != "search"
    ensures k in FoldVisits(vs, m, KeyStep) && FoldVisits(vs, m, KeyStep)[k] == m[k]
  {
    if vs != [] {
      var m' := KeyStep(m, vs[0]);
      NavKeyFresh(m);
      KeyStepFacts(m, vs[0]);
      assert k in m' && m'[k] == m[k];
      KeyFoldKeepsNav(vs[1..], m', k);
    }
  }

  /** The named navigation node at `j` is stored under the size the walk's map had reached before it. */
  lemma KeyFoldNavAt(vs: seq<Visit>, m: map<string, KeyLandmark>, j: nat)
    requires KeysWellFormed(m) && j < |vs| && IsNamedNav(vs[j])
    ensures var b := |FoldVisits(vs[..j], m, KeyStep)|;
      NavKey(b) in FoldVisits(vs, m, KeyStep) && FoldVisits(vs, m, KeyStep)[NavKey(b)] == KeyEntry(vs[j])
  {
    var mj := FoldVisits(vs[..j], m, KeyStep);
    KeyFoldSize(vs[..j], m);
    FoldConcat(vs[..j], vs[j..], m, KeyStep);
    assert vs[..j] + vs[j..] == vs;
    var m' := KeyStep(mj, vs[j]);
    NavKeyFresh(mj);
    KeyStepFacts(mj, vs[j]);
    assert m'[NavKey(|mj|)] == KeyEntry(vs[j]);
    assert vs[j..][0] == vs[j] && vs[j..][1..] == vs[j + 1..];
    KeyFoldKeepsNav(vs[j + 1..], m', NavKey(|mj|));
  }

  /** Conversely, a navigation key the walk adds belongs to some named navigation node. */
  lemma {:induction false} KeyFoldNavOrigin(vs: seq<Visit>, m: map<string, KeyLandmark>, k: string) returns (j: nat)
    requires KeysWellFormed(m)
    requires k in FoldVisits(vs, m, KeyStep) && k !in m && k != "main_content" && k != "search"
    ensures j < |vs| && IsNamedNav(vs[j]) && k == NavKey(|FoldVisits(vs[..j], m, KeyStep)|)
  {
    assert vs != [];
    var m' := KeyStep(m, vs[0]);
    KeyStepFacts(m, vs[0]);
    if k in m' {
      j := 0;
      assert vs[..0] == [];
    } else {
      var j' := KeyFoldNavOrigin(vs[1..], m', k);
      j := j' + 1;
      assert vs[..j][0] == vs[0] && vs[..j][1..] == vs[1..][..j'];
    }
  }

  /** From an empty map, the named navigation node at `j` is stored under `nav_<NavNumber>`. */
  lemma KeyFoldNavNumber(vs: seq<Visit>, j: nat)
    requires j < |vs| && IsNamedNav(vs[j])
    ensures var r := FoldVisits(vs, map[], KeyStep);
      NavKey(NavNumber(vs, j)) in r && r[NavKey(NavNumber(vs, j))] == KeyEntry(vs[j])
  {
    KeyFoldSize(vs[..j], map[]);
    KeyFoldNavAt(vs, map[], j);
  }

  /** From an empty map, every `nav_` key is that of some named navigation node. */
  lemma KeyFoldNavNumberOrigin(vs: seq<Visit>, k: string) returns (j: nat)
    requires k in FoldVisits(vs, map[], KeyStep) && IsNavKey(k)
    ensures j < |vs| && IsNamedNav(vs[j]) && k == NavKey(NavNumber(vs, j))
  {
    assert k[0] == 'n';
    j := KeyFoldNavOrigin(vs, map[], k);
    KeyFoldSize(vs[..j], map[]);
  }

  /** From an empty map, the `nav_` keys are exactly those of the named navigation nodes, each under its `NavNumber`. */
  lemma KeyFoldNavs(vs: seq<Visit>)
    ensures var r := FoldVisits(vs, map[], KeyStep);
      (forall j :: 0 <= j < |vs| && IsNamedNav(vs[j]) ==>
         NavKey(NavNumber(vs, j)) in r && r[NavKey(NavNumber(vs, j))] == KeyEntry(vs[j])) &&
      (forall k :: k in r && IsNavKey(k) ==>
         exists j :: 0 <= j < |vs| && IsNamedNav(vs[j]) && k == NavKey(NavNumber(vs, j)))
  {
    var r := FoldVisits(vs, map[], KeyStep);
    forall j | 0 <= j < |vs| && IsNamedNav(vs[j])
      ensures NavKey(NavNumber(vs, j)) in r && r[NavKey(NavNumber(vs, j))] == KeyEntry(vs[j])
    {
      KeyFoldNavNumber(vs, j);
    }
    forall k | k in r && IsNavKey(k)
      ensures exists j :: 0 <= j < |vs| && IsNamedNav(vs[j]) && k == NavKey(NavNumber(vs, j))
    {
      var j := KeyFoldNavNumberOrigin(vs, k);
    }
  }

  /**
   * `_extract_key_landmarks`: one `nav_i` entry per named navigation node,
   * `main_content` and `search` for the last main and search nodes. The `i` of
   * `nav_i` is the map's size at that point, which counts the slot keys too.
   */
  function ExtractKeyLandmarks(n: Node): (r: map<string, KeyLandmark>)
    ensures forall k :: k in r ==> k == "main_content" || k == "search" || IsNavKey(k)
    ensures "main_content" in r <==> HasRole(Visits(n, []), "main")
    ensures "main_content" in r ==> r["main_content"] == KeyEntry(LastWithRole(Visits(n, []), "main").value)
    ensures "search" in r <==> HasRole(Visits(n, []), "search")
    ensures "search" in r ==> r["search"] == KeyEntry(LastWithRole(Visits(n, []), "search").value)
    ensures |r| == CountWhere(Visits(n, []), IsNamedNav)
                 + (if HasRole(Visits(n, []), "main") then 1 else 0)
                 + (if HasRole(Visits(n, []), "search") then 1 else 0)
    ensures forall j :: 0 <= j < |Visits(n, [])| && IsNamedNav(Visits(n, [])[j]) ==>
      NavKey(NavNumber(Visits(n, []), j)) in r && r[NavKey(NavNumber(Visits(n, []), j))] == KeyEntry(Visits(n, [])[j])
    ensures forall k :: k in r && IsNavKey(k) ==>
      exists j :: 0 <= j < |Visits(n, [])| && IsNamedNav(Visits(n, [])[j]) && k == NavKey(NavNumber(Visits(n, []), j))
  {
    var vs := Visits(n, []);
    WalkIsFold(n, [], map[], KeyStep);
    KeyFoldNavs(vs);
    KeyFoldSlot(vs, map[], "main_content", "main");
    KeyFoldSlot(vs, map[], "search", "search");
    KeyFoldSize(vs, map[]);
    Walk(n, [], map[], KeyStep)
  }

  /** The pre-order of a root with two leaf children. */
  lemma TwoLeafVisits(n: Node, a: Node, b: Node)
    requires n.children == [a, b] && a.children == [] && b.children == []
    ensures Visits(n, []) == [Visit(n, []), Visit(a, [n.role]), Visit(b, [n.role])]
  {
    assert [] + [n.role] == [n.role];
    assert Visits(a, [n.role]) == [Visit(a, [n.role])];
    assert Visits(b, [n.role]) == [Visit(b, [n.role])];
    assert [b][1..] == [] && [a, b][1..] == [b];
    assert VisitsSeq([b], [n.role]) == [Visit(b, [n.role])];
  }

  /** In that pre-order, a navigation node after a main node is numbered 1. */
  lemma NavNumberAfterMain(vs: seq<Visit>)
    requires |vs| == 3 && vs[0].node.role == "root" && vs[1].node.role == "main"
    ensures NavNumber(vs, 2) == 1
  {
    var pre := vs[..2];
    assert pre[0] == vs[0] && pre[1..] == [vs[1]] && pre[1..][1..] == [];
    assert !IsNamedNav(pre[0]) && !IsNamedNav(pre[1..][0]);
    assert CountWhere(pre[1..][1..], IsNamedNav) == 0 && !HasRole(pre[1..][1..], "search");
    assert CountWhere(pre[1..], IsNamedNav) == 0 && !HasRole(pre[1..], "search");
    assert CountWhere(pre, IsNamedNav) == 0 && !HasRole(pre, "search");
    assert HasRole(pre[1..], "main") && HasRole(pre, "main");
  }

  /** The `nav_` number counts every key already present, the main-content slot included. */
  lemma NavNumberCountsSlots()
    ensures var menu := Node("navigation", "Menu", map[], []);
            var body := Node("main", "", map[], []);
            var r := ExtractKeyLandmarks(Node("root", "", map[], [body, menu]));
            NavKey(1) in r && NavKey(0) !in r
  {
    var menu := Node("navigation", "Menu", map[], []);
    var body := Node("main", "", map[], []);
    var n := Node("root", "", map[], [body, menu]);
    TwoLeafVisits(n, body, menu);
    var vs := Visits(n, []);
    NavNumberAfterMain(vs);
    assert IsNamedNav(vs[2]) && !IsNamedNav(vs[0]) && !IsNamedNav(vs[1]);
    assert NavKey(0) != NavKey(1) by {
      assert NavKey(0)[4] == '0' && NavKey(1)[4] == '1';
    }
    assert IsNavKey(NavKey(0)) by {
      assert NavKey(0)[..4] == "nav_" && NavKey(0)[4..] == "0";
    }
  }



  // ---------------------------------------------------------------- ARIA states

  function ExpandedEmit(v: Visit): seq<ExpandedEntry> {
    var n := v.node;
    match Attr(n, "expanded")
    case Some(x) => [ExpandedEntry(n.role, n.name, x, if v.ancestors != [] then Join(v.ancestors + [n.role], " > ") else n.role)]
    case None => []
  }

  function SelectedEmit(v: Visit): seq<StateEntry> {
    match Attr(v.node, "selected")
    case Some(x) => [StateEntry(v.node.role, v.node.name, x)]
    case None => []
  }

  function CheckedEmit(v: Visit): seq<StateEntry> {
    match Attr(v.node, "checked")
    case Some(x) => [StateEntry(v.node.role, v.node.name, x)]
    case None => []
  }

  predicate IsDisabled(v: Visit) {
    Truthy(Attr(v.node, "disabled"))
  }

  predicate IsCurrent(v: Visit) {
    Truthy(Attr(v.node, "current"))
  }

  function CurrentEmit(v: Visit): seq<StateEntry> {
    if IsCurrent(v) then [StateEntry(v.node.role, v.node.name, Attr(v.node, "current").value)] else []
  }

  /** One step of the ARIA-state walker. */
  function AriaStep(s: AriaSummary, v: Visit): AriaSummary {
    AriaSummary(s.expanded + ExpandedEmit(v), s.selected + SelectedEmit(v), s.checked + CheckedEmit(v),
                s.disabledCount + (if IsDisabled(v) then 1 else 0), s.current + CurrentEmit(v))
  }

  const NoAriaStates := AriaSummary([], [], [], 0, [])

  /**
   * `_extract_aria_states`: every node with an `expanded`, `selected` or
   * `checked` attribute, every node with a truthy `current`, in pre-order, and
   * the number of nodes with a truthy `disabled`.
   */
  function ExtractAriaStates(n: Node): (r: AriaSummary)
    ensures r.expanded == FlatMap(Visits(n, []), ExpandedEmit)
    ensures r.selected == FlatMap(Visits(n, []), SelectedEmit)
    ensures r.checked == FlatMap(Visits(n, []), CheckedEmit)
    ensures r.current == FlatMap(Visits(n, []), CurrentEmit)
    ensures r.disabledCount == CountWhere(Visits(n, []), IsDisabled)
    ensures r.disabledCount <= NodeCount(n)
    ensures |r.current| == CountWhere(Visits(n, []), IsCurrent)
    ensures forall e :: e in r.current ==> Truthy(Some(e.state))
  {
    var vs := Visits(n, []);
    WalkIsFold(n, [], NoAriaStates, AriaStep);
    FoldProjection(vs, NoAriaStates, AriaStep, (s: AriaSummary) => s.expanded, ExpandedEmit);
    FoldProjection(vs, NoAriaStates, AriaStep, (s: AriaSummary) => s.selected, SelectedEmit);
    FoldProjection(vs, NoAriaStates, AriaStep, (s: AriaSummary) => s.checked, CheckedEmit);
    FoldProjection(vs, NoAriaStates, AriaStep, (s: AriaSummary) => s.current, CurrentEmit);
    FoldCounter(vs, NoAriaStates, AriaStep, (s: AriaSummary) => s.disabledCount, IsDisabled);
    FlatMapLength(vs, CurrentEmit, IsCurrent);
    forall e | e in FlatMap(vs, CurrentEmit) ensures Truthy(Some(e.state)) {
      FlatMapMember(vs, CurrentEmit, e);
    }
    Walk(n, [], NoAriaStates, AriaStep)
  }

  // ---------------------------------------------------------------- fingerprint

  /** Every tree agreeing with `n` on roles, shape and name prefixes hashes like it. */
  lemma HashOfSameStructure(n: Node, digest: Shape -> string)
    ensures forall m :: SameStructure(m, n) ==> HashTreeStructure(m, digest) == HashTreeStructure(n, digest)
  {
    forall m | SameStructure(m, n) ensures HashTreeStructure(m, digest) == HashTreeStructure(n, digest) {
      HashIgnoresLongNames(m, n, digest);
    }
  }

  /** `_extract_a11y_fingerprint` */
  function A11yFingerprint(n: Node, digest: Shape -> string): (r: A11ySummary)
    ensures forall m :: SameStructure(m, n) ==> HashTreeStructure(m, digest) == r.structureHash
    ensures r.landmarkRoles == FlatMap(Visits(n, []), LandmarkEmit)
    ensures |r.landmarkRoles| == CountWhere(Visits(n, []), IsLandmark)
    ensures forall x :: x in r.landmarkRoles ==> x in LandmarkRoles
    ensures r.interactiveCount == CountWhere(Visits(n, []), IsInteractive)
    ensures r.interactiveCount <= NodeCount(n)
    ensures r.headingHierarchy == FlatMap(Visits(n, []), HeadingEmit)
    ensures |r.headingHierarchy| == CountWhere(Visits(n, []), IsNamedHeading)
    ensures r.keyLandmarks == ExtractKeyLandmarks(n)
    ensures forall k :: k in r.keyLandmarks ==> k == "main_content" || k == "search" || IsNavKey(k)
    ensures r.ariaStates == Some(ExtractAriaStates(n))
  {
    HashOfSameStructure(n, digest);
    A11ySummary(HashTreeStructure(n, digest), ExtractLandmarks(n), CountInteractive(n),
                ExtractHeadings(n), ExtractKeyLandmarks(n), Some(ExtractAriaStates(n)))
  }

  /**
   * `create_fingerprint`. A falsy tree (`None` or `{}`) gives the minimal
   * fingerprint: no semantic summary and empty actionable lists.
   */
  function CreateFingerprint(tree: Option<Node>, url: Url, title: string, mainHeading: string,
                             digest: Shape -> string, qsl: string -> seq<(string, string)>): (r: Fingerprint)
    ensures r.urlPattern == UrlPattern(url) && r.routeParams == RouteParams(url, qsl)
    ensures r.title == title && r.mainHeading == mainHeading
    ensures r.a11y.None? <==> tree.None?
    ensures r.actionables.Some?
    ensures tree.None? ==> r.actionables.value == NoActionables
    ensures r.actionables.value.totalCount == |r.actionables.value.buttons| + |r.actionables.value.links| + |r.actionables.value.inputs|
    ensures forall e :: e in r.actionables.value.buttons ==> e.role == "button"
    ensures forall e :: e in r.actionables.value.links ==> e.role == "link"
    ensures forall e :: e in r.actionables.value.inputs ==> e.role in InputRoles
    ensures r.a11y.Some? ==> r.a11y.value.ariaStates.Some?
    ensures r.a11y.Some? ==> forall x :: x in r.a11y.value.landmarkRoles ==> x in LandmarkRoles
    ensures tree.Some? ==> r.actionables == Some(ExtractActionables(tree.value))
    ensures tree.Some? ==> r.a11y == Some(A11yFingerprint(tree.value, digest))
  {
    match tree
    case None =>
      Fingerprint(UrlPattern(url), RouteParams(url, qsl), title, mainHeading, None, Some(NoActionables))
    case Some(n) =>
      Fingerprint(UrlPattern(url), RouteParams(url, qsl), title, mainHeading,
                  Some(A11yFingerprint(n, digest)), Some(ExtractActionables(n)))
  }
}
