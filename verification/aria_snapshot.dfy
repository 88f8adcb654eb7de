/**
 * The ARIA snapshot parser: Playwright's YAML-like outline of the accessibility
 * tree, one node per line, nesting given by indentation, turned into a tree of
 * `Node`s under a synthetic `root`.
 *
 * Each line is first classified on its own (`ParseLine`); the tree is then
 * built by a stack of (indent, node) pairs. Every node is appended as the last
 * child of the stack's top, so the stack is always the right-most path of the
 * tree built so far; the model keeps the tree and the indents of that path.
 */
module AriaSnapshot {
  import opened Wrappers
  import opened Values
  import opened Strings
  import opened AccessibilityTree

  // ------------------------------------------------------------- one line

  /** What one line of the snapshot contributes. */
  datatype Line =
    | Skip                               // blank, a comment, or a bare key such as `- /foo`
    | UrlLine(url: Option<string>)       // `- /url: "..."`: the URL, when the pattern matches
    | NodeLine(indent: nat, node: Node)  // a node, with the line's leading whitespace count

  /** The regular expression `/url:\s*"([^"]+)"` anchored at the start of `t`. */
  function UrlMatchPrefix(t: string): (r: Option<string>)
    ensures r.Some? ==> r.value != [] && '"' !in r.value
  {
    if !("/url:" <= t) then None
    else
      var rest := TrimLeft(t[5..], IsSpace);
      if rest == [] || rest[0] != '"' then None
      else
        match IndexOf(rest[1..], '"')
        case None => None
        case Some(k) => if k == 0 then None else Some(rest[1..][..k])
  }

  /** The same expression tried at position `p` of `c` only. */
  function UrlMatchAt(c: string, p: nat): (r: Option<string>)
    requires p <= |c|
    ensures r.Some? ==> r.value != [] && '"' !in r.value
  {
    UrlMatchPrefix(c[p..])
  }

  /** The outcome of the URL pattern at every position of `c`, end included. */
  function UrlMatches(c: string): (ms: seq<Option<string>>)
    ensures |ms| == |c| + 1
    ensures forall q :: 0 <= q <= |c| ==> ms[q] == UrlMatchAt(c, q)
  {
    seq(|c| + 1, q requires 0 <= q <= |c| => UrlMatchAt(c, q))
  }

  /** The leftmost position from `p` on whose outcome is a match. */
  function FirstMatch(ms: seq<Option<string>>, p: nat): (r: Option<nat>)
    requires p <= |ms|
    ensures r.None? <==> forall q :: p <= q < |ms| ==> ms[q].None?
    ensures r.Some? ==> p <= r.value < |ms| && ms[r.value].Some? &&
                        forall q :: p <= q < r.value ==> ms[q].None?
    decreases |ms| - p
  {
    if p == |ms| then None
    else if ms[p].Some? then Some(p)
    else FirstMatch(ms, p + 1)
  }

  /** `re.search(r'/url:\s*"([^"]+)"', c)`: the captured URL of the leftmost match. */
  function SearchUrl(c: string): (r: Option<string>)
    ensures r.None? <==> forall q :: 0 <= q <= |c| ==> UrlMatchAt(c, q).None?
    ensures r.Some? ==> exists q :: 0 <= q <= |c| && UrlMatchAt(c, q) == r &&
                          forall q' :: 0 <= q' < q ==> UrlMatchAt(c, q').None?
  {
    var ms := UrlMatches(c);
    match FirstMatch(ms, 0)
    case None => None
    case Some(q) => ms[q]
  }

  /** The regular expression `\[([^\]]+)\]$` matches with its `[` at position `p`. */
  predicate AttrOpenAt(c: string, p: nat) {
    p + 2 < |c| && c[|c| - 1] == ']' && c[p] == '[' &&
    forall i :: p < i < |c| - 1 ==> c[i] != ']'
  }

  /** `re.search` of that expression from position `p`. */
  function FindAttrOpen(c: string, p: nat): (r: Option<nat>)
    ensures r.None? <==> forall q :: p <= q < |c| ==> !AttrOpenAt(c, q)
    ensures r.Some? ==> p <= r.value < |c| && AttrOpenAt(c, r.value) &&
                        forall q :: p <= q < r.value ==> !AttrOpenAt(c, q)
    decreases |c| - p
  {
    if p >= |c| then None
    else if AttrOpenAt(c, p) then Some(p)
    else FindAttrOpen(c, p + 1)
  }

  /** An attribute value: `true`/`false` in any case, a run of digits, or the text itself. */
  function ParseAttrValue(val: string): (v: Value)
    ensures v.Bool? <==> Lower(val) == "true" || Lower(val) == "false"
    ensures v.Bool? ==> (v.b <==> Lower(val) == "true")
    ensures v.Int? <==> !v.Bool? && IsDigits(val)
    ensures v.Int? ==> v.i == DigitsValue(val)
    ensures v.Str? ==> v.s == val
  {
    if Lower(val) == "true" then Bool(true)
    else if Lower(val) == "false" then Bool(false)
    else if IsDigits(val) then Int(DigitsValue(val))
    else Str(val)
  }

  /** Keys the node's own fields overwrite or that the parser's `children` list occupies. */
  predicate Reserved(key: string) {
    key == "role" || key == "name" || key == "children"
  }

  /**
   * What one comma-separated piece of a bracket sets: the stripped text before
   * its first `=` as the key and the stripped text after it as the value; a
   * piece without `=` sets nothing.
   */
  function AttrPair(piece: string): (r: Option<(string, Value)>)
    ensures r.None? <==> '=' !in piece
  {
    var (key, val) := SplitOnce(piece, '=');
    if val.Some? then Some((Strip(key), ParseAttrValue(Strip(val.value)))) else None
  }

  /** `key=value` with no `=` in the key sets the stripped key to the typed, stripped value. */
  lemma AttrPairOf(key: string, val: string)
    requires '=' !in key
    ensures AttrPair(key + "=" + val) == Some((Strip(key), ParseAttrValue(Strip(val))))
  {
    SplitOnceOf(key, '=', val);
  }

  /** What each piece of a bracket sets, in order. */
  function Settings(pairs: seq<string>): (r: seq<Option<(string, Value)>>)
    ensures |r| == |pairs| && forall i :: 0 <= i < |pairs| ==> r[i] == AttrPair(pairs[i])
  {
    seq(|pairs|, i requires 0 <= i < |pairs| => AttrPair(pairs[i]))
  }

  /** The setting is for `key`. */
  predicate SetsKey(s: Option<(string, Value)>, key: string) {
    s.Some? && s.value.0 == key
  }

  /** The last setting for `key`, if any. */
  function LastSetting(ss: seq<Option<(string, Value)>>, key: string): (r: Option<nat>)
    ensures r.None? <==> forall i :: 0 <= i < |ss| ==> !SetsKey(ss[i], key)
    ensures r.Some? ==> r.value < |ss| && SetsKey(ss[r.value], key) &&
                        forall j :: r.value < j < |ss| ==> !SetsKey(ss[j], key)
    decreases |ss|
  {
    if ss == [] then None
    else
      var rest := ss[1..];
      assert forall i :: 0 <= i < |rest| ==> rest[i] == ss[i + 1];
      match LastSetting(rest, key)
      case Some(j) => Some(j + 1)
      case None => if SetsKey(ss[0], key) then Some(0) else None
  }

  /**
   * The settings applied to `acc` in order: a key is present when it was
   * already or some setting is for it, and the last setting for it wins.
   */
  function Apply(ss: seq<Option<(string, Value)>>, acc: map<string, Value>): (r: map<string, Value>)
    ensures forall k :: k in r <==> k in acc || LastSetting(ss, k).Some?
    ensures forall k :: LastSetting(ss, k).Some? ==> r[k] == ss[LastSetting(ss, k).value].value.1
    ensures forall k :: k in acc && LastSetting(ss, k).None? ==> r[k] == acc[k]
    decreases |ss|
  {
    if ss == [] then acc
    else
      var acc' := if ss[0].Some? then acc[ss[0].value.0 := ss[0].value.1] else acc;
      var r := Apply(ss[1..], acc');
      ApplyStep(ss, acc, acc', r);
      r
  }

  /** One step of `Apply`: what holds of the rest carries over to the whole. */
  lemma ApplyStep(ss: seq<Option<(string, Value)>>, acc: map<string, Value>, acc': map<string, Value>, r: map<string, Value>)
    requires ss != []
    requires acc' == if ss[0].Some? then acc[ss[0].value.0 := ss[0].value.1] else acc
    requires forall k :: k in r <==> k in acc' || LastSetting(ss[1..], k).Some?
    requires forall k :: LastSetting(ss[1..], k).Some? ==> r[k] == ss[1..][LastSetting(ss[1..], k).value].value.1
    requires forall k :: k in acc' && LastSetting(ss[1..], k).None? ==> r[k] == acc'[k]
    ensures forall k :: k in r <==> k in acc || LastSetting(ss, k).Some?
    ensures forall k :: LastSetting(ss, k).Some? ==> r[k] == ss[LastSetting(ss, k).value].value.1
    ensures forall k :: k in acc && LastSetting(ss, k).None? ==> r[k] == acc[k]
  {
    forall k | LastSetting(ss, k).Some?
      ensures r[k] == ss[LastSetting(ss, k).value].value.1
    {
      match LastSetting(ss[1..], k)
      case Some(j) =>
        assert ss[1..][j] == ss[j + 1];
      case None =>
        assert SetsKey(ss[0], k);
    }
  }

  /** The `key=value` pairs of a bracket, comma-separated, added to `acc`; the last piece setting a key wins. */
  function ParseAttrs(pairs: seq<string>, acc: map<string, Value>): (r: map<string, Value>)
    ensures forall k :: k in r <==> k in acc || LastSetting(Settings(pairs), k).Some?
    ensures forall k :: LastSetting(Settings(pairs), k).Some? ==>
      r[k] == AttrPair(pairs[LastSetting(Settings(pairs), k).value]).value.1
    ensures forall k :: k in acc && LastSetting(Settings(pairs), k).None? ==> r[k] == acc[k]
  {
    Apply(Settings(pairs), acc)
  }

  /**
   * The attributes of a bracket body: each key some comma-separated piece
   * sets, other than the keys the node's own fields take, with the value of
   * the last piece that sets it.
   */
  function Attributes(body: string): (r: map<string, Value>)
    ensures forall k :: k in r <==> !Reserved(k) && LastSetting(Settings(Split(body, ',')), k).Some?
    ensures forall k :: k in r ==>
      r[k] == AttrPair(Split(body, ',')[LastSetting(Settings(Split(body, ',')), k).value]).value.1
  {
    var all := ParseAttrs(Split(body, ','), map[]);
    map k | k in all && !Reserved(k) :: all[k]
  }

  /**
   * The regular expression `^(\S+)\s+"([^"]+)"$`: a role without whitespace,
   * whitespace, then a quoted name without quotes.
   */
  function NameMatch(c: string): (r: Option<(string, string)>)
    ensures r.Some? ==> exists ws ::
      c == r.value.0 + ws + "\"" + r.value.1 + "\"" && QuotedNameParts(r.value.0, ws, r.value.1)
  {
    var i := SpanFrom(c, 0, NotSpace);
    if i == 0 || i == |c| then None
    else
      var j := SpanFrom(c, i, IsSpace);
      if j + 2 >= |c| || c[j] != '"' || c[|c| - 1] != '"' || '"' in c[j + 1..|c| - 1] then None
      else
        FiveSlices(c, i, j);
        assert QuotedNameParts(c[..i], c[i..j], c[j + 1..|c| - 1]);
        Some((c[..i], c[j + 1..|c| - 1]))
  }

  /** The three parts of `role "name"`, as the expression constrains them. */
  predicate QuotedNameParts(role: string, ws: string, name: string) {
    role != [] && (forall i :: 0 <= i < |role| ==> !IsSpace(role[i])) &&
    ws != [] && (forall i :: 0 <= i < |ws| ==> IsSpace(ws[i])) &&
    name != [] && '"' !in name
  }

  predicate NotSpace(c: char) {
    !IsSpace(c)
  }

  /** The end of the run of characters satisfying `p` that starts at `i`. */
  function SpanFrom(c: string, i: nat, p: char -> bool): (j: nat)
    requires i <= |c|
    ensures i <= j <= |c|
    ensures forall k :: i <= k < j ==> p(c[k])
    ensures j < |c| ==> !p(c[j])
    decreases |c| - i
  {
    if i < |c| && p(c[i]) then SpanFrom(c, i + 1, p) else i
  }

  /** Cutting a string at `i`, `j` and around its first and last quote loses nothing. */
  lemma FiveSlices(c: string, i: nat, j: nat)
    requires i <= j && j + 2 < |c|
    ensures c == c[..i] + c[i..j] + [c[j]] + c[j + 1..|c| - 1] + [c[|c| - 1]]
  {
    var n := |c| - 1;
    assert c[..j] == c[..i] + c[i..j];
    assert c[..j + 1] == c[..j] + [c[j]];
    assert c[..n] == c[..j + 1] + c[j + 1..n];
    assert c == c[..n] + [c[n]];
  }

  /**
   * The regular expression `text:\s*"?([^"]*)"?` on a line that starts with
   * `text:`: it always matches, and the name is the run of non-quote
   * characters after the whitespace and an optional opening quote.
   */
  function TextName(c: string): (r: string)
    requires "text:" <= c
    ensures '"' !in r
  {
    var rest := TrimLeft(c[5..], IsSpace);
    var unquoted := if rest != [] && rest[0] == '"' then rest[1..] else rest;
    match IndexOf(unquoted, '"')
    case None => unquoted
    case Some(k) => unquoted[..k]
  }

  /** Role and name of a node's text once the attributes and the colon are gone. */
  function RoleAndName(c: string): (r: (string, string))
    ensures r.0 != ""
    ensures "text:" <= c ==> r == ("text", TextName(c))
    ensures !("text:" <= c) && NameMatch(c).Some? ==> r == NameMatch(c).value
    ensures !("text:" <= c) && NameMatch(c).None? ==> r == (if c == "" then "generic" else c, "")
  {
    if "text:" <= c then ("text", TextName(c))
    else
      match NameMatch(c)
      case Some(rn) =>
        assert rn.0 != [] by {
          var ws :| c == rn.0 + ws + "\"" + rn.1 + "\"" && QuotedNameParts(rn.0, ws, rn.1);
        }
        rn
      case None => (if c == "" then "generic" else c, "")
  }

  /** The text of a line with a leading `- ` removed. */
  function Unbulleted(content: string): string {
    if "- " <= content then content[2..] else content
  }

  /** A line that sets the URL of the most recent node. */
  predicate IsUrlContent(content: string) {
    "- /url:" <= content || "/url:" <= content
  }

  /** The text before the attribute bracket, stripped; the whole text when there is no bracket. */
  function WithoutAttrs(c: string): string {
    match FindAttrOpen(c, 0)
    case Some(p) => Strip(c[..p])
    case None => c
  }

  /** The attributes of the bracket at the end of the text; none when there is no bracket. */
  function LineAttrs(c: string): (r: map<string, Value>)
    ensures FindAttrOpen(c, 0).None? ==> r == map[]
    ensures forall k :: k in r ==> !Reserved(k)
  {
    match FindAttrOpen(c, 0)
    case Some(p) => Attributes(c[p + 1..|c| - 1])
    case None => map[]
  }

  /** A container's trailing `:` removed, and the rest stripped again. */
  function WithoutColon(c: string): (r: string)
    ensures |r| <= |c|
    ensures c == [] || c[|c| - 1] != ':' ==> r == c
  {
    if c != [] && c[|c| - 1] == ':' then Strip(c[..|c| - 1]) else c
  }

  /**
   * Classifies one line of the snapshot and parses the node it describes. A
   * line is skipped when it is blank, a comment, or, with its `- ` bullet
   * removed, empty or a bare `/` key; the node's role and name come from its
   * text without attributes and colon, its attributes from its bracket.
   */
  function ParseLine(line: string): (r: Line)
    ensures var content := Strip(line);
      r.Skip? <==> content == "" || "#" <= content ||
                   (!IsUrlContent(content) && (Unbulleted(content) == "" || "/" <= Unbulleted(content)))
    ensures var content := Strip(line);
      r.UrlLine? <==> content != "" && !("#" <= content) && IsUrlContent(content)
    ensures r.UrlLine? ==> r.url == SearchUrl(Strip(line))
    ensures r.NodeLine? ==> r.indent == Indent(line) && r.node.role != "" && r.node.children == []
    ensures r.NodeLine? ==> var c := Unbulleted(Strip(line));
      (r.node.role, r.node.name) == RoleAndName(WithoutColon(WithoutAttrs(c))) && r.node.attrs == LineAttrs(c)
    ensures r.NodeLine? ==> forall k :: k in r.node.attrs ==> !Reserved(k)
  {
    var content := Strip(line);
    if content == "" || "#" <= content then Skip
    else if IsUrlContent(content) then UrlLine(SearchUrl(content))
    else
      var c := Unbulleted(content);
      if c == "" || "/" <= c then Skip
      else
        var (role, name) := RoleAndName(WithoutColon(WithoutAttrs(c)));
        NodeLine(Indent(line), Node(role, name, LineAttrs(c), []))
  }

  // ------------------------------------------------------------- the tree's right-most path

  /** Length of the right-most path below `n`: how often one can step to a last child. */
  function SpineDepth(n: Node): nat
    decreases n
  {
    if n.children == [] then 0 else 1 + SpineDepth(n.children[|n.children| - 1])
  }

  /** The node at the end of the right-most path: the most recently added node. */
  function Last(n: Node): Node
    decreases n
  {
    if n.children == [] then n else Last(n.children[|n.children| - 1])
  }

  /** Appends `c` to the children of the node `d` steps down the right-most path. */
  function AppendAt(n: Node, d: nat, c: Node): Node
    requires d <= SpineDepth(n)
    decreases n
  {
    if d == 0 then n.(children := n.children + [c])
    else
      var k := |n.children| - 1;
      n.(children := n.children[..k] + [AppendAt(n.children[k], d - 1, c)])
  }

  /** Sets the `value` attribute of the node `d` steps down the right-most path. */
  function SetValueAt(n: Node, d: nat, url: string): Node
    requires d <= SpineDepth(n)
    decreases n
  {
    if d == 0 then n.(attrs := n.attrs["value" := Str(url)])
    else
      var k := |n.children| - 1;
      n.(children := n.children[..k] + [SetValueAt(n.children[k], d - 1, url)])
  }

  /** Role and name of every node in pre-order. */
  function Outline(n: Node): seq<(string, string)>
    decreases n
  {
    [(n.role, n.name)] + OutlineSeq(n.children)
  }

  function OutlineSeq(cs: seq<Node>): seq<(string, string)>
    decreases cs
  {
    if cs == [] then [] else Outline(cs[0]) + OutlineSeq(cs[1..])
  }

  lemma {:induction false} OutlineSeqAppend(cs: seq<Node>, c: Node)
    ensures OutlineSeq(cs + [c]) == OutlineSeq(cs) + Outline(c)
    decreases cs
  {
    if cs == [] {
      assert cs + [c] == [c];
    } else {
      assert (cs + [c])[1..] == cs[1..] + [c];
      OutlineSeqAppend(cs[1..], c);
    }
  }

  /** Appending on the right-most path adds the new subtree at the end of the pre-order. */
  lemma {:induction false} AppendAtFacts(n: Node, d: nat, c: Node)
    requires d <= SpineDepth(n)
    ensures Outline(AppendAt(n, d, c)) == Outline(n) + Outline(c)
    ensures SpineDepth(AppendAt(n, d, c)) == d + 1 + SpineDepth(c)
    ensures Last(AppendAt(n, d, c)) == Last(c)
    ensures AppendAt(n, d, c).role == n.role && AppendAt(n, d, c).name == n.name
    decreases n
  {
    var k := |n.children| - 1;
    var head := [(n.role, n.name)];
    if d == 0 {
      OutlineSeqAppend(n.children, c);
      ConcatAssoc(head, OutlineSeq(n.children), Outline(c));
    } else {
      var init := n.children[..k];
      var last := n.children[k];
      var last' := AppendAt(last, d - 1, c);
      AppendAtFacts(last, d - 1, c);
      assert AppendAt(n, d, c).children == init + [last'];
      OutlineSeqAppend(init, last');
      assert n.children == init + [last];
      OutlineSeqAppend(init, last);
      ConcatAssoc(OutlineSeq(init), Outline(last), Outline(c));
      ConcatAssoc(head, OutlineSeq(init) + Outline(last), Outline(c));
    }
  }

  /** Setting the value at the end of the right-most path changes only that node's attributes. */
  lemma {:induction false} SetValueAtFacts(n: Node, url: string)
    ensures Outline(SetValueAt(n, SpineDepth(n), url)) == Outline(n)
    ensures SpineDepth(SetValueAt(n, SpineDepth(n), url)) == SpineDepth(n)
    ensures Last(SetValueAt(n, SpineDepth(n), url)) == Last(n).(attrs := Last(n).attrs["value" := Str(url)])
    ensures SetValueAt(n, SpineDepth(n), url).role == n.role && SetValueAt(n, SpineDepth(n), url).name == n.name
    decreases n
  {
    if n.children != [] {
      var k := |n.children| - 1;
      var init := n.children[..k];
      SetValueAtFacts(n.children[k], url);
      OutlineSeqAppend(init, SetValueAt(n.children[k], SpineDepth(n) - 1, url));
      OutlineSeqAppend(init, n.children[k]);
      assert n.children == init + [n.children[k]];
    }
  }

  // ------------------------------------------------------------- the stack

  /** The parser's state: the tree, and the indents of the stack from the root (`-2`) up. */
  datatype Builder = Builder(root: Node, indents: seq<int>)

  predicate Increasing(s: seq<int>) {
    forall i, j :: 0 <= i < j < |s| ==> s[i] < s[j]
  }

  /** The stack is the right-most path of a tree rooted at `root`, with increasing indents. */
  predicate Valid(b: Builder) {
    |b.indents| >= 1 && b.indents[0] == -2 && Increasing(b.indents) &&
    |b.indents| - 1 == SpineDepth(b.root) &&
    b.root.role == "root" && b.root.name == ""
  }

  const Root := Node("root", "", map[], [])

  const Start := Builder(Root, [-2])

  /** Pops entries whose indent is not smaller than `indent`, always keeping the root. */
  function PopTo(indents: seq<int>, indent: int): (r: seq<int>)
    requires |indents| >= 1
    ensures 1 <= |r| <= |indents| && r == indents[..|r|]
    ensures Increasing(indents) && indents[0] < indent ==>
              (forall i :: 0 <= i < |r| ==> indents[i] < indent) &&
              (forall i :: |r| <= i < |indents| ==> indents[i] >= indent)
    decreases |indents|
  {
    if |indents| > 1 && indents[|indents| - 1] >= indent then
      var r := PopTo(indents[..|indents| - 1], indent);
      assert Increasing(indents) ==> Increasing(indents[..|indents| - 1]);
      r
    else indents
  }

  /** A parsed line whose node, if any, has no children yet. */
  predicate Leaf(l: Line) {
    l.NodeLine? ==> l.node.children == []
  }

  /** One iteration of the parser's loop, on the line already parsed. */
  function Step(b: Builder, l: Line): (r: Builder)
    requires Valid(b) && Leaf(l)
    ensures Valid(r)
  {
    match l
    case Skip => b
    case UrlLine(None) => b
    case UrlLine(Some(u)) =>
      SetValueAtFacts(b.root, u);
      b.(root := SetValueAt(b.root, SpineDepth(b.root), u))
    case NodeLine(indent, node) =>
      var kept := PopTo(b.indents, indent);
      AppendAtFacts(b.root, |kept| - 1, node);
      var r := Builder(AppendAt(b.root, |kept| - 1, node), kept + [indent]);
      assert Increasing(r.indents) by {
        forall i, j | 0 <= i < j < |r.indents| ensures r.indents[i] < r.indents[j] {
          if j == |kept| {
            assert r.indents[i] == kept[i] == b.indents[i];
          } else {
            assert r.indents[i] == b.indents[i] && r.indents[j] == b.indents[j];
          }
        }
      }
      r
  }

  predicate AllLeaves(ls: seq<Line>) {
    forall i :: 0 <= i < |ls| ==> Leaf(ls[i])
  }

  /**
   * The loop over all lines. The tree's pre-order outline grows by exactly the
   * nodes of the node lines, in the order they appear.
   */
  function Run(ls: seq<Line>, b: Builder): (r: Builder)
    requires Valid(b) && AllLeaves(ls)
    ensures Valid(r)
    ensures Outline(r.root) == Outline(b.root) + NodeOutline(ls)
    decreases |ls|
  {
    if ls == [] then b
    else
      var rest := ls[1..];
      assert forall i :: 0 <= i < |rest| ==> rest[i] == ls[i + 1];
      var next := Step(b, ls[0]);
      var r := Run(rest, next);
      StepOutline(b, ls[0]);
      NodeOutlineCons(ls);
      ConcatAssoc(Outline(b.root), NodeOutline([ls[0]]), NodeOutline(rest));
      r
  }

  /** Running one more line is one more step after the run. */
  lemma {:induction false} RunSnoc(ls: seq<Line>, l: Line, b: Builder)
    requires Valid(b) && AllLeaves(ls) && Leaf(l)
    ensures AllLeaves(ls + [l])
    ensures Run(ls + [l], b) == Step(Run(ls, b), l)
    decreases |ls|
  {
    var ext := ls + [l];
    assert forall i :: 0 <= i < |ext| ==> ext[i] == if i < |ls| then ls[i] else l;
    if ls == [] {
      assert ext == [l] && ext[1..] == [];
    } else {
      assert ext[0] == ls[0] && ext[1..] == ls[1..] + [l];
      assert forall i :: 0 <= i < |ls[1..]| ==> ls[1..][i] == ls[i + 1];
      RunSnoc(ls[1..], l, Step(b, ls[0]));
    }
  }

  /** Every line of the text, parsed on its own. */
  function ParseLines(lines: seq<string>): (r: seq<Line>)
    ensures |r| == |lines| && AllLeaves(r)
    ensures forall i :: 0 <= i < |lines| ==> r[i] == ParseLine(lines[i])
  {
    seq(|lines|, i requires 0 <= i < |lines| => ParseLine(lines[i]))
  }

  /** The lines of the snapshot: the stripped text split at newlines. */
  function SnapshotLines(yaml: string): seq<Line> {
    ParseLines(Split(Strip(yaml), '\n'))
  }

  /** `_parse_yaml_snapshot`: strip the text, split it into lines, and build the tree. */
  function ParseYamlSnapshot(yaml: string): (r: Node)
    ensures r.role == "root" && r.name == ""
  {
    Run(SnapshotLines(yaml), Start).root
  }

  /** Role and name of a node line; nothing for other lines. */
  function LineOutline(l: Line): seq<(string, string)> {
    match l
    case NodeLine(_, node) => [(node.role, node.name)]
    case _ => []
  }

  /** Role and name of each node line, in order. */
  function NodeOutline(ls: seq<Line>): seq<(string, string)>
    decreases |ls|
  {
    if ls == [] then [] else LineOutline(ls[0]) + NodeOutline(ls[1..])
  }

  // ------------------------------------------------------------- properties

  /** A node line adds its node at the end of the pre-order; other lines leave the outline alone. */
  lemma StepOutline(b: Builder, l: Line)
    requires Valid(b) && Leaf(l)
    ensures Outline(Step(b, l).root) == Outline(b.root) + NodeOutline([l])
  {
    match l
    case Skip =>
    case UrlLine(None) =>
    case UrlLine(Some(u)) =>
      SetValueAtFacts(b.root, u);
    case NodeLine(indent, node) =>
      var kept := PopTo(b.indents, indent);
      AppendAtFacts(b.root, |kept| - 1, node);
      assert Outline(node) == [(node.role, node.name)];
  }

  lemma NodeOutlineCons(ls: seq<Line>)
    requires ls != []
    ensures NodeOutline(ls) == NodeOutline([ls[0]]) + NodeOutline(ls[1..])
  {
    var one := [ls[0]];
    assert one[0] == ls[0] && one[1..] == [];
    assert NodeOutline(one) == LineOutline(ls[0]);
  }

  /** Every node line becomes exactly one node, and the tree lists them in the order they appear. */
  lemma ParseOutline(yaml: string)
    ensures Outline(ParseYamlSnapshot(yaml)) == [("root", "")] + NodeOutline(SnapshotLines(yaml))
  {
    BuildOutline(SnapshotLines(yaml));
  }

  lemma BuildOutline(ls: seq<Line>)
    requires AllLeaves(ls)
    ensures Outline(Run(ls, Start).root) == [("root", "")] + NodeOutline(ls)
  {
    assert OutlineSeq(Root.children) == [];
  }

  /**
   * A node is nested under exactly the open nodes whose indent is smaller: its
   * depth below the root is the number of stack entries with a smaller indent,
   * and it becomes the most recent node.
   */
  lemma StepNesting(b: Builder, indent: nat, node: Node)
    requires Valid(b) && node.children == []
    ensures var d := SpineDepth(Step(b, NodeLine(indent, node)).root);
      1 <= d <= |b.indents| &&
      (forall i :: 0 <= i < d ==> b.indents[i] < indent) &&
      (forall i :: d <= i < |b.indents| ==> b.indents[i] >= indent)
    ensures Last(Step(b, NodeLine(indent, node)).root) == node
  {
    var kept := PopTo(b.indents, indent);
    AppendAtFacts(b.root, |kept| - 1, node);
  }

  /** A `/url:` line sets the `value` of the most recent node (the root when there is none). */
  lemma StepUrl(b: Builder, u: string)
    requires Valid(b)
    ensures Last(Step(b, UrlLine(Some(u))).root) == Last(b.root).(attrs := Last(b.root).attrs["value" := Str(u)])
  {
    SetValueAtFacts(b.root, u);
  }

  /** `role "name"` parses back to its role and name: the partner of `NameMatch`'s postcondition. */
  lemma NameMatchOf(role: string, ws: string, name: string)
    requires QuotedNameParts(role, ws, name)
    ensures NameMatch(role + ws + "\"" + name + "\"") == Some((role, name))
  {
    var c := role + ws + "\"" + name + "\"";
    var i, j := |role|, |role| + |ws|;
    NameLayout(role, ws, name);
    SpanFromStops(c, 0, NotSpace, i);
    SpanFromStops(c, i, IsSpace, j);
  }

  /** Where the parts of `role ws "name"` sit in the concatenation. */
  lemma NameLayout(role: string, ws: string, name: string)
    requires ws != []
    ensures var c := role + ws + "\"" + name + "\"";
      |c| == |role| + |ws| + |name| + 2 &&
      (forall k :: 0 <= k < |role| ==> c[k] == role[k]) &&
      (forall k :: |role| <= k < |role| + |ws| ==> c[k] == ws[k - |role|]) &&
      c[|role|] == ws[0] && c[|role| + |ws|] == '"' && c[|c| - 1] == '"' &&
      c[..|role|] == role && c[|role| + |ws| + 1..|c| - 1] == name
  {
    var c := role + ws + "\"" + name + "\"";
    var q := "\"" + name + "\"";
    ConcatAssoc(role + ws, "\"" + name, "\"");
    ConcatAssoc(role + ws, "\"", name);
    assert c == (role + ws) + q;
    assert q[1..|q| - 1] == name;
    assert c[|role| + |ws|..] == q;
  }

  /** An indented, bulleted line strips to its bullet and text, and its indent is the indentation's length. */
  lemma BulletLine(indent: string, c: string)
    requires forall i :: 0 <= i < |indent| ==> IsSpace(indent[i])
    requires c != [] && !IsSpace(c[|c| - 1])
    ensures Strip(indent + "- " + c) == "- " + c
    ensures Indent(indent + "- " + c) == |indent|
  {
    var content := "- " + c;
    assert indent + "- " + c == indent + content;
    TrimLeftSpaces(indent, content);
    assert TrimLeft(content, IsSpace) == content;
    StripByNoop(content, IsSpace);
  }

  /** Text that does not end in `]` has no attribute bracket. */
  lemma NoAttrBracket(c: string)
    requires c != [] && c[|c| - 1] != ']'
    ensures WithoutAttrs(c) == c && LineAttrs(c) == map[]
  {
    assert FindAttrOpen(c, 0).None?;
  }

  /** Text that starts with a colon-free role followed by whitespace or its end is not a `text:` line. */
  lemma NotTextLine(role: string, c: string)
    requires role != [] && ':' !in role && role <= c
    requires |c| > |role| ==> IsSpace(c[|role|])
    ensures !("text:" <= c)
  {
    if |role| > 4 {
      assert c[4] == role[4] != ':';
    } else if |c| > |role| {
      assert c[|role|] != "text:"[|role|];
    }
  }

  /**
   * A bulleted line whose text has no bracket and no trailing colon is a node
   * whose role and name are read from that text, at the line's indentation.
   */
  lemma PlainNodeLine(indent: string, c: string)
    requires forall i :: 0 <= i < |indent| ==> IsSpace(indent[i])
    requires c != [] && c[0] != '/' && !IsSpace(c[|c| - 1]) && c[|c| - 1] != ']' && c[|c| - 1] != ':'
    ensures ParseLine(indent + "- " + c) == NodeLine(|indent|, Node(RoleAndName(c).0, RoleAndName(c).1, map[], []))
  {
    var line := indent + "- " + c;
    BulletLine(indent, c);
    var content := "- " + c;
    assert content[2..] == c && Unbulleted(content) == c;
    assert content[0] == '-' && content[2] == c[0];
    assert content != "" && !("#" <= content) && !IsUrlContent(content);
    assert c != "" && !("/" <= c);
    NoAttrBracket(c);
    assert WithoutColon(WithoutAttrs(c)) == c;
    assert ParseLine(line) == NodeLine(Indent(line), Node(RoleAndName(c).0, RoleAndName(c).1, LineAttrs(c), []));
  }

  /** A bulleted `role "name"` line parses back to its node, at its indentation. */
  lemma NamedNodeLineOf(indent: string, role: string, ws: string, name: string)
    requires forall i :: 0 <= i < |indent| ==> IsSpace(indent[i])
    requires QuotedNameParts(role, ws, name) && role[0] != '/' && ':' !in role
    ensures var c := role + ws + "\"" + name + "\"";
      ParseLine(indent + "- " + c) == NodeLine(|indent|, Node(role, name, map[], []))
  {
    var c := role + ws + "\"" + name + "\"";
    NameLayout(role, ws, name);
    PlainNodeLine(indent, c);
    NotTextLine(role, c);
    NameMatchOf(role, ws, name);
  }

  /** A bulleted bare role parses back to a node with that role and no name. */
  lemma BareRoleLineOf(indent: string, role: string)
    requires forall i :: 0 <= i < |indent| ==> IsSpace(indent[i])
    requires role != [] && role[0] != '/' && ':' !in role && ']' !in role
    requires forall i :: 0 <= i < |role| ==> !IsSpace(role[i])
    ensures ParseLine(indent + "- " + role) == NodeLine(|indent|, Node(role, "", map[], []))
  {
    PlainNodeLine(indent, role);
    NotTextLine(role, role);
    assert SpanFrom(role, 0, NotSpace) == |role|;
  }

  /** Lines that are all skipped leave the parser's state as it was. */
  lemma {:induction false} RunSkips(ls: seq<Line>, b: Builder)
    requires Valid(b) && forall i :: 0 <= i < |ls| ==> ls[i] == Skip
    ensures Run(ls, b) == b
    decreases |ls|
  {
    if ls != [] {
      assert forall i :: 0 <= i < |ls[1..]| ==> ls[1..][i] == ls[i + 1];
      RunSkips(ls[1..], b);
    }
  }

  /** A snapshot of blank and comment lines only, the empty one included, is the bare root. */
  lemma OnlyCommentsIsRoot(yaml: string)
    requires forall l :: l in Split(Strip(yaml), '\n') ==> Strip(l) == "" || "#" <= Strip(l)
    ensures ParseYamlSnapshot(yaml) == Node("root", "", map[], [])
  {
    var lines := Split(Strip(yaml), '\n');
    var ls := SnapshotLines(yaml);
    forall i | 0 <= i < |ls| ensures ls[i] == Skip {
      assert lines[i] in lines;
    }
    RunSkips(ls, Start);
  }

  /** `/url:`, whitespace and a quoted URL match at the position of `/url:`, capturing the URL. */
  lemma UrlMatchAtOf(pre: string, ws: string, u: string)
    requires forall i :: 0 <= i < |ws| ==> IsSpace(ws[i])
    requires u != [] && '"' !in u
    ensures UrlMatchAt(pre + "/url:" + ws + "\"" + u + "\"", |pre|) == Some(u)
  {
    var c := pre + "/url:" + ws + "\"" + u + "\"";
    assert c[|pre|..] == "/url:" + ws + "\"" + u + "\"";
    UrlMatchPrefixOf(ws, u);
  }

  /** A `/url:`, whitespace and a quoted value at the start of a string match and yield the value. */
  lemma UrlMatchPrefixOf(ws: string, u: string)
    requires forall i :: 0 <= i < |ws| ==> IsSpace(ws[i])
    requires u != [] && '"' !in u
    ensures UrlMatchPrefix("/url:" + ws + "\"" + u + "\"") == Some(u)
  {
    var quoted := "\"" + u + "\"";
    var t := "/url:" + ws + quoted;
    assert "/url:" + ws + "\"" + u + "\"" == t;
    assert t[..5] == "/url:";
    assert t[5..] == ws + quoted;
    TrimLeftSpaces(ws, quoted);
    QuotedValue(u);
  }

  /** After the opening quote, the first quote closes a quote-free value. */
  lemma QuotedValue(u: string)
    requires u != [] && '"' !in u
    ensures var tail := ("\"" + u + "\"")[1..]; IndexOf(tail, '"') == Some(|u|) && tail[..|u|] == u
  {
    assert ("\"" + u + "\"")[1..] == u + "\"";
    IndexOfAfter(u, '"');
    assert (u + "\"")[..|u|] == u;
  }

  /** Leading whitespace is all `lstrip` removes when the rest starts with something else. */
  lemma {:induction false} TrimLeftSpaces(ws: string, x: string)
    requires forall i :: 0 <= i < |ws| ==> IsSpace(ws[i])
    requires x != [] && !IsSpace(x[0])
    ensures TrimLeft(ws + x, IsSpace) == x
    decreases |ws|
  {
    var c := ws + x;
    if ws == [] {
      assert c == x;
      assert !IsSpace(c[0]);
    } else {
      var rest := ws[1..];
      assert forall i :: 0 <= i < |rest| ==> rest[i] == ws[i + 1];
      assert c[0] == ws[0] && IsSpace(c[0]);
      assert c[1..] == rest + x;
      assert TrimLeft(c, IsSpace) == TrimLeft(rest + x, IsSpace);
      TrimLeftSpaces(rest, x);
    }
  }

  /**
   * The URL of a line such as `- /url: "#!/overview"` is read back whole: the
   * search finds the first `/url:` when nothing before it is a `/`.
   */
  lemma UrlOfUrlLine(pre: string, ws: string, u: string)
    requires '/' !in pre
    requires forall i :: 0 <= i < |ws| ==> IsSpace(ws[i])
    requires u != [] && '"' !in u
    ensures SearchUrl(pre + "/url:" + ws + "\"" + u + "\"") == Some(u)
  {
    var c := pre + "/url:" + ws + "\"" + u + "\"";
    var ms := UrlMatches(c);
    UrlMatchAtOf(pre, ws, u);
    forall q | 0 <= q < |pre| ensures ms[q].None? {
      assert c[q] == pre[q];
      NoUrlMatchAt(c, q);
    }
    FirstMatchIs(ms, 0, |pre|);
  }

  /** No match can start at a character other than `/`. */
  lemma NoUrlMatchAt(c: string, p: nat)
    requires p < |c| && c[p] != '/'
    ensures UrlMatchAt(c, p).None?
  {
    assert c[p..][0] == c[p];
    assert !("/url:" <= c[p..]);
  }

  /** The first position that matches, with none before it, is the one the search finds. */
  lemma FirstMatchIs(ms: seq<Option<string>>, p: nat, q: nat)
    requires p <= q < |ms| && ms[q].Some?
    requires forall q' :: p <= q' < q ==> ms[q'].None?
    ensures FirstMatch(ms, p) == Some(q)
  {
  }

  /** The first `c` in `s + [c]` is the appended one when `s` has none. */
  lemma IndexOfAfter(s: string, c: char)
    requires c !in s
    ensures IndexOf(s + [c], c) == Some(|s|)
  {
    var t := s + [c];
    assert t[|s|] == c && t[..|s|] == s;
  }

  /** A run that ends where `p` first fails is found by `SpanFrom`. */
  lemma SpanFromStops(c: string, i: nat, p: char -> bool, j: nat)
    requires i <= j < |c| && !p(c[j]) && forall k :: i <= k < j ==> p(c[k])
    ensures SpanFrom(c, i, p) == j
    decreases j - i
  {
    if i < j {
      SpanFromStops(c, i + 1, p, j);
    }
  }

  /** A printed attribute value parses back to itself, unless the text reads as a boolean or a number. */
  lemma AttrValueRoundTrip(v: Value)
    requires v.Int? ==> v.i >= 0
    requires v.Str? ==> Lower(v.s) != "true" && Lower(v.s) != "false" && !IsDigits(v.s)
    ensures ParseAttrValue(Format(v)) == v
  {
    match v
    case Bool(b) =>
      assert Lower("True") == "true" && Lower("False") == "false";
    case Int(i) =>
      var t := NatToString(i);
      assert Format(v) == t;
      DigitsValueOfNatToString(i);
      assert Lower(t)[0] == t[0] && IsDigit(t[0]);
    case Str(t) =>
  }

  /** The loop of `_parse_yaml_snapshot` over the parsed lines, keeping the stack as it goes. */
  method BuildTree(ls: seq<Line>) returns (tree: Node)
    requires AllLeaves(ls)
    ensures tree == Run(ls, Start).root
    ensures tree.role == "root" && tree.name == ""
    ensures Outline(tree) == [("root", "")] + NodeOutline(ls)
  {
    var b := Start;
    var i := 0;
    assert OutlineSeq(Root.children) == [];
    assert ls[..0] == [];
    while i < |ls|
      invariant 0 <= i <= |ls| && Valid(b)
      invariant AllLeaves(ls[..i]) && b == Run(ls[..i], Start)
      invariant Outline(b.root) == [("root", "")] + NodeOutline(ls[..i])
    {
      StepOutline(b, ls[i]);
      NodeOutlineAppend(ls[..i], ls[i]);
      assert ls[..i + 1] == ls[..i] + [ls[i]];
      RunSnoc(ls[..i], ls[i], Start);
      ConcatAssoc([("root", "")], NodeOutline(ls[..i]), NodeOutline([ls[i]]));
      b := Step(b, ls[i]);
      i := i + 1;
    }
    assert ls[..i] == ls;
    tree := b.root;
  }

  lemma {:induction false} NodeOutlineAppend(ls: seq<Line>, l: Line)
    ensures NodeOutline(ls + [l]) == NodeOutline(ls) + NodeOutline([l])
    decreases |ls|
  {
    if ls != [] {
      assert (ls + [l])[1..] == ls[1..] + [l];
      NodeOutlineAppend(ls[1..], l);
    } else {
      assert ls + [l] == [l];
    }
  }
}
