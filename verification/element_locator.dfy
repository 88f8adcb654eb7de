/**
 * The element locator: a descriptor maps strategy names to values, each
 * strategy turns its value into a page query, and the first query in priority
 * order that matches at least one element wins. The page is a count oracle;
 * a count that raises is skipped like a count of zero.
 */
module ElementLocator {
  import opened Wrappers
  import opened Strings

  /** The order strategies are tried in, most resilient first. */
  const StrategyPriority: seq<string> := ["role", "label", "text", "name", "placeholder", "href"]

  /** The page queries the strategies build. */
  datatype Query =
    | GetByRole(role: string, name: Option<string>)
    | GetByLabel(labelText: string)
    | GetByText(text: string)
    | GetByPlaceholder(placeholder: string)
    | Css(selector: string)

  /** What asking the page for a query's element count yields. */
  datatype Outcome = Count(n: nat) | Raised

  type Page = Query -> Outcome

  /** No whitespace at either end: what `str.strip()` leaves alone. */
  predicate Stripped(s: string) {
    s != [] ==> !IsSpace(s[0]) && !IsSpace(s[|s| - 1])
  }

  /** The role query for a role and an optional name; an empty name is not passed. */
  function RoleQuery(role: string, name: Option<string>): (q: Query)
    ensures q.GetByRole? && q.role == role && q.name != Some("")
    ensures q.name.Some? ==> q.name == name
  {
    if name.Some? && name.value != "" then GetByRole(role, name) else GetByRole(role, None)
  }

  /**
   * The `role` strategy's value: `role` or `role:name`, split at the first colon
   * with both halves stripped; the name is passed only when non-empty.
   */
  function ParseRoleValue(value: string): (q: Query)
    ensures q.GetByRole? && q.name != Some("") && Stripped(q.role)
    ensures ':' !in value ==> q == GetByRole(Strip(value), None)
    ensures q.name.Some? ==> ':' in value && Stripped(q.name.value)
  {
    var sp := SplitOnce(value, ':');
    var role := Strip(sp.0);
    var name := if sp.1.Some? then Some(Strip(sp.1.value)) else None;
    assert Stripped(role);
    assert name.Some? ==> ':' in value && Stripped(name.value);
    RoleQuery(role, name)
  }

  /**
   * `_try_strategy`: the query a strategy builds from its value. An unknown
   * strategy falls back to its value as a CSS selector.
   */
  function TryStrategy(strategy: string, value: string): (q: Query)
    ensures strategy == "role" ==> q == ParseRoleValue(value)
    ensures strategy == "label" ==> q == GetByLabel(value)
    ensures strategy == "text" ==> q == GetByText(value)
    ensures strategy == "placeholder" ==> q == GetByPlaceholder(value)
    ensures strategy == "name" ==> q == Css("[name='" + value + "']")
    ensures strategy == "href" ==> q == Css("a[href*='" + value + "']")
    ensures strategy == "name" || strategy == "href" ==> q.Css? && Contains(q.selector, value)
    ensures strategy !in StrategyPriority ==> q == Css(value)
  {
    if strategy == "role" then ParseRoleValue(value)
    else if strategy == "label" then GetByLabel(value)
    else if strategy == "text" then GetByText(value)
    else if strategy == "name" then
      ContainsMiddle("[name='", value, "']");
      Css("[name='" + value + "']")
    else if strategy == "placeholder" then GetByPlaceholder(value)
    else if strategy == "href" then
      ContainsMiddle("a[href*='", value, "']");
      Css("a[href*='" + value + "']")
    else Css(value)
  }

  /** A string occurs inside any string it is the middle of. */
  lemma {:induction false} ContainsMiddle(a: string, m: string, b: string)
    ensures Contains(a + m + b, m)
  {
    if a == [] {
      assert a + m + b == m + b;
    } else {
      assert (a + m + b)[1..] == a[1..] + m + b;
      ContainsMiddle(a[1..], m, b);
    }
  }

  /** The partner of role parsing: `role:name` of stripped parts, with a colon-free role, is read back as written. */
  lemma RoleValueRoundTrip(role: string, name: string)
    requires ':' !in role && Stripped(role)
    requires name != [] && Stripped(name)
    ensures ParseRoleValue(role + ":" + name) == GetByRole(role, Some(name))
  {
    RoleValueOf(role, name);
    StripByNoop(role, IsSpace);
    StripByNoop(name, IsSpace);
  }

  /** A bare role queries the role alone. */
  lemma RoleWithoutName(role: string)
    requires ':' !in role && Stripped(role)
    ensures ParseRoleValue(role) == GetByRole(role, None)
  {
    StripByNoop(role, IsSpace);
  }

  /** So does a role whose name after the colon is all whitespace. */
  lemma RoleWithBlankName(role: string, name: string)
    requires ':' !in role && Stripped(role)
    requires forall i :: 0 <= i < |name| ==> IsSpace(name[i])
    ensures ParseRoleValue(role + ":" + name) == GetByRole(role, None)
  {
    StripAllSpace(name);
    RoleValueOf(role, name);
    StripByNoop(role, IsSpace);
  }

  /** `role:name` with a colon-free role is parsed from its two stripped halves. */
  lemma RoleValueOf(role: string, name: string)
    requires ':' !in role
    ensures ParseRoleValue(role + ":" + name) == RoleQuery(Strip(role), Some(Strip(name)))
  {
    SplitOnceOf(role, ':', name);
  }

  /** The page reports at least one element; a raised count is no match. */
  predicate Found(o: Outcome) {
    o.Count? && o.n > 0
  }

  /** The query the `i`-th priority strategy builds from the descriptor, if the descriptor names it. */
  function Candidates(d: map<string, string>): (cs: seq<Option<Query>>)
    ensures |cs| == |StrategyPriority|
  {
    seq(|StrategyPriority|, i requires 0 <= i < |StrategyPriority| =>
      if StrategyPriority[i] in d then Some(TryStrategy(StrategyPriority[i], d[StrategyPriority[i]])) else None)
  }

  /** The `i`-th candidate exists and its query matches. */
  predicate Hit(cs: seq<Option<Query>>, page: Page, i: nat)
    requires i < |cs|
  {
    cs[i].Some? && Found(page(cs[i].value))
  }

  /** The scan of `locate` from the `i`-th candidate on. */
  function LocateFrom(cs: seq<Option<Query>>, page: Page, i: nat): (r: Option<Query>)
    requires i <= |cs|
    ensures r.None? <==> forall j :: i <= j < |cs| ==> !Hit(cs, page, j)
    ensures r.Some? ==> exists j :: i <= j < |cs| && Hit(cs, page, j) && r == cs[j] &&
                                    forall k :: i <= k < j ==> !Hit(cs, page, k)
    decreases |cs| - i
  {
    if i == |cs| then None
    else if Hit(cs, page, i) then cs[i]
    else LocateFrom(cs, page, i + 1)
  }

  /**
   * `locate`: the query of the first strategy, in priority order, that the
   * descriptor names and that matches at least one element; None when there is none.
   */
  function Locate(d: map<string, string>, page: Page): (r: Option<Query>)
    ensures r.None? <==> forall j :: 0 <= j < |StrategyPriority| ==> !Hit(Candidates(d), page, j)
    ensures r.Some? ==> exists j :: 0 <= j < |StrategyPriority| && Hit(Candidates(d), page, j) &&
                                    StrategyPriority[j] in d &&
                                    r.value == TryStrategy(StrategyPriority[j], d[StrategyPriority[j]]) &&
                                    forall k :: 0 <= k < j ==> !Hit(Candidates(d), page, k)
  {
    LocateFrom(Candidates(d), page, 0)
  }

  /** Conversely, the first candidate that hits is the one returned. */
  lemma LocateFirstHit(d: map<string, string>, page: Page, j: nat)
    requires j < |StrategyPriority| && Hit(Candidates(d), page, j)
    requires forall k :: 0 <= k < j ==> !Hit(Candidates(d), page, k)
    ensures Locate(d, page) == Candidates(d)[j]
  {
  }

  /**
   * Keys outside the priority list are never tried: the CSS fallback of
   * `_try_strategy` is unreachable from `locate`.
   */
  lemma LocateIgnoresOtherKeys(d: map<string, string>, page: Page)
    ensures Locate(d, page) == Locate(map k | k in d && k in StrategyPriority :: d[k], page)
  {
    var d' := map k | k in d && k in StrategyPriority :: d[k];
    forall i | 0 <= i < |StrategyPriority| ensures Candidates(d)[i] == Candidates(d')[i] {
      assert StrategyPriority[i] in StrategyPriority;
    }
    assert Candidates(d) == Candidates(d');
  }

  /** A page whose raising counts are read as zero. */
  function RaisedAsZero(page: Page): Page {
    q => if page(q).Raised? then Count(0) else page(q)
  }

  /** A candidate hits on a page exactly when it hits with raised counts read as zero. */
  lemma HitRaised(cs: seq<Option<Query>>, page: Page, i: nat)
    requires i < |cs|
    ensures Hit(cs, page, i) == Hit(cs, RaisedAsZero(page), i)
  {
    if cs[i].Some? {
      var o := page(cs[i].value);
      assert RaisedAsZero(page)(cs[i].value) == if o.Raised? then Count(0) else o;
    }
  }

  /** The scan depends on the page only through which candidates hit. */
  lemma {:induction false} LocateFromSameHits(cs: seq<Option<Query>>, p1: Page, p2: Page, i: nat)
    requires i <= |cs|
    requires forall j :: i <= j < |cs| ==> Hit(cs, p1, j) == Hit(cs, p2, j)
    ensures LocateFrom(cs, p1, i) == LocateFrom(cs, p2, i)
    decreases |cs| - i
  {
    if i < |cs| && !Hit(cs, p1, i) {
      LocateFromSameHits(cs, p1, p2, i + 1);
    }
  }

  /** A strategy whose count raises is skipped exactly as one that matches nothing. */
  lemma LocateRaisedIsSkipped(d: map<string, string>, page: Page)
    ensures Locate(d, page) == Locate(d, RaisedAsZero(page))
  {
    var cs := Candidates(d);
    forall j | 0 <= j < |cs| ensures Hit(cs, page, j) == Hit(cs, RaisedAsZero(page), j) {
      HitRaised(cs, page, j);
    }
    LocateFromSameHits(cs, page, RaisedAsZero(page), 0);
  }
}
