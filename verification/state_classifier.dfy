/**
 * The rule-based state classifier: it turns a fingerprint into a state type and
 * a human-readable state id (`"V_LOGIN_FORM_EMPTY"`, `"V_ERROR_ADMIN"`, ...).
 *
 * The rules are tried in a fixed priority order; the first that fires decides.
 * Case-insensitive checks lower-case ASCII letters only.
 */
module StateClassifier {
  import opened Wrappers
  import opened Values
  import opened Strings
  import opened AccessibilityTree
  import opened Fingerprints
  import StateFingerprinter

  const LogoutNames: seq<string> := ["log out", "logout", "sign out"]

  const LoginNames: seq<string> := ["login", "log in", "sign in"]

  /** The state types the classifier can return; `Name` is the string the source uses. */
  datatype StateType = Error | Modal | Loading | Dashboard | Admin | List | Page | Form | Success
  {
    function Name(): (r: string)
      ensures r in ["error", "modal", "loading", "dashboard", "admin", "list", "page", "form", "success"]
    {
      match this
      case Error => "error"
      case Modal => "modal"
      case Loading => "loading"
      case Dashboard => "dashboard"
      case Admin => "admin"
      case List => "list"
      case Page => "page"
      case Form => "form"
      case Success => "success"
    }
  }

  /** The `(state_type, state_id)` pair. */
  datatype Classification = Classification(stateType: StateType, stateId: string)

  // ------------------------------------------------------------- state ids

  /** The characters `_normalize_name` removes or turns into `_`. */
  predicate IsSeparator(c: char) {
    c == '/' || c == '#' || c == '!' || c == '-' || c == '.'
  }

  /** No separator and no lower-case letter anywhere. */
  predicate IdChars(s: string) {
    forall i :: 0 <= i < |s| ==> !IsSeparator(s[i]) && !IsLowerAscii(s[i])
  }

  /** A normalized name: non-empty, id characters only, no `_` at either end. */
  predicate Normalized(s: string) {
    s != [] && IdChars(s) && s[0] != '_' && s[|s| - 1] != '_'
  }

  /** The replacement steps of `_normalize_name`: `/`, `-` and `.` become `_`, `#` and `!` go. */
  function ReplaceSeparators(text: string): (r: string)
    ensures forall i :: 0 <= i < |r| ==> !IsSeparator(r[i])
  {
    var a := ReplaceChar(text, '/', "_");
    assert '/' !in a;
    var b := ReplaceChar(a, '#', "");
    assert '/' !in b && '#' !in b;
    var c := ReplaceChar(b, '!', "");
    assert '/' !in c && '#' !in c && '!' !in c;
    var d := ReplaceChar(c, '-', "_");
    assert '/' !in d && '#' !in d && '!' !in d && '-' !in d;
    var e := ReplaceChar(d, '.', "_");
    assert '/' !in e && '#' !in e && '!' !in e && '-' !in e && '.' !in e;
    assert forall i :: 0 <= i < |e| ==> e[i] in e;
    e
  }

  /**
   * `_normalize_name`: `/` becomes `_`, `#` and `!` are dropped, `-` and `.`
   * become `_`, surrounding `_` are stripped and the rest upper-cased;
   * `"UNKNOWN"` when nothing is left.
   */
  function NormalizeName(text: string): (r: string)
    ensures Normalized(r)
  {
    FinishName(ReplaceSeparators(text))
  }

  /** The last steps of `_normalize_name`: strip `_`, upper-case, fall back to `"UNKNOWN"`. */
  function FinishName(replaced: string): (r: string)
    requires forall i :: 0 <= i < |replaced| ==> !IsSeparator(replaced[i])
    ensures Normalized(r)
  {
    var stripped := StripChar(replaced, '_');
    StripCharFacts(replaced, '_');
    UpperKeepsShape(stripped);
    UnknownIsNormalized();
    var upper := Upper(stripped);
    if upper == "" then "UNKNOWN" else upper
  }

  /** Upper-casing keeps separators out and `_` off both ends, and leaves no lower-case letter. */
  lemma UpperKeepsShape(s: string)
    requires forall x :: x in s ==> !IsSeparator(x)
    requires s != [] ==> s[0] != '_' && s[|s| - 1] != '_'
    ensures s != [] ==> Normalized(Upper(s))
  {
    var u := Upper(s);
    forall i | 0 <= i < |u| ensures !IsSeparator(u[i]) && !IsLowerAscii(u[i]) {
      assert s[i] in s;
      UpperCharFacts(s[i]);
    }
    if s != [] {
      UpperCharFacts(s[0]);
      UpperCharFacts(s[|s| - 1]);
    }
  }

  lemma UnknownIsNormalized()
    ensures Normalized("UNKNOWN")
  {
  }

  /** Normalizing a normalized name changes nothing. */
  lemma NormalizedFixpoint(s: string)
    requires Normalized(s)
    ensures NormalizeName(s) == s
  {
    ReplaceCharNoop(s, '/', "_");
    ReplaceCharNoop(s, '#', "");
    ReplaceCharNoop(s, '!', "");
    ReplaceCharNoop(s, '-', "_");
    ReplaceCharNoop(s, '.', "_");
    StripCharNoop(s, '_');
    UpperNoop(s);
  }

  /** `_normalize_name` is idempotent. */
  lemma NormalizeNameIdempotent(text: string)
    ensures NormalizeName(NormalizeName(text)) == NormalizeName(text)
  {
    NormalizedFixpoint(NormalizeName(text));
  }

  /**
   * A two-segment pattern such as `admin/config` becomes its upper-cased
   * segments joined by `_` (`ADMIN_CONFIG`).
   */
  lemma NormalizeTwoSegments(a: string, b: string)
    requires a != [] && b != [] && a[0] != '_' && b[|b| - 1] != '_'
    requires forall x :: x in a ==> !IsSeparator(x)
    requires forall x :: x in b ==> !IsSeparator(x)
    ensures NormalizeName(a + "/" + b) == Upper(a) + "_" + Upper(b)
  {
    var joined := a + "_" + b;
    SlashToUnderscore(a, b);
    assert NormalizeName(a + "/" + b) == NormalizeName(joined);
    JoinedHasNoSeparator(a, b);
    assert joined[0] == a[0] && joined[|joined| - 1] == b[|b| - 1];
    NormalizedFixpointSteps(joined);
    UpperJoin(a, b);
  }

  /** Upper-casing two segments joined by `_` upper-cases each. */
  lemma UpperJoin(a: string, b: string)
    ensures Upper(a + "_" + b) == Upper(a) + "_" + Upper(b)
  {
    UpperAppend(a + "_", b);
    UpperAppend(a, "_");
    assert Upper("_") == "_";
  }

  /** The slash between two separator-free segments is replaced by `_` and nothing else changes. */
  lemma SlashToUnderscore(a: string, b: string)
    requires forall x :: x in a ==> !IsSeparator(x)
    requires forall x :: x in b ==> !IsSeparator(x)
    ensures ReplaceSeparators(a + "/" + b) == ReplaceSeparators(a + "_" + b)
  {
    var joined := a + "_" + b;
    ReplaceCharNoop(a, '/', "_");
    ReplaceCharNoop(b, '/', "_");
    ReplaceCharSplit(a, "/", b, '/', "_");
    assert ReplaceChar("/", '/', "_") == "_";
    assert ReplaceChar(a + "/" + b, '/', "_") == joined;
    assert '/' !in joined;
    ReplaceCharNoop(joined, '/', "_");
  }

  lemma JoinedHasNoSeparator(a: string, b: string)
    requires forall x :: x in a ==> !IsSeparator(x)
    requires forall x :: x in b ==> !IsSeparator(x)
    ensures forall i :: 0 <= i < |a + "_" + b| ==> !IsSeparator((a + "_" + b)[i])
  {
    var joined := a + "_" + b;
    forall i | 0 <= i < |joined| ensures !IsSeparator(joined[i]) {
      if i < |a| {
        assert joined[i] == a[i] && a[i] in a;
      } else if i > |a| {
        assert joined[i] == b[i - |a| - 1] && b[i - |a| - 1] in b;
      }
    }
  }

  /** Replacing in a concatenation replaces in each part. */
  lemma {:induction false} ReplaceCharSplit(a: string, b: string, c: string, from: char, to: string)
    ensures ReplaceChar(a + b + c, from, to) == ReplaceChar(a, from, to) + ReplaceChar(b, from, to) + ReplaceChar(c, from, to)
  {
    ConcatAssoc(a, b, c);
    ReplaceCharAppend(a, b + c, from, to);
    ReplaceCharAppend(b, c, from, to);
    ConcatAssoc(ReplaceChar(a, from, to), ReplaceChar(b, from, to), ReplaceChar(c, from, to));
  }

  lemma {:induction false} ReplaceCharAppend(a: string, b: string, from: char, to: string)
    ensures ReplaceChar(a + b, from, to) == ReplaceChar(a, from, to) + ReplaceChar(b, from, to)
  {
    if a != [] {
      var h := if a[0] == from then to else [a[0]];
      assert (a + b)[0] == a[0] && (a + b)[1..] == a[1..] + b;
      assert ReplaceChar(a + b, from, to) == h + ReplaceChar(a[1..] + b, from, to);
      ReplaceCharAppend(a[1..], b, from, to);
      ConcatAssoc(h, ReplaceChar(a[1..], from, to), ReplaceChar(b, from, to));
    } else {
      assert a + b == b;
    }
  }

  /**
   * A name that needs no replacing and no stripping is only upper-cased.
   */
  lemma NormalizedFixpointSteps(s: string)
    requires s != [] && (forall i :: 0 <= i < |s| ==> !IsSeparator(s[i])) && s[0] != '_' && s[|s| - 1] != '_'
    ensures NormalizeName(s) == Upper(s)
  {
    ReplaceCharNoop(s, '/', "_");
    ReplaceCharNoop(s, '#', "");
    ReplaceCharNoop(s, '!', "");
    ReplaceCharNoop(s, '-', "_");
    ReplaceCharNoop(s, '.', "_");
    StripCharNoop(s, '_');
  }

  /** A state id: `V_` followed by id characters. */
  predicate IsStateId(id: string) {
    |id| > 2 && id[..2] == "V_" && IdChars(id)
  }

  /** `prefix + _normalize_name(...)` for a prefix made of id characters. */
  lemma PrefixedId(prefix: string, name: string)
    requires |prefix| >= 2 && prefix[..2] == "V_" && IdChars(prefix) && Normalized(name)
    ensures IsStateId(prefix + name)
  {
    var id := prefix + name;
    assert id[..2] == prefix[..2];
    forall i | 0 <= i < |id| ensures !IsSeparator(id[i]) && !IsLowerAscii(id[i]) {
      if i >= |prefix| {
        assert id[i] == name[i - |prefix|];
      }
    }
  }

  // ------------------------------------------------------------- signals

  /** What the rules read from a fingerprint. The title is lower-cased; the URL pattern is not. */
  datatype Signals = Signals(url: string, title: string, landmarks: seq<string>, buttons: seq<Element>, links: seq<Element>)

  function SignalsOf(fp: Fingerprint): (s: Signals)
    ensures s.url == fp.urlPattern && s.title == Lower(fp.title)
    ensures s.landmarks == if fp.a11y.Some? then fp.a11y.value.landmarkRoles else []
    ensures s.buttons == if fp.actionables.Some? then fp.actionables.value.buttons else []
    ensures s.links == if fp.actionables.Some? then fp.actionables.value.links else []
  {
    var landmarks := match fp.a11y case Some(t) => t.landmarkRoles case None => [];
    var acts := fp.actionables.GetOr(NoActionables);
    Signals(fp.urlPattern, Lower(fp.title), landmarks, acts.buttons, acts.links)
  }

  /** Some element's lower-cased name is one of `names`. */
  predicate AnyNamed(l: seq<Element>, names: seq<string>) {
    exists i :: 0 <= i < |l| && Lower(l[i].name) in names
  }

  predicate HasLogout(s: Signals) {
    AnyNamed(s.buttons, LogoutNames) || AnyNamed(s.links, LogoutNames)
  }

  predicate HasLoginButton(s: Signals) {
    AnyNamed(s.buttons, LoginNames)
  }

  predicate HasForm(s: Signals) {
    "form" in s.landmarks
  }

  /** Some "button" entry has the role `table`. */
  predicate HasTable(s: Signals) {
    exists i :: 0 <= i < |s.buttons| && s.buttons[i].role == "table"
  }

  predicate HasDialog(s: Signals) {
    exists i :: 0 <= i < |s.buttons| && s.buttons[i].role == "dialog"
  }

  /** An error banner, or `error` in the lower-cased pattern or the title. */
  predicate ErrorSignal(s: Signals) {
    "alert" in s.landmarks || Contains(Lower(s.url), "error") || Contains(s.title, "error")
  }

  /** An error state is a login error when `login` is in the lower-cased pattern or the title. */
  predicate LoginErrorContext(s: Signals) {
    Contains(Lower(s.url), "login") || Contains(s.title, "login")
  }

  predicate IsLoadingButton(e: Element) {
    Truthy(e.ariaStates.disabled) && Contains(Lower(e.name), "load")
  }

  predicate LoadingSignal(s: Signals) {
    (exists i :: 0 <= i < |s.buttons| && IsLoadingButton(s.buttons[i])) || Contains(Lower(s.url), "loading")
  }

  /** A logout control and a navigation landmark: the user is logged in. */
  predicate LoggedIn(s: Signals) {
    HasLogout(s) && "navigation" in s.landmarks
  }

  predicate LoginFormSignal(s: Signals) {
    (HasForm(s) || Contains(s.url, "login") || Contains(s.title, "login")) && HasLoginButton(s) && !HasLogout(s)
  }

  predicate DashboardSignal(s: Signals) {
    "main" in s.landmarks && (Contains(s.url, "dashboard") || Contains(s.title, "dashboard") || Contains(s.url, "overview"))
  }

  /** Rule 1 fires: an error signal on anything but a login form. */
  predicate IsErrorState(s: Signals) {
    ErrorSignal(s) && !(HasForm(s) && HasLoginButton(s))
  }

  /** The special case of rule 4: the URL pattern or the title mentions the overview. */
  predicate OverviewSignal(s: Signals) {
    Contains(s.url, "overview") || Contains(s.title, "overview")
  }

  // ------------------------------------------------------------- the rules

  /** Rule 4: a logged-in page, named after its URL pattern unless it is the overview. */
  function LoggedInClassification(s: Signals): (r: Classification)
    ensures IsStateId(r.stateId)
    ensures r.stateType in {Dashboard, Admin, List, Page}
    ensures r.stateType == Dashboard <==> OverviewSignal(s)
    ensures r.stateType == Dashboard ==> r.stateId == "V_OVERVIEW_PAGE"
    ensures r.stateType == Admin ==> Contains(s.url, "admin")
    ensures r.stateType != Dashboard ==> r.stateId == PatternId(Page, s.url)
  {
    if OverviewSignal(s) then
      OverviewPageIsStateId();
      Classification(Dashboard, "V_OVERVIEW_PAGE")
    else
      var id := PatternId(Page, s.url);
      PatternIdIsStateId(Page, s.url);
      if Contains(s.url, "admin") then Classification(Admin, id)
      else if Contains(s.url, "list") || HasTable(s) then Classification(List, id)
      else Classification(Page, id)
  }

  /** The rules of `classify_state`, in the order they are tried. */
  datatype Rule = ErrorRule | ModalRule | LoadingRule | LoggedInRule | LoginFormRule
                | DashboardRule | NavListRule | SuccessRule | DefaultRule

  function Rank(q: Rule): nat {
    match q
    case ErrorRule => 0
    case ModalRule => 1
    case LoadingRule => 2
    case LoggedInRule => 3
    case LoginFormRule => 4
    case DashboardRule => 5
    case NavListRule => 6
    case SuccessRule => 7
    case DefaultRule => 8
  }

  /** The condition under which each rule fires on its own. */
  predicate Fires(q: Rule, s: Signals) {
    match q
    case ErrorRule => IsErrorState(s)
    case ModalRule => HasDialog(s)
    case LoadingRule => LoadingSignal(s)
    case LoggedInRule => LoggedIn(s)
    case LoginFormRule => LoginFormSignal(s)
    case DashboardRule => DashboardSignal(s)
    case NavListRule => "navigation" in s.landmarks && HasTable(s)
    case SuccessRule => "status" in s.landmarks
    case DefaultRule => true
  }

  /** The rule that decides: it fires, and no earlier rule does. */
  function FiringRule(s: Signals): (r: Rule)
    ensures Fires(r, s)
    ensures forall q :: Rank(q) < Rank(r) ==> !Fires(q, s)
  {
    if IsErrorState(s) then ErrorRule
    else if HasDialog(s) then ModalRule
    else if LoadingSignal(s) then LoadingRule
    else if LoggedIn(s) then LoggedInRule
    else if LoginFormSignal(s) then LoginFormRule
    else if DashboardSignal(s) then DashboardRule
    else if "navigation" in s.landmarks && HasTable(s) then NavListRule
    else if "status" in s.landmarks then SuccessRule
    else DefaultRule
  }

  /** The first firing rule is unique: any rule that fires with no earlier one firing is it. */
  lemma FiringRuleUnique(s: Signals, q: Rule)
    requires Fires(q, s) && forall p :: Rank(p) < Rank(q) ==> !Fires(p, s)
    ensures FiringRule(s) == q
  {
    var r := FiringRule(s);
    assert Rank(r) == Rank(q) by {
      assert !(Rank(q) < Rank(r)) && !(Rank(r) < Rank(q));
    }
  }

  /** `classify_state` on the signals: the firing rule decides the type and the id. */
  function ClassifySignals(s: Signals): (r: Classification)
    ensures IsStateId(r.stateId)
    ensures r.stateType == Error <==> IsErrorState(s)
    ensures r.stateType == Modal <==> !IsErrorState(s) && HasDialog(s)
    ensures r.stateType == Loading <==> !IsErrorState(s) && !HasDialog(s) && LoadingSignal(s)
    ensures r.stateType == Error ==>
      r.stateId == (if LoginErrorContext(s) then "V_LOGIN_FORM_ERROR" else PatternId(Error, s.url))
    ensures (r.stateType == Dashboard && r.stateId == "V_OVERVIEW_PAGE") <==>
      !IsErrorState(s) && !HasDialog(s) && !LoadingSignal(s) && LoggedIn(s) && OverviewSignal(s)
  {
    match FiringRule(s)
    case ErrorRule =>
      if LoginErrorContext(s) then
        LoginFormErrorIsStateId();
        Classification(Error, "V_LOGIN_FORM_ERROR")
      else
        PatternIdIsStateId(Error, s.url);
        Classification(Error, PatternId(Error, s.url))
    case ModalRule =>
      PatternIdIsStateId(Modal, s.url);
      Classification(Modal, PatternId(Modal, s.url))
    case LoadingRule =>
      PatternIdIsStateId(Loading, s.url);
      Classification(Loading, PatternId(Loading, s.url))
    case LoggedInRule => LoggedInClassification(s)
    case LoginFormRule =>
      LoginFormEmptyIsStateId();
      Classification(Form, "V_LOGIN_FORM_EMPTY")
    case DashboardRule =>
      DashboardLoadedIsStateId();
      Classification(Dashboard, "V_DASHBOARD_LOADED")
    case NavListRule =>
      PatternIdIsStateId(List, s.url);
      Classification(List, PatternId(List, s.url))
    case SuccessRule =>
      PatternIdIsStateId(Success, s.url);
      Classification(Success, PatternId(Success, s.url))
    case DefaultRule =>
      PatternIdIsStateId(Page, s.url);
      Classification(Page, PatternId(Page, s.url))
  }

  /** The prefix of an id built from the URL pattern: `V_ERROR_`, `V_MODAL_`, ... or plain `V_`. */
  function IdPrefix(t: StateType): string {
    match t
    case Error => "V_ERROR_"
    case Modal => "V_MODAL_"
    case Loading => "V_LOADING_"
    case List => "V_LIST_"
    case Success => "V_SUCCESS_"
    case _ => "V_"
  }

  /** The id of a state named after its URL pattern. */
  function PatternId(t: StateType, url: string): string {
    IdPrefix(t) + NormalizeName(url)
  }

  /** Every pattern id is a state id. */
  lemma PatternIdIsStateId(t: StateType, url: string)
    ensures IsStateId(PatternId(t, url))
  {
    var p := IdPrefix(t);
    assert |p| >= 2 && p[..2] == "V_" && IdChars(p) by {
      match t
      case Error => UpperIdIsStateId("ERROR_");
      case Modal => UpperIdIsStateId("MODAL_");
      case Loading => UpperIdIsStateId("LOADING_");
      case List => UpperIdIsStateId("LIST_");
      case Success => UpperIdIsStateId("SUCCESS_");
      case _ =>
    }
    PrefixedId(p, NormalizeName(url));
  }

  /** What the remaining types and the fixed ids require of the signals. */
  lemma ClassifyTypeConditions(s: Signals)
    ensures var r := ClassifySignals(s);
      r.stateType == Error ==> (r.stateId == "V_LOGIN_FORM_ERROR" <==> LoginErrorContext(s))
    ensures var r := ClassifySignals(s);
      r.stateType == Form ==> HasLoginButton(s) && !HasLogout(s) && r.stateId == "V_LOGIN_FORM_EMPTY"
    ensures ClassifySignals(s).stateType == Success ==> "status" in s.landmarks
    ensures ClassifySignals(s).stateType == Admin ==> LoggedIn(s) && Contains(s.url, "admin")
  {
    ErrorIdCondition(s);
    RuleOfType(s);
  }

  lemma ErrorIdCondition(s: Signals)
    ensures var r := ClassifySignals(s);
      r.stateType == Error ==> (r.stateId == "V_LOGIN_FORM_ERROR" <==> LoginErrorContext(s))
  {
    if IsErrorState(s) {
      assert FiringRule(s) == ErrorRule;
      if !LoginErrorContext(s) {
        ErrorIdIsNotLoginError(NormalizeName(s.url));
      }
    }
  }

  /** Form, success and admin each come from one rule only. */
  lemma RuleOfType(s: Signals)
    ensures var r := ClassifySignals(s);
      r.stateType == Form ==> FiringRule(s) == LoginFormRule && r.stateId == "V_LOGIN_FORM_EMPTY"
    ensures ClassifySignals(s).stateType == Success ==> FiringRule(s) == SuccessRule
    ensures ClassifySignals(s).stateType == Admin ==> FiringRule(s) == LoggedInRule
  {
    var r := ClassifySignals(s);
    match FiringRule(s)
    case ErrorRule => assert r.stateType == Error;
    case ModalRule => assert r.stateType == Modal;
    case LoadingRule => assert r.stateType == Loading;
    case LoggedInRule => assert r == LoggedInClassification(s);
    case LoginFormRule => assert r == Classification(Form, "V_LOGIN_FORM_EMPTY");
    case DashboardRule => assert r.stateType == Dashboard;
    case NavListRule => assert r.stateType == List;
    case SuccessRule => assert r.stateType == Success;
    case DefaultRule => assert r.stateType == Page;
  }

  /** An error id built from the pattern starts `V_E`, so it is never the login-error id. */
  lemma ErrorIdIsNotLoginError(name: string)
    requires Normalized(name)
    ensures IdPrefix(Error) + name != "V_LOGIN_FORM_ERROR"
  {
    assert (IdPrefix(Error) + name)[2] == 'E';
    assert "V_LOGIN_FORM_ERROR"[2] == 'L';
  }

  /** The four fixed ids are state ids. */
  lemma FixedIdsAreStateIds()
    ensures IsStateId("V_LOGIN_FORM_ERROR") && IsStateId("V_OVERVIEW_PAGE")
    ensures IsStateId("V_LOGIN_FORM_EMPTY") && IsStateId("V_DASHBOARD_LOADED")
  {
    LoginFormErrorIsStateId();
    OverviewPageIsStateId();
    LoginFormEmptyIsStateId();
    DashboardLoadedIsStateId();
  }

  lemma LoginFormErrorIsStateId()
    ensures IsStateId("V_LOGIN_FORM_ERROR")
  {
    UpperIdIsStateId("LOGIN_FORM_ERROR");
  }

  lemma OverviewPageIsStateId()
    ensures IsStateId("V_OVERVIEW_PAGE")
  {
    UpperIdIsStateId("OVERVIEW_PAGE");
  }

  lemma LoginFormEmptyIsStateId()
    ensures IsStateId("V_LOGIN_FORM_EMPTY")
  {
    UpperIdIsStateId("LOGIN_FORM_EMPTY");
  }

  lemma DashboardLoadedIsStateId()
    ensures IsStateId("V_DASHBOARD_LOADED")
  {
    UpperIdIsStateId("DASHBOARD_LOADED");
  }

  /** `V_` followed by upper-case letters and `_` is a state id. */
  lemma UpperIdIsStateId(name: string)
    requires name != [] && forall i :: 0 <= i < |name| ==> 'A' <= name[i] <= 'Z' || name[i] == '_'
    ensures IsStateId("V_" + name)
  {
    var id := "V_" + name;
    assert id[..2] == "V_";
    forall i | 0 <= i < |id| ensures !IsSeparator(id[i]) && !IsLowerAscii(id[i]) {
      if i >= 2 {
        assert id[i] == name[i - 2];
      }
    }
  }

  /** `StateClassifier.classify_state` */
  function ClassifyState(fp: Fingerprint): (r: Classification)
    ensures IsStateId(r.stateId)
    ensures r.stateType == Page ==> r.stateId == "V_" + NormalizeName(fp.urlPattern)
    ensures fp.actionables.None? ==> r.stateType != Modal && r.stateType != Form
    ensures fp.a11y.None? ==> r.stateType != Success
    ensures r.stateType == Error && !LoginErrorContext(SignalsOf(fp)) ==> r.stateId == PatternId(Error, fp.urlPattern)
    ensures (r.stateType == Dashboard && r.stateId == "V_OVERVIEW_PAGE") <==>
      var s := SignalsOf(fp);
      !IsErrorState(s) && !HasDialog(s) && !LoadingSignal(s) && LoggedIn(s) &&
      (Contains(fp.urlPattern, "overview") || Contains(Lower(fp.title), "overview"))
  {
    var s := SignalsOf(fp);
    var c := ClassifySignals(s);
    RuleOfType(s);
    if c.stateType == Page then DefaultIdIsPattern(s); c else c
  }

  // ------------------------------------------------------------- properties

  /**
   * A login form with an error banner is still a login form (unless a dialog
   * or a loading indicator takes precedence).
   */
  lemma ErrorBannerOnLoginForm(s: Signals)
    requires ErrorSignal(s) && HasForm(s) && HasLoginButton(s) && !HasLogout(s)
    requires !HasDialog(s) && !LoadingSignal(s)
    ensures ClassifySignals(s) == Classification(Form, "V_LOGIN_FORM_EMPTY")
  {
  }

  /** A logged-in user is never shown the empty login form. */
  lemma LogoutNeverLoginForm(s: Signals)
    requires HasLogout(s)
    ensures ClassifySignals(s).stateType != Form
  {
  }

  /** A plain page is named after its URL pattern alone. */
  lemma DefaultIdIsPattern(s: Signals)
    requires ClassifySignals(s).stateType == Page
    ensures ClassifySignals(s).stateId == "V_" + NormalizeName(s.url)
  {
    PageRules(s);
    if FiringRule(s) == LoggedInRule {
      LoggedInRuleDecides(s);
    } else {
      DefaultRuleDecides(s);
    }
    assert IdPrefix(Page) == "V_";
  }

  /** Only the logged-in rule and the fallback produce plain pages. */
  lemma PageRules(s: Signals)
    requires ClassifySignals(s).stateType == Page
    ensures FiringRule(s) == LoggedInRule || FiringRule(s) == DefaultRule
  {
  }

  lemma LoggedInRuleDecides(s: Signals)
    requires FiringRule(s) == LoggedInRule
    ensures ClassifySignals(s) == LoggedInClassification(s)
  {
  }

  lemma DefaultRuleDecides(s: Signals)
    requires FiringRule(s) == DefaultRule
    ensures ClassifySignals(s) == Classification(Page, PatternId(Page, s.url))
  {
  }

  /** Without a dialog entry or a status landmark no state is a modal or a success state. */
  lemma NoModalNoSuccess(s: Signals)
    requires !HasDialog(s) && "status" !in s.landmarks
    ensures ClassifySignals(s).stateType != Modal && ClassifySignals(s).stateType != Success
  {
    ClassifyTypeConditions(s);
  }

  /**
   * The fingerprinter's `buttons` only ever hold role `button`, and its
   * landmark roles never include `alert` or `status`; so on its fingerprints
   * the dialog and table checks never fire and an error state always comes
   * from the URL pattern or the title.
   */
  lemma FingerprinterSignals(tree: Option<Node>, url: Url, title: string, mainHeading: string,
                             digest: StateFingerprinter.Shape -> string, qsl: string -> seq<(string, string)>)
    ensures var s := SignalsOf(StateFingerprinter.CreateFingerprint(tree, url, title, mainHeading, digest, qsl));
      !HasDialog(s) && !HasTable(s) && "alert" !in s.landmarks && "status" !in s.landmarks
  {
    var fp := StateFingerprinter.CreateFingerprint(tree, url, title, mainHeading, digest, qsl);
    RestrictedSignals(fp);
  }

  /** Buttons of role `button` only and standard landmarks only rule out dialogs, tables, alerts and status. */
  lemma RestrictedSignals(fp: Fingerprint)
    requires fp.actionables.Some? ==> forall e :: e in fp.actionables.value.buttons ==> e.role == "button"
    requires fp.a11y.Some? ==> forall x :: x in fp.a11y.value.landmarkRoles ==> x in StateFingerprinter.LandmarkRoles
    ensures var s := SignalsOf(fp);
      !HasDialog(s) && !HasTable(s) && "alert" !in s.landmarks && "status" !in s.landmarks
  {
    var s := SignalsOf(fp);
    assert forall i :: 0 <= i < |s.buttons| ==> s.buttons[i] in s.buttons;
    assert "alert" !in StateFingerprinter.LandmarkRoles && "status" !in StateFingerprinter.LandmarkRoles;
  }

  /** So no fingerprint the fingerprinter makes is classified as a modal or a success state. */
  lemma ClassifyFingerprinterOutput(tree: Option<Node>, url: Url, title: string, mainHeading: string,
                                    digest: StateFingerprinter.Shape -> string, qsl: string -> seq<(string, string)>)
    ensures var c := ClassifyState(StateFingerprinter.CreateFingerprint(tree, url, title, mainHeading, digest, qsl));
      c.stateType != Modal && c.stateType != Success
  {
    var fp := StateFingerprinter.CreateFingerprint(tree, url, title, mainHeading, digest, qsl);
    FingerprinterSignals(tree, url, title, mainHeading, digest, qsl);
    NoModalNoSuccess(SignalsOf(fp));
  }
}
