/**
 * The fingerprint record the fingerprinter produces and the comparer and the
 * classifier read.
 *
 * In the source every record is a dict read with `dict.get(key, default)`; here
 * each is a datatype whose fields hold what `get` would return. A record that
 * may be absent or empty (`None` or `{}`, both falsy) is an `Option`; a record
 * whose keys are missing reads as the record of defaults.
 */
module Fingerprints {
  import opened Wrappers
  import opened Values

  /** A URL as `urlparse` splits it; only these three parts are ever read. */
  datatype Url = Url(path: string, query: string, fragment: string)

  /** A route parameter after flattening: the single value, or the whole list when a key repeats. */
  datatype ParamValue = One(value: string) | Many(values: seq<string>)

  /** `_get_node_aria_states`: the six ARIA attributes of one node, each `node.get(key)`. */
  datatype NodeAriaStates = NodeAriaStates(
    expanded: Option<Value>,
    selected: Option<Value>,
    checked: Option<Value>,
    disabled: Option<Value>,
    pressed: Option<Value>,
    current: Option<Value>)

  /** One actionable element; `href` is the node's `value` for links and absent otherwise. */
  datatype Element = Element(role: string, name: string, href: Option<Value>, ariaStates: NodeAriaStates, locatorStrategy: string)

  /** The `actionable_elements` record. */
  datatype Actionables = Actionables(buttons: seq<Element>, links: seq<Element>, inputs: seq<Element>, totalCount: nat)

  const NoActionables := Actionables([], [], [], 0)

  /** An entry of `expanded_elements`: it also records the node's path. */
  datatype ExpandedEntry = ExpandedEntry(role: string, name: string, expanded: Value, path: string)

  /** An entry of `selected_elements`, `checked_elements` or `current_indicators`. */
  datatype StateEntry = StateEntry(role: string, name: string, state: Value)

  /** The `aria_states` summary of a whole tree. */
  datatype AriaSummary = AriaSummary(
    expanded: seq<ExpandedEntry>,
    selected: seq<StateEntry>,
    checked: seq<StateEntry>,
    disabledCount: nat,
    current: seq<StateEntry>)

  /** A value of the `key_landmarks` map. */
  datatype KeyLandmark = KeyLandmark(role: string, name: string, path: string)

  /** The semantic `accessibility_tree` summary. */
  datatype A11ySummary = A11ySummary(
    structureHash: string,
    landmarkRoles: seq<string>,
    interactiveCount: nat,
    headingHierarchy: seq<string>,
    keyLandmarks: map<string, KeyLandmark>,
    ariaStates: Option<AriaSummary>)

  /** A state fingerprint. */
  datatype Fingerprint = Fingerprint(
    urlPattern: string,
    routeParams: map<string, ParamValue>,
    title: string,
    mainHeading: string,
    a11y: Option<A11ySummary>,
    actionables: Option<Actionables>)

  /** The empty dict `{}`: every key reads as its default. */
  const EmptyFingerprint := Fingerprint("", map[], "", "", None, None)
}
