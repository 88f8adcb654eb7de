/**
 * The transition entity: an edge of the discovered state machine. Identity is
 * the source, the target and the printed action type.
 */
module StateTransitions {
  import opened Wrappers
  import opened Values

  /** `ActionType`, a string-valued enumeration. */
  datatype ActionType = Click | FillForm | Navigate

  /** The member's value. */
  function ActionValue(a: ActionType): string {
    match a
    case Click => "click"
    case FillForm => "fill_form"
    case Navigate => "navigate"
  }

  /** An `action_type` field: an enumeration member or a plain string. */
  datatype ActionKind = Enum(member: ActionType) | Text(text: string)

  /**
   * `str(action_type)`. For an enumeration mixed with `str`, `str` gives the
   * class-qualified member name, not the value.
   */
  function Str(k: ActionKind): (r: string)
    ensures k.Text? ==> r == k.text
    ensures k.Enum? ==> "ActionType." <= r && r != ActionValue(k.member)
  {
    match k
    case Enum(Click) => "ActionType.CLICK"
    case Enum(FillForm) => "ActionType.FILL_FORM"
    case Enum(Navigate) => "ActionType.NAVIGATE"
    case Text(s) => s
  }

  datatype StateTransition = StateTransition(
    transitionId: string,
    fromStateId: string,
    toStateId: string,
    actionType: ActionKind,
    triggerLocators: map<string, Json>,
    actionData: Option<map<string, Json>>,
    successRate: real,
    metadata: map<string, Json>,
    timestamp: Option<real>)

  /** `StateTransition(transition_id, from_state_id, to_state_id, action_type)` with the other fields at their defaults. */
  function NewTransition(transitionId: string, fromStateId: string, toStateId: string, actionType: ActionKind): (t: StateTransition)
    ensures t.transitionId == transitionId && t.fromStateId == fromStateId && t.toStateId == toStateId && t.actionType == actionType
    ensures t.triggerLocators == map[] && t.actionData.None? && t.successRate == 1.0 && t.metadata == map[] && t.timestamp.None?
  {
    StateTransition(transitionId, fromStateId, toStateId, actionType, map[], None, 1.0, map[], None)
  }

  /** The legacy `trigger` property reads `trigger_locators`. */
  function Trigger(t: StateTransition): (r: map<string, Json>)
    ensures r == t.triggerLocators
  {
    t.triggerLocators
  }

  /** Assigning the legacy `trigger` property writes `trigger_locators`. */
  function SetTrigger(t: StateTransition, value: map<string, Json>): (r: StateTransition)
    ensures r.triggerLocators == value && r.(triggerLocators := t.triggerLocators) == t
  {
    t.(triggerLocators := value)
  }

  /** Setting `trigger` then reading either name gives the value back, and nothing else changes. */
  lemma TriggerRoundTrip(t: StateTransition, value: map<string, Json>)
    ensures Trigger(SetTrigger(t, value)) == value
    ensures SetTrigger(t, value).triggerLocators == value
    ensures SetTrigger(t, value).(triggerLocators := t.triggerLocators) == t
    ensures SetTrigger(t, Trigger(t)) == t
  {
  }

  /** `__eq__`: same source, same target, same printed action type. */
  predicate Equal(a: StateTransition, b: StateTransition)
    ensures Equal(a, b) <==>
      (Str(a.actionType) == Str(b.actionType) &&
       a == b.(transitionId := a.transitionId, actionType := a.actionType, triggerLocators := a.triggerLocators,
               actionData := a.actionData, successRate := a.successRate, metadata := a.metadata, timestamp := a.timestamp))
  {
    a.fromStateId == b.fromStateId && a.toStateId == b.toStateId && Str(a.actionType) == Str(b.actionType)
  }

  /** `__hash__`: Python's `hash` of the triple, with the tuple hash as a parameter. */
  function Hash(t: StateTransition, tupleHash: ((string, string, string)) -> int): (r: int)
    ensures forall u :: Equal(u, t) ==> tupleHash((u.fromStateId, Str(u.actionType), u.toStateId)) == r
  {
    tupleHash((t.fromStateId, Str(t.actionType), t.toStateId))
  }

  lemma EqualIsEquivalence(a: StateTransition, b: StateTransition, c: StateTransition)
    ensures Equal(a, a)
    ensures Equal(a, b) ==> Equal(b, a)
    ensures Equal(a, b) && Equal(b, c) ==> Equal(a, c)
  {
  }

  /** Equal transitions hash equally, whatever the tuple hash. */
  lemma EqualTransitionsHashEqually(a: StateTransition, b: StateTransition, tupleHash: ((string, string, string)) -> int)
    requires Equal(a, b)
    ensures Hash(a, tupleHash) == Hash(b, tupleHash)
  {
  }

  /** Id, trigger, data, success rate and metadata play no part in equality. */
  lemma EqualityIgnoresPayload(a: StateTransition, id: string, trigger: map<string, Json>, rate: real)
    ensures Equal(a, a.(transitionId := id, triggerLocators := trigger, successRate := rate, actionData := None, metadata := map[]))
  {
  }

  /** Printing distinguishes the members, so two enumeration-typed transitions are equal only for the same member. */
  lemma StrSeparatesMembers(x: ActionType, y: ActionType)
    ensures Str(Enum(x)) == Str(Enum(y)) <==> x == y
  {
  }

  /**
   * A transition typed with the enumeration member is not equal to one typed
   * with the member's plain string value.
   */
  lemma EnumDiffersFromItsValue(x: ActionType, from: string, to: string)
    ensures !Equal(NewTransition("t1", from, to, Enum(x)), NewTransition("t2", from, to, Text(ActionValue(x))))
  {
    assert Str(Enum(x))[0] == 'A';
  }
}
