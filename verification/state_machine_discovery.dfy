/**
 * The discovery engine's stored graph and its export. Exploration itself
 * (`discover`) is an empty placeholder in the system and is not modelled:
 * the engine is its constructor state plus the graph export.
 */
module StateMachineDiscovery {
  import opened Wrappers
  import opened Values
  import opened Fingerprints
  import UiStates
  import StateTransitions

  /** A stored state under its dictionary key; the sequence keeps insertion order, as a Python dict does. */
  datatype Entry = Entry(key: string, state: UiStates.UIState)

  datatype Engine = Engine(
    baseUrl: string,
    username: string,
    password: string,
    config: map<string, Json>,
    states: seq<Entry>,
    transitions: seq<StateTransitions.StateTransition>)

  /** Dictionary keys are unique. */
  predicate DistinctKeys(es: seq<Entry>) {
    forall i, j :: 0 <= i < j < |es| ==> es[i].key != es[j].key
  }

  /** `UIStateMachineDiscovery(base_url, username, password, config)`: `config or {}`, no states, no transitions. */
  function NewEngine(baseUrl: string, username: string, password: string, config: Option<map<string, Json>>): (e: Engine)
    ensures e.baseUrl == baseUrl && e.username == username && e.password == password
    ensures config.Some? ==> e.config == config.value
    ensures config.None? ==> e.config == map[]
    ensures e.states == [] && e.transitions == [] && DistinctKeys(e.states)
  {
    Engine(baseUrl, username, password, if config.Some? && config.value != map[] then config.value else map[], [], [])
  }

  /** The exported record of a state: the five fields the graph keeps. */
  datatype StateRecord = StateRecord(stateId: string, stateType: string, fingerprint: Fingerprint, visited: bool, depth: int)

  /** The exported record of a transition; `trigger` is read through the legacy alias. */
  datatype TransitionRecord = TransitionRecord(fromStateId: string, toStateId: string, actionType: StateTransitions.ActionKind, trigger: map<string, Json>)

  datatype Graph = Graph(states: seq<StateRecord>, transitions: seq<TransitionRecord>)

  /** The record keeps the state's identity and its exploration fields; the rest is dropped. */
  function ExportState(s: UiStates.UIState): (r: StateRecord)
    ensures r.stateId == s.stateId && r.stateType == s.stateType && r.fingerprint == s.fingerprint
    ensures r.visited == s.visited && r.depth == s.depth
    ensures forall t: UiStates.UIState :: UiStates.Equal(s, t) <==> r.stateId == t.stateId
  {
    StateRecord(s.stateId, s.stateType, s.fingerprint, s.visited, s.depth)
  }

  function ExportTransition(t: StateTransitions.StateTransition): (r: TransitionRecord)
    ensures r.trigger == StateTransitions.Trigger(t) && r.trigger == t.triggerLocators
  {
    TransitionRecord(t.fromStateId, t.toStateId, t.actionType, StateTransitions.Trigger(t))
  }

  /**
   * `export_graph`: one record per stored state, in insertion order, and one
   * per transition, in list order. The engine itself is a value and is not changed.
   */
  function ExportGraph(e: Engine): (g: Graph)
    ensures |g.states| == |e.states| && |g.transitions| == |e.transitions|
    ensures forall i :: 0 <= i < |e.states| ==>
      var s := e.states[i].state;
      g.states[i].stateId == s.stateId && g.states[i].stateType == s.stateType &&
      g.states[i].fingerprint == s.fingerprint && g.states[i].visited == s.visited && g.states[i].depth == s.depth
    ensures forall i :: 0 <= i < |e.transitions| ==>
      var t := e.transitions[i];
      g.transitions[i].fromStateId == t.fromStateId && g.transitions[i].toStateId == t.toStateId &&
      g.transitions[i].actionType == t.actionType && g.transitions[i].trigger == t.triggerLocators
  {
    Graph(seq(|e.states|, i requires 0 <= i < |e.states| => ExportState(e.states[i].state)),
          seq(|e.transitions|, i requires 0 <= i < |e.transitions| => ExportTransition(e.transitions[i])))
  }

  /** A fresh engine exports an empty graph, whatever it was built with. */
  lemma FreshEngineExportsEmpty(baseUrl: string, username: string, password: string, config: Option<map<string, Json>>)
    ensures ExportGraph(NewEngine(baseUrl, username, password, config)) == Graph([], [])
  {
  }

  /** Export is a homomorphism: storing a state under a new key appends exactly its record. */
  lemma ExportAppendState(e: Engine, key: string, s: UiStates.UIState)
    requires forall i :: 0 <= i < |e.states| ==> e.states[i].key != key
    ensures ExportGraph(e.(states := e.states + [Entry(key, s)])).states == ExportGraph(e).states + [ExportState(s)]
    ensures ExportGraph(e.(states := e.states + [Entry(key, s)])).transitions == ExportGraph(e).transitions
    ensures DistinctKeys(e.states) ==> DistinctKeys(e.states + [Entry(key, s)])
  {
    var e' := e.(states := e.states + [Entry(key, s)]);
    assert forall i :: 0 <= i < |e.states| ==> e'.states[i] == e.states[i];
  }

  /** Recording one more transition appends exactly its record. */
  lemma ExportAppendTransition(e: Engine, t: StateTransitions.StateTransition)
    ensures ExportGraph(e.(transitions := e.transitions + [t])).transitions == ExportGraph(e).transitions + [ExportTransition(t)]
    ensures ExportGraph(e.(transitions := e.transitions + [t])).states == ExportGraph(e).states
  {
    var e' := e.(transitions := e.transitions + [t]);
    assert forall i :: 0 <= i < |e.transitions| ==> e'.transitions[i] == e.transitions[i];
  }

  /** A trigger assigned through the legacy alias is what the export shows. */
  lemma ExportShowsAssignedTrigger(t: StateTransitions.StateTransition, value: map<string, Json>)
    ensures ExportTransition(StateTransitions.SetTrigger(t, value)).trigger == value
    ensures ExportTransition(StateTransitions.SetTrigger(t, value)).fromStateId == t.fromStateId
  {
  }

  /** The export keeps identity: two states are equal exactly when their records carry the same id. */
  lemma ExportKeepsStateIdentity(a: UiStates.UIState, b: UiStates.UIState)
    ensures UiStates.Equal(a, b) <==> ExportState(a).stateId == ExportState(b).stateId
  {
  }

  /** Two transitions are equal exactly when their records agree on source, target and printed action type. */
  lemma ExportKeepsTransitionIdentity(a: StateTransitions.StateTransition, b: StateTransitions.StateTransition)
    ensures StateTransitions.Equal(a, b) <==>
      var ra, rb := ExportTransition(a), ExportTransition(b);
      ra.fromStateId == rb.fromStateId && ra.toStateId == rb.toStateId &&
      StateTransitions.Str(ra.actionType) == StateTransitions.Str(rb.actionType)
  {
  }

  /** Fields the export leaves out (keys, discovery time, metadata, transition ids, rates) never change it. */
  lemma ExportIgnoresUnexportedFields(e: Engine, f: Engine)
    requires |e.states| == |f.states| && |e.transitions| == |f.transitions|
    requires forall i :: 0 <= i < |e.states| ==> ExportState(e.states[i].state) == ExportState(f.states[i].state)
    requires forall i :: 0 <= i < |e.transitions| ==> ExportTransition(e.transitions[i]) == ExportTransition(f.transitions[i])
    ensures ExportGraph(e) == ExportGraph(f)
  {
  }
}
