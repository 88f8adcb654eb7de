/**
 * The UI state entity: a vertex of the discovered state machine. Identity is
 * the state id alone.
 */
module UiStates {
  import opened Values
  import opened Fingerprints

  /**
   * A `UIState`. `discoveredAt` is the clock reading taken at construction;
   * the clock itself is a parameter of `NewUIState`.
   */
  datatype UIState = UIState(
    stateId: string,
    stateType: string,
    fingerprint: Fingerprint,
    verificationLogic: map<string, Json>,
    elementDescriptors: seq<map<string, Json>>,
    discoveredAt: real,
    metadata: map<string, Json>,
    visited: bool,
    depth: int)

  /** `UIState(state_id, state_type)` with every other field at its default. */
  function NewUIState(stateId: string, stateType: string, now: real): (s: UIState)
    ensures s.stateId == stateId && s.stateType == stateType && s.discoveredAt == now
    ensures s.fingerprint == EmptyFingerprint && s.verificationLogic == map[] && s.elementDescriptors == []
    ensures s.metadata == map[] && !s.visited && s.depth == 0
  {
    UIState(stateId, stateType, EmptyFingerprint, map[], [], now, map[], false, 0)
  }

  /** `__eq__`: states are equal when their ids are. */
  predicate Equal(a: UIState, b: UIState)
    ensures Equal(a, b) <==>
      a == b.(stateType := a.stateType, fingerprint := a.fingerprint, verificationLogic := a.verificationLogic,
              elementDescriptors := a.elementDescriptors, discoveredAt := a.discoveredAt, metadata := a.metadata,
              visited := a.visited, depth := a.depth)
  {
    a.stateId == b.stateId
  }

  /** `__hash__`: Python's `hash` of the id, with the string hash as a parameter. */
  function Hash(s: UIState, strHash: string -> int): (r: int)
    ensures forall t :: Equal(t, s) ==> strHash(t.stateId) == r
  {
    strHash(s.stateId)
  }

  /** State equality is an equivalence relation. */
  lemma EqualIsEquivalence(a: UIState, b: UIState, c: UIState)
    ensures Equal(a, a)
    ensures Equal(a, b) ==> Equal(b, a)
    ensures Equal(a, b) && Equal(b, c) ==> Equal(a, c)
  {
  }

  /** Equal states hash equally, whatever the string hash. */
  lemma EqualStatesHashEqually(a: UIState, b: UIState, strHash: string -> int)
    requires Equal(a, b)
    ensures Hash(a, strHash) == Hash(b, strHash)
  {
  }

  /**
   * Every field but the id plays no part: a state equals, and hashes like,
   * any state with its id, whatever that state's other eight fields hold.
   */
  lemma EqualityIgnoresAllButId(a: UIState, stateType: string, fp: Fingerprint, logic: map<string, Json>,
                                descriptors: seq<map<string, Json>>, at: real, metadata: map<string, Json>,
                                visited: bool, depth: int, strHash: string -> int)
    ensures var b := UIState(a.stateId, stateType, fp, logic, descriptors, at, metadata, visited, depth);
      Equal(a, b) && Equal(b, a) && Hash(a, strHash) == Hash(b, strHash)
  {
  }
}
