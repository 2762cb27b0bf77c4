// The sensor lifecycle of utils.py: the four states and the transition
// relation that every state change of a sensor is checked against.
module States {

  datatype State = Init | Awake | Sleep | Dead

  datatype Option<T> = None | Some(value: T)

  /** The transitions the lifecycle admits, written out as a table. */
  const VALID_TRANSITIONS: set<(State, State)> :=
    {(Init, Awake), (Init, Sleep),
     (Awake, Awake), (Awake, Sleep), (Awake, Dead),
     (Sleep, Awake), (Sleep, Sleep), (Sleep, Dead),
     (Dead, Dead)}

  /**
   * State.is_valid as the source returns it: `Some(true)` for a valid
   * transition, `Some(false)` from the final `else` branch (reached only from
   * DEAD towards another state), and `None` where an inner `if` fails and the
   * method falls off its end.
   */
  function IsValid(initial: State, target: State): (r: Option<bool>)
    ensures r == Some(true) <==> (initial, target) in VALID_TRANSITIONS
    ensures r == Some(false) <==> initial == Dead && target != Dead
    ensures r == None <==> initial != Dead && (initial, target) !in VALID_TRANSITIONS
  {
    if initial == Init then
      if target == Awake || target == Sleep then Some(true) else None
    else if initial == Awake || initial == Sleep then
      if target == Awake || target == Sleep || target == Dead then Some(true) else None
    else if initial == Dead && target == Dead then
      Some(true)
    else
      assert initial.Dead? && target != Dead;
      Some(false)
  }

  /** Python truthiness of `is_valid`: only `True` admits the transition. */
  predicate Valid(initial: State, target: State)
  {
    IsValid(initial, target) == Some(true)
  }

  lemma NothingReturnsToInit(initial: State)
    ensures !Valid(initial, Init)
  {
  }

  lemma DeadIsAbsorbing(target: State)
    ensures Valid(Dead, target) <==> target == Dead
  {
  }

  lemma InitCannotDie()
    ensures !Valid(Init, Dead)
  {
  }
}
