/// Action labels and the key bindings that choose them.
module Labels {

  /** A label code as numpy's signed `byte` dtype stores it. */
  newtype int8 = x: int | -128 <= x < 128

  /** The action vocabulary. Its numeric codes are defined elsewhere, so every
      place that writes a code receives them as a function `code: Action -> int8`. */
  datatype Action = Scan | Target | TargetLeft | TargetRight | TargetUp | TargetDown

  /** Key symbols as the image window reports them; `Other` is every keysym
      the loops do not name. */
  datatype Key =
    | Escape | BackSpace | KeyK | KeyR | KeyE
    | Space | Return | Left | Right | Up | Down
    | Other

  /** Whether an action can be chosen with `numActions` configured: the two
      basic actions always, left/right above 2, up/down above 4. */
  predicate Allowed(a: Action, numActions: int) {
    match a
    case Scan | Target => true
    case TargetLeft | TargetRight => numActions > 2
    case TargetUp | TargetDown => numActions > 4
  }

  /** The key an operator presses to choose each action. */
  function BoundKey(a: Action): Key {
    match a
    case Scan => Space
    case Target => Return
    case TargetLeft => Left
    case TargetRight => Right
    case TargetUp => Up
    case TargetDown => Down
  }

  /** The key-to-label rule shared by both loops (first match wins). */
  function LabelFor(key: Key, numActions: int): (a: Action)
    ensures Allowed(a, numActions)
    ensures a == Scan || key == BoundKey(a)
  {
    if key == Space then Scan
    else if key == Return then Target
    else if numActions > 2 && key == Left then TargetLeft
    else if numActions > 2 && key == Right then TargetRight
    else if numActions > 4 && key == Up then TargetUp
    else if numActions > 4 && key == Down then TargetDown
    else Scan
  }

  /** Pressing an action's bound key yields that action exactly when the
      action is allowed; otherwise the key falls through to SCAN. */
  lemma BoundKeyChooses(a: Action, numActions: int)
    ensures LabelFor(BoundKey(a), numActions) == a <==> Allowed(a, numActions)
    ensures !Allowed(a, numActions) ==> LabelFor(BoundKey(a), numActions) == Scan
  {
  }
}
