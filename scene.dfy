/**
 The interface between the scene manager and its scenes: the pop sentinel,
 the descriptor of one scene (which of its four hooks are present) and the
 reading of the integer an `execute` hook returns.
 */
module Scene {

  /** The opaque private data of one scene instance (a `void *`); `Null` is the null pointer. */
  type Handle = nat

  const Null: Handle := 0

  /** The sentinel an `execute` hook returns to ask for its own removal. */
  const PopRequest: int := -1

  /** One registry entry: which of the four lifecycle hooks the scene supplies. */
  datatype Descriptor = Descriptor(
    hasInitialize: bool,
    hasReinitialize: bool,
    hasExecute: bool,
    hasTerminate: bool)
  {
    /** `reinitialize` may be absent; the other three hooks must be present. */
    predicate HasRequiredHooks() {
      hasInitialize && hasExecute && hasTerminate
    }
  }

  /** What the value returned by `execute` asks the manager to do. */
  datatype Request = Pop | Push(id: int) | Invalid(value: int)

  /** A request as `execute` writes it on the wire. */
  function Encode(r: Request): int {
    match r
    case Pop => PopRequest
    case Push(id) => id
    case Invalid(value) => value
  }

  /** A request that an `execute` hook of a registry of `nScenes` scenes can return. */
  predicate WellFormed(r: Request, nScenes: int) {
    match r
    case Pop => true
    case Push(id) => 0 <= id < nScenes
    case Invalid(value) => value != PopRequest && !(0 <= value < nScenes)
  }

  /**
   Reads the value returned by `execute`: the sentinel is a pop request, an id
   of the registry is a push request, anything else is invalid.
   */
  function Classify(value: int, nScenes: int): (r: Request)
    ensures WellFormed(r, nScenes)
    ensures r.Pop? <==> value == PopRequest
    ensures r.Push? <==> 0 <= value < nScenes
    ensures Encode(r) == value
  {
    if value == PopRequest then Pop
    else if 0 <= value < nScenes then Push(value)
    else Invalid(value)
  }

  /** The sentinel is never the id of a scene, whatever the size of the registry. */
  lemma PopRequestIsNoSceneId(nScenes: int)
    ensures !(0 <= PopRequest < nScenes)
    ensures Classify(PopRequest, nScenes) == Pop
  {
  }

  /** Every request an `execute` hook can return is read back as itself. */
  lemma ClassifyEncode(r: Request, nScenes: int)
    requires WellFormed(r, nScenes)
    ensures Classify(Encode(r), nScenes) == r
  {
  }
}
