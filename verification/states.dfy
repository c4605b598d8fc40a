/** The five calibration states a node can be in, and the strings the
    original program uses for them (the values its state parameter accepts). */
module States {

  import opened Wrappers

  datatype State = Good | NeedsCalibration | Bad | Unknown | Active

  /** Every state, the domain of the state validator. */
  const AllStates: set<State> := {Good, NeedsCalibration, Bad, Unknown, Active}

  lemma AllStatesComplete(s: State)
    ensures s in AllStates
  {
  }

  /** The string the program stores for a state. */
  function Name(s: State): string
  {
    match s
    case Good => "good"
    case NeedsCalibration => "needs calibration"
    case Bad => "bad"
    case Unknown => "unknown"
    case Active => "active"
  }

  /** The state validator: accepts exactly the five state names. */
  function Parse(text: string): (r: Option<State>)
    ensures r.Some? ==> Name(r.value) == text
  {
    if text == "good" then Some(Good)
    else if text == "needs calibration" then Some(NeedsCalibration)
    else if text == "bad" then Some(Bad)
    else if text == "unknown" then Some(Unknown)
    else if text == "active" then Some(Active)
    else None
  }

  /** Parsing is the inverse of naming, and names are pairwise distinct. */
  lemma ParseName(s: State)
    ensures Parse(Name(s)) == Some(s)
  {
  }

  lemma NameInjective(s: State, t: State)
    ensures Name(s) == Name(t) <==> s == t
  {
  }
}
