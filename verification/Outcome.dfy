/** Results of the fallible construction steps. The program's error carries text for people;
    only its class is kept. */
module Outcome {

  datatype Option<+T> = None | Some(value: T)

  /** The error classes the automaton builders report. */
  datatype Error =
    | Malformed        // an input the builder's own contract refuses
    | LimitExceeded    // a state, edge, branch or field cap
    | Unsupported      // the abstract DFA asked to quit

  datatype Result<+T> = Ok(value: T) | Err(error: Error)
}
