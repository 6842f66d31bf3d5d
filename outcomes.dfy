/** Option, Result and Outcome values for the parts of the program that can fail or leave
    something unset, and the configuration errors the parameter-file reader throws. */
module Outcomes {

  datatype Option<+T> = None | Some(value: T)

  datatype Result<+T, +E> = Ok(value: T) | Err(error: E)

  /** The result of an operation that either completes or throws. */
  datatype Outcome<+E> = Pass | Fail(error: E)

  /** The three messages thrown while reading the parameter file:
      "All values must be positive in data file" (NegativeValue),
      "Error! Incorrect parameters of trajectories in data file" (FacetOutOfRange) and
      "Error! There was not enough trajectories in data file" (NoFacets). */
  datatype ConfigError = NegativeValue | FacetOutOfRange | NoFacets
}
