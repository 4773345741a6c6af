/** Option and Result types shared by the whole model, and the failures the
    system can raise (each one is an `assert`, an index error or a numpy
    error in the original program). */
module Wrappers {

  datatype Option<+T> = None | Some(value: T)

  /** The ways a computation of the system can fail. */
  datatype Error =
    | CycleStartNotLeapYear   // cyclic field whose first year is not a listed leap year
    | EmptyPhaseGroup         // a phase group holds no year (division by zero)
    | PhaseGroupShape         // a phase group cannot be reshaped into years x days x samples
    | NoEarlierLeapYear       // no listed leap year lies before the reference year
    | TooFewSamples           // linear interpolation needs at least two samples
    | UnsortedTimes           // sample offsets are not strictly increasing
    | NoSourcePoints          // nearest-neighbour regridding from an empty grid
    | GridTooSmall            // cell areas need at least two rows and two columns
    | AlbedoTableMismatch     // fewer albedos than zeniths in a table
    | AlbedoTableEmpty        // a table with no sample point
    | DateMismatch            // fields disagree on the date of a query time
    | FluxAllMasked           // the flux is masked everywhere

  datatype Result<+T> = Ok(value: T) | Err(error: Error) {
    predicate IsFailure() { Err? }

    function PropagateFailure<U>(): Result<U>
      requires Err?
    {
      Err(error)
    }

    function Extract(): T
      requires Ok?
    {
      value
    }
  }
}
