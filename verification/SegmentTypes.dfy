/** Small types that the models of the segment engine share. */
module SegmentTypes {

  datatype Option<T> = None | Some(value: T)

  /** How a pass over the running segments ended; a thread that has not run any yet has no such answer. */
  datatype EngineRunStatus = RunInvalid | RunContinue | RunEnd | RunTerminate
}
