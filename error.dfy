/** The interpreter errors (src/error.rs). An I/O error carries no payload
    here: the reader and writer are modelled as infallible sequences. */
module Errors {
  datatype Error = Io | NoProgram | Overflow | CycleLimit
}
