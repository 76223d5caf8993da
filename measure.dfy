/** What the external tools hand back to the script, and the Ruby values it
    keeps in its result arrays. Every subprocess, file check and float parse
    of the script is replaced by one of these outcomes, supplied from outside. */
module Measure {

  datatype Option<+T> = None | Some(value: T)

  /** The outcome of one encode + decode + score pipeline
      (`webp_size_dssim`, or `jpeg_size_dssim` at one quality). */
  datatype Measurement =
    | NoOutput
      // the pipeline returned nil: an intermediate file was not produced
    | Measured(size: nat, dssim: Option<real>)
      // the pipeline returned [size, dssim]; dssim is nil when the metric
      // tool's output did not parse as a Float

  /** The score a measurement carries, if any: the only thing the callers
      test before using a measurement (`return nil unless dssim`). */
  function Score(m: Measurement): (r: Option<real>)
    ensures r.Some? <==> m.Measured? && m.dssim.Some?
    ensures r.Some? ==> m == Measured(m.size, Some(r.value))
  {
    match m
    case NoOutput => None
    case Measured(_, d) => d
  }

  /** The values a result array of the script can hold. */
  datatype Value = Int(i: int) | Float(x: real) | Nil
}
