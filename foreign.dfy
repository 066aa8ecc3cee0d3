/** Complex numbers as the tables write them, and the numeric and text
    helpers the parser calls but does not define. */
module Foreign {
  import opened Wrappers

  /** A number kept symbolically: `Re(x)` a real (a numpy float array
      entry), `Exp(m, p)` the complex m * exp(i*pi*p), `Sum(parts)` the sum
      of the parts. */
  datatype Complex = Re(x: real) | Exp(mag: real, phase: real) | Sum(parts: seq<Complex>)

  /** The helpers irreptables takes from numpy, from Python's float printing
      and from `irrep.__aux`. Their bodies are not part of this model, so they
      are parameters; lemmas that need a property of one say so. */
  datatype Host = Host(
    absOf: Complex -> real,                    // np.abs
    anglePiOf: Complex -> real,                // np.angle(z) / np.pi
    realOf: Complex -> real,                   // np.real
    imagOf: Complex -> real,                   // np.imag
    strFloat: real -> string,                  // str(x) for a float
    formatNumber: real -> string,              // irrep.__aux.str_
    parseBool: string -> Option<bool>,         // irrep.__aux.str2bool
    parseIntList: string -> Option<seq<int>>   // irrep.__aux.str2list_space
  )
}
