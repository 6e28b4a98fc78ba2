/**
 * The JSON values the timing scripts write and the analysis script reads
 * back. Python's `int` and `float` are both `Num`; booleans, lists and
 * objects are all `Other`, since nothing in the modelled code looks inside
 * them; JSON `null` (Python's `None`) is `Null`.
 */
module Json {
  datatype Value = Num(x: real) | Str(s: string) | Null | Other
}
