/** Log-space scores as the prefix trees store them.

    A score is an IEEE double that is either a finite log-probability or
    negative infinity (the trees' DEFAULT_VALUE). Positive infinity and NaN
    never arise from log-probabilities and are not represented. */
module Scores {

  datatype Option<+T> = None | Some(value: T)

  datatype Score = NegInf | Fin(v: real) {
    /** Double addition on log-probabilities: -infinity absorbs every other value. */
    function Add(other: Score): Score {
      if NegInf? || other.NegInf? then NegInf else Fin(v + other.v)
    }
  }

  /** The value a sparse probability table reports for a time step it has no entry for. */
  const DEFAULT_VALUE: Score := NegInf

  /** The double nearest to log(0.5), with which a flip-flop root seeds both states. */
  const LOG_HALF: real := -0.6931471805599453

  /** log(exp(a) + exp(b)); its floating-point body is not part of this model, so every
      tree takes it as a parameter and nothing is assumed about it. */
  type LogAddExp = (Score, Score) -> Score

  /** A lookup in a sparse time-indexed table that defaults to -infinity and never inserts. */
  function Lookup(table: map<int, Score>, t: int): (r: Score)
    ensures t in table ==> r == table[t]
    ensures t !in table ==> r == DEFAULT_VALUE
    ensures r.Fin? ==> t in table
  {
    if t in table then table[t] else DEFAULT_VALUE
  }
}
