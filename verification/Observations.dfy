/** Typed detector observations, atomic predicates over them, and emitted transitions. */
module Observations {
  import opened Prelude
  import opened Automaton

  type ElementId = nat
  type RuleId = nat

  datatype Value = Number(number: real) | Boolean(flag: bool) | Text(text: string) | NoValue

  datatype Status = Valid | Unknown | Error

  datatype Observation = Observation(
    element: ElementId,
    timestampMs: nat,
    value: Value,
    confidence: Option<real>,
    status: Status)

  datatype Transition = Transition(
    ruleId: RuleId,
    event: string,
    timestampMs: nat,
    signal: Signal,
    value: real,
    confidence: real)

  datatype AtomicPredicate =
    | IsBoolean(expected: bool)
    | TextEquals(text: string)
    | TextContains(needle: string)
    | NumericBelow(thresholdMicros: int)
    | NumericAbove(thresholdMicros: int)
    | ConfidenceAbove(thresholdMicros: int)

  function ConfidenceOr(o: Observation, default: real): real {
    if o.confidence.Some? then o.confidence.value else default
  }

  predicate Contains(text: string, needle: string) {
    exists i :: 0 <= i <= |text| - |needle| && OccursAt(text, needle, i)
  }

  predicate OccursAt(text: string, needle: string, i: nat)
    requires i + |needle| <= |text|
  {
    text[i..i + |needle|] == needle
  }

  /** 2 to the power -52. */
  const F64_EPSILON: real := 1.0 / 4503599627370496.0

  function Abs(x: real): real { if x < 0.0 then -x else x }

  /** Reads 0 and 1 as booleans, up to one machine epsilon. */
  function NumericBoolean(x: real): Option<bool> {
    if Abs(x) <= F64_EPSILON then Some(false)
    else if Abs(x - 1.0) <= F64_EPSILON then Some(true)
    else None
  }

  function Micros(threshold: int): real { threshold as real / 1000000.0 }

  function AtomicMatches(p: AtomicPredicate, v: Value): Option<bool> {
    match (p, v)
    case (IsBoolean(expected), Boolean(b)) => Some(b == expected)
    case (IsBoolean(expected), Number(x)) =>
      var b := NumericBoolean(x);
      if b.Some? then Some(b.value == expected) else None
    case (TextEquals(expected), Text(t)) => Some(t == expected)
    case (TextContains(needle), Text(t)) => Some(Contains(t, needle))
    case (NumericBelow(micros), Number(x)) => Some(x < Micros(micros))
    case (NumericAbove(micros), Number(x)) => Some(x > Micros(micros))
    case (_, _) => None
  }
}
