/** From signal to probability, and the Newton fit of the logistic map. */
module Calibration {
  import opened Wrappers
  import opened Transcendental

  datatype Platt = Platt(a: real, b: real)

  datatype Mapping = Affine | Logistic

  function Line(params: Platt, s: real): real {
    params.a + Times(params.b, s)
  }

  function Apply(m: Math, params: Platt, s: real): real {
    m.Sigmoid(Line(params, s))
  }

  function ToProbability(m: Math, sT: real, mapping: Mapping, params: Option<Platt>): Result<real, string> {
    if !(-1.0 <= sT <= 1.0) then Err("s_t outside [-1, 1]")
    else
      match mapping
      case Affine => Ok((sT + 1.0) / 2.0)
      case Logistic =>
        if params.None? then Err("the logistic map requires fitted params") else Ok(Apply(m, params.value, sT))
  }

  /** Whatever is mapped lands in `[0, 1]`, in the order of the signals when the slope is positive. */
  lemma {:induction false} MappedProbabilitiesAreOrdered(m: Math, s: real, t: real, mapping: Mapping,
      params: Option<Platt>)
    requires m.Lawful() && -1.0 <= s < t <= 1.0
    requires mapping == Logistic ==> params.Some? && params.value.b > 0.0
    ensures var p, q := ToProbability(m, s, mapping, params), ToProbability(m, t, mapping, params);
      p.Ok? && q.Ok? && 0.0 <= p.value < q.value <= 1.0
  {
    if mapping == Logistic {
      LineIncreases(params.value, s, t);
      m.SigmoidIsLogistic(Line(params.value, s));
      m.SigmoidIsLogistic(Line(params.value, t));
      m.SigmoidIncreases(Line(params.value, s), Line(params.value, t));
    }
  }

  lemma LineIncreases(params: Platt, s: real, t: real)
    requires params.b > 0.0 && s < t
    ensures Line(params, s) < Line(params, t)
  {
    MulMonotone(s, t, params.b);
  }
}
