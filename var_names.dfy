/** Variable-name conventions shared by the graph builders and passes. */
module VarNames {
  /** The suffix framework::GradVarName appends to a variable name. */
  const GradSuffix: string := "@GRAD"

  /** framework::GradVarName: the name of the gradient of `name`. */
  function GradVarName(name: string): (r: string)
    ensures |r| == |name| + |GradSuffix|
    ensures r[..|name|] == name && r[|name|..] == GradSuffix
  {
    name + GradSuffix
  }

  /** Distinct variables have distinct gradient names. */
  lemma GradVarNameInjective(a: string, b: string)
    requires GradVarName(a) == GradVarName(b)
    ensures a == b
  {
    assert a == GradVarName(a)[..|a|];
    assert b == GradVarName(b)[..|b|];
  }

  /** True when `sub` occurs in `s` at some position (std::string::find != npos). */
  predicate Contains(s: string, sub: string)
    decreases |s|
  {
    (|sub| <= |s| && s[..|sub|] == sub) || (|s| > 0 && Contains(s[1..], sub))
  }
}
