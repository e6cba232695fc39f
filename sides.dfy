/** The two sides of a debate (`DebateSide`, models.py) and `opposite_side` (agent.py). */
module Sides {

  /** A string enum: each side compares equal to its value, "pro" or "con". */
  datatype DebateSide = Pro | Con {
    function Value(): (s: string)
      ensures s == "pro" || s == "con"
      ensures s == "pro" <==> this == Pro
    {
      match this
      case Pro => "pro"
      case Con => "con"
    }
  }

  /** The side the generated counter-argument takes: the student's opposite. */
  function OppositeSide(side: DebateSide): (r: DebateSide)
    ensures r != side
    ensures r.Value() == AgentSide(side.Value())
  {
    if side == Pro then Con else Pro
  }

  /** The same choice made on the side's string value, as the tracing attributes of the CLI do. */
  function AgentSide(studentSide: string): (agentSide: string)
    ensures agentSide == "pro" || agentSide == "con"
    ensures agentSide == "con" <==> studentSide == "pro"
  {
    if studentSide == "pro" then "con" else "pro"
  }

  lemma OppositeOfPro()
    ensures OppositeSide(Pro) == Con
  {
  }

  lemma OppositeOfCon()
    ensures OppositeSide(Con) == Pro
  {
  }

  lemma OppositeInvolution(side: DebateSide)
    ensures OppositeSide(OppositeSide(side)) == side
  {
  }

  /** Two sides with the same value are the same side, so the string-level choice determines the enum-level one. */
  lemma ValueInjective(a: DebateSide, b: DebateSide)
    requires a.Value() == b.Value()
    ensures a == b
  {
  }
}
