/** The two enumerations the rule engines depend on: the plasticity curve and the
  * direction policy (permeability) of memories, compartments and connections.
  * Both are stored in the database as their lower-case string values. */
module Enums {
  import opened Wrappers

  /** Shape of a plasticity or decay curve. */
  datatype Curve = Linear | Exponential | Logarithmic {
    function Value(): string {
      match this
      case Linear => "linear"
      case Exponential => "exponential"
      case Logarithmic => "logarithmic"
    }
  }

  /** `Curve(s)`: the member whose value is `s`; any other string raises ValueError. */
  function ParseCurve(s: string): (r: Option<Curve>)
    ensures r.Some? <==> s in {"linear", "exponential", "logarithmic"}
    ensures r.Some? ==> r.value.Value() == s
  {
    if s == "linear" then Some(Linear)
    else if s == "exponential" then Some(Exponential)
    else if s == "logarithmic" then Some(Logarithmic)
    else None
  }

  /** Direction policy. "Inward" means the holder may pull data in; "outward" means
    * data held inside may be exposed to the outside. */
  datatype Permeability = Open | Closed | OsmoticInward | OsmoticOutward {
    predicate AllowsInward() {
      this == Open || this == OsmoticInward
    }

    predicate AllowsOutward() {
      this == Open || this == OsmoticOutward
    }

    function Value(): string {
      match this
      case Open => "open"
      case Closed => "closed"
      case OsmoticInward => "osmotic_inward"
      case OsmoticOutward => "osmotic_outward"
    }
  }

  /** `Permeability(s)`: the member whose value is `s`; any other string raises ValueError. */
  function ParsePermeability(s: string): (r: Option<Permeability>)
    ensures r.Some? <==> s in {"open", "closed", "osmotic_inward", "osmotic_outward"}
    ensures r.Some? ==> r.value.Value() == s
  {
    if s == "open" then Some(Open)
    else if s == "closed" then Some(Closed)
    else if s == "osmotic_inward" then Some(OsmoticInward)
    else if s == "osmotic_outward" then Some(OsmoticOutward)
    else None
  }

  /** OPEN lets data through both ways, CLOSED neither way, and each osmotic value
    * exactly one way. */
  lemma DirectionTable()
    ensures Open.AllowsInward() && Open.AllowsOutward()
    ensures !Closed.AllowsInward() && !Closed.AllowsOutward()
    ensures OsmoticInward.AllowsInward() && !OsmoticInward.AllowsOutward()
    ensures !OsmoticOutward.AllowsInward() && OsmoticOutward.AllowsOutward()
  {
  }

  /** The pair (inward, outward) tells the four values apart. */
  lemma DirectionsDetermineValue(p: Permeability, q: Permeability)
    requires p.AllowsInward() == q.AllowsInward()
    requires p.AllowsOutward() == q.AllowsOutward()
    ensures p == q
  {
  }

  /** Parsing a value's string gives the value back, and only such strings parse. */
  lemma PermeabilityRoundTrip(p: Permeability, s: string)
    ensures ParsePermeability(p.Value()) == Some(p)
    ensures ParsePermeability(s) == Some(p) <==> s == p.Value()
  {
  }

  lemma CurveRoundTrip(c: Curve, s: string)
    ensures ParseCurve(c.Value()) == Some(c)
    ensures ParseCurve(s) == Some(c) <==> s == c.Value()
  {
  }
}
