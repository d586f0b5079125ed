/** The graph the client keeps in its database, as values: the RELATES_TO connections
  * between memories, the HAS_CONCEPT relevances, the IN_COMPARTMENT memberships and the
  * lookup keys of the get-or-create nodes, together with the updates the client's
  * Cypher statements make to them and the post-processing it applies to query results. */
module GraphStore {
  import opened Wrappers
  import opened Enums
  import opened Models
  import opened Plasticity
  import Rules = Permeability

  /** A RELATES_TO connection from one memory to another. */
  datatype Edge = Edge(strength: real, relType: string, permeability: Permeability)

  /** The connections, keyed by (from, to); MERGE keeps at most one per ordered pair. */
  type Edges = map<(Id, Id), Edge>

  /** Every connection strength lies in [lo, hi]. */
  predicate Bounded(edges: Edges, lo: real, hi: real) {
    forall k :: k in edges ==> lo <= edges[k].strength <= hi
  }

  /** `get_memory_link_strength(a, b)`: the strength of the connection a -> b, if any. */
  function Strength(edges: Edges, a: Id, b: Id): Option<real> {
    if (a, b) in edges then Some(edges[(a, b)].strength) else None
  }

  // ---------------------------------------------------------------- one connection

  /** `CASE WHEN s + amount > max THEN max ELSE s + amount END`. */
  function Raised(e: Edge, amount: real, max: real): Edge {
    e.(strength := if e.strength + amount > max then max else e.strength + amount)
  }

  /** `CASE WHEN s - amount < min THEN min ELSE s - amount END`. */
  function Lowered(e: Edge, amount: real, min: real): Edge {
    e.(strength := if e.strength - amount < min then min else e.strength - amount)
  }

  /** Raising by a non-negative amount keeps a strength in [lo, hi] when the cap is in
    * that range, and never lowers a strength at or below the cap; lowering is the
    * mirror image. */
  lemma ClampedSteps(e: Edge, amount: real, min: real, max: real, lo: real, hi: real)
    requires 0.0 <= amount
    ensures e.strength <= max ==> e.strength <= Raised(e, amount, max).strength <= max
    ensures min <= e.strength ==> min <= Lowered(e, amount, min).strength <= e.strength
    ensures lo <= e.strength <= hi && lo <= max <= hi ==> lo <= Raised(e, amount, max).strength <= hi
    ensures lo <= e.strength <= hi && lo <= min <= hi ==> lo <= Lowered(e, amount, min).strength <= hi
  {
  }

  // ---------------------------------------------------------------- link, strengthen, weaken

  /** `link_memories`' MERGE: a connection a -> b is created only when both memories
    * exist and there is none yet; an existing connection keeps its strength, type and
    * permeability. */
  function Linked(edges: Edges, memories: set<Id>, a: Id, b: Id, e: Edge): (r: Edges)
    ensures r.Keys == if a in memories && b in memories then edges.Keys + {(a, b)} else edges.Keys
    ensures forall k :: k in edges ==> r[k] == edges[k]
    ensures (a, b) in r && (a, b) !in edges ==> r[(a, b)] == e
  {
    if a in memories && b in memories && (a, b) !in edges then edges[(a, b) := e] else edges
  }

  /** `strengthen_memory_link`'s SET: only an existing connection a -> b changes; its
    * strength becomes `s + amount`, or `max` when that sum passes `max`, so it is not
    * lowered and it does not pass `max`. */
  function StrengthenedPair(edges: Edges, a: Id, b: Id, amount: real, max: real): (r: Edges)
    ensures r.Keys == edges.Keys
    ensures forall k :: k in edges && k != (a, b) ==> r[k] == edges[k]
    ensures (a, b) in edges ==> r[(a, b)].relType == edges[(a, b)].relType
                                && r[(a, b)].permeability == edges[(a, b)].permeability
    ensures (a, b) in edges && edges[(a, b)].strength + amount <= max ==>
              r[(a, b)].strength == edges[(a, b)].strength + amount
    ensures (a, b) in edges && edges[(a, b)].strength + amount > max ==> r[(a, b)].strength == max
    ensures (a, b) in edges && 0.0 <= amount && edges[(a, b)].strength <= max ==>
              edges[(a, b)].strength <= r[(a, b)].strength <= max
  {
    if (a, b) in edges then edges[(a, b) := Raised(edges[(a, b)], amount, max)] else edges
  }

  /** `weaken_memory_link`'s SET: only an existing connection a -> b changes; its
    * strength becomes `s - amount`, or `min` when that difference is below `min`, so it
    * is not raised and it does not fall below `min`. */
  function WeakenedPair(edges: Edges, a: Id, b: Id, amount: real, min: real): (r: Edges)
    ensures r.Keys == edges.Keys
    ensures forall k :: k in edges && k != (a, b) ==> r[k] == edges[k]
    ensures (a, b) in edges ==> r[(a, b)].relType == edges[(a, b)].relType
                                && r[(a, b)].permeability == edges[(a, b)].permeability
    ensures (a, b) in edges && edges[(a, b)].strength - amount >= min ==>
              r[(a, b)].strength == edges[(a, b)].strength - amount
    ensures (a, b) in edges && edges[(a, b)].strength - amount < min ==> r[(a, b)].strength == min
    ensures (a, b) in edges && 0.0 <= amount && min <= edges[(a, b)].strength ==>
              min <= r[(a, b)].strength <= edges[(a, b)].strength
  {
    if (a, b) in edges then edges[(a, b) := Lowered(edges[(a, b)], amount, min)] else edges
  }

  /** `set_connection_permeability`: the connection a -> b, if any, gets the new
    * permeability and keeps its strength. */
  function WithConnectionPermeability(edges: Edges, a: Id, b: Id, p: Permeability): (r: Edges)
    ensures r.Keys == edges.Keys
    ensures forall k :: k in edges && k != (a, b) ==> r[k] == edges[k]
    ensures (a, b) in edges ==> r[(a, b)].permeability == p && r[(a, b)].strength == edges[(a, b)].strength
  {
    if (a, b) in edges then edges[(a, b) := edges[(a, b)].(permeability := p)] else edges
  }

  /** The amount `strengthen_memory_link` / `weaken_memory_link` apply: the curve's
    * amount at the current strength when none is given, else the given amount times the
    * learning rate. */
  function LinkAmount(c: Config, m: RealMath, context: string, current: real, amount: Option<real>): (r: real)
    ensures c.learningRate == 0.0 ==> r == 0.0
  {
    if amount.None? then EffectiveAmount(c, m, context, current) else amount.value * c.learningRate
  }

  /** `strengthen_memory_link(a, b, amount)`: the current strength (0.0 without a
    * connection) picks the curve's amount; a non-positive amount changes nothing; only
    * an existing connection a -> b is raised, capped at `max_strength`. */
  function StrengthenLink(c: Config, m: RealMath, edges: Edges, a: Id, b: Id, amount: Option<real>): (r: Edges)
    ensures r.Keys == edges.Keys
    ensures forall k :: k in edges && k != (a, b) ==> r[k] == edges[k]
    ensures LinkAmount(c, m, "strengthen", Strength(edges, a, b).GetOr(0.0), amount) <= 0.0 ==> r == edges
    ensures (a, b) in edges && edges[(a, b)].strength <= c.maxStrength ==>
              edges[(a, b)].strength <= r[(a, b)].strength <= c.maxStrength
    ensures var eff := LinkAmount(c, m, "strengthen", Strength(edges, a, b).GetOr(0.0), amount);
            (a, b) in edges && eff > 0.0 ==>
              && r[(a, b)].strength == (if edges[(a, b)].strength + eff > c.maxStrength then c.maxStrength
                                        else edges[(a, b)].strength + eff)
              && r[(a, b)].relType == edges[(a, b)].relType
              && r[(a, b)].permeability == edges[(a, b)].permeability
  {
    var eff := LinkAmount(c, m, "strengthen", Strength(edges, a, b).GetOr(0.0), amount);
    if eff <= 0.0 then edges else StrengthenedPair(edges, a, b, eff, c.maxStrength)
  }

  /** `weaken_memory_link(a, b, amount)`: the current strength picks the curve's amount,
    * with a missing or 0.0 strength read as 1.0 (`or 1.0`); a non-positive amount
    * changes nothing; only an existing connection a -> b is lowered, floored at
    * `min_strength`. */
  function WeakenLink(c: Config, m: RealMath, edges: Edges, a: Id, b: Id, amount: Option<real>): (r: Edges)
    ensures r.Keys == edges.Keys
    ensures forall k :: k in edges && k != (a, b) ==> r[k] == edges[k]
    ensures LinkAmount(c, m, "weaken", WeakenCurrent(Strength(edges, a, b)), amount) <= 0.0 ==> r == edges
    ensures (a, b) in edges && c.minStrength <= edges[(a, b)].strength ==>
              c.minStrength <= r[(a, b)].strength <= edges[(a, b)].strength
    ensures var eff := LinkAmount(c, m, "weaken", WeakenCurrent(Strength(edges, a, b)), amount);
            (a, b) in edges && eff > 0.0 ==>
              && r[(a, b)].strength == (if edges[(a, b)].strength - eff < c.minStrength then c.minStrength
                                        else edges[(a, b)].strength - eff)
              && r[(a, b)].relType == edges[(a, b)].relType
              && r[(a, b)].permeability == edges[(a, b)].permeability
  {
    var eff := LinkAmount(c, m, "weaken", WeakenCurrent(Strength(edges, a, b)), amount);
    if eff <= 0.0 then edges else WeakenedPair(edges, a, b, eff, c.minStrength)
  }

  /** `get_memory_link_strength(...) or 1.0`. */
  function WeakenCurrent(s: Option<real>): (r: real)
    ensures r != 0.0
    ensures r == 1.0 || (s.Some? && r == s.value)
  {
    if s.Some? && s.value != 0.0 then s.value else 1.0
  }

  /** With an explicit amount that clamps neither way, weakening undoes strengthening
    * and the connection comes back as it was. */
  lemma StrengthenWeakenRoundTrip(c: Config, m: RealMath, edges: Edges, a: Id, b: Id, x: real)
    requires (a, b) in edges && x * c.learningRate > 0.0
    requires edges[(a, b)].strength + x * c.learningRate <= c.maxStrength
    requires c.minStrength <= edges[(a, b)].strength
    ensures WeakenLink(c, m, StrengthenLink(c, m, edges, a, b, Some(x)), a, b, Some(x)) == edges
  {
    var up := StrengthenLink(c, m, edges, a, b, Some(x));
    assert up == edges[(a, b) := Raised(edges[(a, b)], x * c.learningRate, c.maxStrength)];
    assert WeakenLink(c, m, up, a, b, Some(x)) == up[(a, b) := Lowered(up[(a, b)], x * c.learningRate, c.minStrength)];
  }

  // ---------------------------------------------------------------- decay and pruning

  /** `decay_weak_connections`' SET: every connection below `threshold` (every one when
    * `all`) is lowered by `amount`, floored at `min`; the others are left alone. */
  function Decayed(edges: Edges, threshold: real, amount: real, min: real, all: bool): (r: Edges)
    ensures r.Keys == edges.Keys
    ensures forall k :: k in edges && !all && edges[k].strength >= threshold ==> r[k] == edges[k]
    ensures forall k :: k in edges && (all || edges[k].strength < threshold) ==>
              && r[k].strength == (if edges[k].strength - amount < min then min else edges[k].strength - amount)
              && r[k].relType == edges[k].relType && r[k].permeability == edges[k].permeability
    ensures 0.0 <= amount ==>
              forall k :: k in edges && min <= edges[k].strength ==> min <= r[k].strength <= edges[k].strength
  {
    map k | k in edges :: if all || edges[k].strength < threshold then Lowered(edges[k], amount, min) else edges[k]
  }

  /** `prune_dead_connections`' DELETE: exactly the connections with strength at most
    * `t` disappear; the survivors are unchanged. */
  function Pruned(edges: Edges, t: real): (r: Edges)
    ensures forall k :: k in r <==> k in edges && edges[k].strength > t
    ensures forall k :: k in r ==> r[k] == edges[k]
  {
    map k | k in edges && edges[k].strength > t :: edges[k]
  }

  /** What `decay_weak_connections(threshold, amount)` does once the arguments are
    * resolved: nothing at all when the amount is not positive (not even pruning);
    * otherwise decay, then prune at `prune_threshold` when `auto_prune` is set. */
  function AfterDecay(c: Config, edges: Edges, threshold: real, amount: real): (r: Edges)
    ensures amount <= 0.0 ==> r == edges
    ensures r.Keys <= edges.Keys
    ensures amount > 0.0 && c.autoPrune ==> forall k :: k in r ==> r[k].strength > c.pruneThreshold
    ensures amount > 0.0 ==>
              forall k :: k in r ==>
                r[k].strength == if !c.decayAll && edges[k].strength >= threshold then edges[k].strength
                                 else if edges[k].strength - amount < c.minStrength then c.minStrength
                                 else edges[k].strength - amount
  {
    if amount <= 0.0 then edges
    else
      var d := Decayed(edges, threshold, amount, c.minStrength, c.decayAll);
      if c.autoPrune then Pruned(d, c.pruneThreshold) else d
  }

  /** What one decay does to each connection: a connection subject to decay (below the
    * threshold, or any under `decay_all`) ends at `max(s - amount, min_strength)`, and
    * with `auto_prune` it is gone when that value is at or below the prune threshold; any
    * other connection is kept as it was unless pruning removes it. */
  lemma DecayEffect(c: Config, edges: Edges, threshold: real, amount: real)
    requires amount > 0.0
    ensures var r := AfterDecay(c, edges, threshold, amount);
            forall k :: k in edges && (c.decayAll || edges[k].strength < threshold) ==>
              var v := if edges[k].strength - amount < c.minStrength then c.minStrength else edges[k].strength - amount;
              && (k in r <==> !c.autoPrune || v > c.pruneThreshold)
              && (k in r ==> r[k].strength == v)
    ensures var r := AfterDecay(c, edges, threshold, amount);
            forall k :: k in edges && !c.decayAll && edges[k].strength >= threshold ==>
              && (k in r <==> !c.autoPrune || edges[k].strength > c.pruneThreshold)
              && (k in r ==> r[k] == edges[k])
  {
  }

  /** The decay amount used when none is given: `effective_amount('decay', 0.5)`. */
  function DefaultDecayAmount(c: Config, m: RealMath): real {
    EffectiveAmount(c, m, "decay", 0.5)
  }

  /** `n` maintenance cycles: each one is `decay_weak_connections()` with its defaults. */
  function Maintained(c: Config, m: RealMath, edges: Edges, n: nat): (r: Edges)
    ensures r.Keys <= edges.Keys
    decreases n
  {
    if n == 0 then edges
    else Maintained(c, m, AfterDecay(c, edges, c.decayThreshold, DefaultDecayAmount(c, m)), n - 1)
  }

  /** Decay keeps every strength within bounds that contain the floor, never adds a
    * connection, and, with `auto_prune`, leaves no connection at or below the prune
    * threshold. */
  lemma {:induction false} AfterDecayBounded(c: Config, edges: Edges, threshold: real, amount: real, lo: real, hi: real)
    requires Bounded(edges, lo, hi) && lo <= c.minStrength <= hi
    ensures Bounded(AfterDecay(c, edges, threshold, amount), lo, hi)
  {
    if amount > 0.0 {
      var d := Decayed(edges, threshold, amount, c.minStrength, c.decayAll);
      forall k | k in d ensures lo <= d[k].strength <= hi {
        ClampedSteps(edges[k], amount, c.minStrength, c.maxStrength, lo, hi);
      }
    }
  }

  /** One more maintenance cycle after `n` is `n + 1` cycles. */
  lemma {:induction false} MaintainedStep(c: Config, m: RealMath, edges: Edges, n: nat)
    ensures Maintained(c, m, edges, n + 1) == AfterDecay(c, Maintained(c, m, edges, n), c.decayThreshold, DefaultDecayAmount(c, m))
    decreases n
  {
    if n > 0 {
      MaintainedStep(c, m, AfterDecay(c, edges, c.decayThreshold, DefaultDecayAmount(c, m)), n - 1);
    }
  }

  /** Any number of maintenance cycles keeps the strengths within such bounds, only
    * removes connections, and after at least one effective cycle with `auto_prune` no
    * connection at or below the prune threshold is left. */
  lemma {:induction false} MaintenanceSpec(c: Config, m: RealMath, edges: Edges, n: nat, lo: real, hi: real)
    requires Bounded(edges, lo, hi) && lo <= c.minStrength <= hi
    ensures Bounded(Maintained(c, m, edges, n), lo, hi)
    ensures Maintained(c, m, edges, n).Keys <= edges.Keys
    ensures n > 0 && DefaultDecayAmount(c, m) > 0.0 && c.autoPrune ==>
              forall k :: k in Maintained(c, m, edges, n) ==> Maintained(c, m, edges, n)[k].strength > c.pruneThreshold
    ensures DefaultDecayAmount(c, m) <= 0.0 ==> Maintained(c, m, edges, n) == edges
    decreases n
  {
    if n > 0 {
      var next := AfterDecay(c, edges, c.decayThreshold, DefaultDecayAmount(c, m));
      AfterDecayBounded(c, edges, c.decayThreshold, DefaultDecayAmount(c, m), lo, hi);
      MaintenanceSpec(c, m, next, n - 1, lo, hi);
      if n > 1 && DefaultDecayAmount(c, m) > 0.0 && c.autoPrune {
        PrunedStaysPruned(c, m, next, n - 1);
      }
    }
  }

  /** Once every connection is above the prune threshold, further cycles keep it so. */
  lemma {:induction false} PrunedStaysPruned(c: Config, m: RealMath, edges: Edges, n: nat)
    requires DefaultDecayAmount(c, m) > 0.0 && c.autoPrune && n > 0
    ensures forall k :: k in Maintained(c, m, edges, n) ==> Maintained(c, m, edges, n)[k].strength > c.pruneThreshold
    decreases n
  {
    var next := AfterDecay(c, edges, c.decayThreshold, DefaultDecayAmount(c, m));
    if n > 1 {
      PrunedStaysPruned(c, m, next, n - 1);
    }
  }

  /** The decay statement and `effective_decay` disagree on a connection exactly at the
    * threshold: the statement leaves it alone (it selects `strength < threshold`) while
    * `effective_decay` still charges it (it only spares `strength > threshold`). */
  lemma DecayThresholdBoundary(c: Config, m: RealMath, edges: Edges, k: (Id, Id), amount: real, cycles: int)
    requires k in edges && edges[k].strength == c.decayThreshold && !c.decayAll
    requires c.decayCurve == Linear && c.decayAmount * c.learningRate * cycles as real > 0.0
    ensures Decayed(edges, c.decayThreshold, amount, c.minStrength, c.decayAll)[k] == edges[k]
    ensures EffectiveDecay(c, m, edges[k].strength, cycles).Ok? && EffectiveDecay(c, m, edges[k].strength, cycles).value > 0.0
  {
  }

  // ---------------------------------------------------------------- retrieval effects

  /** The retrieval SET: every connection pointing into `target` is raised, capped at
    * `max`; no other connection changes. */
  function RaisedInto(edges: Edges, target: Id, amount: real, max: real): (r: Edges)
    ensures r.Keys == edges.Keys
    ensures forall k :: k in edges && k.1 != target ==> r[k] == edges[k]
    ensures 0.0 <= amount ==>
              forall k :: k in edges && k.1 == target && edges[k].strength <= max ==>
                edges[k].strength <= r[k].strength <= max
    ensures forall k :: k in edges && k.1 == target ==>
              && r[k].strength == (if edges[k].strength + amount > max then max else edges[k].strength + amount)
              && r[k].relType == edges[k].relType && r[k].permeability == edges[k].permeability
  {
    map k | k in edges :: if k.1 == target then Raised(edges[k], amount, max) else edges[k]
  }

  /** `a` and `x` are joined by a connection in either direction. */
  predicate Adjacent(edges: Edges, a: Id, x: Id) {
    (a, x) in edges || (x, a) in edges
  }

  /** The connection `k` is matched by the competitor statement of `_weaken_competitors`:
    * one end is a neighbour of the accessed memory and the other end is not the
    * accessed memory. */
  predicate Competes(edges: Edges, accessed: Id, k: (Id, Id)) {
    || (Adjacent(edges, accessed, k.0) && k.1 != accessed)
    || (Adjacent(edges, accessed, k.1) && k.0 != accessed)
  }

  /** `_weaken_competitors`' SET, each matched connection lowered once, floored at `min`. */
  function CompetitorsWeakened(edges: Edges, accessed: Id, amount: real, min: real): (r: Edges)
    ensures r.Keys == edges.Keys
    ensures forall k :: k in edges && !Competes(edges, accessed, k) ==> r[k] == edges[k]
    ensures forall k :: k in edges && Competes(edges, accessed, k) ==>
              && r[k].strength == (if edges[k].strength - amount < min then min else edges[k].strength - amount)
              && r[k].relType == edges[k].relType && r[k].permeability == edges[k].permeability
    ensures 0.0 <= amount ==>
              forall k :: k in edges && min <= edges[k].strength ==> min <= r[k].strength <= edges[k].strength
  {
    map k | k in edges :: if Competes(edges, accessed, k) then Lowered(edges[k], amount, min) else edges[k]
  }

  /** Without a self-connection on the accessed memory, competitor weakening leaves
    * every connection that touches the accessed memory as it was. */
  lemma {:induction false} CompetitorsSpareAccessed(edges: Edges, accessed: Id, amount: real, min: real)
    requires (accessed, accessed) !in edges
    ensures forall k :: k in edges && (k.0 == accessed || k.1 == accessed) ==>
              CompetitorsWeakened(edges, accessed, amount, min)[k] == edges[k]
  {
    forall k | k in edges && (k.0 == accessed || k.1 == accessed)
      ensures !Competes(edges, accessed, k)
    {
      assert !Adjacent(edges, accessed, accessed);
    }
  }

  /** The assumption is needed: with a self-connection, the accessed memory is its own
    * neighbour, so its other connections are weakened as competitors. */
  lemma SelfConnectionExposesAccessed(edges: Edges, accessed: Id, other: Id, amount: real, min: real)
    requires (accessed, accessed) in edges && (accessed, other) in edges && other != accessed
    requires amount > 0.0 && edges[(accessed, other)].strength - amount >= min
    ensures CompetitorsWeakened(edges, accessed, amount, min)[(accessed, other)].strength
            < edges[(accessed, other)].strength
  {
  }

  /** The amount `_apply_retrieval_effects` raises incoming connections by. */
  function RetrievalBoost(c: Config, m: RealMath): real {
    EffectiveAmount(c, m, "retrieval", 0.5)
  }

  /** The amount `_weaken_competitors` lowers competitor connections by. */
  function CompetitorAmount(c: Config): real {
    c.weakenAmount * c.learningRate * c.competitorDistance
  }

  /** The connections after `_apply_retrieval_effects(accessed, ...)`: nothing at all
    * without `retrieval_strengthens`; otherwise the connections into the accessed
    * memory are raised (when the amount is positive) and then, with
    * `retrieval_weakens_competitors`, the competitor connections are lowered (when
    * their amount is positive). */
  function AfterRetrieval(c: Config, m: RealMath, edges: Edges, accessed: Id): (r: Edges)
    ensures !c.retrievalStrengthens ==> r == edges
    ensures r.Keys == edges.Keys
    ensures forall k :: k in edges && k.1 != accessed && !Competes(edges, accessed, k) ==> r[k] == edges[k]
  {
    if !c.retrievalStrengthens then edges
    else
      var raised := if RetrievalBoost(c, m) > 0.0 then RaisedInto(edges, accessed, RetrievalBoost(c, m), c.maxStrength)
                    else edges;
      assert forall k :: Competes(raised, accessed, k) == Competes(edges, accessed, k);
      if c.retrievalWeakensCompetitors && CompetitorAmount(c) > 0.0 then
        CompetitorsWeakened(raised, accessed, CompetitorAmount(c), c.minStrength)
      else raised
  }

  /** With both retrieval effects on, every competitor connection that does not point
    * into the accessed memory ends at `max(s - amount, min_strength)` for the competitor
    * amount `weaken_amount * learning_rate * competitor_distance`. */
  lemma {:induction false} RetrievalWeakensCompetitors(c: Config, m: RealMath, edges: Edges, accessed: Id)
    requires c.retrievalStrengthens && c.retrievalWeakensCompetitors && CompetitorAmount(c) > 0.0
    ensures forall k :: k in edges && k.1 != accessed && Competes(edges, accessed, k) ==>
              AfterRetrieval(c, m, edges, accessed)[k].strength
              == (if edges[k].strength - CompetitorAmount(c) < c.minStrength then c.minStrength
                  else edges[k].strength - CompetitorAmount(c))
  {
    var raised := if RetrievalBoost(c, m) > 0.0 then RaisedInto(edges, accessed, RetrievalBoost(c, m), c.maxStrength)
                  else edges;
    forall k | k in edges && k.1 != accessed && Competes(edges, accessed, k)
      ensures Competes(raised, accessed, k) && raised[k] == edges[k]
    {
    }
  }

  /** Retrieval keeps every strength within [min_strength, max_strength]. */
  lemma {:induction false} RetrievalBounded(c: Config, m: RealMath, edges: Edges, accessed: Id)
    requires Bounded(edges, c.minStrength, c.maxStrength) && c.minStrength <= c.maxStrength
    ensures Bounded(AfterRetrieval(c, m, edges, accessed), c.minStrength, c.maxStrength)
  {
    if c.retrievalStrengthens {
      var amount := RetrievalBoost(c, m);
      var raised := if amount > 0.0 then RaisedInto(edges, accessed, amount, c.maxStrength) else edges;
      forall k | k in raised ensures c.minStrength <= raised[k].strength <= c.maxStrength {
        if amount > 0.0 {
          ClampedSteps(edges[k], amount, c.minStrength, c.maxStrength, c.minStrength, c.maxStrength);
        }
      }
      if c.retrievalWeakensCompetitors && CompetitorAmount(c) > 0.0 {
        var r := CompetitorsWeakened(raised, accessed, CompetitorAmount(c), c.minStrength);
        forall k | k in r ensures c.minStrength <= r[k].strength <= c.maxStrength {
          ClampedSteps(raised[k], CompetitorAmount(c), c.minStrength, c.maxStrength, c.minStrength, c.maxStrength);
        }
      }
    }
  }

  /** Without a self-connection on the accessed memory, retrieval raises (capped) every
    * connection into it and leaves every connection out of it alone: competitor
    * weakening never reaches the accessed memory's own connections. */
  lemma {:induction false} RetrievalFavoursAccessed(c: Config, m: RealMath, edges: Edges, accessed: Id)
    requires c.retrievalStrengthens && (accessed, accessed) !in edges
    ensures forall k :: k in edges && k.1 == accessed && edges[k].strength <= c.maxStrength ==>
              edges[k].strength <= AfterRetrieval(c, m, edges, accessed)[k].strength <= c.maxStrength
    ensures forall k :: k in edges && k.0 == accessed && k.1 != accessed ==>
              AfterRetrieval(c, m, edges, accessed)[k] == edges[k]
    ensures RetrievalBoost(c, m) > 0.0 ==>
              forall k :: k in edges && k.1 == accessed && edges[k].strength + RetrievalBoost(c, m) <= c.maxStrength ==>
                AfterRetrieval(c, m, edges, accessed)[k].strength == edges[k].strength + RetrievalBoost(c, m)
  {
    var amount := RetrievalBoost(c, m);
    var raised := if amount > 0.0 then RaisedInto(edges, accessed, amount, c.maxStrength) else edges;
    if c.retrievalWeakensCompetitors && CompetitorAmount(c) > 0.0 {
      CompetitorsSpareAccessed(raised, accessed, CompetitorAmount(c), c.minStrength);
    }
  }

  // ---------------------------------------------------------------- concept relevance

  /** HAS_CONCEPT relevances, keyed by (memory, concept). */
  type Relevances = map<(Id, Id), real>

  /** `link_memory_to_concept`'s MERGE: created only between an existing memory and an
    * existing concept, and an existing relevance is kept. */
  function RelevanceLinked(rel: Relevances, memories: set<Id>, concepts: set<Id>, mid: Id, cid: Id, relevance: real): (r: Relevances)
    ensures r.Keys == if mid in memories && cid in concepts then rel.Keys + {(mid, cid)} else rel.Keys
    ensures forall k :: k in rel ==> r[k] == rel[k]
    ensures (mid, cid) in r && (mid, cid) !in rel ==> r[(mid, cid)] == relevance
  {
    if mid in memories && cid in concepts && (mid, cid) !in rel then rel[(mid, cid) := relevance] else rel
  }

  /** `strengthen_concept_relevance`'s SET: capped at 1.0, only this pair changes. */
  function RelevanceRaised(rel: Relevances, mid: Id, cid: Id, amount: real): (r: Relevances)
    ensures r.Keys == rel.Keys
    ensures forall k :: k in rel && k != (mid, cid) ==> r[k] == rel[k]
    ensures (mid, cid) in rel && 0.0 <= amount && rel[(mid, cid)] <= 1.0 ==>
              rel[(mid, cid)] <= r[(mid, cid)] <= 1.0
    ensures (mid, cid) in rel && rel[(mid, cid)] + amount <= 1.0 ==> r[(mid, cid)] == rel[(mid, cid)] + amount
    ensures (mid, cid) in rel && rel[(mid, cid)] + amount > 1.0 ==> r[(mid, cid)] == 1.0
  {
    if (mid, cid) in rel then
      rel[(mid, cid) := if rel[(mid, cid)] + amount > 1.0 then 1.0 else rel[(mid, cid)] + amount]
    else rel
  }

  /** `weaken_concept_relevance`'s SET: floored at 0.0, only this pair changes. */
  function RelevanceLowered(rel: Relevances, mid: Id, cid: Id, amount: real): (r: Relevances)
    ensures r.Keys == rel.Keys
    ensures forall k :: k in rel && k != (mid, cid) ==> r[k] == rel[k]
    ensures (mid, cid) in rel && 0.0 <= amount && 0.0 <= rel[(mid, cid)] ==>
              0.0 <= r[(mid, cid)] <= rel[(mid, cid)]
    ensures (mid, cid) in rel && rel[(mid, cid)] - amount >= 0.0 ==> r[(mid, cid)] == rel[(mid, cid)] - amount
    ensures (mid, cid) in rel && rel[(mid, cid)] - amount < 0.0 ==> r[(mid, cid)] == 0.0
  {
    if (mid, cid) in rel then
      rel[(mid, cid) := if rel[(mid, cid)] - amount < 0.0 then 0.0 else rel[(mid, cid)] - amount]
    else rel
  }

  /** Weakening a relevance by the amount it was just strengthened by restores it, when
    * neither step clamps. */
  lemma {:induction false} RelevanceRoundTrip(rel: Relevances, mid: Id, cid: Id, amount: real)
    requires (mid, cid) in rel && 0.0 <= rel[(mid, cid)] && rel[(mid, cid)] + amount <= 1.0
    ensures RelevanceLowered(RelevanceRaised(rel, mid, cid, amount), mid, cid, amount) == rel
  {
    var up := RelevanceRaised(rel, mid, cid, amount);
    assert up == rel[(mid, cid) := rel[(mid, cid)] + amount];
  }

  // ---------------------------------------------------------------- Hebbian learning

  /** Which current strength a Hebbian pair hands to the curve. `AsWritten` is the
    * program's `strength_fwd or strength_rev`, which takes an existing forward
    * connection of strength 0.0 for a missing one; `Intended` takes the forward
    * strength whenever that connection exists. The client runs `AsWritten`. */
  datatype Reading = AsWritten | Intended

  /** `strength_fwd or strength_rev`: a forward strength of 0.0 is falsy. */
  function HebbianCurrentAsWritten(fwd: Option<real>, rev: Option<real>): (r: Option<real>)
    ensures r.None? <==> (fwd.None? || fwd.value == 0.0) && rev.None?
    ensures fwd.Some? && fwd.value == 0.0 ==> r == rev
  {
    if fwd.Some? && fwd.value != 0.0 then fwd else rev
  }

  /** The intended current strength: the forward strength when that connection exists,
    * else the reverse one. */
  function HebbianCurrent(fwd: Option<real>, rev: Option<real>): (r: Option<real>)
    ensures r.Some? <==> fwd.Some? || rev.Some?
    ensures fwd.Some? ==> r == fwd
    ensures fwd.None? ==> r == rev
  {
    if fwd.Some? then fwd else rev
  }

  /** The two readings agree except on a forward strength of exactly 0.0. */
  lemma HebbianReadingsAgree(fwd: Option<real>, rev: Option<real>)
    requires fwd.None? || fwd.value != 0.0
    ensures HebbianCurrentAsWritten(fwd, rev) == HebbianCurrent(fwd, rev)
  {
  }

  /** What a Hebbian pair reads from the configuration besides its flags: the implicit
    * initial strength of a new connection and the curve's Hebbian amount at a given
    * current strength. Neither changes during a run, so a run reads them once. */
  datatype HebbianRates = HebbianRates(initial: real, amountAt: real -> real)

  function RatesOf(c: Config, m: RealMath): HebbianRates {
    HebbianRates(GetInitialStrength(c, false, None, None), (current: real) => EffectiveAmount(c, m, "hebbian", current))
  }

  /** The amount `apply_hebbian_learning` hands to `strengthen_memory_link` for a pair
    * with at least one direction connected: the explicit amount unless it is absent or
    * 0.0 (falsy), else the curve's Hebbian amount at the current strength. When the
    * reading gives no current strength (None), LINEAR does not look at it (so any value
    * stands in, see `LinearAmount`), while the other curves compute with it and raise
    * TypeError. */
  function HebbianEffective(reading: Reading, c: Config, k: HebbianRates, fwd: Option<real>, rev: Option<real>,
                            amount: Option<real>): (r: Result<real>)
    requires fwd.Some? || rev.Some?
    ensures r.Err? <==> && reading == AsWritten && c.curve != Linear && !(amount.Some? && amount.value != 0.0)
                        && fwd == Some(0.0) && rev.None?
    ensures r.Err? ==> r.error == TypeError
  {
    if amount.Some? && amount.value != 0.0 then Ok(amount.value)
    else
      var current := if reading == AsWritten then HebbianCurrentAsWritten(fwd, rev) else HebbianCurrent(fwd, rev);
      match current
      case Some(s) => Ok(k.amountAt(s))
      case None => if c.curve == Linear then Ok(k.amountAt(0.0)) else Err(TypeError)
  }

  /** The one case in which a Hebbian pair raises TypeError: the program's reading, a
    * non-linear curve, no explicit non-zero amount, and a forward connection of
    * strength 0.0 without a reverse one. */
  predicate HebbianRaises(reading: Reading, c: Config, edges: Edges, a: Id, b: Id, amount: Option<real>) {
    && reading == AsWritten && c.curve != Linear && !(amount.Some? && amount.value != 0.0)
    && Strength(edges, a, b) == Some(0.0) && Strength(edges, b, a).None?
  }

  /** One pair (a, b) of `apply_hebbian_learning` under the given reading. With neither
    * direction connected, both directions are created (HebbianCreate); otherwise each
    * existing direction is strengthened (HebbianStrengthen) by the effective amount
    * times the learning rate, and a scaled amount that is not positive changes nothing.
    * It raises TypeError in the `HebbianRaises` case and ValueError when a new pair's
    * initial strength is outside [0, 1]. */
  function HebbianPair(reading: Reading, t: Rules.Topology, c: Config, k: HebbianRates, edges: Edges, a: Id, b: Id,
                       amount: Option<real>, respect: bool): (r: Result<Edges>)
    ensures r.Err? ==> || (r.error == TypeError && HebbianRaises(reading, c, edges, a, b, amount))
                       || (r.error == ValueError && !(0.0 <= k.initial <= 1.0))
  {
    var fwd := Strength(edges, a, b);
    var rev := Strength(edges, b, a);
    if fwd.None? && rev.None? then HebbianCreate(t, c, k, edges, a, b, respect)
    else
      HebbianApply(c, edges, a, b, HebbianEffective(reading, c, k, fwd, rev, amount))
  }

  /** The existing-pair branch once the effective amount is known: an exception is
    * passed on; otherwise the amount is scaled by the learning rate, and a positive one
    * strengthens the pair (HebbianStrengthen). */
  function HebbianApply(c: Config, edges: Edges, a: Id, b: Id, effective: Result<real>): (r: Result<Edges>)
    ensures r.Err? <==> effective.Err?
    ensures r.Err? ==> r.error == effective.error
  {
    match effective
    case Err(e) => Err(e)
    case Ok(x) =>
      var scaled := x * c.learningRate;
      if scaled <= 0.0 then Ok(edges)
      else Ok(HebbianStrengthen(edges, a, b, scaled, c.maxStrength))
  }

  /** The program's reading on the two inputs that tell it apart from the intended one,
    * with the EXPONENTIAL curve and no amount. A lone forward connection of strength
    * 0.0 makes the pair, and a run over that pair, raise TypeError, where the intended
    * reading succeeds. With a reverse connection too, the curve is evaluated at the
    * reverse strength instead of at 0.0. */
  lemma HebbianZeroForward(t: Rules.Topology, c: Config, k: HebbianRates, a: Id, b: Id, e: Edge, rev: real,
                           respect: bool)
    requires c.curve == Exponential && a != b && e.strength == 0.0
    ensures HebbianPair(AsWritten, t, c, k, map[(a, b) := e], a, b, None, respect) == Err(TypeError)
    ensures HebbianRun(AsWritten, t, c, k, map[(a, b) := e], [(a, b)], None, respect) == (map[(a, b) := e], Failure(TypeError))
    ensures HebbianPair(Intended, t, c, k, map[(a, b) := e], a, b, None, respect).Ok?
    ensures HebbianEffective(AsWritten, c, k, Some(0.0), Some(rev), None) == Ok(k.amountAt(rev))
    ensures HebbianEffective(Intended, c, k, Some(0.0), Some(rev), None) == Ok(k.amountAt(0.0))
  {
    var edges := map[(a, b) := e];
    assert Strength(edges, a, b) == Some(0.0) && Strength(edges, b, a).None?;
  }

  /** Away from a forward connection of strength 0.0 the two readings run a pair alike. */
  lemma HebbianPairReadingsAgree(t: Rules.Topology, c: Config, k: HebbianRates, edges: Edges, a: Id, b: Id,
                                 amount: Option<real>, respect: bool)
    requires Strength(edges, a, b) != Some(0.0)
    ensures HebbianPair(AsWritten, t, c, k, edges, a, b, amount, respect)
         == HebbianPair(Intended, t, c, k, edges, a, b, amount, respect)
  {
    var fwd, rev := Strength(edges, a, b), Strength(edges, b, a);
    if fwd.Some? || rev.Some? {
      HebbianReadingsAgree(fwd, rev);
      assert HebbianEffective(AsWritten, c, k, fwd, rev, amount) == HebbianEffective(Intended, c, k, fwd, rev, amount);
    }
  }

  /** A pair with neither direction connected, between two existing memories, with
    * creation on, the compartments allowing it when asked, and an initial strength in
    * [0, 1], gains exactly the two connections a -> b and b -> a of type "hebbian" at the
    * implicit initial strength. */
  lemma {:induction false} HebbianPairCreates(reading: Reading, t: Rules.Topology, c: Config, k: HebbianRates, edges: Edges,
                                            a: Id, b: Id, amount: Option<real>, respect: bool)
    requires (a, b) !in edges && (b, a) !in edges && a in t.memories && b in t.memories
    requires c.hebbianCreatesConnections && (respect ==> Rules.CanFormConnection(t, a, b)) && 0.0 <= k.initial <= 1.0
    ensures var e := Edge(k.initial, "hebbian", Open);
            HebbianPair(reading, t, c, k, edges, a, b, amount, respect) == Ok(edges[(a, b) := e][(b, a) := e])
  {
    var e := Edge(k.initial, "hebbian", Open);
    assert Strength(edges, a, b).None? && Strength(edges, b, a).None?;
    var r := HebbianCreate(t, c, k, edges, a, b, respect).value;
    assert r == edges[(a, b) := e][(b, a) := e];
  }

  /** A pair with a connection in some direction, outside the `HebbianRaises` case, has
    * each existing direction raised by the effective amount times the learning rate,
    * capped at `max_strength`, when that product is positive, and left alone otherwise. */
  lemma {:induction false} HebbianPairStrengthens(reading: Reading, t: Rules.Topology, c: Config, k: HebbianRates, edges: Edges,
                                                a: Id, b: Id, amount: Option<real>, respect: bool)
    requires a != b && ((a, b) in edges || (b, a) in edges) && !HebbianRaises(reading, c, edges, a, b, amount)
    ensures HebbianEffective(reading, c, k, Strength(edges, a, b), Strength(edges, b, a), amount).Ok?
    ensures var x := HebbianEffective(reading, c, k, Strength(edges, a, b), Strength(edges, b, a), amount).value * c.learningRate;
            var r := HebbianPair(reading, t, c, k, edges, a, b, amount, respect);
            && r.Ok? && r.value.Keys == edges.Keys
            && ((a, b) in edges ==>
                  r.value[(a, b)].strength == if x <= 0.0 then edges[(a, b)].strength
                                              else if edges[(a, b)].strength + x > c.maxStrength then c.maxStrength
                                              else edges[(a, b)].strength + x)
            && ((b, a) in edges ==>
                  r.value[(b, a)].strength == if x <= 0.0 then edges[(b, a)].strength
                                              else if edges[(b, a)].strength + x > c.maxStrength then c.maxStrength
                                              else edges[(b, a)].strength + x)
  {
    var fwd, rev := Strength(edges, a, b), Strength(edges, b, a);
    assert fwd.Some? || rev.Some?;
    var eff := HebbianEffective(reading, c, k, fwd, rev, amount);
    assert HebbianPair(reading, t, c, k, edges, a, b, amount, respect) == HebbianApply(c, edges, a, b, eff);
  }

  /** The new-pair branch: both directions are created at the implicit initial strength
    * when creation is enabled and, if asked, the compartments allow it;
    * `link_memories` refuses an initial strength outside [0, 1]. */
  function HebbianCreate(t: Rules.Topology, c: Config, k: HebbianRates, edges: Edges, a: Id, b: Id, respect: bool): (r: Result<Edges>)
    ensures r.Ok? && r.value != edges ==>
              c.hebbianCreatesConnections && (respect ==> Rules.CanFormConnection(t, a, b))
    ensures r.Ok? ==> r.value.Keys <= edges.Keys + {(a, b), (b, a)}
                      && forall k :: k in edges ==> k in r.value && r.value[k] == edges[k]
    ensures r.Err? ==> r.error == ValueError && !(0.0 <= k.initial <= 1.0)
    ensures && c.hebbianCreatesConnections && (respect ==> Rules.CanFormConnection(t, a, b))
            && a in t.memories && b in t.memories && 0.0 <= k.initial <= 1.0
            && (a, b) !in edges && (b, a) !in edges ==>
              && r.Ok?
              && r.value.Keys == edges.Keys + {(a, b), (b, a)}
              && r.value[(a, b)] == Edge(k.initial, "hebbian", Open)
              && r.value[(b, a)] == Edge(k.initial, "hebbian", Open)
  {
    if !c.hebbianCreatesConnections then Ok(edges)
    else if respect && !Rules.CanFormConnection(t, a, b) then Ok(edges)
    else
      if !(0.0 <= k.initial <= 1.0) then Err(ValueError)
      else
        var e := Edge(k.initial, "hebbian", Open);
        Ok(Linked(Linked(edges, t.memories.Keys, a, b, e), t.memories.Keys, b, a, e))
  }

  /** The existing-pair branch: each existing direction is strengthened, capped at
    * `max`, and the rest is kept. */
  function HebbianStrengthen(edges: Edges, a: Id, b: Id, amount: real, max: real): (r: Edges)
    ensures r.Keys == edges.Keys
    ensures forall k :: k in edges && k != (a, b) && k != (b, a) ==> r[k] == edges[k]
    ensures a != b && (a, b) in edges ==>
              r[(a, b)] == edges[(a, b)].(strength := if edges[(a, b)].strength + amount > max then max
                                                     else edges[(a, b)].strength + amount)
    ensures a != b && (b, a) in edges ==>
              r[(b, a)] == edges[(b, a)].(strength := if edges[(b, a)].strength + amount > max then max
                                                     else edges[(b, a)].strength + amount)
  {
    StrengthenedPair(StrengthenedPair(edges, a, b, amount, max), b, a, amount, max)
  }

  /** Creating a connection at a strength in [lo, hi] keeps every strength in [lo, hi]. */
  lemma LinkedBounded(edges: Edges, memories: set<Id>, a: Id, b: Id, e: Edge, lo: real, hi: real)
    requires Bounded(edges, lo, hi) && lo <= e.strength <= hi
    ensures Bounded(Linked(edges, memories, a, b, e), lo, hi)
  {
  }

  /** Strengthening one connection with a cap in [lo, hi] keeps every strength in [lo, hi]. */
  lemma {:induction false} StrengthenedBounded(edges: Edges, a: Id, b: Id, amount: real, max: real, lo: real, hi: real)
    requires Bounded(edges, lo, hi) && lo <= max <= hi && 0.0 <= amount
    ensures Bounded(StrengthenedPair(edges, a, b, amount, max), lo, hi)
  {
    if (a, b) in edges {
      ClampedSteps(edges[(a, b)], amount, max, max, lo, hi);
    }
  }

  /** With strength bounds inside [0, 1] creating a new pair never fails and creates it
    * inside the bounds. */
  lemma {:induction false} HebbianCreateBounded(t: Rules.Topology, c: Config, k: HebbianRates, edges: Edges, a: Id, b: Id,
                                               respect: bool, lo: real, hi: real)
    requires 0.0 <= lo <= k.initial <= hi <= 1.0 && Bounded(edges, lo, hi)
    ensures HebbianCreate(t, c, k, edges, a, b, respect).Ok?
    ensures Bounded(HebbianCreate(t, c, k, edges, a, b, respect).value, lo, hi)
  {
    var e := Edge(k.initial, "hebbian", Open);
    var once := Linked(edges, t.memories.Keys, a, b, e);
    LinkedBounded(edges, t.memories.Keys, a, b, e, lo, hi);
    LinkedBounded(once, t.memories.Keys, b, a, e, lo, hi);
  }

  /** Strengthening an existing pair with a cap in [lo, hi] keeps strengths in [lo, hi]. */
  lemma {:induction false} HebbianStrengthenBounded(edges: Edges, a: Id, b: Id, amount: real, max: real, lo: real, hi: real)
    requires Bounded(edges, lo, hi) && lo <= max <= hi && 0.0 <= amount
    ensures Bounded(HebbianStrengthen(edges, a, b, amount, max), lo, hi)
  {
    StrengthenedBounded(edges, a, b, amount, max, lo, hi);
    StrengthenedBounded(StrengthenedPair(edges, a, b, amount, max), b, a, amount, max, lo, hi);
  }

  /** With an initial strength and a cap inside [lo, hi], itself inside [0, 1], a Hebbian
    * pair fails exactly in the `HebbianRaises` case (never under the intended reading),
    * and otherwise keeps every strength in [lo, hi]. */
  lemma {:induction false} HebbianPairBounded(reading: Reading, t: Rules.Topology, c: Config, k: HebbianRates, edges: Edges,
                                             a: Id, b: Id, amount: Option<real>, respect: bool, lo: real, hi: real)
    requires 0.0 <= lo <= k.initial <= hi <= 1.0 && lo <= c.maxStrength <= hi && Bounded(edges, lo, hi)
    ensures var r := HebbianPair(reading, t, c, k, edges, a, b, amount, respect);
            r.Ok? <==> !HebbianRaises(reading, c, edges, a, b, amount)
    ensures HebbianPair(reading, t, c, k, edges, a, b, amount, respect).Err? ==>
              HebbianPair(reading, t, c, k, edges, a, b, amount, respect).error == TypeError
    ensures HebbianPair(reading, t, c, k, edges, a, b, amount, respect).Ok? ==>
              Bounded(HebbianPair(reading, t, c, k, edges, a, b, amount, respect).value, lo, hi)
  {
    var fwd := Strength(edges, a, b);
    var rev := Strength(edges, b, a);
    if fwd.None? && rev.None? {
      HebbianCreateBounded(t, c, k, edges, a, b, respect, lo, hi);
    } else {
      var effective := HebbianEffective(reading, c, k, fwd, rev, amount);
      if effective.Ok? && effective.value * c.learningRate > 0.0 {
        HebbianStrengthenBounded(edges, a, b, effective.value * c.learningRate, c.maxStrength, lo, hi);
      }
    }
  }

  /** A Hebbian pair never adds a connection beside an existing one: new connections
    * appear only between a and b, only when neither direction existed, and only when
    * creation is enabled and, if asked, allowed by the compartments; no connection
    * disappears and connections away from the pair are untouched. */
  lemma {:induction false} HebbianPairKeys(reading: Reading, t: Rules.Topology, c: Config, k: HebbianRates, edges: Edges,
                                          a: Id, b: Id, amount: Option<real>, respect: bool)
    requires HebbianPair(reading, t, c, k, edges, a, b, amount, respect).Ok?
    ensures var r := HebbianPair(reading, t, c, k, edges, a, b, amount, respect).value;
            && edges.Keys <= r.Keys
            && r.Keys - edges.Keys <= {(a, b), (b, a)}
            && (r.Keys != edges.Keys ==>
                  (a, b) !in edges && (b, a) !in edges && c.hebbianCreatesConnections
                  && (respect ==> Rules.CanFormConnection(t, a, b)))
            && (forall e :: e in edges && e != (a, b) && e != (b, a) ==> r[e] == edges[e])
  {
    var fwd := Strength(edges, a, b);
    var rev := Strength(edges, b, a);
    if fwd.None? && rev.None? {
      var r := HebbianCreate(t, c, k, edges, a, b, respect).value;
      assert r.Keys != edges.Keys ==> r != edges;
    }
  }

  /** The pairs (ids[i], ids[j]) with j from `j` to the end, for a fixed i. */
  function Row(ids: seq<Id>, i: nat, j: nat): seq<(Id, Id)>
    requires i < |ids|
    decreases |ids| - j
  {
    if j >= |ids| then [] else [(ids[i], ids[j])] + Row(ids, i, j + 1)
  }

  /** The pairs the nested loop of `apply_hebbian_learning` visits from row `i` on, in order. */
  function PairsFrom(ids: seq<Id>, i: nat): seq<(Id, Id)>
    decreases |ids| - i
  {
    if i >= |ids| then [] else Row(ids, i, i + 1) + PairsFrom(ids, i + 1)
  }

  lemma {:induction false} RowSpec(ids: seq<Id>, i: nat, j: nat)
    requires i < |ids| && j <= |ids|
    ensures |Row(ids, i, j)| == |ids| - j
    ensures forall k :: j <= k < |ids| ==> (ids[i], ids[k]) in Row(ids, i, j)
    ensures forall p :: p in Row(ids, i, j) ==> p.0 in ids && p.1 in ids
    decreases |ids| - j
  {
    if j < |ids| {
      RowSpec(ids, i, j + 1);
    }
  }

  /** The loop visits n * (n - 1) / 2 pairs for n ids. */
  lemma {:induction false} PairCount(ids: seq<Id>, i: nat)
    requires i <= |ids|
    ensures 2 * |PairsFrom(ids, i)| == (|ids| - i) * (|ids| - i - 1)
    decreases |ids| - i
  {
    if i < |ids| {
      RowSpec(ids, i, i + 1);
      PairCount(ids, i + 1);
      assert |PairsFrom(ids, i)| == (|ids| - i - 1) + |PairsFrom(ids, i + 1)|;
      Triangle(|ids| - i);
    }
  }

  lemma Triangle(k: int)
    ensures 2 * (k - 1) + (k - 1) * (k - 1 - 1) == k * (k - 1)
  {
  }

  /** Every pair of positions x < y is visited, the earlier one first. */
  lemma {:induction false} PairsCover(ids: seq<Id>, i: nat)
    requires i <= |ids|
    ensures forall x, y :: i <= x < y < |ids| ==> (ids[x], ids[y]) in PairsFrom(ids, i)
    decreases |ids| - i
  {
    if i < |ids| {
      var row, rest := Row(ids, i, i + 1), PairsFrom(ids, i + 1);
      assert PairsFrom(ids, i) == row + rest;
      RowSpec(ids, i, i + 1);
      PairsCover(ids, i + 1);
      forall x, y | i <= x < y < |ids|
        ensures (ids[x], ids[y]) in row + rest
      {
        if x == i {
          assert (ids[x], ids[y]) in row;
        } else {
          assert (ids[x], ids[y]) in rest;
        }
      }
    }
  }

  /** Every visited pair is made of listed ids. */
  lemma {:induction false} PairsWithinIds(ids: seq<Id>, i: nat)
    requires i <= |ids|
    ensures forall p :: p in PairsFrom(ids, i) ==> p.0 in ids && p.1 in ids
    decreases |ids| - i
  {
    if i < |ids| {
      var row, rest := Row(ids, i, i + 1), PairsFrom(ids, i + 1);
      assert PairsFrom(ids, i) == row + rest;
      RowSpec(ids, i, i + 1);
      PairsWithinIds(ids, i + 1);
    }
  }

  /** `apply_hebbian_learning` over a list of pairs: each pair sees the connections left
    * by the ones before it, and the first failure stops the run with the connections
    * written so far. Only the two exceptions a pair can raise stop it. */
  function HebbianRun(reading: Reading, t: Rules.Topology, c: Config, k: HebbianRates, edges: Edges,
                      pairs: seq<(Id, Id)>, amount: Option<real>, respect: bool): (r: (Edges, Status))
    ensures r.1.Failure? ==> r.1.error == TypeError || r.1.error == ValueError
    ensures r.1.Failure? && r.1.error == ValueError ==> !(0.0 <= k.initial <= 1.0)
    decreases |pairs|
  {
    if pairs == [] then (edges, Success)
    else
      match HebbianPair(reading, t, c, k, edges, pairs[0].0, pairs[0].1, amount, respect)
      case Err(e) => (edges, Failure(e))
      case Ok(next) => HebbianRun(reading, t, c, k, next, pairs[1..], amount, respect)
  }

  /** One step of a run: the first pair either fails the run at once or hands its
    * connections to the rest. */
  lemma HebbianRunStep(reading: Reading, t: Rules.Topology, c: Config, k: HebbianRates, edges: Edges, p: (Id, Id),
                       rest: seq<(Id, Id)>, amount: Option<real>, respect: bool)
    ensures var step := HebbianPair(reading, t, c, k, edges, p.0, p.1, amount, respect);
            HebbianRun(reading, t, c, k, edges, [p] + rest, amount, respect) ==
              if step.Err? then (edges, Failure(step.error)) else HebbianRun(reading, t, c, k, step.value, rest, amount, respect)
  {
    assert ([p] + rest)[0] == p && ([p] + rest)[1..] == rest;
  }

  /** A run over two lists of pairs is the run over the first, then, unless it failed,
    * the run over the second from where the first left off. */
  lemma {:induction false} HebbianRunAppend(reading: Reading, t: Rules.Topology, c: Config, k: HebbianRates, edges: Edges,
                                           xs: seq<(Id, Id)>, ys: seq<(Id, Id)>, amount: Option<real>, respect: bool)
    ensures var first := HebbianRun(reading, t, c, k, edges, xs, amount, respect);
            HebbianRun(reading, t, c, k, edges, xs + ys, amount, respect) ==
              if first.1.Failure? then first else HebbianRun(reading, t, c, k, first.0, ys, amount, respect)
    decreases |xs|
  {
    if xs != [] {
      assert xs + ys == [xs[0]] + (xs[1..] + ys);
      assert xs == [xs[0]] + xs[1..];
      HebbianRunStep(reading, t, c, k, edges, xs[0], xs[1..] + ys, amount, respect);
      HebbianRunStep(reading, t, c, k, edges, xs[0], xs[1..], amount, respect);
      var step := HebbianPair(reading, t, c, k, edges, xs[0].0, xs[0].1, amount, respect);
      if step.Ok? {
        HebbianRunAppend(reading, t, c, k, step.value, xs[1..], ys, amount, respect);
      }
    } else {
      assert xs + ys == ys;
    }
  }

  /** Hebbian learning with the configured rates and strength bounds inside [0, 1]: a
    * run can only fail with TypeError, and it succeeds under the intended reading, with
    * the LINEAR curve, with an explicit non-zero amount, or when no connection is
    * weaker than a positive `lo` (so none has strength 0.0). Whether or not it fails,
    * it only adds connections, adds them only between the two memories of a visited
    * pair, and keeps every strength in range. */
  lemma {:induction false} HebbianRunSpec(reading: Reading, t: Rules.Topology, c: Config, m: RealMath, edges: Edges,
                                         pairs: seq<(Id, Id)>, amount: Option<real>, respect: bool, lo: real, hi: real)
    requires 0.0 <= lo <= c.minStrength <= c.maxStrength <= hi <= 1.0 && Bounded(edges, lo, hi)
    ensures HebbianRun(reading, t, c, RatesOf(c, m), edges, pairs, amount, respect).1 in {Success, Failure(TypeError)}
    ensures reading == Intended || c.curve == Linear || (amount.Some? && amount.value != 0.0) || 0.0 < lo ==>
              HebbianRun(reading, t, c, RatesOf(c, m), edges, pairs, amount, respect).1 == Success
    ensures edges.Keys <= HebbianRun(reading, t, c, RatesOf(c, m), edges, pairs, amount, respect).0.Keys
    ensures forall k :: k in HebbianRun(reading, t, c, RatesOf(c, m), edges, pairs, amount, respect).0 && k !in edges ==>
              exists p :: p in pairs && (k == p || k == (p.1, p.0))
    ensures Bounded(HebbianRun(reading, t, c, RatesOf(c, m), edges, pairs, amount, respect).0, lo, hi)
    decreases |pairs|
  {
    if pairs != [] {
      var rates := RatesOf(c, m);
      var (a, b) := pairs[0];
      HebbianPairBounded(reading, t, c, rates, edges, a, b, amount, respect, lo, hi);
      if 0.0 < lo && (a, b) in edges {
        assert lo <= edges[(a, b)].strength;
      }
      var step := HebbianPair(reading, t, c, rates, edges, a, b, amount, respect);
      if step.Ok? {
        HebbianPairKeys(reading, t, c, rates, edges, a, b, amount, respect);
        var next := step.value;
        HebbianRunSpec(reading, t, c, m, next, pairs[1..], amount, respect, lo, hi);
        var r := HebbianRun(reading, t, c, rates, edges, pairs, amount, respect).0;
        forall k | k in r && k !in edges
          ensures exists p :: p in pairs && (k == p || k == (p.1, p.0))
        {
          if k in next {
            assert pairs[0] in pairs;
          } else {
            var p :| p in pairs[1..] && (k == p || k == (p.1, p.0));
            assert p in pairs;
          }
        }
      }
    }
  }

  // ---------------------------------------------------------------- memory permeability

  /** The loop of `set_memory_permeability`: every listed memory that exists gets the
    * new permeability; nothing else about any memory changes. */
  function Repermeated(memories: map<Id, Memory>, ids: seq<Id>, p: Permeability): (r: map<Id, Memory>)
    ensures r.Keys == memories.Keys
    ensures forall mid :: mid in memories && mid in ids ==> r[mid] == memories[mid].(permeability := p)
    ensures forall mid :: mid in memories && mid !in ids ==> r[mid] == memories[mid]
  {
    map mid | mid in memories :: if mid in ids then memories[mid].(permeability := p) else memories[mid]
  }

  /** Listing one more memory updates just that memory, when it exists. */
  lemma RepermeatedStep(memories: map<Id, Memory>, ids: seq<Id>, mid: Id, p: Permeability)
    ensures var before := Repermeated(memories, ids, p);
            Repermeated(memories, ids + [mid], p) ==
              if mid in before then before[mid := before[mid].(permeability := p)] else before
  {
    var before := Repermeated(memories, ids, p);
    var after := Repermeated(memories, ids + [mid], p);
    forall x | x in after
      ensures after[x] == (if mid in before then before[mid := before[mid].(permeability := p)] else before)[x]
    {
      assert x in ids + [mid] <==> x in ids || x == mid;
    }
  }

  // ---------------------------------------------------------------- compartment membership

  /** IN_COMPARTMENT edges: memory id to the ids of its compartments. */
  type Membership = map<Id, set<Id>>

  /** `add_memory_to_compartment`'s UNWIND ... MERGE: each listed memory that exists
    * joins the compartment, if the compartment exists. */
  function Joined(membership: Membership, memories: set<Id>, compartments: set<Id>, ids: seq<Id>, cid: Id): (r: Membership)
    ensures forall mid :: mid in membership ==> mid in r && membership[mid] <= r[mid]
    ensures forall mid, c :: mid in r && c in r[mid] <==>
              (mid in membership && c in membership[mid])
              || (c == cid && cid in compartments && mid in ids && mid in memories)
  {
    if cid !in compartments then membership
    else
      map mid | mid in membership.Keys + (set i | i in ids && i in memories) ::
        (if mid in membership then membership[mid] else {}) + (if mid in ids && mid in memories then {cid} else {})
  }

  /** Adding the same memories to the same compartment twice changes nothing the second time. */
  lemma JoinedIdempotent(membership: Membership, memories: set<Id>, compartments: set<Id>, ids: seq<Id>, cid: Id)
    ensures var once := Joined(membership, memories, compartments, ids, cid);
            Joined(once, memories, compartments, ids, cid) == once
  {
  }

  /** One iteration of `remove_memory_from_compartment`: a truthy compartment id removes
    * that one membership, anything else removes all of the memory's memberships. */
  function Left(membership: Membership, mid: Id, cid: Option<Id>): (r: Membership)
    ensures r.Keys == membership.Keys
    ensures forall x :: x in membership && x != mid ==> r[x] == membership[x]
    ensures mid in membership && cid.Some? && cid.value != "" ==> r[mid] == membership[mid] - {cid.value}
    ensures mid in membership && !(cid.Some? && cid.value != "") ==> r[mid] == {}
  {
    if mid !in membership then membership
    else if cid.Some? && cid.value != "" then membership[mid := membership[mid] - {cid.value}]
    else membership[mid := {}]
  }

  /** The whole loop of `remove_memory_from_compartment` over `ids`. */
  function LeftAll(membership: Membership, ids: seq<Id>, cid: Option<Id>): (r: Membership)
    ensures r.Keys == membership.Keys
    decreases |ids|
  {
    if ids == [] then membership else LeftAll(Left(membership, ids[0], cid), ids[1..], cid)
  }

  /** After removing a list of memories from all compartments, none of them is in any
    * compartment; with a compartment id, none of them is in that one; memories not
    * listed keep their memberships. */
  lemma {:induction false} LeftAllSpec(membership: Membership, ids: seq<Id>, cid: Option<Id>)
    ensures LeftAll(membership, ids, cid).Keys == membership.Keys
    ensures forall x :: x in membership && x !in ids ==> LeftAll(membership, ids, cid)[x] == membership[x]
    ensures forall x :: x in membership && x in ids ==>
              if cid.Some? && cid.value != "" then LeftAll(membership, ids, cid)[x] == membership[x] - {cid.value}
              else LeftAll(membership, ids, cid)[x] == {}
    decreases |ids|
  {
    if ids != [] {
      var next := Left(membership, ids[0], cid);
      LeftAllSpec(next, ids[1..], cid);
      forall x | x in membership && x in ids
        ensures if cid.Some? && cid.value != "" then LeftAll(membership, ids, cid)[x] == membership[x] - {cid.value}
                else LeftAll(membership, ids, cid)[x] == {}
      {
        if x != ids[0] {
          assert x in ids[1..];
        }
      }
    }
  }

  /** The memories in compartment `cid`. */
  function Members(membership: Membership, cid: Id): set<Id> {
    set mid | mid in membership && cid in membership[mid]
  }

  /** `delete_compartment`'s first statement: every membership of `cid` disappears. */
  function WithoutCompartment(membership: Membership, cid: Id): (r: Membership)
    ensures r.Keys == membership.Keys
    ensures Members(r, cid) == {}
    ensures forall mid, c :: mid in r && c in r[mid] <==> mid in membership && c in membership[mid] && c != cid
  {
    map mid | mid in membership :: membership[mid] - {cid}
  }

  // ---------------------------------------------------------------- get-or-create nodes

  /** The node tables whose `create_*` method looks the node up before creating it. */
  datatype Label = ConceptNode | KeywordNode | TopicNode | EntityNode | SourceNode | ContextNode
                 | CompartmentNode | PreferenceNode

  /** The properties a `create_*` method matches on: the name (or term, or reference,
    * or category) and, for entities, sources, contexts and preferences, a second one
    * (the type's value, or the preference text). */
  datatype NodeKey = NodeKey(table: Label, name: string, kind: string)

  /** Which node each lookup key finds. */
  type Index = map<NodeKey, Id>

  /** The ids in use in one node table. */
  function IdsOf(index: Index, table: Label): set<Id> {
    set k | k in index && k.table == table :: index[k]
  }

  /** The get-or-create pattern: the id of the node with this key if there is one;
    * otherwise a new node with the given id, which the table refuses if that id is
    * already taken. */
  function GetOrCreate(index: Index, key: NodeKey, id: Id): (r: Result<(Index, Id)>)
    ensures key in index ==> r == Ok((index, index[key]))
    ensures r.Ok? ==> index.Keys <= r.value.0.Keys && key in r.value.0 && r.value.0[key] == r.value.1
                      && forall k :: k in index ==> r.value.0[k] == index[k]
    ensures r.Err? <==> key !in index && id in IdsOf(index, key.table)
  {
    if key in index then Ok((index, index[key]))
    else if id in IdsOf(index, key.table) then Err(DuplicateKey)
    else Ok((index[key := id], id))
  }

  /** A new key adds its id to the ids of its own table and to no other. */
  lemma IdsOfInsert(index: Index, key: NodeKey, id: Id, table: Label)
    requires key !in index
    ensures IdsOf(index[key := id], table) == if key.table == table then IdsOf(index, table) + {id} else IdsOf(index, table)
  {
    var after := index[key := id];
    if key.table == table {
      assert after[key] == id;
    }
  }

  /** `MATCH (c:Compartment {id: $id}) DELETE c` as seen by the lookups: every key of
    * the table that finds node `id` stops finding anything. */
  function Unindexed(index: Index, table: Label, id: Id): (r: Index)
    ensures IdsOf(r, table) == IdsOf(index, table) - {id}
    ensures forall t :: t != table ==> IdsOf(r, t) == IdsOf(index, t)
    ensures forall k :: k in r <==> k in index && !(k.table == table && index[k] == id)
    ensures forall k :: k in r ==> r[k] == index[k]
  {
    map k | k in index && !(k.table == table && index[k] == id) :: index[k]
  }

  /** A second create with the same key, whatever id it brings, finds the first node
    * and changes nothing. */
  lemma GetOrCreateDeduplicates(index: Index, key: NodeKey, id: Id, id2: Id)
    requires GetOrCreate(index, key, id).Ok?
    ensures var (after, first) := GetOrCreate(index, key, id).value;
            GetOrCreate(after, key, id2) == Ok((after, first))
  {
  }

  // ---------------------------------------------------------------- preferences

  /** `create_preference`'s update of an existing preference: one more observation and
    * the running average of the strengths; ZeroDivisionError when the stored count is -1. */
  function RunningAverage(strength: real, observations: int, observed: real): (r: Result<(real, int)>)
    ensures r.Err? <==> observations == -1
    ensures r.Ok? ==> r.value.1 == observations + 1
  {
    var n := observations + 1;
    if n == 0 then Err(ZeroDivisionError)
    else Ok(((strength * observations as real + observed) / n as real, n))
  }

  lemma MulMono(a: real, b: real, k: real)
    requires a <= b && 0.0 <= k
    ensures a * k <= b * k
  {
  }

  lemma QuotientBetween(t: real, n: real, lo: real, hi: real)
    requires n > 0.0 && n * lo <= t <= n * hi
    ensures lo <= t / n <= hi
  {
    var q := t / n;
    assert q * n == t;
  }

  /** The running average of strengths in [lo, hi] stays in [lo, hi] (so a preference
    * strength stays in [-1, 1]). */
  lemma {:induction false} RunningAverageStaysInRange(strength: real, observations: int, observed: real, lo: real, hi: real)
    requires 0 <= observations && lo <= strength <= hi && lo <= observed <= hi
    ensures RunningAverage(strength, observations, observed).Ok?
    ensures lo <= RunningAverage(strength, observations, observed).value.0 <= hi
  {
    var k := observations as real;
    var n := (observations + 1) as real;
    MulMono(lo, strength, k);
    MulMono(strength, hi, k);
    var t := strength * k + observed;
    Distribute(n, k, lo);
    Distribute(n, k, hi);
    QuotientBetween(t, n, lo, hi);
  }

  // ---------------------------------------------------------------- statistics

  /** `min(int(s * 10), 9)`: the histogram bucket of a strength. */
  function BucketIndex(s: real): (b: int)
    ensures b <= 9
    ensures b < 0 <==> s <= -0.1
  {
    var i := Trunc(s * 10.0);
    if i < 9 then i else 9
  }

  function InBucket(ss: seq<real>, b: int): nat
    decreases |ss|
  {
    if ss == [] then 0
    else InBucket(ss[..|ss| - 1], b) + (if BucketIndex(ss[|ss| - 1]) == b then 1 else 0)
  }

  function CountBelow(ss: seq<real>, t: real): (n: nat)
    ensures n <= |ss|
    decreases |ss|
  {
    if ss == [] then 0 else CountBelow(ss[..|ss| - 1], t) + (if ss[|ss| - 1] < t then 1 else 0)
  }

  function CountAtMost(ss: seq<real>, t: real): (n: nat)
    ensures n <= |ss|
    decreases |ss|
  {
    if ss == [] then 0 else CountAtMost(ss[..|ss| - 1], t) + (if ss[|ss| - 1] <= t then 1 else 0)
  }

  function Total(ss: seq<real>): real
    decreases |ss|
  {
    if ss == [] then 0.0 else Total(ss[..|ss| - 1]) + ss[|ss| - 1]
  }

  /** Python's `min`: an element no greater than any other. */
  function Least(ss: seq<real>): (r: real)
    requires ss != []
    ensures r in ss && forall i :: 0 <= i < |ss| ==> r <= ss[i]
    decreases |ss|
  {
    if |ss| == 1 then ss[0]
    else
      var p := ss[..|ss| - 1];
      var x := Least(p);
      assert forall i :: 0 <= i < |ss| - 1 ==> ss[i] == p[i];
      if x <= ss[|ss| - 1] then x else ss[|ss| - 1]
  }

  /** Python's `max`: an element no smaller than any other. */
  function Greatest(ss: seq<real>): (r: real)
    requires ss != []
    ensures r in ss && forall i :: 0 <= i < |ss| ==> ss[i] <= r
    decreases |ss|
  {
    if |ss| == 1 then ss[0]
    else
      var p := ss[..|ss| - 1];
      var x := Greatest(p);
      assert forall i :: 0 <= i < |ss| - 1 ==> ss[i] == p[i];
      if x >= ss[|ss| - 1] then x else ss[|ss| - 1]
  }

  /** The dictionary `get_connection_statistics` returns. The ten buckets stand for the
    * keys "0.0-0.1" to "0.9-1.0" in order. */
  datatype ConnectionStats = ConnectionStats(
    count: nat, min: Option<real>, max: Option<real>, avg: Option<real>,
    buckets: seq<nat>, belowThreshold: nat, pruningCandidates: Option<nat>)

  /** The statistics of a list of strengths: the empty list has no extremes, no buckets
    * and no `pruning_candidates` entry; a strength at or below -0.1 falls in a bucket
    * that does not exist, a KeyError. */
  function StatisticsOf(ss: seq<real>, decayThreshold: real, pruneThreshold: real): (r: Result<ConnectionStats>)
    ensures r.Err? ==> r.error == KeyError && ss != []
    ensures r.Ok? ==> r.value.count == |ss| && (r.value.min.Some? <==> ss != []) && (r.value.avg.Some? <==> ss != [])
  {
    if ss == [] then Ok(ConnectionStats(0, None, None, None, [], 0, None))
    else if exists i :: 0 <= i < |ss| && BucketIndex(ss[i]) < 0 then Err(KeyError)
    else Ok(ConnectionStats(|ss|, Some(Least(ss)), Some(Greatest(ss)), Some(Total(ss) / |ss| as real),
                            seq(10, b => InBucket(ss, b)), CountBelow(ss, decayThreshold),
                            Some(CountAtMost(ss, pruneThreshold))))
  }

  /** The strengths of the connections listed in `order`, in that order. */
  function StrengthsAlong(edges: Edges, order: seq<(Id, Id)>): (ss: seq<real>)
    requires forall k :: k in order ==> k in edges
    ensures |ss| == |order|
    ensures forall i :: 0 <= i < |order| ==> ss[i] == edges[order[i]].strength
    decreases |order|
  {
    if order == [] then [] else StrengthsAlong(edges, order[..|order| - 1]) + [edges[order[|order| - 1]].strength]
  }

  /** The bucket loop of `get_connection_statistics` followed by the built-in
    * aggregates; it fails at the first strength whose bucket is missing. */
  method Summarize(ss: seq<real>, decayThreshold: real, pruneThreshold: real) returns (r: Result<ConnectionStats>)
    ensures r == StatisticsOf(ss, decayThreshold, pruneThreshold)
  {
    if ss == [] {
      return Ok(ConnectionStats(0, None, None, None, [], 0, None));
    }
    var buckets: seq<nat> := seq(10, _ => 0);
    var i := 0;
    while i < |ss|
      invariant 0 <= i <= |ss|
      invariant |buckets| == 10
      invariant forall b :: 0 <= b < 10 ==> buckets[b] == InBucket(ss[..i], b)
      invariant forall j :: 0 <= j < i ==> 0 <= BucketIndex(ss[j])
    {
      var idx := BucketIndex(ss[i]);
      if idx < 0 {
        return Err(KeyError);
      }
      assert ss[..i + 1][..i] == ss[..i];
      buckets := buckets[idx := buckets[idx] + 1];
      i := i + 1;
    }
    assert ss[..i] == ss;
    assert buckets == seq(10, b => InBucket(ss, b));
    r := Ok(ConnectionStats(|ss|, Some(Least(ss)), Some(Greatest(ss)), Some(Total(ss) / |ss| as real),
                            buckets, CountBelow(ss, decayThreshold), Some(CountAtMost(ss, pruneThreshold))));
  }

  /** The sum of a list of counts. */
  function SumOf(bs: seq<nat>): nat
    decreases |bs|
  {
    if bs == [] then 0 else SumOf(bs[..|bs| - 1]) + bs[|bs| - 1]
  }

  /** The number of strengths in the first `n` buckets. */
  function BucketTotal(ss: seq<real>, n: nat): nat {
    if n == 0 then 0 else BucketTotal(ss, n - 1) + InBucket(ss, n - 1)
  }

  lemma {:induction false} SumOfBuckets(ss: seq<real>, n: nat)
    ensures SumOf(seq(n, b => InBucket(ss, b))) == BucketTotal(ss, n)
  {
    if n > 0 {
      SumOfBuckets(ss, n - 1);
      assert seq(n, b => InBucket(ss, b))[..n - 1] == seq(n - 1, b => InBucket(ss, b));
    }
  }

  lemma {:induction false} BucketTotalStep(ss: seq<real>, x: real, n: nat)
    ensures BucketTotal(ss + [x], n) == BucketTotal(ss, n) + (if 0 <= BucketIndex(x) < n then 1 else 0)
  {
    assert (ss + [x])[..|ss + [x]| - 1] == ss;
    if n > 0 {
      BucketTotalStep(ss, x, n - 1);
    }
  }

  lemma {:induction false} NoBuckets(n: nat)
    ensures BucketTotal([], n) == 0
  {
    if n > 0 {
      NoBuckets(n - 1);
    }
  }

  /** Every strength of a list without missing buckets is counted in exactly one bucket. */
  lemma {:induction false} BucketsSumToCount(ss: seq<real>)
    requires forall i :: 0 <= i < |ss| ==> 0 <= BucketIndex(ss[i])
    ensures BucketTotal(ss, 10) == |ss|
    decreases |ss|
  {
    if ss == [] {
      NoBuckets(10);
    } else {
      var p := ss[..|ss| - 1];
      assert forall i :: 0 <= i < |p| ==> p[i] == ss[i];
      BucketsSumToCount(p);
      assert p + [ss[|ss| - 1]] == ss;
      BucketTotalStep(p, ss[|ss| - 1], 10);
    }
  }

  lemma Distribute(n: real, k: real, x: real)
    requires n == k + 1.0
    ensures n * x == k * x + x
  {
  }

  /** The sum of strengths that are all at least `lo` is at least count * lo. */
  lemma {:induction false} TotalAtLeast(ss: seq<real>, lo: real)
    requires forall i :: 0 <= i < |ss| ==> lo <= ss[i]
    ensures |ss| as real * lo <= Total(ss)
    decreases |ss|
  {
    if ss != [] {
      var p := ss[..|ss| - 1];
      TotalAtLeast(p, lo);
      Distribute(|ss| as real, |p| as real, lo);
    }
  }

  /** The sum of strengths that are all at most `hi` is at most count * hi. */
  lemma {:induction false} TotalAtMost(ss: seq<real>, hi: real)
    requires forall i :: 0 <= i < |ss| ==> ss[i] <= hi
    ensures Total(ss) <= |ss| as real * hi
    decreases |ss|
  {
    if ss != [] {
      var p := ss[..|ss| - 1];
      TotalAtMost(p, hi);
      Distribute(|ss| as real, |p| as real, hi);
    }
  }

  /** The statistics fail exactly when some strength is at or below -0.1, and the empty
    * graph reports count 0, no extremes and no pruning entry. */
  lemma StatisticsEdges(ss: seq<real>, decayThreshold: real, pruneThreshold: real)
    ensures StatisticsOf(ss, decayThreshold, pruneThreshold).Err? <==>
              exists i :: 0 <= i < |ss| && ss[i] <= -0.1
    ensures ss == [] ==> StatisticsOf(ss, decayThreshold, pruneThreshold) ==
                           Ok(ConnectionStats(0, None, None, None, [], 0, None))
  {
  }

  /** What the statistics of a non-empty graph promise: the buckets add up to the
    * count, min <= avg <= max, and the two threshold counts are at most the count. */
  lemma {:induction false} StatisticsSpec(ss: seq<real>, decayThreshold: real, pruneThreshold: real)
    requires StatisticsOf(ss, decayThreshold, pruneThreshold).Ok? && ss != []
    ensures var s := StatisticsOf(ss, decayThreshold, pruneThreshold).value;
            && s.count == |ss|
            && |s.buckets| == 10 && SumOf(s.buckets) == s.count
            && s.min.Some? && s.max.Some? && s.avg.Some?
            && s.min.value <= s.avg.value <= s.max.value
            && s.belowThreshold <= s.count
            && s.pruningCandidates.Some? && s.pruningCandidates.value <= s.count
  {
    assert forall i :: 0 <= i < |ss| ==> 0 <= BucketIndex(ss[i]);
    BucketsSumToCount(ss);
    SumOfBuckets(ss, 10);
    AverageBetween(ss, Least(ss), Greatest(ss));
  }

  /** The average of strengths that all lie in [lo, hi] lies in [lo, hi]. */
  lemma AverageBetween(ss: seq<real>, lo: real, hi: real)
    requires ss != []
    requires forall i :: 0 <= i < |ss| ==> lo <= ss[i] <= hi
    ensures lo <= Total(ss) / |ss| as real <= hi
  {
    TotalAtLeast(ss, lo);
    TotalAtMost(ss, hi);
    QuotientBetween(Total(ss), |ss| as real, lo, hi);
  }

  // ---------------------------------------------------------------- ranked connections

  function IntMin(a: int, b: int): int { if a <= b then a else b }

  /** The post-processing of `get_strongest_connections` / `get_weakest_connections`
    * on the rows the database returns in rank order: three times the limit is fetched
    * when permeability is respected, the rows are filtered for the requesting memory,
    * and the first `limit` are kept. */
  function TopConnections(t: Rules.Topology, requester: Id, ranked: seq<Rules.Row>, limit: nat, respect: bool): (r: seq<Rules.Row>)
    ensures |r| <= limit
  {
    var fetchLimit := if respect then limit * 3 else limit;
    var fetched := ranked[..IntMin(fetchLimit, |ranked|)];
    var kept := if respect then Rules.FilterByPermeability(t, requester, fetched) else fetched;
    kept[..IntMin(limit, |kept|)]
  }

  /** At most `limit` rows, all from the ranked list. Without permeability it is the
    * top of the ranking. With it, the fetched window is the first `3 * limit` ranked
    * rows, and the result is the first `limit` of the window's rows whose memory may
    * pass data to the requester: in ranking order, only such rows, and, when fewer than
    * `limit` come back, every such row of the window. */
  lemma {:induction false} TopConnectionsSpec(t: Rules.Topology, requester: Id, ranked: seq<Rules.Row>, limit: nat, respect: bool)
    ensures |TopConnections(t, requester, ranked, limit, respect)| <= limit
    ensures forall row :: row in TopConnections(t, requester, ranked, limit, respect) ==> row in ranked
    ensures !respect ==> TopConnections(t, requester, ranked, limit, respect) == ranked[..IntMin(limit, |ranked|)]
    ensures respect ==>
              var window := ranked[..IntMin(3 * limit, |ranked|)];
              var permitted := Rules.FilterByPermeability(t, requester, window);
              && TopConnections(t, requester, ranked, limit, respect) == permitted[..IntMin(limit, |permitted|)]
              && Rules.Subsequence(TopConnections(t, requester, ranked, limit, respect), window)
              && (forall row :: row in TopConnections(t, requester, ranked, limit, respect) ==>
                    Rules.CanDataFlow(t, row.id, requester, None) == Ok(true))
              && (|TopConnections(t, requester, ranked, limit, respect)| < limit ==>
                    forall row :: row in window && Rules.CanDataFlow(t, row.id, requester, None) == Ok(true) ==>
                      row in TopConnections(t, requester, ranked, limit, respect))
  {
    var fetched := ranked[..IntMin(if respect then limit * 3 else limit, |ranked|)];
    var kept := if respect then Rules.FilterByPermeability(t, requester, fetched) else fetched;
    var r := kept[..IntMin(limit, |kept|)];
    assert r == TopConnections(t, requester, ranked, limit, respect);
    if respect {
      assert fetched == ranked[..IntMin(3 * limit, |ranked|)];
      Rules.FilterSpec(t, requester, fetched);
      Rules.PrefixSubsequence(kept, fetched, IntMin(limit, |kept|));
      if |r| < limit {
        assert r == kept;
      }
    }
    forall row | row in r
      ensures row in ranked
      ensures respect ==> Rules.CanDataFlow(t, row.id, requester, None) == Ok(true)
    {
      assert row in kept;
      assert row in fetched;
    }
  }
}
