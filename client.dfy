/** `MemoryGraphClient`: the object an agent talks to. Its graph database is modelled by
  * the fields that hold the graph as values; every method performs the Cypher
  * statements of the original as updates of those fields. A closed client raises
  * RuntimeError at the first statement it would run, so a method that returns before
  * reaching the database still succeeds after `close()`. */
module Client {
  import opened Wrappers
  import opened Enums
  import opened Models
  import opened Plasticity
  import opened GraphStore
  import Rules = Permeability

  /** Everything a client holds, as one value, so that a method can say what it changes
    * and that nothing else changes. */
  datatype ClientState = ClientState(
    memories: map<Id, Memory>,
    compartments: map<Id, Compartment>,
    membership: Membership,
    edges: Edges,
    relevance: Relevances,
    index: Index,
    preferences: map<Id, Preference>,
    plasticity: Config,
    accessCycle: int,
    closed: bool,
    activeCompartment: Option<Id>)

  /** The amount `strengthen_concept_relevance` / `weaken_concept_relevance` apply: the
    * curve's amount at 0.5 when none is given, else the given amount unscaled. */
  function ConceptAmount(c: Config, m: RealMath, context: string, amount: Option<real>): real {
    if amount.None? then EffectiveAmount(c, m, context, 0.5) else amount.value
  }

  /** A compartment id that Python treats as true: present and not "". */
  predicate Given(cid: Option<Id>) {
    cid.Some? && cid.value != ""
  }

  /** The relevances after `_apply_retrieval_effects(accessed, via)`: the relevance of
    * the concept the memory was reached through rises by the strengthen amount, capped
    * at 1.0; every other relevance, the accessed memory's other concepts included, is
    * kept. */
  function RelevanceAfterRetrieval(c: Config, m: RealMath, rel: Relevances, accessed: Id, via: Option<Id>): (r: Relevances)
    ensures r.Keys == rel.Keys
    ensures !c.retrievalStrengthens || !Given(via) || ConceptAmount(c, m, "strengthen", None) <= 0.0 ==> r == rel
    ensures forall k :: k in rel && k.0 != accessed ==> r[k] == rel[k]
    ensures Given(via) ==> forall k :: k in rel && k != (accessed, via.value) ==> r[k] == rel[k]
    ensures var amount := ConceptAmount(c, m, "strengthen", None);
            c.retrievalStrengthens && Given(via) && amount > 0.0 && (accessed, via.value) in rel ==>
              r[(accessed, via.value)] == if rel[(accessed, via.value)] + amount > 1.0 then 1.0
                                          else rel[(accessed, via.value)] + amount
  {
    if c.retrievalStrengthens && Given(via) && ConceptAmount(c, m, "strengthen", None) > 0.0 then
      RelevanceRaised(rel, accessed, via.value, ConceptAmount(c, m, "strengthen", None))
    else rel
  }

  /** Whether `_apply_retrieval_effects` reaches a database statement (and so raises on
    * a closed client). */
  predicate RetrievalWrites(c: Config, m: RealMath, via: Option<Id>) {
    c.retrievalStrengthens
    && (RetrievalBoost(c, m) > 0.0
        || (Given(via) && ConceptAmount(c, m, "strengthen", None) > 0.0)
        || (c.retrievalWeakensCompetitors && CompetitorAmount(c) > 0.0))
  }

  class MemoryGraphClient {
    var memories: map<Id, Memory>
    var compartments: map<Id, Compartment>
    var membership: Membership
    var edges: Edges
    var relevance: Relevances
    var index: Index
    var preferences: map<Id, Preference>
    var plasticity: Config
    var accessCycle: int
    var closed: bool
    var activeCompartment: Option<Id>
    /** `x ** y` and `math.log1p`, which the curves use. */
    const math: RealMath

    function State(): ClientState
      reads this
    {
      ClientState(memories, compartments, membership, edges, relevance, index, preferences,
                  plasticity, accessCycle, closed, activeCompartment)
    }

    /** The part of the graph the compartment decisions read. */
    function Topo(): Rules.Topology
      reads this
    {
      Rules.Topology(memories, compartments, membership)
    }

    /** The lookup keys agree with the stored compartments and preferences: each id a
      * compartment or preference key finds is a stored node of that kind, and each
      * stored one is found by some key. */
    predicate Valid()
      reads this
    {
      IdsOf(index, CompartmentNode) == compartments.Keys
      && IdsOf(index, PreferenceNode) == preferences.Keys
    }

    /** A new client on an empty graph, with the given plasticity configuration or the
      * default one. */
    constructor (math: RealMath, config: Option<Config>)
      ensures Valid()
      ensures this.math == math
      ensures State() == ClientState(map[], map[], map[], map[], map[], map[], map[],
                                     config.GetOr(Default()), 0, false, None)
    {
      this.math := math;
      memories := map[];
      compartments := map[];
      membership := map[];
      edges := map[];
      relevance := map[];
      index := map[];
      preferences := map[];
      plasticity := config.GetOr(Default());
      accessCycle := 0;
      closed := false;
      activeCompartment := None;
      new;
      assert IdsOf(index, CompartmentNode) == {};
      assert IdsOf(index, PreferenceNode) == {};
    }

    /** `close`: every later database statement raises. */
    method Close()
      requires Valid()
      modifies this
      ensures Valid()
      ensures State() == old(State()).(closed := true)
    {
      closed := true;
    }

    // ------------------------------------------------------------ connections

    /** `link_memories`: the strength is validated first; with `check_compartments` a
      * pair the compartments keep apart is refused with False; otherwise the connection
      * is merged (an existing one is left as it was) and the answer is True. */
    method LinkMemories(a: Id, b: Id, strength: Arg, relType: string, perm: Option<Permeability>,
                        checkCompartments: bool) returns (r: Result<bool>)
      requires Valid()
      modifies this
      ensures Valid()
      ensures ValidateRange(strength, 0.0, 1.0).Err? ==> r == Err(ValueError) && State() == old(State())
      ensures r == Ok(true) <==>
                ValidateRange(strength, 0.0, 1.0).Ok? && !old(closed)
                && (checkCompartments ==> Rules.CanFormConnection(old(Topo()), a, b))
      ensures r == Ok(true) ==>
                State() == old(State()).(edges := Linked(old(edges), old(memories).Keys, a, b,
                                                         Edge(strength.x, relType, perm.GetOr(Open))))
      ensures r != Ok(true) ==> State() == old(State())
      ensures r.Err? && ValidateRange(strength, 0.0, 1.0).Ok? ==> r.error == RuntimeError && old(closed)
    {
      var s := ValidateRange(strength, 0.0, 1.0);
      if s.Err? {
        return Err(ValueError);
      }
      if checkCompartments {
        if closed {
          return Err(RuntimeError);
        }
        if !Rules.CanFormConnection(Topo(), a, b) {
          return Ok(false);
        }
      }
      if closed {
        return Err(RuntimeError);
      }
      edges := Linked(edges, memories.Keys, a, b, Edge(s.value, relType, perm.GetOr(Open)));
      return Ok(true);
    }

    /** `get_memory_link_strength`: the strength of a -> b, None without one. */
    method GetMemoryLinkStrength(a: Id, b: Id) returns (r: Result<Option<real>>)
      ensures r.Err? <==> closed
      ensures r.Err? ==> r.error == RuntimeError
      ensures r.Ok? ==> (r.value.Some? <==> (a, b) in edges)
      ensures r.Ok? && r.value.Some? ==> r.value.value == edges[(a, b)].strength
    {
      if closed {
        return Err(RuntimeError);
      }
      return Ok(Strength(edges, a, b));
    }

    /** `strengthen_memory_link`: reads the current strength first (so a closed client
      * always raises), then raises only the connection a -> b. */
    method StrengthenMemoryLink(a: Id, b: Id, amount: Option<real>) returns (s: Status)
      requires Valid()
      modifies this
      ensures Valid()
      ensures old(closed) ==> s == Failure(RuntimeError) && State() == old(State())
      ensures !old(closed) ==> s == Success
                               && State() == old(State()).(edges := StrengthenLink(plasticity, math, old(edges), a, b, amount))
    {
      if closed {
        return Failure(RuntimeError);
      }
      edges := StrengthenLink(plasticity, math, edges, a, b, amount);
      return Success;
    }

    /** `weaken_memory_link`: reads the current strength first, then lowers only the
      * connection a -> b. */
    method WeakenMemoryLink(a: Id, b: Id, amount: Option<real>) returns (s: Status)
      requires Valid()
      modifies this
      ensures Valid()
      ensures old(closed) ==> s == Failure(RuntimeError) && State() == old(State())
      ensures !old(closed) ==> s == Success
                               && State() == old(State()).(edges := WeakenLink(plasticity, math, old(edges), a, b, amount))
    {
      if closed {
        return Failure(RuntimeError);
      }
      edges := WeakenLink(plasticity, math, edges, a, b, amount);
      return Success;
    }

    /** `set_connection_permeability`. */
    method SetConnectionPermeability(a: Id, b: Id, p: Permeability) returns (s: Status)
      requires Valid()
      modifies this
      ensures Valid()
      ensures old(closed) ==> s == Failure(RuntimeError) && State() == old(State())
      ensures !old(closed) ==> s == Success
                               && State() == old(State()).(edges := WithConnectionPermeability(old(edges), a, b, p))
    {
      if closed {
        return Failure(RuntimeError);
      }
      edges := WithConnectionPermeability(edges, a, b, p);
      return Success;
    }

    /** `get_connection_permeability`: the permeability of a -> b, None without one. */
    method GetConnectionPermeability(a: Id, b: Id) returns (r: Result<Option<Permeability>>)
      ensures r.Err? <==> closed
      ensures r.Err? ==> r.error == RuntimeError
      ensures r.Ok? ==> (r.value.Some? <==> (a, b) in edges)
      ensures r.Ok? && r.value.Some? ==> r.value.value == edges[(a, b)].permeability
    {
      if closed {
        return Err(RuntimeError);
      }
      if (a, b) in edges {
        return Ok(Some(edges[(a, b)].permeability));
      }
      return Ok(None);
    }

    /** `get_memory_permeability`: the memory's own permeability, None without the memory. */
    method GetMemoryPermeability(mid: Id) returns (r: Result<Option<Permeability>>)
      ensures r.Err? <==> closed
      ensures r.Err? ==> r.error == RuntimeError
      ensures r.Ok? ==> (r.value.Some? <==> mid in memories)
      ensures r.Ok? && r.value.Some? ==> r.value.value == memories[mid].permeability
    {
      if closed {
        return Err(RuntimeError);
      }
      return Ok(Rules.MemoryPermeability(Topo(), mid));
    }

    // ------------------------------------------------------------ concept relevance

    /** `link_memory_to_concept`: the relevance is validated first; the HAS_CONCEPT edge
      * is merged between an existing memory and an existing concept. */
    method LinkMemoryToConcept(mid: Id, cid: Id, rel: Arg) returns (s: Status)
      requires Valid()
      modifies this
      ensures Valid()
      ensures ValidateRange(rel, 0.0, 1.0).Err? ==> s == Failure(ValueError) && State() == old(State())
      ensures ValidateRange(rel, 0.0, 1.0).Ok? && old(closed) ==> s == Failure(RuntimeError) && State() == old(State())
      ensures ValidateRange(rel, 0.0, 1.0).Ok? && !old(closed) ==>
                s == Success
                && State() == old(State()).(relevance := RelevanceLinked(old(relevance), old(memories).Keys,
                                                                         IdsOf(old(index), ConceptNode), mid, cid, rel.x))
    {
      var v := ValidateRange(rel, 0.0, 1.0);
      if v.Err? {
        return Failure(ValueError);
      }
      if closed {
        return Failure(RuntimeError);
      }
      relevance := RelevanceLinked(relevance, memories.Keys, IdsOf(index, ConceptNode), mid, cid, v.value);
      return Success;
    }

    /** `strengthen_concept_relevance`: a non-positive amount returns before the
      * database is touched. */
    method StrengthenConceptRelevance(mid: Id, cid: Id, amount: Option<real>) returns (s: Status)
      requires Valid()
      modifies this
      ensures Valid()
      ensures ConceptAmount(plasticity, math, "strengthen", amount) <= 0.0 ==> s == Success && State() == old(State())
      ensures ConceptAmount(plasticity, math, "strengthen", amount) > 0.0 && old(closed) ==>
                s == Failure(RuntimeError) && State() == old(State())
      ensures ConceptAmount(plasticity, math, "strengthen", amount) > 0.0 && !old(closed) ==>
                s == Success
                && State() == old(State()).(relevance := RelevanceRaised(old(relevance), mid, cid,
                                                                         ConceptAmount(plasticity, math, "strengthen", amount)))
    {
      var amt := ConceptAmount(plasticity, math, "strengthen", amount);
      if amt <= 0.0 {
        return Success;
      }
      if closed {
        return Failure(RuntimeError);
      }
      relevance := RelevanceRaised(relevance, mid, cid, amt);
      return Success;
    }

    /** `weaken_concept_relevance`: a non-positive amount returns before the database
      * is touched. */
    method WeakenConceptRelevance(mid: Id, cid: Id, amount: Option<real>) returns (s: Status)
      requires Valid()
      modifies this
      ensures Valid()
      ensures ConceptAmount(plasticity, math, "weaken", amount) <= 0.0 ==> s == Success && State() == old(State())
      ensures ConceptAmount(plasticity, math, "weaken", amount) > 0.0 && old(closed) ==>
                s == Failure(RuntimeError) && State() == old(State())
      ensures ConceptAmount(plasticity, math, "weaken", amount) > 0.0 && !old(closed) ==>
                s == Success
                && State() == old(State()).(relevance := RelevanceLowered(old(relevance), mid, cid,
                                                                          ConceptAmount(plasticity, math, "weaken", amount)))
    {
      var amt := ConceptAmount(plasticity, math, "weaken", amount);
      if amt <= 0.0 {
        return Success;
      }
      if closed {
        return Failure(RuntimeError);
      }
      relevance := RelevanceLowered(relevance, mid, cid, amt);
      return Success;
    }

    // ------------------------------------------------------------ Hebbian learning

    /** `apply_hebbian_learning`: every pair (ids[i], ids[j]) with i < j in turn, each
      * seeing the connections the previous ones left; the first failing pair stops the
      * loop. A closed client raises at the first pair. The current strength is read
      * as the program writes it (`strength_fwd or strength_rev`, see `HebbianRaises`). */
    method ApplyHebbianLearning(ids: seq<Id>, amount: Option<real>, respect: bool) returns (s: Status)
      requires Valid()
      modifies this
      ensures Valid()
      ensures old(closed) && |ids| >= 2 ==> s == Failure(RuntimeError) && State() == old(State())
      ensures !(old(closed) && |ids| >= 2) ==>
                (edges, s) == HebbianRun(AsWritten, old(Topo()), plasticity, RatesOf(plasticity, math), old(edges),
                                         PairsFrom(ids, 0), amount, respect)
                && State() == old(State()).(edges := edges)
    {
      if closed && |ids| >= 2 {
        return Failure(RuntimeError);
      }
      var rates := RatesOf(plasticity, math);
      ghost var t := Topo();
      ghost var goal := HebbianRun(AsWritten, t, plasticity, rates, edges, PairsFrom(ids, 0), amount, respect);
      var i := 0;
      while i < |ids|
        invariant 0 <= i <= |ids|
        invariant Topo() == t
        invariant HebbianRun(AsWritten, t, plasticity, rates, edges, PairsFrom(ids, i), amount, respect) == goal
        invariant State() == old(State()).(edges := edges)
        invariant closed ==> |ids| < 2
        decreases |ids| - i
      {
        HebbianRunAppend(AsWritten, t, plasticity, rates, edges, Row(ids, i, i + 1), PairsFrom(ids, i + 1), amount, respect);
        s := HebbianRow(ids, i, rates, amount, respect);
        if s.Failure? {
          return;
        }
        i := i + 1;
      }
      return Success;
    }

    /** One row of the nested loop of `apply_hebbian_learning`: the pairs
      * (ids[i], ids[j]) for j > i, in order, stopping at the first failure. The rates
      * are read from the configuration once for the whole run. */
    method HebbianRow(ids: seq<Id>, i: nat, rates: HebbianRates, amount: Option<real>, respect: bool) returns (s: Status)
      requires Valid() && i < |ids|
      modifies this
      ensures Valid()
      ensures (edges, s) == HebbianRun(AsWritten, old(Topo()), plasticity, rates, old(edges), Row(ids, i, i + 1), amount, respect)
      ensures State() == old(State()).(edges := edges)
    {
      var t := Topo();
      ghost var goal := HebbianRun(AsWritten, t, plasticity, rates, edges, Row(ids, i, i + 1), amount, respect);
      var j := i + 1;
      while j < |ids|
        invariant i + 1 <= j <= |ids|
        invariant HebbianRun(AsWritten, t, plasticity, rates, edges, Row(ids, i, j), amount, respect) == goal
        invariant State() == old(State()).(edges := edges)
        decreases |ids| - j
      {
        var p := (ids[i], ids[j]);
        assert Row(ids, i, j) == [p] + Row(ids, i, j + 1);
        HebbianRunStep(AsWritten, t, plasticity, rates, edges, p, Row(ids, i, j + 1), amount, respect);
        var step := HebbianPair(AsWritten, t, plasticity, rates, edges, p.0, p.1, amount, respect);
        if step.Err? {
          return Failure(step.error);
        }
        edges := step.value;
        j := j + 1;
      }
      return Success;
    }

    // ------------------------------------------------------------ decay and pruning

    /** `decay_weak_connections`: the defaults are the configured threshold and the
      * curve's decay amount; a non-positive amount returns at once (no pruning either). */
    method DecayWeakConnections(threshold: Option<real>, amount: Option<real>) returns (s: Status)
      requires Valid()
      modifies this
      ensures Valid()
      ensures amount.GetOr(DefaultDecayAmount(plasticity, math)) <= 0.0 ==> s == Success && State() == old(State())
      ensures amount.GetOr(DefaultDecayAmount(plasticity, math)) > 0.0 && old(closed) ==>
                s == Failure(RuntimeError) && State() == old(State())
      ensures amount.GetOr(DefaultDecayAmount(plasticity, math)) > 0.0 && !old(closed) ==>
                s == Success
                && State() == old(State()).(edges := AfterDecay(plasticity, old(edges), threshold.GetOr(plasticity.decayThreshold),
                                                                amount.GetOr(DefaultDecayAmount(plasticity, math))))
    {
      var t := threshold.GetOr(plasticity.decayThreshold);
      var amt := amount.GetOr(DefaultDecayAmount(plasticity, math));
      if amt <= 0.0 {
        return Success;
      }
      if closed {
        return Failure(RuntimeError);
      }
      edges := AfterDecay(plasticity, edges, t, amt);
      return Success;
    }

    /** `prune_dead_connections`: deletes the connections at or below the threshold
      * (by default the configured prune threshold). */
    method PruneDeadConnections(threshold: Option<real>) returns (s: Status)
      requires Valid()
      modifies this
      ensures Valid()
      ensures old(closed) ==> s == Failure(RuntimeError) && State() == old(State())
      ensures !old(closed) ==> s == Success
                               && State() == old(State()).(edges := Pruned(old(edges), threshold.GetOr(plasticity.pruneThreshold)))
    {
      if closed {
        return Failure(RuntimeError);
      }
      edges := Pruned(edges, threshold.GetOr(plasticity.pruneThreshold));
      return Success;
    }

    // ------------------------------------------------------------ retrieval effects

    /** `_weaken_competitors`: a non-positive amount returns before the database is
      * touched. */
    method WeakenCompetitors(accessed: Id) returns (s: Status)
      requires Valid()
      modifies this
      ensures Valid()
      ensures CompetitorAmount(plasticity) <= 0.0 ==> s == Success && State() == old(State())
      ensures CompetitorAmount(plasticity) > 0.0 && old(closed) ==> s == Failure(RuntimeError) && State() == old(State())
      ensures CompetitorAmount(plasticity) > 0.0 && !old(closed) ==>
                s == Success
                && State() == old(State()).(edges := CompetitorsWeakened(old(edges), accessed, CompetitorAmount(plasticity),
                                                                         plasticity.minStrength))
    {
      var amount := CompetitorAmount(plasticity);
      if amount <= 0.0 {
        return Success;
      }
      if closed {
        return Failure(RuntimeError);
      }
      edges := CompetitorsWeakened(edges, accessed, amount, plasticity.minStrength);
      return Success;
    }

    /** `_apply_retrieval_effects`: with `retrieval_strengthens`, the connections into
      * the accessed memory are raised, the concept it was reached through gains
      * relevance, and competitors are weakened; a closed client raises at the first of
      * these that reaches the database. */
    method ApplyRetrievalEffects(accessed: Id, via: Option<Id>) returns (s: Status)
      requires Valid()
      modifies this
      ensures Valid()
      ensures old(closed) ==> State() == old(State())
                              && (s.Failure? <==> RetrievalWrites(plasticity, math, via))
                              && (s.Failure? ==> s.error == RuntimeError)
      ensures !old(closed) ==> s == Success
                               && State() == old(State()).(edges := AfterRetrieval(plasticity, math, old(edges), accessed),
                                                           relevance := RelevanceAfterRetrieval(plasticity, math, old(relevance), accessed, via))
    {
      if !plasticity.retrievalStrengthens {
        return Success;
      }
      var amount := RetrievalBoost(plasticity, math);
      if amount > 0.0 {
        if closed {
          return Failure(RuntimeError);
        }
        edges := RaisedInto(edges, accessed, amount, plasticity.maxStrength);
      }
      if Given(via) {
        s := StrengthenConceptRelevance(accessed, via.value, None);
        if s.Failure? {
          return;
        }
      }
      if plasticity.retrievalWeakensCompetitors {
        s := WeakenCompetitors(accessed);
        if s.Failure? {
          return;
        }
      }
      return Success;
    }

    // ------------------------------------------------------------ maintenance

    /** `run_maintenance_cycle`: the cycle counter moves on even when the decay then
      * raises. */
    method RunMaintenanceCycle() returns (s: Status)
      requires Valid()
      modifies this
      ensures Valid()
      ensures old(closed) && DefaultDecayAmount(plasticity, math) > 0.0 ==>
                s == Failure(RuntimeError) && State() == old(State()).(accessCycle := old(accessCycle) + 1)
      ensures !(old(closed) && DefaultDecayAmount(plasticity, math) > 0.0) ==>
                s == Success
                && State() == old(State()).(accessCycle := old(accessCycle) + 1,
                                            edges := Maintained(plasticity, math, old(edges), 1))
    {
      accessCycle := accessCycle + 1;
      s := DecayWeakConnections(None, None);
    }

    /** `run_aggressive_maintenance(cycles)`: `range(cycles)` maintenance cycles (none
      * for a negative count); a raising cycle ends the loop. */
    method RunAggressiveMaintenance(cycles: int) returns (s: Status)
      requires Valid()
      modifies this
      ensures Valid()
      ensures old(closed) && DefaultDecayAmount(plasticity, math) > 0.0 && cycles > 0 ==>
                s == Failure(RuntimeError) && State() == old(State()).(accessCycle := old(accessCycle) + 1)
      ensures !(old(closed) && DefaultDecayAmount(plasticity, math) > 0.0 && cycles > 0) ==>
                s == Success
                && State() == old(State()).(accessCycle := old(accessCycle) + IntMax(cycles, 0),
                                            edges := Maintained(plasticity, math, old(edges), IntMax(cycles, 0)))
    {
      var n := IntMax(cycles, 0);
      var k := 0;
      while k < n
        invariant 0 <= k <= n
        invariant Valid()
        invariant State() == old(State()).(accessCycle := old(accessCycle) + k,
                                           edges := Maintained(plasticity, math, old(edges), k))
        invariant old(closed) && DefaultDecayAmount(plasticity, math) > 0.0 ==> k == 0
        decreases n - k
      {
        s := RunMaintenanceCycle();
        if s.Failure? {
          return;
        }
        MaintainedStep(plasticity, math, old(edges), k);
        k := k + 1;
      }
      return Success;
    }

    // ------------------------------------------------------------ statistics

    /** `get_connection_statistics` over the strengths of all connections, listed in
      * `order`, which stands for the order the database returns them in. */
    method GetConnectionStatistics() returns (r: Result<ConnectionStats>, ghost order: seq<(Id, Id)>)
      ensures closed ==> r == Err(RuntimeError)
      ensures !closed ==> |order| == |edges| && (forall k :: k in edges <==> k in order)
                          && r == StatisticsOf(StrengthsAlong(edges, order), plasticity.decayThreshold,
                                               plasticity.pruneThreshold)
      ensures !closed && r.Ok? ==> r.value.count == |edges|
    {
      order := [];
      if closed {
        return Err(RuntimeError), order;
      }
      var keys := edges.Keys;
      var ss: seq<real> := [];
      while keys != {}
        invariant keys <= edges.Keys
        invariant forall k :: k in edges <==> k in order || k in keys
        invariant forall k :: k in order ==> k !in keys
        invariant |order| + |keys| == |edges|
        invariant ss == StrengthsAlong(edges, order)
        decreases |keys|
      {
        var k :| k in keys;
        order := order + [k];
        ss := ss + [edges[k].strength];
        keys := keys - {k};
      }
      r := Summarize(ss, plasticity.decayThreshold, plasticity.pruneThreshold);
      if r.Ok? {
        if ss != [] {
          StatisticsSpec(ss, plasticity.decayThreshold, plasticity.pruneThreshold);
        }
      }
    }

    // ------------------------------------------------------------ get-or-create nodes

    /** The get-or-create pattern shared by the `create_*` methods. */
    method Lookup(key: NodeKey, id: Id) returns (r: Result<Id>)
      requires Valid() && key.table != CompartmentNode && key.table != PreferenceNode
      modifies this
      ensures Valid()
      ensures old(closed) ==> r == Err(RuntimeError) && State() == old(State())
      ensures !old(closed) && GetOrCreate(old(index), key, id).Err? ==>
                r == Err(DuplicateKey) && State() == old(State())
      ensures !old(closed) && GetOrCreate(old(index), key, id).Ok? ==>
                r == Ok(GetOrCreate(old(index), key, id).value.1)
                && State() == old(State()).(index := GetOrCreate(old(index), key, id).value.0)
    {
      if closed {
        return Err(RuntimeError);
      }
      var res := GetOrCreate(index, key, id);
      if res.Err? {
        return Err(DuplicateKey);
      }
      if key !in index {
        IdsOfInsert(index, key, id, CompartmentNode);
        IdsOfInsert(index, key, id, PreferenceNode);
      }
      index := res.value.0;
      return Ok(res.value.1);
    }

    /** `create_concept`: found by name. */
    method CreateConcept(c: Concept) returns (r: Result<Id>)
      requires Valid()
      modifies this
      ensures Valid()
      ensures old(closed) ==> r == Err(RuntimeError) && State() == old(State())
      ensures !old(closed) ==> var g := GetOrCreate(old(index), NodeKey(ConceptNode, c.name, ""), c.id);
                               (g.Err? ==> r == Err(DuplicateKey) && State() == old(State()))
                               && (g.Ok? ==> r == Ok(g.value.1) && State() == old(State()).(index := g.value.0))
    {
      r := Lookup(NodeKey(ConceptNode, c.name, ""), c.id);
    }

    /** `create_keyword`: found by term. */
    method CreateKeyword(k: Keyword) returns (r: Result<Id>)
      requires Valid()
      modifies this
      ensures Valid()
      ensures old(closed) ==> r == Err(RuntimeError) && State() == old(State())
      ensures !old(closed) ==> var g := GetOrCreate(old(index), NodeKey(KeywordNode, k.term, ""), k.id);
                               (g.Err? ==> r == Err(DuplicateKey) && State() == old(State()))
                               && (g.Ok? ==> r == Ok(g.value.1) && State() == old(State()).(index := g.value.0))
    {
      r := Lookup(NodeKey(KeywordNode, k.term, ""), k.id);
    }

    /** `create_topic`: found by name. */
    method CreateTopic(t: Topic) returns (r: Result<Id>)
      requires Valid()
      modifies this
      ensures Valid()
      ensures old(closed) ==> r == Err(RuntimeError) && State() == old(State())
      ensures !old(closed) ==> var g := GetOrCreate(old(index), NodeKey(TopicNode, t.name, ""), t.id);
                               (g.Err? ==> r == Err(DuplicateKey) && State() == old(State()))
                               && (g.Ok? ==> r == Ok(g.value.1) && State() == old(State()).(index := g.value.0))
    {
      r := Lookup(NodeKey(TopicNode, t.name, ""), t.id);
    }

    /** `create_entity`: found by name and type. */
    method CreateEntity(e: Entity) returns (r: Result<Id>)
      requires Valid()
      modifies this
      ensures Valid()
      ensures old(closed) ==> r == Err(RuntimeError) && State() == old(State())
      ensures !old(closed) ==> var g := GetOrCreate(old(index), NodeKey(EntityNode, e.name, e.kind), e.id);
                               (g.Err? ==> r == Err(DuplicateKey) && State() == old(State()))
                               && (g.Ok? ==> r == Ok(g.value.1) && State() == old(State()).(index := g.value.0))
    {
      r := Lookup(NodeKey(EntityNode, e.name, e.kind), e.id);
    }

    /** `create_source`: found by reference and type. */
    method CreateSource(src: Source) returns (r: Result<Id>)
      requires Valid()
      modifies this
      ensures Valid()
      ensures old(closed) ==> r == Err(RuntimeError) && State() == old(State())
      ensures !old(closed) ==> var g := GetOrCreate(old(index), NodeKey(SourceNode, src.reference, src.kind), src.id);
                               (g.Err? ==> r == Err(DuplicateKey) && State() == old(State()))
                               && (g.Ok? ==> r == Ok(g.value.1) && State() == old(State()).(index := g.value.0))
    {
      r := Lookup(NodeKey(SourceNode, src.reference, src.kind), src.id);
    }

    /** `create_context`: found by name and type. */
    method CreateContext(ctx: Context) returns (r: Result<Id>)
      requires Valid()
      modifies this
      ensures Valid()
      ensures old(closed) ==> r == Err(RuntimeError) && State() == old(State())
      ensures !old(closed) ==> var g := GetOrCreate(old(index), NodeKey(ContextNode, ctx.name, ctx.kind), ctx.id);
                               (g.Err? ==> r == Err(DuplicateKey) && State() == old(State()))
                               && (g.Ok? ==> r == Ok(g.value.1) && State() == old(State()).(index := g.value.0))
    {
      r := Lookup(NodeKey(ContextNode, ctx.name, ctx.kind), ctx.id);
    }

    /** `create_compartment`: found by name; a new one is stored. */
    method CreateCompartment(c: Compartment) returns (r: Result<Id>)
      requires Valid()
      modifies this
      ensures Valid()
      ensures old(closed) ==> r == Err(RuntimeError) && State() == old(State())
      ensures !old(closed) ==> var key := NodeKey(CompartmentNode, c.name, "");
                               var g := GetOrCreate(old(index), key, c.id);
                               (g.Err? ==> r == Err(DuplicateKey) && State() == old(State()))
                               && (key in old(index) ==> r == Ok(old(index)[key]) && State() == old(State()))
                               && (key !in old(index) && g.Ok? ==>
                                     r == Ok(c.id)
                                     && State() == old(State()).(index := g.value.0, compartments := old(compartments)[c.id := c]))
    {
      if closed {
        return Err(RuntimeError);
      }
      var key := NodeKey(CompartmentNode, c.name, "");
      var res := GetOrCreate(index, key, c.id);
      if res.Err? {
        return Err(DuplicateKey);
      }
      if key !in index {
        IdsOfInsert(index, key, c.id, CompartmentNode);
        IdsOfInsert(index, key, c.id, PreferenceNode);
        compartments := compartments[c.id := c];
      }
      index := res.value.0;
      return Ok(res.value.1);
    }

    /** `create_preference`: a preference with the same category and text is updated
      * to the running average of the strengths and its id returned; otherwise the new
      * one is stored. */
    method CreatePreference(p: Preference) returns (r: Result<Id>)
      requires Valid()
      modifies this
      ensures Valid()
      ensures old(closed) ==> r == Err(RuntimeError) && State() == old(State())
      ensures !old(closed) ==>
                var key := NodeKey(PreferenceNode, p.category, p.preference);
                if key in old(index) then
                  var id := old(index)[key];
                  var found := old(preferences)[id];
                  var avg := RunningAverage(found.strength, found.observations, p.strength);
                  (avg.Err? ==> r == Err(ZeroDivisionError) && State() == old(State()))
                  && (avg.Ok? ==> r == Ok(id)
                                  && State() == old(State()).(preferences := old(preferences)[id := found.(strength := avg.value.0,
                                                                                                         observations := avg.value.1)]))
                else if p.id in old(preferences) then r == Err(DuplicateKey) && State() == old(State())
                else r == Ok(p.id)
                     && State() == old(State()).(index := old(index)[key := p.id], preferences := old(preferences)[p.id := p])
    {
      if closed {
        return Err(RuntimeError);
      }
      var key := NodeKey(PreferenceNode, p.category, p.preference);
      if key in index {
        var id := index[key];
        assert id in IdsOf(index, PreferenceNode);
        var found := preferences[id];
        var avg := RunningAverage(found.strength, found.observations, p.strength);
        if avg.Err? {
          return Err(ZeroDivisionError);
        }
        preferences := preferences[id := found.(strength := avg.value.0, observations := avg.value.1)];
        return Ok(id);
      }
      if p.id in preferences {
        return Err(DuplicateKey);
      }
      IdsOfInsert(index, key, p.id, CompartmentNode);
      IdsOfInsert(index, key, p.id, PreferenceNode);
      index := index[key := p.id];
      preferences := preferences[p.id := p];
      return Ok(p.id);
    }

    // ------------------------------------------------------------ memories and compartments

    /** `create_memory`: stores the memory, then adds it to the given compartment, or to
      * the active one when none is given; "" means no compartment. */
    method CreateMemory(m: Memory, compartmentId: Option<Id>) returns (r: Result<Id>)
      requires Valid()
      modifies this
      ensures Valid()
      ensures old(closed) ==> r == Err(RuntimeError) && State() == old(State())
      ensures !old(closed) && m.id in old(memories) ==> r == Err(DuplicateKey) && State() == old(State())
      ensures !old(closed) && m.id !in old(memories) ==>
                var target := if compartmentId.Some? then compartmentId else old(activeCompartment);
                r == Ok(m.id)
                && State() == old(State()).(memories := old(memories)[m.id := m],
                                            membership := if Given(target)
                                                          then Joined(old(membership), old(memories)[m.id := m].Keys,
                                                                      old(compartments).Keys, [m.id], target.value)
                                                          else old(membership))
    {
      if closed {
        return Err(RuntimeError);
      }
      if m.id in memories {
        return Err(DuplicateKey);
      }
      memories := memories[m.id := m];
      var target := if compartmentId.Some? then compartmentId else activeCompartment;
      if Given(target) {
        var s := AddMemoryToCompartment([m.id], target.value);
      }
      return Ok(m.id);
    }

    /** `add_memory_to_compartment`: one statement for the whole list, so a closed
      * client raises even for an empty list. */
    method AddMemoryToCompartment(ids: seq<Id>, cid: Id) returns (s: Status)
      requires Valid()
      modifies this
      ensures Valid()
      ensures old(closed) ==> s == Failure(RuntimeError) && State() == old(State())
      ensures !old(closed) ==>
                s == Success
                && State() == old(State()).(membership := Joined(old(membership), old(memories).Keys,
                                                                 old(compartments).Keys, ids, cid))
    {
      if closed {
        return Failure(RuntimeError);
      }
      membership := Joined(membership, memories.Keys, compartments.Keys, ids, cid);
      return Success;
    }

    /** `remove_memory_from_compartment`: one statement per listed memory, so a closed
      * client raises only for a non-empty list. */
    method RemoveMemoryFromCompartment(ids: seq<Id>, cid: Option<Id>) returns (s: Status)
      requires Valid()
      modifies this
      ensures Valid()
      ensures old(closed) && ids != [] ==> s == Failure(RuntimeError) && State() == old(State())
      ensures !(old(closed) && ids != []) ==>
                s == Success && State() == old(State()).(membership := LeftAll(old(membership), ids, cid))
    {
      if closed && ids != [] {
        return Failure(RuntimeError);
      }
      var i := 0;
      while i < |ids|
        invariant 0 <= i <= |ids|
        invariant LeftAll(membership, ids[i..], cid) == LeftAll(old(membership), ids, cid)
        invariant State() == old(State()).(membership := membership)
        decreases |ids| - i
      {
        assert ids[i..][1..] == ids[i + 1..];
        membership := Left(membership, ids[i], cid);
        i := i + 1;
      }
      assert ids[i..] == [];
      return Success;
    }

    /** `get_memory_compartments`: the ids of the compartments the memory is in. */
    method GetMemoryCompartments(mid: Id) returns (r: Result<set<Id>>)
      ensures r.Err? <==> closed
      ensures r.Ok? ==> forall c :: c in r.value <==> mid in membership && c in membership[mid] && c in compartments
    {
      if closed {
        return Err(RuntimeError);
      }
      return Ok(Rules.CompartmentsOf(Topo(), mid));
    }

    /** `delete_compartment`: without `reassign_memories` a compartment that still has
      * members is refused with ValueError; otherwise its memberships go, then the
      * compartment itself. */
    method DeleteCompartment(cid: Id, reassign: bool) returns (s: Status)
      requires Valid()
      modifies this
      ensures Valid()
      ensures old(closed) ==> s == Failure(RuntimeError) && State() == old(State())
      ensures !old(closed) && !reassign && Members(old(membership), cid) != {} ==>
                s == Failure(ValueError) && State() == old(State())
      ensures !old(closed) && (reassign || Members(old(membership), cid) == {}) ==>
                s == Success
                && State() == old(State()).(membership := WithoutCompartment(old(membership), cid),
                                            compartments := old(compartments) - {cid},
                                            index := Unindexed(old(index), CompartmentNode, cid))
    {
      if !reassign {
        if closed {
          return Failure(RuntimeError);
        }
        if Members(membership, cid) != {} {
          return Failure(ValueError);
        }
      }
      if closed {
        return Failure(RuntimeError);
      }
      membership := WithoutCompartment(membership, cid);
      compartments := compartments - {cid};
      index := Unindexed(index, CompartmentNode, cid);
      return Success;
    }

    /** `set_active_compartment`: no database statement. */
    method SetActiveCompartment(cid: Option<Id>)
      requires Valid()
      modifies this
      ensures Valid()
      ensures State() == old(State()).(activeCompartment := cid)
    {
      activeCompartment := cid;
    }

    /** `set_memory_permeability`: one statement per listed memory. */
    method SetMemoryPermeability(ids: seq<Id>, p: Permeability) returns (s: Status)
      requires Valid()
      modifies this
      ensures Valid()
      ensures old(closed) && ids != [] ==> s == Failure(RuntimeError) && State() == old(State())
      ensures !(old(closed) && ids != []) ==>
                s == Success && State() == old(State()).(memories := Repermeated(old(memories), ids, p))
    {
      if closed && ids != [] {
        return Failure(RuntimeError);
      }
      var i := 0;
      while i < |ids|
        invariant 0 <= i <= |ids|
        invariant memories == Repermeated(old(memories), ids[..i], p)
        invariant State() == old(State()).(memories := memories)
        decreases |ids| - i
      {
        assert ids[..i + 1] == ids[..i] + [ids[i]];
        RepermeatedStep(old(memories), ids[..i], ids[i], p);
        if ids[i] in memories {
          memories := memories[ids[i] := memories[ids[i]].(permeability := p)];
        }
        i := i + 1;
      }
      assert ids[..i] == ids;
      return Success;
    }

    /** `set_plasticity_config`: no database statement. */
    method SetPlasticityConfig(c: Config)
      requires Valid()
      modifies this
      ensures Valid()
      ensures State() == old(State()).(plasticity := c)
    {
      plasticity := c;
    }

    /** `get_memory`: the access time and count of an existing memory are updated, and
      * retrieval effects follow when asked for. */
    method GetMemory(mid: Id, now: Time, applyRetrieval: bool) returns (r: Result<Option<Memory>>)
      requires Valid()
      modifies this
      ensures Valid()
      ensures old(closed) ==> r == Err(RuntimeError) && State() == old(State())
      ensures !old(closed) && mid !in old(memories) ==> r == Ok(None) && State() == old(State())
      ensures !old(closed) && mid in old(memories) ==>
                var seen := old(memories)[mid].(lastAccessed := now, accessCount := old(memories)[mid].accessCount + 1);
                r == Ok(Some(seen))
                && State() == old(State()).(memories := old(memories)[mid := seen],
                                            edges := if applyRetrieval then AfterRetrieval(plasticity, math, old(edges), mid)
                                                     else old(edges),
                                            relevance := if applyRetrieval then RelevanceAfterRetrieval(plasticity, math, old(relevance), mid, None)
                                                         else old(relevance))
    {
      if closed {
        return Err(RuntimeError);
      }
      if mid !in memories {
        return Ok(None);
      }
      var seen := memories[mid].(lastAccessed := now, accessCount := memories[mid].accessCount + 1);
      memories := memories[mid := seen];
      if applyRetrieval {
        var s := ApplyRetrievalEffects(mid, None);
      }
      return Ok(Some(seen));
    }
  }

  function IntMax(a: int, b: int): int { if a >= b then a else b }
}
