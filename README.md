# Axons memory graph — a Dafny model of its rule code and client

Axons keeps an agent's memories in a graph database. Memories are joined by weighted
RELATES_TO links and tagged with concepts through HAS_CONCEPT relevances. Compartments
group memories.

**Permeability.** Each memory, compartment and link has a permeability: OPEN, CLOSED,
OSMOTIC_INWARD or OSMOTIC_OUTWARD. It decides whether two memories may be linked and
whether data may flow from one to the other.

**Plasticity.** A plasticity configuration drives how link strengths change. Links are
strengthened when used, Hebbian-strengthened when memories are accessed together, and
weakened by decay. Dead links are pruned, and competing links are weakened on retrieval.

This project models that core in Dafny:

| File | Module | What it holds |
|---|---|---|
| `wrappers.dfy` | `Wrappers` | `Option`, `Result`, `Status` and the Python exceptions the core raises. |
| `enums.dfy` | `Enums` | `Curve` and `Permeability` with their string values, `allows_inward` and `allows_outward`. |
| `models.dfy` | `Models` | The node records, `_validate_range`, `_validate_required_str`, and the `__post_init__` checks as `Result`-returning constructors. |
| `plasticity.dfy` | `Plasticity` | `PlasticityConfig` as a value: presets, the curves, `effective_amount`, `effective_decay`, `get_initial_strength`, `to_dict` and `from_dict`. |
| `permeability.dfy` | `Permeability` | The three read-only decisions over a `Topology` value: `can_form_connection`, `can_data_flow` and `_filter_by_permeability`. |
| `graphstore.dfy` | `GraphStore` | The database as maps, and each Cypher update as a function on them: clamped strengthen/weaken, decay, prune, retrieval effects, competitor weakening, Hebbian pairs, membership, get-or-create keys, the preference running average, the statistics and the top-connections post-processing. |
| `client.dfy` | `Client` | `MemoryGraphClient` as a class. Its fields are the graph maps, the plasticity configuration, the access cycle, the closed flag and the active compartment. Every method states its new state as `State() == old(State()).(field := <update function>)`. |

Real powers and `math.log1p` are not computed. They are the fields of a `RealMath` value
passed in. Lemmas that need their ranges take `Sound(m)` as a precondition. The
similarity callback is an optional function returning `Option<real>`, where `None`
stands for "the callback raised".

## Model

| member | source | states |
|---|---|---|
| Enums.ParseCurve | axons/enums.py:61-76 | `Curve(s)` succeeds exactly for "linear", "exponential" and "logarithmic", and the value it builds has `s` as its string |
| Enums.ParsePermeability | axons/enums.py:79-97 | `Permeability(s)` succeeds exactly for the four permeability strings, and the value it builds has `s` as its string |
| Enums.DirectionTable | axons/enums.py:99-105 | OPEN allows both directions, CLOSED neither, OSMOTIC_INWARD only inward, OSMOTIC_OUTWARD only outward |
| Enums.DirectionsDetermineValue | axons/enums.py:99-105 | the pair (allows_inward, allows_outward) is different for each of the four values |
| Enums.PermeabilityRoundTrip | axons/enums.py:94-97 | parsing `p.value` gives back `p`, and a string parses to `p` iff it is `p.value` |
| Enums.CurveRoundTrip | axons/enums.py:74-76 | parsing `c.value` gives back `c`, and a string parses to `c` iff it is `c.value` |
| Models.ValidateRange | axons/models.py:15-21 | accepts exactly the numbers in [min, max] and returns them unchanged; a non-number or an out-of-range value is a ValueError |
| Models.ValidateRequiredStr | axons/models.py:24-28 | accepts exactly the strings with a non-whitespace character and returns them unchanged; None, empty and blank strings are a ValueError |
| Models.NewMemory | axons/models.py:31-45 | a Memory is built iff content and summary are non-blank and confidence is a number in [0, 1], with every field as given |
| Models.DefaultMemory | axons/models.py:31-45 | with the defaults, a valid Memory has OPEN permeability and confidence 1.0 |
| Models.NewConcept | axons/models.py:48-56 | a Concept is built iff its name is non-blank |
| Models.NewKeyword | axons/models.py:59-66 | a Keyword is built iff its term is non-blank |
| Models.NewTopic | axons/models.py:69-77 | a Topic is built iff its name is non-blank |
| Models.NewEntity | axons/models.py:80-90 | an Entity is built iff its name is non-blank |
| Models.NewSource | axons/models.py:93-104 | a Source is built iff its reference is non-blank and its reliability is a number in [0, 1] |
| Models.NewPreference | axons/models.py:146-158 | a Preference is built iff category and preference are non-blank and strength is a number in [-1, 1] |
| Models.DefaultCompartment | axons/models.py:180-202 | a default Compartment is OPEN, allows external connections and has an empty description |
| Models.ValidationExamples | axons/models.py:42-45 | a Memory with empty content, a blank summary or confidence 1.5 is refused, as are a Source with an empty reference, a Preference of strength -1.5 and a non-numeric range argument; a Preference of strength -0.5 is accepted |
| Plasticity.WithSimilarityFn | axons/plasticity.py:110-116 | `set_semantic_similarity_fn` sets the callback and changes no other field |
| Plasticity.Default | axons/plasticity.py:33-82 | every field at its declared default: strength bounds [0, 1] holding both initial strengths, a non-negative learning rate, a steepness in [0.1, 0.9], and no callback |
| Plasticity.AggressiveLearning | axons/plasticity.py:123-132 | the aggressive preset has strength bounds in [0, 1] holding both initial strengths, a non-negative learning rate, a steepness in [0.1, 0.9], and no callback |
| Plasticity.ConservativeLearning | axons/plasticity.py:134-142 | the conservative preset has strength bounds in [0, 1] holding both initial strengths, a non-negative learning rate, a steepness in [0.1, 0.9], and no callback |
| Plasticity.NoPlasticity | axons/plasticity.py:144-152 | the no-plasticity preset has strength bounds in [0, 1] holding both initial strengths, a steepness in [0.1, 0.9], and no callback |
| Plasticity.HighDecay | axons/plasticity.py:154-163 | the high-decay preset has strength bounds in [0, 1] holding both initial strengths, a non-negative learning rate, a steepness in [0.1, 0.9], and no callback |
| Plasticity.Steepness | axons/plasticity.py:180 | the steepness used lies in [0.1, 0.9] and is the configured one when that is already in range |
| Plasticity.ApplyCurve | axons/plasticity.py:165-201 | LINEAR returns the amount unchanged, and an amount of 0 stays 0 under every curve |
| Plasticity.EffectiveAmount | axons/plasticity.py:203-224 | a learning rate of 0 gives an effective amount of 0 in every context and under every curve |
| Plasticity.LinearAmount | axons/plasticity.py:176-177 | with the LINEAR curve, `effective_amount` is the base amount times the learning rate, 0.1 for strengthen at rate 1 |
| Plasticity.CurveBounds | axons/plasticity.py:183-201 | for the EXPONENTIAL and LOGARITHMIC curves, with strength in [0, 1] and a non-negative amount, the adjusted amount lies in [0.1 × amount, amount] |
| Plasticity.ContextBranches | axons/plasticity.py:213-224 | strengthen, hebbian and retrieval scale their own base amount on the increase branch; weaken and decay on the decrease branch; an unknown context uses base 0.1 on the decrease branch, which equals weaken at its default 0.1 |
| Plasticity.ZeroLearningRate | axons/plasticity.py:220 | a learning rate of 0 makes `effective_amount` 0 for every context and curve |
| Plasticity.NoPlasticityIsInert | axons/plasticity.py:144-152 | the no-plasticity preset gives an effective amount of 0 in every context, never strengthens on retrieval and never prunes |
| Plasticity.EffectiveHalfLife | axons/plasticity.py:245 | the effective half-life is at least 1 and is `int(half_life × 100)` when that is at least 1 |
| Plasticity.EffectiveDecay | axons/plasticity.py:226-248 | ValueError exactly when LOGARITHMIC decay reaches `math.log1p` with cycles at most -1; a learning rate of 0 decays nothing under LINEAR and LOGARITHMIC, and EXPONENTIAL decays nothing from a strength of 0 |
| Plasticity.DecaySkipsStrong | axons/plasticity.py:236-237 | a strength above the decay threshold decays by 0 unless `decay_all` is set |
| Plasticity.DecayBounds | axons/plasticity.py:239-248 | for non-negative cycles decay succeeds; LINEAR decay is `min(1, base × cycles)`; EXPONENTIAL decay lies between 0 and the current strength; the other curves decay by at most 1 |
| Plasticity.HalfLifeExample | axons/plasticity.py:243-246 | with half-life 0.1 the effective half-life is 10 cycles, and 10 cycles halve a strength of 0.8 |
| Plasticity.GetInitialStrength | axons/plasticity.py:84-108 | the initial strength lies in [min_strength, max_strength], and without a similarity callback it is the clamped explicit or implicit base |
| Plasticity.SimilarityOnlyRaises | axons/plasticity.py:95-108 | a similarity in [0, 1] never lowers the initial strength below the clamped base, and a callback that raises falls back to the base |
| Plasticity.SimilarityExamples | axons/plasticity.py:101-104 | base 0.5 with similarity 0.8 gives 0.9, and similarity 1.0 gives max_strength |
| Plasticity.Field.Name | axons/plasticity.py:33-82 | every attribute name is non-empty |
| Plasticity.PrivateMeansUnderscore | axons/plasticity.py:253-255 | an attribute is skipped by `to_dict` iff its name starts with `_` |
| Plasticity.Serialized | axons/plasticity.py:250-260 | the document has exactly one key per public attribute and no other key |
| Plasticity.ToDict | axons/plasticity.py:250-260 | the loop over the attributes builds exactly the serialised document |
| Plasticity.SerializedShape | axons/plasticity.py:250-260 | `to_dict` has one key per public attribute and no other, writes both curves as their strings, and holds no enum and no callable |
| Plasticity.CallbackNotSerialized | axons/plasticity.py:110-116 | setting the similarity callback does not change `to_dict` |
| Plasticity.ConvertCurve | axons/plasticity.py:266-269 | converting a curve string keeps the document's keys |
| Plasticity.FromDict | axons/plasticity.py:262-274 | a document with a key that is not an attribute is refused, and a built configuration never has a callback |
| Plasticity.Build | axons/plasticity.py:274 | the configuration built from a document has no callback |
| Plasticity.BuildFrom | axons/plasticity.py:274 | a document holding every public attribute of `c` builds `c` with no callback |
| Plasticity.BuildAttributes | axons/plasticity.py:274 | the constructor applied to `c`'s own attributes gives back `c` with no callback |
| Plasticity.RoundTrip | axons/plasticity.py:250-274 | `from_dict(to_dict(c))` equals `c` on every public field, with the callback unset |
| Plasticity.FromDictEdges | axons/plasticity.py:262-274 | the empty document gives the default config; an unknown key raises; an unknown curve string is a ValueError |
| Permeability.CompartmentsOf | axons/permeability.py:26-27 | a memory's compartments are stored compartments |
| Permeability.MemoryPermeability | axons/permeability.py:129-136 | a permeability is returned exactly for a stored memory |
| Permeability.CanFormConnection | axons/permeability.py:16-48 | memories with the same compartments always connect, and a refusal means a compartment of one of them blocks external connections |
| Permeability.CanFormConnectionSymmetric | axons/permeability.py:16-48 | `can_form_connection(a, b) == can_form_connection(b, a)` |
| Permeability.CanFormConnectionIff | axons/permeability.py:29-48 | equal compartment sets always connect; otherwise a connection forms iff every compartment of either memory allows external connections |
| Permeability.CanDataFlow | axons/permeability.py:50-109 | only an unknown connection string raises, as ValueError, and flow allowed means the source releases and the destination admits |
| Permeability.CanDataFlowIsConjunction | axons/permeability.py:73-109 | flow is allowed iff the source releases, the destination admits, and a given connection permeability allows inward flow; an unknown connection string is a ValueError |
| Permeability.ConnectionOnlyNarrows | axons/permeability.py:99-107 | a connection permeability can turn true into false, never false into true, and "closed" always blocks |
| Permeability.ClosedMemoryIsolated | axons/permeability.py:74-91 | a CLOSED memory neither sends nor receives |
| Permeability.MixedCompartmentsBlockSending | axons/permeability.py:84-91 | a memory in both an OPEN and a CLOSED compartment cannot send |
| Permeability.OsmoticInwardReceivesOnly | axons/permeability.py:74-97 | an OSMOTIC_INWARD memory in admitting compartments receives from a releasing memory and sends nothing back |
| Permeability.KeepReleasingSubsequence | axons/permeability.py:201-223 | the per-row pass keeps an order-preserving sub-list, exactly the rows whose source memory releases |
| Permeability.FilterByPermeability | axons/permeability.py:156-223 | the filter never lengthens its input and returns nothing when the requester does not admit data |
| Permeability.FilterSpec | axons/permeability.py:156-223 | `_filter_by_permeability` returns an order-preserving sub-list, empty when the requester does not admit, and otherwise exactly the rows whose source releases |
| GraphStore.Linked | axons/client.py:928-943 | MERGE creates a -> b only between existing memories and without one already there, and changes no other connection |
| GraphStore.StrengthenedPair | axons/client.py:1030-1041 | only a -> b changes; its strength becomes `s + amount`, or the cap when that sum passes it, and its type and permeability are kept |
| GraphStore.WeakenedPair | axons/client.py:1056-1067 | only a -> b changes; its strength becomes `s - amount`, or the floor when that difference is below it, and its type and permeability are kept |
| GraphStore.WithConnectionPermeability | axons/permeability.py:111-118 | only a -> b changes, and only its permeability |
| GraphStore.LinkAmount | axons/client.py:1019-1025 | with a learning rate of 0 the amount applied to a link is 0, given or not |
| GraphStore.StrengthenLink | axons/client.py:1017-1041 | `strengthen_memory_link` never creates a connection and a non-positive effective amount changes nothing; a positive one sets an existing a -> b to `min(s + amount, max_strength)` |
| GraphStore.WeakenLink | axons/client.py:1043-1067 | `weaken_memory_link` never creates a connection and a non-positive effective amount changes nothing; a positive one sets an existing a -> b to `max(s - amount, min_strength)` |
| GraphStore.WeakenCurrent | axons/client.py:1045 | `or 1.0` never yields 0.0: it is the stored strength or 1.0 |
| GraphStore.StrengthenWeakenRoundTrip | axons/client.py:1017-1067 | weakening by the amount just used to strengthen, away from both bounds, restores the connections |
| GraphStore.Decayed | axons/client.py:1153-1173 | every connection below the threshold (every one under `decay_all`) becomes `max(s - amount, min)`, keeping its type and permeability; the others are left alone |
| GraphStore.Pruned | axons/client.py:1178-1188 | pruning deletes exactly the connections with strength at most the threshold and keeps the rest unchanged |
| GraphStore.AfterDecay | axons/client.py:1141-1176 | a non-positive amount is a no-op; otherwise no connection appears, every survivor has the decayed strength `max(s - amount, min_strength)` or, above the threshold without `decay_all`, its old one, and with `auto_prune` every survivor is above the prune threshold |
| GraphStore.DecayEffect | axons/client.py:1141-1176 | per connection: one subject to decay ends at `max(s - amount, min_strength)` and, with `auto_prune`, survives iff that value is above the prune threshold; any other is kept as it was unless pruned |
| GraphStore.AfterDecayBounded | axons/client.py:1141-1176 | decay and prune keep every strength within bounds containing min_strength |
| GraphStore.Maintained | axons/client.py:1319-1322 | any number of maintenance cycles removes connections at most and never adds one |
| GraphStore.MaintainedStep | axons/client.py:1319-1322 | n + 1 maintenance cycles are n cycles followed by one decay |
| GraphStore.MaintenanceSpec | axons/client.py:1314-1322 | any number of cycles keeps strengths in bounds, never adds a connection, leaves only connections above the prune threshold when pruning, and is a no-op for a non-positive amount |
| GraphStore.PrunedStaysPruned | axons/client.py:1319-1322 | after one or more pruning cycles every connection is above the prune threshold |
| GraphStore.DecayThresholdBoundary | axons/client.py:1165 | a connection exactly at the threshold is not decayed by the query although `effective_decay` would give it a positive amount |
| GraphStore.RaisedInto | axons/client.py:1274-1283 | only connections into the accessed memory change, each to `min(s + amount, max)`, keeping type and permeability |
| GraphStore.CompetitorsWeakened | axons/client.py:1291-1310 | every competing connection becomes `max(s - amount, min)`, keeping type and permeability; the others are left alone |
| GraphStore.CompetitorsSpareAccessed | axons/client.py:1297-1305 | without a self-link, no connection touching the accessed memory is weakened |
| GraphStore.SelfConnectionExposesAccessed | axons/client.py:1297-1305 | with a self-link, a connection out of the accessed memory is weakened |
| GraphStore.AfterRetrieval | axons/client.py:1267-1288 | with `retrieval_strengthens` false nothing changes; otherwise only connections into the accessed memory and competitors change |
| GraphStore.RetrievalBounded | axons/client.py:1267-1310 | retrieval effects keep strengths within [min_strength, max_strength] |
| GraphStore.RetrievalFavoursAccessed | axons/client.py:1267-1310 | without a self-link, connections into the accessed memory rise by the boost up to max_strength and connections out of it are untouched |
| GraphStore.RetrievalWeakensCompetitors | axons/client.py:1267-1310 | with both retrieval effects on, every competitor connection not pointing into the accessed memory ends at `max(s - amount, min_strength)` for the competitor amount |
| GraphStore.RelevanceLinked | axons/client.py:802-811 | a HAS_CONCEPT edge is added only between an existing memory and concept, and an existing one keeps its relevance |
| GraphStore.RelevanceRaised | axons/client.py:1069-1085 | only the named relevance changes, to `r + amount`, or 1.0 when that sum passes 1.0 |
| GraphStore.RelevanceLowered | axons/client.py:1087-1103 | only the named relevance changes, to `r - amount`, or 0.0 when that difference is below 0.0 |
| GraphStore.RelevanceRoundTrip | axons/client.py:1069-1103 | weakening a relevance by the amount it was just strengthened by restores the relevances when neither step clamps |
| GraphStore.HebbianCurrent | axons/client.py:1132-1133 | the intended reading: the current strength is the forward one whenever that connection exists, else the reverse one |
| GraphStore.HebbianCurrentAsWritten | axons/client.py:1133 | `strength_fwd or strength_rev`: no current strength exactly when the forward strength is missing or 0.0 and there is no reverse one; a forward 0.0 gives the reverse strength |
| GraphStore.HebbianZeroForward | axons/client.py:1133 | under EXPONENTIAL with no amount, a lone forward connection of strength 0.0 makes the pair and the run raise TypeError where the intended reading succeeds; with a reverse connection the curve is evaluated at the reverse strength instead of 0.0 |
| GraphStore.HebbianReadingsAgree | axons/client.py:1133 | the written and intended current strengths agree whenever the forward strength is not 0.0 |
| GraphStore.HebbianEffective | axons/client.py:1133-1134 | the amount handed to `strengthen_memory_link` raises exactly under the written reading, a non-linear curve and no non-zero amount, with a forward strength of 0.0 and no reverse connection, and then only TypeError |
| GraphStore.HebbianPair | axons/client.py:1120-1139 | one pair under either reading (the client runs the written one): it raises only TypeError in the `HebbianRaises` case or ValueError for an initial strength outside [0, 1] |
| GraphStore.HebbianApply | axons/client.py:1134-1139 | the existing-pair branch passes on exactly the exception of the amount |
| GraphStore.HebbianPairReadingsAgree | axons/client.py:1133 | away from a forward connection of strength 0.0 both readings run a pair alike |
| GraphStore.HebbianCreate | axons/client.py:1125-1130 | with creation on, the compartments allowing it when asked, both memories existing, neither direction present and the initial strength in [0, 1], both directions are created as "hebbian" connections at the initial strength; a pair is linked only under those flags, and only (a, b) and (b, a) can appear |
| GraphStore.HebbianStrengthen | axons/client.py:1134-1139 | for a != b each existing direction becomes `min(s + amount, max)`, keeping type and permeability; no other connection changes and none appears |
| GraphStore.HebbianPairCreates | axons/client.py:1118-1130 | a fresh permitted pair between existing memories gains exactly a -> b and b -> a as "hebbian" connections at the implicit initial strength |
| GraphStore.HebbianPairStrengthens | axons/client.py:1118-1139 | outside the `HebbianRaises` case a connected pair succeeds, keeps its keys, and each existing direction becomes `min(s + x, max_strength)` for the scaled amount x when x is positive, else stays |
| GraphStore.HebbianPairBounded | axons/client.py:1118-1139 | with the initial strength and the cap within bounds, a pair under either reading fails iff it is the `HebbianRaises` case, then with TypeError, and otherwise keeps strengths within bounds |
| GraphStore.HebbianPairKeys | axons/client.py:1118-1139 | a pair only adds both directions of a fresh, permitted pair, never a duplicate, and touches no other connection |
| GraphStore.RowSpec | axons/client.py:1119 | the inner loop visits every later id once |
| GraphStore.PairCount | axons/client.py:1118-1119 | the nested loop visits n(n-1)/2 pairs |
| GraphStore.PairsCover | axons/client.py:1118-1119 | every pair of positions i < j is visited |
| GraphStore.PairsWithinIds | axons/client.py:1118-1119 | every visited pair is made of the given ids |
| GraphStore.HebbianRunStep | axons/client.py:1118-1139 | a run is its first pair followed by the rest, stopping at the first error |
| GraphStore.HebbianRun | axons/client.py:1118-1139 | a run stops only with TypeError or ValueError, and ValueError only for an initial strength outside [0, 1] |
| GraphStore.HebbianRunAppend | axons/client.py:1118-1139 | a run over two lists is the run over the first continued by the run over the second |
| GraphStore.HebbianRunSpec | axons/client.py:1115-1139 | with bounds inside [0, 1] holding min and max strength, a run fails with TypeError at most; it succeeds under the intended reading, with LINEAR, with a non-zero amount, or when every strength is above 0; either way it removes no connection, adds only directions of visited pairs, and keeps strengths within bounds |
| GraphStore.Repermeated | axons/permeability.py:138-154 | exactly the listed memories get the new permeability; all others are unchanged |
| GraphStore.RepermeatedStep | axons/permeability.py:145-154 | one more listed id updates that memory only |
| GraphStore.Joined | axons/client.py:733-751 | membership grows by exactly the existing listed memories in the existing compartment |
| GraphStore.JoinedIdempotent | axons/client.py:733-751 | adding the same memories to the same compartment twice changes nothing the second time |
| GraphStore.Left | axons/client.py:753-773 | removing one memory drops the named compartment, or every compartment when none is named, and leaves other memories alone |
| GraphStore.LeftAll | axons/client.py:753-773 | removing a list of memories keeps the same memories in the membership map |
| GraphStore.LeftAllSpec | axons/client.py:753-773 | removing a list of memories changes exactly those memories' memberships |
| GraphStore.WithoutCompartment | axons/client.py:695-719 | deleting a compartment removes every membership in it and no other |
| GraphStore.GetOrCreate | axons/client.py:321-342 | an existing key returns its id and changes nothing; a new key is stored; a fresh id already used by the same label fails |
| GraphStore.IdsOfInsert | axons/client.py:321-342 | storing a new key adds its id to that label's ids only |
| GraphStore.Unindexed | axons/client.py:718-719 | deleting a node removes exactly its keys |
| GraphStore.GetOrCreateDeduplicates | axons/client.py:321-342 | creating the same key again returns the first id and changes nothing |
| GraphStore.RunningAverage | axons/client.py:545-558 | the running average fails exactly when the stored count is -1, and counts one more observation |
| GraphStore.RunningAverageStaysInRange | axons/client.py:546-548 | a running average of values within bounds stays within bounds |
| GraphStore.BucketIndex | axons/client.py:1251 | the bucket index is at most 9 and negative exactly for strengths at most -0.1 |
| GraphStore.CountBelow | axons/client.py:1261 | the count below the threshold is at most the count |
| GraphStore.CountAtMost | axons/client.py:1262 | the pruning candidates are at most the count |
| GraphStore.Least | axons/client.py:1257 | the minimum is one of the strengths and no greater than any |
| GraphStore.Greatest | axons/client.py:1258 | the maximum is one of the strengths and no less than any |
| GraphStore.StrengthsAlong | axons/client.py:1239-1246 | the strengths are read in the given order, one per connection |
| GraphStore.StatisticsOf | axons/client.py:1237-1263 | only KeyError can arise, and only for a non-empty list; the count is the number of strengths, and min and average are present exactly for a non-empty list |
| GraphStore.Summarize | axons/client.py:1237-1263 | the bucket loop computes the statistics |
| GraphStore.BucketsSumToCount | axons/client.py:1249-1253 | with no negative bucket, the ten buckets sum to the count |
| GraphStore.StatisticsEdges | axons/client.py:1237-1263 | statistics fail exactly when a strength is at most -0.1; an empty graph gives count 0, no min, max or average, and no pruning candidates |
| GraphStore.StatisticsSpec | axons/client.py:1237-1263 | on a non-empty graph the count is the number of strengths, ten buckets sum to it, min ≤ avg ≤ max, and both threshold counts are at most the count |
| GraphStore.AverageBetween | axons/client.py:1259 | the average lies between any lower and upper bound of the strengths |
| GraphStore.TopConnections | axons/client.py:1190-1226 | never more than `limit` rows |
| GraphStore.TopConnectionsSpec | axons/client.py:1190-1226 | at most `limit` rows, all ranked ones; without permeability the first `limit`; with it the first `limit` permitted rows of the first `3 * limit`, in ranking order, each able to send to the requester, and every permitted row of that window when fewer than `limit` come back |
| Client.RelevanceAfterRetrieval | axons/client.py:1266-1286 | with `retrieval_strengthens` on, a concept given and a positive strengthen amount, the (accessed, concept) relevance becomes `min(r + amount, 1.0)`; every other relevance, the accessed memory's other concepts included, is kept, and nothing changes otherwise |
| Client.MemoryGraphClient.constructor | axons/client.py:27-47 | a new client over a fresh database has an empty graph, the given or default configuration, access cycle 0, is open and has no active compartment |
| Client.MemoryGraphClient.Close | axons/client.py:54-59 | closing sets only the closed flag |
| Client.MemoryGraphClient.LinkMemories | axons/client.py:910-943 | an invalid strength is a ValueError with no change; the result is True iff the client is open and, if checked, compartments allow it; only then is the connection merged |
| Client.MemoryGraphClient.GetMemoryLinkStrength | axons/client.py:1105-1113 | a closed client raises; otherwise the strength of a -> b, None without one |
| Client.MemoryGraphClient.StrengthenMemoryLink | axons/client.py:1017-1041 | a closed client raises and changes nothing; otherwise only the connections change, as StrengthenLink |
| Client.MemoryGraphClient.WeakenMemoryLink | axons/client.py:1043-1067 | a closed client raises and changes nothing; otherwise only the connections change, as WeakenLink |
| Client.MemoryGraphClient.SetConnectionPermeability | axons/permeability.py:111-118 | a closed client raises; otherwise only a -> b's permeability changes |
| Client.MemoryGraphClient.GetConnectionPermeability | axons/permeability.py:120-127 | a closed client raises; otherwise the permeability of a -> b, None without one |
| Client.MemoryGraphClient.GetMemoryPermeability | axons/permeability.py:129-136 | a closed client raises; otherwise the memory's permeability, None without the memory |
| Client.MemoryGraphClient.LinkMemoryToConcept | axons/client.py:802-811 | an invalid relevance is a ValueError, a closed client raises, both without change; otherwise only the relevances change |
| Client.MemoryGraphClient.StrengthenConceptRelevance | axons/client.py:1069-1085 | a non-positive amount returns at once; a closed client raises; otherwise only the named relevance rises, capped at 1 |
| Client.MemoryGraphClient.WeakenConceptRelevance | axons/client.py:1087-1103 | a non-positive amount returns at once; a closed client raises; otherwise only the named relevance falls, floored at 0 |
| Client.MemoryGraphClient.ApplyHebbianLearning | axons/client.py:1115-1139 | the nested loop over pairs leaves exactly the connections and status of the Hebbian run over all pairs under the written `strength_fwd or strength_rev` reading, and changes nothing else |
| Client.MemoryGraphClient.HebbianRow | axons/client.py:1119-1139 | the inner loop leaves exactly the connections and status of the Hebbian run over the row under the written reading |
| Client.MemoryGraphClient.DecayWeakConnections | axons/client.py:1141-1176 | a non-positive amount returns before any query; a closed client raises; otherwise only the connections change, by decay then prune |
| Client.MemoryGraphClient.PruneDeadConnections | axons/client.py:1178-1188 | a closed client raises; otherwise exactly the weak connections are deleted |
| Client.MemoryGraphClient.WeakenCompetitors | axons/client.py:1291-1310 | a non-positive amount returns at once; a closed client raises; otherwise only the competing connections are weakened |
| Client.MemoryGraphClient.ApplyRetrievalEffects | axons/client.py:1267-1288 | a closed client changes nothing and raises iff a statement would run; otherwise connections and relevances change by the retrieval effects |
| Client.MemoryGraphClient.RunMaintenanceCycle | axons/client.py:1314-1317 | the access cycle grows by one and the connections become one maintenance cycle later |
| Client.MemoryGraphClient.RunAggressiveMaintenance | axons/client.py:1319-1322 | the access cycle grows by the cycle count and the connections become that many cycles later |
| Client.MemoryGraphClient.GetConnectionStatistics | axons/client.py:1237-1263 | a closed client raises; otherwise the statistics of all connection strengths, counting every connection |
| Client.MemoryGraphClient.Lookup | axons/client.py:321-342 | the MATCH on a node key followed by a plain CREATE: a closed client raises, an existing node's id is returned, otherwise the new node is created and its id returned, and an id the table already holds fails as the primary-key clash |
| Client.MemoryGraphClient.CreateConcept | axons/client.py:321-342 | get-or-create a Concept by name |
| Client.MemoryGraphClient.CreateKeyword | axons/client.py:344-362 | get-or-create a Keyword by term |
| Client.MemoryGraphClient.CreateTopic | axons/client.py:365-386 | get-or-create a Topic by name |
| Client.MemoryGraphClient.CreateEntity | axons/client.py:388-413 | get-or-create an Entity by name and type |
| Client.MemoryGraphClient.CreateSource | axons/client.py:415-440 | get-or-create a Source by reference and type |
| Client.MemoryGraphClient.CreateContext | axons/client.py:506-531 | get-or-create a Context by name and type |
| Client.MemoryGraphClient.CreateCompartment | axons/client.py:626-651 | an existing name returns its id unchanged; a new one stores the compartment |
| Client.MemoryGraphClient.CreatePreference | axons/client.py:533-578 | an existing category and preference is updated by the running average; a new one is stored |
| Client.MemoryGraphClient.CreateMemory | axons/client.py:283-319 | a new memory is stored and joins the given compartment, or the active one when none is given |
| Client.MemoryGraphClient.AddMemoryToCompartment | axons/client.py:733-751 | a closed client raises; otherwise only membership changes, as Joined |
| Client.MemoryGraphClient.RemoveMemoryFromCompartment | axons/client.py:753-773 | a closed client raises for a non-empty list; otherwise only membership changes, as LeftAll |
| Client.MemoryGraphClient.GetMemoryCompartments | axons/client.py:775-786 | a closed client raises; otherwise exactly the stored compartments the memory is in |
| Client.MemoryGraphClient.DeleteCompartment | axons/client.py:695-719 | without reassignment a compartment with members is a ValueError and nothing changes; otherwise the compartment, its memberships and its key go |
| Client.MemoryGraphClient.SetActiveCompartment | axons/client.py:721-731 | only the active compartment changes |
| Client.MemoryGraphClient.SetMemoryPermeability | axons/permeability.py:138-154 | a closed client raises for a non-empty list; otherwise exactly the listed memories get the permeability |
| Client.MemoryGraphClient.SetPlasticityConfig | axons/client.py:1364-1366 | only the configuration changes |
| Client.MemoryGraphClient.GetMemory | axons/client.py:1383-1402 | a closed client raises; a missing memory gives None; otherwise its access time and count are updated and, if asked, the retrieval effects applied |

## Left out

- The database driver, the schema DDL, full-text search, transactions and row decoding are I/O on a foreign library. The graph is a set of maps held by the client.
- Read queries whose meaning lives in the query engine are not modelled: searches, traversals, the `get_memories_by_*` listings and `get_memories_in_compartment`. The same goes for the database's sort order in `get_strongest_connections` and `get_weakest_connections`; `GraphStore.TopConnections` takes the ranked rows as input.
- Reporting (markdown export, node counts and summaries, `delete_all_data`), `quick_store_memory`, the JSON file save and load, the MCP server and the legacy `src/` client are not part of this model.
- Real powers and `math.log1p` are the fields of a `RealMath` value. Their ranges are preconditions (`Sound`), not axioms.
- Plasticity.ApplyCurve: returns a real for a negative current strength under EXPONENTIAL when `1 / steepness` is not a whole number. In Python that power is a complex number, and `max(0.1, factor)` then raises TypeError. Strengths are negative only when `min_strength` is set below 0, since `link_memories` refuses strengths outside [0, 1]; carrying this error would turn every curve amount into a `Result`.
- Floating point is modelled as exact `real`. NaN, infinities and rounding are not modelled.
- UUIDs and timestamps are inputs.
- Client.MemoryGraphClient.constructor: starts from a fresh, empty database. Opening a database directory that holds a graph from an earlier session is not modelled.
- Python's dynamic typing: a range argument is a number or not (`Arg`), and `from_dict` sees unknown keys. Configuration fields are typed (see the `Plasticity.Build` line).
- Plasticity.Build: a document entry of the wrong kind (a flag or a string for a number, a number for a flag, a number for a curve) is refused with TypeError. Python's `cls(**data)` stores it unchecked, and the configuration fails or misbehaves only where the value is used; the model's configuration fields are typed and cannot hold it.
- Plasticity.FromDict: works on a copy of the caller's dictionary; its in-place rewrite of the curves and its removal of the callback key are not visible to the caller in the model.
- Node payloads other than keys, permeability, compartments, preferences and access data are not stored; the `create_*` methods return ids.
- `update_compartment`, `get_compartment` and `get_compartment_by_name` are not modelled. Nor are the `link_memory_to_*` methods other than `link_memory_to_concept`, the goal, decision and context links, and `strengthen_goal_connections` / `strengthen_question_connections`.
- GraphStore.CompetitorsWeakened: each competing connection is weakened once, although the engine could match one connection on several rows.
- GraphStore.Summarize: buckets are indexed 0 to 9, not keyed by the strings "0.0-0.1" to "0.9-1.0".
- GraphStore.TopConnections: takes a non-negative limit; Python's slicing with a negative limit is not modelled.
- Client.MemoryGraphClient.ApplyHebbianLearning: runs the code as written, so it raises TypeError in the case the Findings table names. The corrected reading (`Intended`) is modelled and proved in `GraphStore.HebbianRunSpec`, but no client method runs it.
- Client.MemoryGraphClient.ApplyHebbianLearning: reads the implicit initial strength and the curve's Hebbian amount once per run instead of once per pair. Nothing in the loop changes the configuration, so the values are the same.
- Concurrency and the `with` protocol are not modelled.

## Findings

| source | as written | input that shows it | evidently intended | confidence | as-written member | corrected member |
|---|---|---|---|---|---|---|
| axons/client.py:1133 | `strength_fwd or strength_rev` treats an existing forward connection of strength 0.0 as missing | ids [a, b] and no amount, with a -> b at strength 0.0, no b -> a, and the EXPONENTIAL curve: the current strength is None and `None ** exponent` raises TypeError; with b -> a present its strength is used instead of 0.0 | use the forward strength whenever that connection exists (`strength_fwd if strength_fwd is not None else strength_rev`) | not executed | GraphStore.HebbianZeroForward | GraphStore.HebbianRunSpec |
