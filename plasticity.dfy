/** The plasticity configuration: how much each kind of operation changes a connection,
  * the response curves, decay, pruning and retrieval switches, and its flat-dictionary
  * serialisation. Strengths are exact reals. */
module Plasticity {
  import opened Wrappers
  import opened Enums

  /** The real-valued library functions the configuration uses: `x ** y` and
    * `math.log1p`. They are parameters; `Sound` states the only facts the proofs rely on. */
  datatype RealMath = RealMath(pow: (real, real) -> real, log1p: real -> real)

  ghost predicate Sound(m: RealMath) {
    && (forall x, e :: 0.0 <= x <= 1.0 && 0.0 <= e ==> 0.0 <= m.pow(x, e) <= 1.0)
    && (forall x :: 0.0 <= x ==> 0.0 <= m.log1p(x))
  }

  /** An injected similarity callback on two contents; None when the call raises. */
  type SimilarityFn = (string, string) -> Option<real>

  datatype Config = Config(
    learningRate: real,
    strengthenAmount: real,
    weakenAmount: real,
    hebbianAmount: real,
    retrievalAmount: real,
    decayAmount: real,
    initialStrengthExplicit: real,
    initialStrengthImplicit: real,
    useSemanticSimilarity: bool,
    similarityFn: Option<SimilarityFn>,
    maxStrength: real,
    minStrength: real,
    curve: Curve,
    curveSteepness: real,
    decayCurve: Curve,
    decayHalfLife: real,
    decayThreshold: real,
    decayAll: bool,
    pruneThreshold: real,
    autoPrune: bool,
    retrievalStrengthens: bool,
    retrievalWeakensCompetitors: bool,
    competitorDistance: real,
    hebbianCreatesConnections: bool)

  function Min(a: real, b: real): real { if a <= b then a else b }
  function Max(a: real, b: real): real { if a >= b then a else b }

  /** Python's `int(x)`: truncation toward zero. */
  function Trunc(x: real): int {
    if x >= 0.0 then x.Floor else -((-x).Floor)
  }

  // ---------------------------------------------------------------- presets

  /** The strength bounds lie in [0, 1] with both initial strengths between them, the
    * learning rate is not negative and the steepness needs no clamping. */
  predicate InRange(c: Config) {
    && 0.0 <= c.minStrength <= c.maxStrength <= 1.0
    && c.minStrength <= c.initialStrengthExplicit <= c.maxStrength
    && c.minStrength <= c.initialStrengthImplicit <= c.maxStrength
    && 0.0 <= c.learningRate && 0.1 <= c.curveSteepness <= 0.9
  }

  /** `PlasticityConfig()`: every field at its declared default. */
  function Default(): (r: Config)
    ensures InRange(r) && r.similarityFn.None?
  {
    Config(
      learningRate := 1.0,
      strengthenAmount := 0.1, weakenAmount := 0.1, hebbianAmount := 0.05,
      retrievalAmount := 0.02, decayAmount := 0.05,
      initialStrengthExplicit := 0.5, initialStrengthImplicit := 0.3,
      useSemanticSimilarity := false, similarityFn := None,
      maxStrength := 1.0, minStrength := 0.0,
      curve := Linear, curveSteepness := 0.5,
      decayCurve := Exponential, decayHalfLife := 0.1, decayThreshold := 0.5, decayAll := false,
      pruneThreshold := 0.01, autoPrune := true,
      retrievalStrengthens := true, retrievalWeakensCompetitors := false, competitorDistance := 0.1,
      hebbianCreatesConnections := true)
  }

  /** The `aggressive_learning` preset. */
  function AggressiveLearning(): (r: Config)
    ensures InRange(r) && r.similarityFn.None?
  {
    Default().(learningRate := 1.0, strengthenAmount := 0.15, hebbianAmount := 0.1,
               retrievalAmount := 0.05, decayThreshold := 0.3)
  }

  /** The `conservative_learning` preset. */
  function ConservativeLearning(): (r: Config)
    ensures InRange(r) && r.similarityFn.None?
  {
    Default().(learningRate := 0.5, curve := Exponential, decayThreshold := 0.7,
               pruneThreshold := 0.005)
  }

  /** The `no_plasticity` preset. */
  function NoPlasticity(): (r: Config)
    ensures InRange(r) && r.similarityFn.None?
  {
    Default().(learningRate := 0.0, retrievalStrengthens := false,
               retrievalWeakensCompetitors := false, autoPrune := false)
  }

  /** The `high_decay` preset. */
  function HighDecay(): (r: Config)
    ensures InRange(r) && r.similarityFn.None?
  {
    Default().(decayAmount := 0.1, decayThreshold := 0.7, decayAll := true,
               pruneThreshold := 0.05, decayHalfLife := 0.05)
  }

  /** `set_semantic_similarity_fn`: the configuration with the callback installed. */
  function WithSimilarityFn(c: Config, fn: SimilarityFn): (r: Config)
    ensures r.similarityFn == Some(fn)
    ensures r.(similarityFn := None) == c.(similarityFn := None)
  {
    c.(similarityFn := Some(fn))
  }

  // ---------------------------------------------------------------- curves

  /** The steepness actually used: `curve_steepness` clamped to [0.1, 0.9]. */
  function Steepness(c: Config): (s: real)
    ensures 0.1 <= s <= 0.9
    ensures 0.1 <= c.curveSteepness <= 0.9 ==> s == c.curveSteepness
  {
    Max(0.1, Min(0.9, c.curveSteepness))
  }

  /** `_apply_curve`: scales `amount` by a factor that depends on the current strength. */
  function ApplyCurve(c: Config, m: RealMath, amount: real, current: real, forIncrease: bool): (r: real)
    ensures c.curve == Linear ==> r == amount
    ensures amount == 0.0 ==> r == 0.0
  {
    if c.curve == Linear then amount
    else
      var steepness := Steepness(c);
      var exponent := 1.0 / steepness;
      if c.curve == Exponential then
        var factor := if forIncrease then 1.0 - m.pow(current, exponent) else m.pow(current, exponent);
        amount * Max(0.1, factor)
      else
        var factor := if forIncrease then (1.0 - steepness) + current * steepness
                      else steepness + (1.0 - current) * (1.0 - steepness);
        amount * factor
  }

  /** The per-context base amounts; an unknown context gets 0.1. */
  function BaseAmount(c: Config, context: string): real {
    if context == "strengthen" then c.strengthenAmount
    else if context == "weaken" then c.weakenAmount
    else if context == "hebbian" then c.hebbianAmount
    else if context == "retrieval" then c.retrievalAmount
    else if context == "decay" then c.decayAmount
    else 0.1
  }

  predicate IsIncrease(context: string) {
    context in {"strengthen", "hebbian", "retrieval"}
  }

  /** `effective_amount(context, current_strength)`. */
  function EffectiveAmount(c: Config, m: RealMath, context: string, current: real): (r: real)
    ensures c.learningRate == 0.0 ==> r == 0.0
  {
    ApplyCurve(c, m, BaseAmount(c, context) * c.learningRate, current, IsIncrease(context))
  }

  /** With the LINEAR curve the effective amount is the base amount times the learning rate. */
  lemma LinearAmount(c: Config, m: RealMath, context: string, current: real)
    requires c.curve == Linear
    ensures EffectiveAmount(c, m, context, current) == BaseAmount(c, context) * c.learningRate
    ensures context == "strengthen" && c.strengthenAmount == 0.1 && c.learningRate == 1.0
            ==> EffectiveAmount(c, m, context, current) == 0.1
  {
  }

  /** The two non-linear curves keep between a tenth of the amount and the whole of it,
    * for a current strength in [0, 1] and a non-negative amount. */
  lemma {:induction false} CurveBounds(c: Config, m: RealMath, amount: real, current: real, forIncrease: bool)
    requires Sound(m)
    requires c.curve != Linear
    requires 0.0 <= current <= 1.0 && 0.0 <= amount
    ensures 0.1 * amount <= ApplyCurve(c, m, amount, current, forIncrease) <= amount
  {
    var s := Steepness(c);
    ReciprocalPositive(s);
    var factor: real;
    if c.curve == Exponential {
      var p := m.pow(current, 1.0 / s);
      assert 0.0 <= p <= 1.0;
      factor := Max(0.1, if forIncrease then 1.0 - p else p);
    } else {
      if forIncrease {
        factor := (1.0 - s) + current * s;
        LogarithmicIncrease(s, current);
      } else {
        factor := s + (1.0 - current) * (1.0 - s);
        LogarithmicDecrease(s, current);
      }
    }
    assert 0.1 <= factor <= 1.0;
    assert ApplyCurve(c, m, amount, current, forIncrease) == amount * factor;
    MulBetween(amount, factor, 0.1, 1.0);
    assert amount * 0.1 <= amount * factor <= amount * 1.0;
  }

  lemma QuotientNonNegative(x: real, y: real)
    requires 0.0 <= x && 0.0 < y
    ensures 0.0 <= x / y
  {
  }

  lemma ReciprocalPositive(s: real)
    requires 0.0 < s
    ensures 0.0 < 1.0 / s
  {
  }

  /** The LOGARITHMIC factors lie in [0.1, 1] for a steepness in [0.1, 0.9]. */
  lemma LogarithmicIncrease(s: real, current: real)
    requires 0.1 <= s <= 0.9 && 0.0 <= current <= 1.0
    ensures 0.1 <= (1.0 - s) + current * s <= 1.0
  {
    ProdLeft(current, s);
  }

  lemma LogarithmicDecrease(s: real, current: real)
    requires 0.1 <= s <= 0.9 && 0.0 <= current <= 1.0
    ensures 0.1 <= s + (1.0 - current) * (1.0 - s) <= 1.0
  {
    ProdLeft(1.0 - current, 1.0 - s);
  }

  /** A product with a factor in [0, 1] lies between 0 and the other factor. */
  lemma Prod(a: real, f: real)
    requires 0.0 <= a && 0.0 <= f <= 1.0
    ensures 0.0 <= a * f <= a
  {
  }

  lemma ProdLeft(f: real, a: real)
    requires 0.0 <= a && 0.0 <= f <= 1.0
    ensures 0.0 <= f * a <= a
  {
  }

  lemma MulBetween(a: real, f: real, lo: real, hi: real)
    requires 0.0 <= a && lo <= f <= hi
    ensures a * lo <= a * f <= a * hi
    ensures lo * a <= f * a <= hi * a
  {
  }

  /** strengthen, hebbian and retrieval use the increasing branch of the curve; weaken,
    * decay and any unknown context the decreasing one, an unknown context with base 0.1. */
  lemma ContextBranches(c: Config, m: RealMath, context: string, current: real)
    ensures context in {"strengthen", "hebbian", "retrieval"} ==>
              EffectiveAmount(c, m, context, current) == ApplyCurve(c, m, BaseAmount(c, context) * c.learningRate, current, true)
    ensures context in {"weaken", "decay"} ==>
              EffectiveAmount(c, m, context, current) == ApplyCurve(c, m, BaseAmount(c, context) * c.learningRate, current, false)
    ensures context !in {"strengthen", "weaken", "hebbian", "retrieval", "decay"} ==>
              EffectiveAmount(c, m, context, current) == ApplyCurve(c, m, 0.1 * c.learningRate, current, false)
    ensures context !in {"strengthen", "weaken", "hebbian", "retrieval", "decay"} && c.weakenAmount == 0.1 ==>
              EffectiveAmount(c, m, context, current) == EffectiveAmount(c, m, "weaken", current)
  {
  }

  /** A zero learning rate switches every context off, whatever the curve. */
  lemma ZeroLearningRate(c: Config, m: RealMath, context: string, current: real)
    requires c.learningRate == 0.0
    ensures EffectiveAmount(c, m, context, current) == 0.0
  {
  }

  lemma NoPlasticityIsInert(m: RealMath, context: string, current: real)
    ensures EffectiveAmount(NoPlasticity(), m, context, current) == 0.0
    ensures !NoPlasticity().retrievalStrengthens && !NoPlasticity().autoPrune
  {
    ZeroLearningRate(NoPlasticity(), m, context, current);
  }

  // ---------------------------------------------------------------- decay

  /** `max(1, int(decay_half_life * 100))`: the half-life in cycles. */
  function EffectiveHalfLife(c: Config): (h: int)
    ensures h >= 1
    ensures c.decayHalfLife >= 0.01 ==> h == Trunc(c.decayHalfLife * 100.0)
  {
    var t := Trunc(c.decayHalfLife * 100.0);
    if t >= 1 then t else 1
  }

  /** `effective_decay(current_strength, cycles)`: how much to take off a connection.
    * LOGARITHMIC decay of a connection subject to decay raises ValueError for
    * `cycles <= -1`, outside the domain of `math.log1p`. */
  function EffectiveDecay(c: Config, m: RealMath, current: real, cycles: int): (r: Result<real>)
    ensures r.Err? <==> c.decayCurve == Logarithmic && cycles <= -1 && !(current > c.decayThreshold && !c.decayAll)
    ensures r.Err? ==> r.error == ValueError
    ensures c.learningRate == 0.0 && c.decayCurve == Linear ==> r == Ok(0.0)
    ensures c.learningRate == 0.0 && c.decayCurve == Logarithmic && cycles > -1 ==> r == Ok(0.0)
    ensures current == 0.0 && c.decayCurve == Exponential ==> r == Ok(0.0)
  {
    if current > c.decayThreshold && !c.decayAll then Ok(0.0)
    else
      var base := c.decayAmount * c.learningRate;
      match c.decayCurve
      case Linear => Ok(Min(1.0, base * cycles as real))
      case Exponential =>
        Ok(current * (1.0 - m.pow(0.5, cycles as real / EffectiveHalfLife(c) as real)))
      case Logarithmic =>
        if cycles <= -1 then Err(ValueError) else Ok(Min(1.0, base * m.log1p(cycles as real)))
  }

  /** Connections above the decay threshold do not decay unless `decay_all` is set. */
  lemma DecaySkipsStrong(c: Config, m: RealMath, current: real, cycles: int)
    requires current > c.decayThreshold && !c.decayAll
    ensures EffectiveDecay(c, m, current, cycles) == Ok(0.0)
  {
  }

  /** LINEAR decay is `min(1, base * cycles)`; EXPONENTIAL decay never takes more than
    * the connection has, nor adds to it. */
  lemma {:induction false} DecayBounds(c: Config, m: RealMath, current: real, cycles: int)
    requires Sound(m)
    requires current <= c.decayThreshold || c.decayAll
    requires 0.0 <= current && 0 <= cycles
    ensures EffectiveDecay(c, m, current, cycles).Ok?
    ensures c.decayCurve == Linear ==>
              EffectiveDecay(c, m, current, cycles).value == Min(1.0, c.decayAmount * c.learningRate * cycles as real)
    ensures c.decayCurve == Exponential ==> 0.0 <= EffectiveDecay(c, m, current, cycles).value <= current
    ensures c.decayCurve != Exponential ==> EffectiveDecay(c, m, current, cycles).value <= 1.0
  {
    if c.decayCurve == Exponential {
      var h := EffectiveHalfLife(c);
      var t := cycles as real / h as real;
      QuotientNonNegative(cycles as real, h as real);
      var p := m.pow(0.5, t);
      assert 0.0 <= p <= 1.0;
      assert !(current > c.decayThreshold && !c.decayAll);
      var f := 1.0 - p;
      Prod(current, f);
      assert 0.0 <= current * f <= current;
      assert EffectiveDecay(c, m, current, cycles).value == current * f;
    }
  }

  /** With a half-life of 10 cycles and an exact power function, ten cycles halve a
    * connection that is subject to decay (0.8 becomes 0.4). */
  lemma HalfLifeExample(c: Config, m: RealMath)
    requires c.decayCurve == Exponential && c.decayHalfLife == 0.1 && c.decayAll
    requires m.pow(0.5, 1.0) == 0.5
    ensures EffectiveHalfLife(c) == 10
    ensures EffectiveDecay(c, m, 0.8, 10).Ok? && 0.8 - EffectiveDecay(c, m, 0.8, 10).value == 0.4
  {
    assert Trunc(0.1 * 100.0) == 10;
  }

  // ---------------------------------------------------------------- initial strength

  predicate Truthy(s: Option<string>) {
    s.Some? && s.value != ""
  }

  function Clamp(c: Config, x: real): real {
    Min(c.maxStrength, Max(c.minStrength, x))
  }

  function BaseInitial(c: Config, explicit: bool): real {
    if explicit then c.initialStrengthExplicit else c.initialStrengthImplicit
  }

  /** `get_initial_strength(explicit, content1, content2)`: the explicit or implicit base,
    * raised toward the maximum by the similarity when the callback is installed,
    * enabled and given two non-empty contents, and clamped to the strength bounds. */
  function GetInitialStrength(c: Config, explicit: bool, content1: Option<string>, content2: Option<string>): (r: real)
    ensures c.minStrength <= c.maxStrength ==> c.minStrength <= r <= c.maxStrength
    ensures !(c.useSemanticSimilarity && c.similarityFn.Some?) ==> r == Clamp(c, BaseInitial(c, explicit))
  {
    var base := BaseInitial(c, explicit);
    var boosted :=
      if c.useSemanticSimilarity && c.similarityFn.Some? && Truthy(content1) && Truthy(content2) then
        match c.similarityFn.value(content1.value, content2.value)
        case Some(similarity) => base + (c.maxStrength - base) * similarity
        case None => base
      else base;
    Clamp(c, boosted)
  }

  /** A similarity in [0, 1] can only raise the initial strength; a callback that raises
    * leaves the clamped base. */
  lemma {:induction false} SimilarityOnlyRaises(c: Config, explicit: bool, content1: Option<string>, content2: Option<string>)
    requires c.similarityFn.Some? && Truthy(content1) && Truthy(content2)
    ensures var sim := c.similarityFn.value(content1.value, content2.value);
            sim.Some? && 0.0 <= sim.value <= 1.0 ==>
              GetInitialStrength(c, explicit, content1, content2) >= Clamp(c, BaseInitial(c, explicit))
    ensures c.similarityFn.value(content1.value, content2.value).None? ==>
              GetInitialStrength(c, explicit, content1, content2) == Clamp(c, BaseInitial(c, explicit))
  {
    var base := BaseInitial(c, explicit);
    var sim := c.similarityFn.value(content1.value, content2.value);
    if c.useSemanticSimilarity && sim.Some? && 0.0 <= sim.value <= 1.0 {
      assert GetInitialStrength(c, explicit, content1, content2) == Clamp(c, base + (c.maxStrength - base) * sim.value);
      BoostNotBelowBase(c, base, sim.value);
    }
  }

  /** Clamping a point moved toward the maximum does not fall below the clamped start. */
  lemma BoostNotBelowBase(c: Config, base: real, t: real)
    requires 0.0 <= t <= 1.0
    ensures Clamp(c, base + (c.maxStrength - base) * t) >= Clamp(c, base)
  {
    var d := (c.maxStrength - base) * t;
    if base <= c.maxStrength {
      NonNegativeProduct(c.maxStrength - base, t);
      ClampShift(c, base, d);
    } else {
      LerpDown(base, c.maxStrength, t);
      ClampAboveTop(c, base + d);
      ClampAboveTop(c, base);
    }
  }

  lemma NonNegativeProduct(a: real, t: real)
    requires 0.0 <= a && 0.0 <= t
    ensures 0.0 <= a * t
  {
  }

  /** Moving from `base` a fraction `t` of the way toward a smaller `top`. */
  lemma LerpDown(base: real, top: real, t: real)
    requires 0.0 <= t <= 1.0 && top <= base
    ensures top <= base + (top - base) * t <= base
  {
  }

  lemma ClampShift(c: Config, x: real, d: real)
    requires 0.0 <= d
    ensures Clamp(c, x) <= Clamp(c, x + d)
  {
  }

  lemma ClampAboveTop(c: Config, x: real)
    requires c.maxStrength <= x
    ensures Clamp(c, x) == c.maxStrength
  {
  }

  /** With the default bounds: base 0.5 and similarity 0.8 give 0.9; base 0.3 and
    * similarity 1.0 give the maximum. */
  lemma SimilarityExamples(c: Config, content1: string, content2: string)
    requires c.useSemanticSimilarity && c.similarityFn.Some?
    requires c.maxStrength == 1.0 && c.minStrength == 0.0
    requires content1 != "" && content2 != ""
    ensures c.initialStrengthExplicit == 0.5 && c.similarityFn.value(content1, content2) == Some(0.8)
            ==> GetInitialStrength(c, true, Some(content1), Some(content2)) == 0.9
    ensures c.initialStrengthImplicit == 0.3 && c.similarityFn.value(content1, content2) == Some(1.0)
            ==> GetInitialStrength(c, false, Some(content1), Some(content2)) == 1.0
  {
  }

  // ---------------------------------------------------------------- serialisation

  /** The configuration's attributes; `Name()` is the attribute name, which is also the
    * key of its entry in the serialised document. */
  datatype Field =
    | LearningRate | StrengthenAmount | WeakenAmount | HebbianAmount | RetrievalAmount
    | DecayAmount | InitialStrengthExplicit | InitialStrengthImplicit | UseSemanticSimilarity
    | SemanticSimilarityFn | MaxStrength | MinStrength | CurveField | CurveSteepness
    | DecayCurve | DecayHalfLife | DecayThreshold | DecayAll | PruneThreshold | AutoPrune
    | RetrievalStrengthens | RetrievalWeakensCompetitors | CompetitorDistance
    | HebbianCreatesConnections
  {
    function Name(): (n: string)
      ensures |n| > 0
    {
      match this
      case LearningRate => "learning_rate"
      case StrengthenAmount => "strengthen_amount"
      case WeakenAmount => "weaken_amount"
      case HebbianAmount => "hebbian_amount"
      case RetrievalAmount => "retrieval_amount"
      case DecayAmount => "decay_amount"
      case InitialStrengthExplicit => "initial_strength_explicit"
      case InitialStrengthImplicit => "initial_strength_implicit"
      case UseSemanticSimilarity => "use_semantic_similarity"
      case SemanticSimilarityFn => "_semantic_similarity_fn"
      case MaxStrength => "max_strength"
      case MinStrength => "min_strength"
      case CurveField => "curve"
      case CurveSteepness => "curve_steepness"
      case DecayCurve => "decay_curve"
      case DecayHalfLife => "decay_half_life"
      case DecayThreshold => "decay_threshold"
      case DecayAll => "decay_all"
      case PruneThreshold => "prune_threshold"
      case AutoPrune => "auto_prune"
      case RetrievalStrengthens => "retrieval_strengthens"
      case RetrievalWeakensCompetitors => "retrieval_weakens_competitors"
      case CompetitorDistance => "competitor_distance"
      case HebbianCreatesConnections => "hebbian_creates_connections"
    }

    /** The callback is the one attribute whose name starts with an underscore
      * (`PrivateMeansUnderscore`); it is not serialised. */
    predicate Private() {
      this == SemanticSimilarityFn
    }
  }

  /** A key of a serialised document: an attribute name, or any other string. */
  datatype Key = Attr(f: Field) | Other(name: string)

  /** A value in the configuration or in a serialised document. */
  datatype Value = Num(n: real) | Flag(b: bool) | Text(s: string) | CurveVal(c: Curve) | Callable

  type Document = map<Key, Value>

  /** `getattr(config, field)`. */
  function Attribute(c: Config, f: Field): Value {
    match f
    case LearningRate => Num(c.learningRate)
    case StrengthenAmount => Num(c.strengthenAmount)
    case WeakenAmount => Num(c.weakenAmount)
    case HebbianAmount => Num(c.hebbianAmount)
    case RetrievalAmount => Num(c.retrievalAmount)
    case DecayAmount => Num(c.decayAmount)
    case InitialStrengthExplicit => Num(c.initialStrengthExplicit)
    case InitialStrengthImplicit => Num(c.initialStrengthImplicit)
    case UseSemanticSimilarity => Flag(c.useSemanticSimilarity)
    case SemanticSimilarityFn => Callable
    case MaxStrength => Num(c.maxStrength)
    case MinStrength => Num(c.minStrength)
    case CurveField => CurveVal(c.curve)
    case CurveSteepness => Num(c.curveSteepness)
    case DecayCurve => CurveVal(c.decayCurve)
    case DecayHalfLife => Num(c.decayHalfLife)
    case DecayThreshold => Num(c.decayThreshold)
    case DecayAll => Flag(c.decayAll)
    case PruneThreshold => Num(c.pruneThreshold)
    case AutoPrune => Flag(c.autoPrune)
    case RetrievalStrengthens => Flag(c.retrievalStrengthens)
    case RetrievalWeakensCompetitors => Flag(c.retrievalWeakensCompetitors)
    case CompetitorDistance => Num(c.competitorDistance)
    case HebbianCreatesConnections => Flag(c.hebbianCreatesConnections)
  }

  /** Enum members are written as their string values; everything else as it is. */
  function Exported(v: Value): Value {
    if v.CurveVal? then Text(v.c.Value()) else v
  }

  /** `to_dict` skips the keys that start with an underscore: exactly the private one. */
  lemma PrivateMeansUnderscore(f: Field)
    ensures f.Private() <==> f.Name()[0] == '_'
  {
  }

  /** The document `to_dict` produces. */
  function Serialized(c: Config): (r: Document)
    ensures forall f: Field :: Attr(f) in r <==> !f.Private()
    ensures forall k :: k in r ==> k.Attr?
  {
    map f: Field | !f.Private() :: Attr(f) := Exported(Attribute(c, f))
  }

  /** `to_dict`: one entry per attribute whose name does not start with an underscore,
    * enum members replaced by their values. The attributes are visited in no particular
    * order; the resulting document does not depend on it. */
  method ToDict(c: Config) returns (d: Document)
    ensures d == Serialized(c)
  {
    d := map[];
    var todo: set<Field> := (set f: Field | !f.Private()) + {SemanticSimilarityFn};
    while todo != {}
      invariant forall f: Field :: Attr(f) in d <==> f !in todo && !f.Private()
      invariant forall k :: k in d ==> k.Attr? && d[k] == Exported(Attribute(c, k.f))
      decreases |todo|
    {
      var f :| f in todo;
      todo := todo - {f};
      if !f.Private() {
        d := d[Attr(f) := Exported(Attribute(c, f))];
      }
    }
    assert d.Keys == Serialized(c).Keys;
  }

  /** The serialised document names every attribute but the callback, holds the curves
    * as their string values, and holds no enum member and no callable. */
  lemma SerializedShape(c: Config)
    ensures forall f: Field :: Attr(f) in Serialized(c) <==> f != SemanticSimilarityFn
    ensures forall k :: k in Serialized(c) ==> k.Attr?
    ensures forall k :: k in Serialized(c) ==> !Serialized(c)[k].CurveVal? && !Serialized(c)[k].Callable?
    ensures Serialized(c)[Attr(CurveField)] == Text(c.curve.Value())
    ensures Serialized(c)[Attr(DecayCurve)] == Text(c.decayCurve.Value())
  {
  }

  /** Installing a similarity callback does not change the serialised document. */
  lemma CallbackNotSerialized(c: Config, fn: SimilarityFn)
    ensures Serialized(WithSimilarityFn(c, fn)) == Serialized(c)
  {
    var c' := WithSimilarityFn(c, fn);
    assert forall f: Field :: !f.Private() ==> Attribute(c', f) == Attribute(c, f);
  }

  /** `Curve(data[key])` when the entry is a string; ValueError for an unknown one. */
  function ConvertCurve(data: Document, f: Field): (r: Result<Document>)
    ensures r.Ok? ==> r.value.Keys == data.Keys
  {
    var key := Attr(f);
    if key in data && data[key].Text? then
      match ParseCurve(data[key].s)
      case Some(cv) => Ok(data[key := CurveVal(cv)])
      case None => Err(ValueError)
    else Ok(data)
  }

  function NumField(d: Document, f: Field, default: real): Result<real> {
    if Attr(f) !in d then Ok(default)
    else if d[Attr(f)].Num? then Ok(d[Attr(f)].n)
    else Err(TypeError)
  }

  function FlagField(d: Document, f: Field, default: bool): Result<bool> {
    if Attr(f) !in d then Ok(default)
    else if d[Attr(f)].Flag? then Ok(d[Attr(f)].b)
    else Err(TypeError)
  }

  function CurveOf(d: Document, f: Field, default: Curve): Result<Curve> {
    if Attr(f) !in d then Ok(default)
    else if d[Attr(f)].CurveVal? then Ok(d[Attr(f)].c)
    else Err(TypeError)
  }

  /** `from_dict`: converts the two curve strings, drops the callback key and builds a
    * configuration, taking the default for every missing key and raising TypeError for
    * a key that is not an attribute. The callback always comes back unset. */
  function FromDict(data: Document): (r: Result<Config>)
    ensures (exists k :: k in data && k.Other?) ==> r.Err?
    ensures r.Ok? ==> r.value.similarityFn.None?
  {
    var d1 :- ConvertCurve(data, DecayCurve);
    var d2 :- ConvertCurve(d1, CurveField);
    var d := d2 - {Attr(SemanticSimilarityFn)};
    if exists k :: k in d && k.Other? then Err(TypeError)
    else Build(d)
  }

  /** `cls(**data)` once every key is an attribute name: each field from its entry, or
    * its default when the entry is missing. */
  function Build(d: Document): (r: Result<Config>)
    ensures r.Ok? ==> r.value.similarityFn.None?
  {
    var dflt := Default();
    var learningRate :- NumField(d, LearningRate, dflt.learningRate);
    var strengthenAmount :- NumField(d, StrengthenAmount, dflt.strengthenAmount);
    var weakenAmount :- NumField(d, WeakenAmount, dflt.weakenAmount);
    var hebbianAmount :- NumField(d, HebbianAmount, dflt.hebbianAmount);
    var retrievalAmount :- NumField(d, RetrievalAmount, dflt.retrievalAmount);
    var decayAmount :- NumField(d, DecayAmount, dflt.decayAmount);
    var initialExplicit :- NumField(d, InitialStrengthExplicit, dflt.initialStrengthExplicit);
    var initialImplicit :- NumField(d, InitialStrengthImplicit, dflt.initialStrengthImplicit);
    var useSimilarity :- FlagField(d, UseSemanticSimilarity, dflt.useSemanticSimilarity);
    var maxStrength :- NumField(d, MaxStrength, dflt.maxStrength);
    var minStrength :- NumField(d, MinStrength, dflt.minStrength);
    var curve :- CurveOf(d, CurveField, dflt.curve);
    var steepness :- NumField(d, CurveSteepness, dflt.curveSteepness);
    var decayCurve :- CurveOf(d, DecayCurve, dflt.decayCurve);
    var halfLife :- NumField(d, DecayHalfLife, dflt.decayHalfLife);
    var decayThreshold :- NumField(d, DecayThreshold, dflt.decayThreshold);
    var decayAll :- FlagField(d, DecayAll, dflt.decayAll);
    var pruneThreshold :- NumField(d, PruneThreshold, dflt.pruneThreshold);
    var autoPrune :- FlagField(d, AutoPrune, dflt.autoPrune);
    var retrievalStrengthens :- FlagField(d, RetrievalStrengthens, dflt.retrievalStrengthens);
    var weakensCompetitors :- FlagField(d, RetrievalWeakensCompetitors, dflt.retrievalWeakensCompetitors);
    var competitorDistance :- NumField(d, CompetitorDistance, dflt.competitorDistance);
    var hebbianCreates :- FlagField(d, HebbianCreatesConnections, dflt.hebbianCreatesConnections);
    Ok(Config(learningRate, strengthenAmount, weakenAmount, hebbianAmount, retrievalAmount,
              decayAmount, initialExplicit, initialImplicit, useSimilarity, None,
              maxStrength, minStrength, curve, steepness, decayCurve, halfLife,
              decayThreshold, decayAll, pruneThreshold, autoPrune, retrievalStrengthens,
              weakensCompetitors, competitorDistance, hebbianCreates))
  }

  /** The attribute values of a configuration, curves as enum members, callback left out. */
  function Attributes(c: Config): Document {
    map f: Field | !f.Private() :: Attr(f) := Attribute(c, f)
  }

  /** A document holding the attribute values of `c` under their names. */
  ghost predicate Holds(d: Document, c: Config) {
    forall f: Field :: !f.Private() ==> Attr(f) in d && d[Attr(f)] == Attribute(c, f)
  }

  lemma AttributesHold(c: Config)
    ensures Holds(Attributes(c), c)
  {
  }

  /** The value of each public attribute, in four groups of fields. */
  lemma AttributeValues1(c: Config)
    ensures Attribute(c, LearningRate) == Num(c.learningRate)
    ensures Attribute(c, StrengthenAmount) == Num(c.strengthenAmount)
    ensures Attribute(c, WeakenAmount) == Num(c.weakenAmount)
    ensures Attribute(c, HebbianAmount) == Num(c.hebbianAmount)
    ensures Attribute(c, RetrievalAmount) == Num(c.retrievalAmount)
    ensures Attribute(c, DecayAmount) == Num(c.decayAmount)
  {
  }

  lemma AttributeValues2(c: Config)
    ensures Attribute(c, InitialStrengthExplicit) == Num(c.initialStrengthExplicit)
    ensures Attribute(c, InitialStrengthImplicit) == Num(c.initialStrengthImplicit)
    ensures Attribute(c, MaxStrength) == Num(c.maxStrength)
    ensures Attribute(c, MinStrength) == Num(c.minStrength)
    ensures Attribute(c, CurveSteepness) == Num(c.curveSteepness)
    ensures Attribute(c, DecayHalfLife) == Num(c.decayHalfLife)
  {
  }

  lemma AttributeValues3(c: Config)
    ensures Attribute(c, DecayThreshold) == Num(c.decayThreshold)
    ensures Attribute(c, PruneThreshold) == Num(c.pruneThreshold)
    ensures Attribute(c, CompetitorDistance) == Num(c.competitorDistance)
    ensures Attribute(c, UseSemanticSimilarity) == Flag(c.useSemanticSimilarity)
    ensures Attribute(c, DecayAll) == Flag(c.decayAll)
    ensures Attribute(c, AutoPrune) == Flag(c.autoPrune)
  {
  }

  lemma AttributeValues4(c: Config)
    ensures Attribute(c, RetrievalStrengthens) == Flag(c.retrievalStrengthens)
    ensures Attribute(c, RetrievalWeakensCompetitors) == Flag(c.retrievalWeakensCompetitors)
    ensures Attribute(c, HebbianCreatesConnections) == Flag(c.hebbianCreatesConnections)
    ensures Attribute(c, CurveField) == CurveVal(c.curve)
    ensures Attribute(c, DecayCurve) == CurveVal(c.decayCurve)
  {
  }

  /** A document holding every attribute value of `c` builds `c`, callback unset. */
  lemma BuildFrom(d: Document, c: Config)
    requires Attr(LearningRate) in d && d[Attr(LearningRate)] == Num(c.learningRate)
    requires Attr(StrengthenAmount) in d && d[Attr(StrengthenAmount)] == Num(c.strengthenAmount)
    requires Attr(WeakenAmount) in d && d[Attr(WeakenAmount)] == Num(c.weakenAmount)
    requires Attr(HebbianAmount) in d && d[Attr(HebbianAmount)] == Num(c.hebbianAmount)
    requires Attr(RetrievalAmount) in d && d[Attr(RetrievalAmount)] == Num(c.retrievalAmount)
    requires Attr(DecayAmount) in d && d[Attr(DecayAmount)] == Num(c.decayAmount)
    requires Attr(InitialStrengthExplicit) in d && d[Attr(InitialStrengthExplicit)] == Num(c.initialStrengthExplicit)
    requires Attr(InitialStrengthImplicit) in d && d[Attr(InitialStrengthImplicit)] == Num(c.initialStrengthImplicit)
    requires Attr(MaxStrength) in d && d[Attr(MaxStrength)] == Num(c.maxStrength)
    requires Attr(MinStrength) in d && d[Attr(MinStrength)] == Num(c.minStrength)
    requires Attr(CurveSteepness) in d && d[Attr(CurveSteepness)] == Num(c.curveSteepness)
    requires Attr(DecayHalfLife) in d && d[Attr(DecayHalfLife)] == Num(c.decayHalfLife)
    requires Attr(DecayThreshold) in d && d[Attr(DecayThreshold)] == Num(c.decayThreshold)
    requires Attr(PruneThreshold) in d && d[Attr(PruneThreshold)] == Num(c.pruneThreshold)
    requires Attr(CompetitorDistance) in d && d[Attr(CompetitorDistance)] == Num(c.competitorDistance)
    requires Attr(UseSemanticSimilarity) in d && d[Attr(UseSemanticSimilarity)] == Flag(c.useSemanticSimilarity)
    requires Attr(DecayAll) in d && d[Attr(DecayAll)] == Flag(c.decayAll)
    requires Attr(AutoPrune) in d && d[Attr(AutoPrune)] == Flag(c.autoPrune)
    requires Attr(RetrievalStrengthens) in d && d[Attr(RetrievalStrengthens)] == Flag(c.retrievalStrengthens)
    requires Attr(RetrievalWeakensCompetitors) in d && d[Attr(RetrievalWeakensCompetitors)] == Flag(c.retrievalWeakensCompetitors)
    requires Attr(HebbianCreatesConnections) in d && d[Attr(HebbianCreatesConnections)] == Flag(c.hebbianCreatesConnections)
    requires Attr(CurveField) in d && d[Attr(CurveField)] == CurveVal(c.curve)
    requires Attr(DecayCurve) in d && d[Attr(DecayCurve)] == CurveVal(c.decayCurve)
    ensures Build(d) == Ok(c.(similarityFn := None))
  {
  }

  /** Building from a configuration's own attributes gives it back, callback unset. */
  lemma BuildAttributes(c: Config)
    ensures Build(Attributes(c)) == Ok(c.(similarityFn := None))
  {
    AttributesHold(c);
    AttributeValues1(c);
    AttributeValues2(c);
    AttributeValues3(c);
    AttributeValues4(c);
    BuildFrom(Attributes(c), c);
  }

  /** Deserialising a serialised configuration gives back every public field, with the
    * similarity callback unset. */
  lemma {:induction false} RoundTrip(c: Config)
    ensures FromDict(Serialized(c)) == Ok(c.(similarityFn := None))
  {
    ConvertSerialized(c);
    ConvertedIsAttributes(c);
    var d := Serialized(c)[Attr(DecayCurve) := CurveVal(c.decayCurve)][Attr(CurveField) := CurveVal(c.curve)]
             - {Attr(SemanticSimilarityFn)};
    assert !exists k :: k in d && k.Other?;
    BuildAttributes(c);
  }

  /** `from_dict` turns the two serialised curve strings back into members. */
  lemma ConvertSerialized(c: Config)
    ensures ConvertCurve(Serialized(c), DecayCurve) == Ok(Serialized(c)[Attr(DecayCurve) := CurveVal(c.decayCurve)])
    ensures ConvertCurve(Serialized(c)[Attr(DecayCurve) := CurveVal(c.decayCurve)], CurveField)
            == Ok(Serialized(c)[Attr(DecayCurve) := CurveVal(c.decayCurve)][Attr(CurveField) := CurveVal(c.curve)])
  {
    SerializedShape(c);
    CurveRoundTrip(c.decayCurve, c.decayCurve.Value());
    CurveRoundTrip(c.curve, c.curve.Value());
  }

  /** Only the two curve attributes hold enum members. */
  lemma CurveAttributes(c: Config, f: Field)
    ensures Attribute(c, f).CurveVal? <==> f == CurveField || f == DecayCurve
  {
  }

  /** Converting the two curve strings back to members turns the serialised document
    * into the attribute values. */
  lemma ConvertedIsAttributes(c: Config)
    ensures Serialized(c)[Attr(DecayCurve) := CurveVal(c.decayCurve)][Attr(CurveField) := CurveVal(c.curve)]
            - {Attr(SemanticSimilarityFn)} == Attributes(c)
  {
    var d := Serialized(c)[Attr(DecayCurve) := CurveVal(c.decayCurve)][Attr(CurveField) := CurveVal(c.curve)]
             - {Attr(SemanticSimilarityFn)};
    assert forall k :: k in d <==> k in Attributes(c);
    forall k | k in d
      ensures d[k] == Attributes(c)[k]
    {
      if k != Attr(DecayCurve) && k != Attr(CurveField) {
        CurveAttributes(c, k.f);
      }
    }
  }

  /** An empty document gives the default configuration; a document with a key that is
    * not an attribute is refused, and one with an unknown curve string too. */
  lemma FromDictEdges(data: Document, name: string, curve: string)
    ensures FromDict(map[]) == Ok(Default())
    ensures Other(name) in data ==> FromDict(data) == Err(TypeError) || FromDict(data) == Err(ValueError)
    ensures ParseCurve(curve).None? ==> FromDict(map[Attr(CurveField) := Text(curve)]) == Err(ValueError)
  {
    if Other(name) in data && ConvertCurve(data, DecayCurve).Ok? {
      var d1 := ConvertCurve(data, DecayCurve).value;
      if ConvertCurve(d1, CurveField).Ok? {
        var d := ConvertCurve(d1, CurveField).value - {Attr(SemanticSimilarityFn)};
        assert Other(name) in d;
      }
    }
  }
}
