/**
  The commute decision engine `makeDecision`: every commute method starts
  at a score of 100, a fixed sequence of rules adjusts or zeroes the scores
  and records why, and the method with the highest score wins, ties going
  to the earliest of Walk, Bike, Car.

  The rules are given as a table (when each fires, what it does to each
  score); `MakeDecision` runs them as straight-line code, and is proved to
  compute exactly the table's outcome.
 */
module DecisionEngine {
  import opened Wrappers
  import Sheets
  import Weather

  datatype CommuteMethod = Walk | Bike | Car

  /** The methods in the order `Object.keys(scores)` lists them. */
  const Methods: seq<CommuteMethod> := [Walk, Bike, Car]

  /** Position of a method in `Methods`. */
  function Rank(m: CommuteMethod): (k: nat)
    ensures k < |Methods| && Methods[k] == m
  {
    match m
    case Walk => 0
    case Bike => 1
    case Car => 2
  }

  /** The `scores` record: exactly one score per method. */
  datatype Scores = Scores(walk: int, bike: int, car: int)
  {
    function Of(m: CommuteMethod): int {
      match m
      case Walk => walk
      case Bike => bike
      case Car => car
    }
  }

  const Baseline: Scores := Scores(100, 100, 100)

  /** What `makeDecision` reads: the day's record, its weather, and the
      laziness factor, which `UserData` does not carry and which is
      therefore usually absent. */
  datatype Conditions = Conditions(
    user: Sheets.UserData,
    weather: Weather.WeatherData,
    laziness: Option<real>)

  // ---------------------------------------------------------------------
  // The rule table

  /** The rules, named after the reasoning entry each one adds. */
  datatype Rule =
    | HeavyPrecipitation | Rain | Icy
    | GasCritical | GasLow
    | ExtremeTemperature | GreatTemperature
    | HighWind | HighLaziness | HighUrgency | BudgetMode

  /** The order in which `makeDecision` tries the rules. */
  const RuleOrder: seq<Rule> := [
    HeavyPrecipitation, Rain, Icy, GasCritical, GasLow,
    ExtremeTemperature, GreatTemperature, HighWind, HighLaziness, HighUrgency, BudgetMode]

  /** When a rule fires. The second rule of each `if ... else if` pair
      fires only when the first does not. */
  predicate Fires(r: Rule, c: Conditions) {
    var w, u := c.weather, c.user;
    match r
    case HeavyPrecipitation => w.precipitation > 2.0 || w.isSnowing
    case Rain => !(w.precipitation > 2.0 || w.isSnowing) && w.isRaining
    case Icy => w.temperature < 1.0 && (w.isRaining || w.precipitation > 0.0)
    case GasCritical => u.gasLevel < 5
    case GasLow => !(u.gasLevel < 5) && u.gasLevel < 15
    case ExtremeTemperature => w.temperature < 5.0 || w.temperature > 30.0
    case GreatTemperature => !(w.temperature < 5.0 || w.temperature > 30.0) &&
                             15.0 <= w.temperature <= 25.0
    case HighWind => w.windSpeed > 25.0
    case HighLaziness => c.laziness.Some? && c.laziness.value > 7.0
    case HighUrgency => u.urgency >= 8
    case BudgetMode => u.budgetMode
  }

  /** What a rule does to one score. */
  datatype Change = Keep | SetTo(value: int) | Add(delta: int)

  function Apply(ch: Change, x: int): int {
    match ch
    case Keep => x
    case SetTo(v) => v
    case Add(d) => x + d
  }

  /** The effect of each rule on each method's score. */
  function ChangeOf(r: Rule, m: CommuteMethod): Change {
    match r
    case HeavyPrecipitation => if m == Car then Keep else SetTo(0)
    case Rain => (match m case Walk => Add(-30) case Bike => Add(-50) case Car => Keep)
    case Icy => if m == Bike then SetTo(0) else Keep
    case GasCritical => if m == Car then SetTo(0) else Keep
    case GasLow => if m == Car then Add(-30) else Keep
    case ExtremeTemperature => if m == Car then Keep else Add(-20)
    case GreatTemperature => (match m case Walk => Add(10) case Bike => Add(15) case Car => Keep)
    case HighWind => (match m case Walk => Add(-10) case Bike => Add(-40) case Car => Keep)
    case HighLaziness => if m == Car then Add(30) else Add(-20)
    case HighUrgency => (match m case Walk => Add(-50) case Bike => Add(20) case Car => Add(40))
    case BudgetMode => if m == Car then Add(-40) else Add(20)
  }

  /** A rule applied to the whole record. */
  function Effect(r: Rule, s: Scores): (s': Scores)
  {
    Scores(Apply(ChangeOf(r, Walk), s.walk), Apply(ChangeOf(r, Bike), s.bike), Apply(ChangeOf(r, Car), s.car))
  }

  /** The rules applied one after the other, first to last. */
  function Replay(rules: seq<Rule>, s: Scores): Scores
    decreases |rules|
  {
    if rules == [] then s else Effect(rules[|rules| - 1], Replay(rules[..|rules| - 1], s))
  }

  lemma ReplaySnoc(rules: seq<Rule>, r: Rule, s: Scores)
    ensures Replay(rules + [r], s) == Effect(r, Replay(rules, s))
  {
    assert (rules + [r])[..|rules|] == rules;
  }

  /** The position of a rule in `RuleOrder`. */
  function RuleIndex(r: Rule): (k: nat)
    ensures k < |RuleOrder| && RuleOrder[k] == r
  {
    match r
    case HeavyPrecipitation => 0
    case Rain => 1
    case Icy => 2
    case GasCritical => 3
    case GasLow => 4
    case ExtremeTemperature => 5
    case GreatTemperature => 6
    case HighWind => 7
    case HighLaziness => 8
    case HighUrgency => 9
    case BudgetMode => 10
  }

  /** The state `makeDecision` builds: the scores and the reasoning list. */
  datatype Progress = Progress(scores: Scores, reasoning: seq<Rule>)

  const Start: Progress := Progress(Baseline, [])

  /** Trying one rule: if it fires, apply it and record it. */
  function Try(r: Rule, c: Conditions, p: Progress): Progress {
    if Fires(r, c) then Progress(Effect(r, p.scores), p.reasoning + [r]) else p
  }

  /** The state once the first `k` rules of `RuleOrder` have been tried. */
  function TriedUpTo(k: nat, c: Conditions): Progress
    requires k <= |RuleOrder|
    decreases k
  {
    if k == 0 then Start else Try(RuleOrder[k - 1], c, TriedUpTo(k - 1, c))
  }

  /** The state once every rule has been tried. */
  function Outcome(c: Conditions): Progress {
    TriedUpTo(|RuleOrder|, c)
  }

  /** The rules that fire, in rule order: the reasoning of the decision. */
  function Fired(c: Conditions): seq<Rule> {
    Outcome(c).reasoning
  }

  /** The final scores. */
  function FinalScores(c: Conditions): Scores {
    Outcome(c).scores
  }

  /** The hard constraints are the first five rules. */
  lemma HardConstraintsTried(c: Conditions)
    ensures TriedUpTo(5, c) ==
      Try(GasLow, c, Try(GasCritical, c, Try(Icy, c, Try(Rain, c, Try(HeavyPrecipitation, c, Start)))))
  {
    assert TriedUpTo(1, c) == Try(HeavyPrecipitation, c, Start);
    assert TriedUpTo(2, c) == Try(Rain, c, TriedUpTo(1, c));
    assert TriedUpTo(3, c) == Try(Icy, c, TriedUpTo(2, c));
    assert TriedUpTo(4, c) == Try(GasCritical, c, TriedUpTo(3, c));
  }

  /** The weather factors are the next three. */
  lemma WeatherFactorsTried(c: Conditions)
    ensures TriedUpTo(8, c) ==
      Try(HighWind, c, Try(GreatTemperature, c, Try(ExtremeTemperature, c, TriedUpTo(5, c))))
  {
    assert TriedUpTo(6, c) == Try(ExtremeTemperature, c, TriedUpTo(5, c));
    assert TriedUpTo(7, c) == Try(GreatTemperature, c, TriedUpTo(6, c));
  }

  /** The personal factors are the last three. */
  lemma PersonalFactorsTried(c: Conditions)
    ensures Outcome(c) ==
      Try(BudgetMode, c, Try(HighUrgency, c, Try(HighLaziness, c, TriedUpTo(8, c))))
  {
    assert TriedUpTo(9, c) == Try(HighLaziness, c, TriedUpTo(8, c));
    assert TriedUpTo(10, c) == Try(HighUrgency, c, TriedUpTo(9, c));
  }

  /** After `k` rules the scores are the recorded rules replayed on the
      baseline. */
  lemma {:induction false} TriedScores(k: nat, c: Conditions)
    requires k <= |RuleOrder|
    ensures TriedUpTo(k, c).scores == Replay(TriedUpTo(k, c).reasoning, Baseline)
    decreases k
  {
    if k > 0 {
      TriedScores(k - 1, c);
      var p := TriedUpTo(k - 1, c);
      if Fires(RuleOrder[k - 1], c) {
        ReplaySnoc(p.reasoning, RuleOrder[k - 1], Baseline);
      }
    }
  }

  /** Every rule of `rs` is among the first `k` of `RuleOrder`, and the
      rules of `rs` appear in rule order, each at most once. */
  predicate InRuleOrder(rs: seq<Rule>, k: nat) {
    (forall i :: 0 <= i < |rs| ==> RuleIndex(rs[i]) < k) &&
    (forall i, j :: 0 <= i < j < |rs| ==> RuleIndex(rs[i]) < RuleIndex(rs[j]))
  }

  /** After `k` rules the reasoning lists rules among the first `k` only,
      each after every rule that comes before it in `RuleOrder`. */
  lemma {:induction false} TriedInOrder(k: nat, c: Conditions)
    requires k <= |RuleOrder|
    ensures InRuleOrder(TriedUpTo(k, c).reasoning, k)
    decreases k
  {
    if k > 0 {
      TriedInOrder(k - 1, c);
      var rs, r := TriedUpTo(k - 1, c).reasoning, RuleOrder[k - 1];
      assert RuleIndex(r) == k - 1;
      var rs' := TriedUpTo(k, c).reasoning;
      assert rs' == if Fires(r, c) then rs + [r] else rs;
      if Fires(r, c) {
        assert forall i :: 0 <= i < |rs| ==> rs'[i] == rs[i];
        assert rs'[|rs|] == r;
        forall i, j | 0 <= i < j < |rs'| ensures RuleIndex(rs'[i]) < RuleIndex(rs'[j]) {
          if j == |rs| {
            assert RuleIndex(rs[i]) < k - 1;
          }
        }
      }
    }
  }

  /** After `k` rules the reasoning holds exactly the rules among the first
      `k` that fire. */
  lemma {:induction false} TriedMembers(k: nat, c: Conditions)
    requires k <= |RuleOrder|
    ensures forall r :: r in TriedUpTo(k, c).reasoning <==> RuleIndex(r) < k && Fires(r, c)
    decreases k
  {
    if k > 0 {
      TriedMembers(k - 1, c);
      var rs, r := TriedUpTo(k - 1, c).reasoning, RuleOrder[k - 1];
      var rs' := TriedUpTo(k, c).reasoning;
      assert rs' == if Fires(r, c) then rs + [r] else rs;
      forall r' ensures r' in rs' <==> RuleIndex(r') < k && Fires(r', c) {
        if RuleIndex(r') == k - 1 {
          assert r' == r;
        }
      }
    }
  }

  /** The reasoning and the scores of the whole decision. */
  lemma OutcomeSpec(c: Conditions)
    ensures forall r :: r in Fired(c) <==> Fires(r, c)
    ensures InRuleOrder(Fired(c), |RuleOrder|)
    ensures FinalScores(c) == Replay(Fired(c), Baseline)
  {
    TriedScores(|RuleOrder|, c);
    TriedInOrder(|RuleOrder|, c);
    TriedMembers(|RuleOrder|, c);
  }

  /** The reasoning has one entry per firing rule, and at most one rule of
      each `if ... else if` pair fires, so it never exceeds eight entries. */
  lemma ReasoningBound(c: Conditions)
    ensures |Fired(c)| <= 8
  {
    HardConstraintsTried(c);
    WeatherFactorsTried(c);
    PersonalFactorsTried(c);
    var p1 := Try(Rain, c, Try(HeavyPrecipitation, c, Start));
    assert |p1.reasoning| <= 1;
    var p2 := Try(GasLow, c, Try(GasCritical, c, Try(Icy, c, p1)));
    assert |p2.reasoning| <= |p1.reasoning| + 2;
    var p3 := Try(GreatTemperature, c, Try(ExtremeTemperature, c, p2));
    assert |p3.reasoning| <= |p2.reasoning| + 1;
    var p4 := Try(HighLaziness, c, Try(HighWind, c, p3));
    assert |p4.reasoning| <= |p3.reasoning| + 2;
    assert |Outcome(c).reasoning| <= |p4.reasoning| + 2;
  }

  /** When no rule fires, the reasoning is empty, every score stays at 100,
      and the first method, Walk, wins. */
  lemma NoRuleFires(c: Conditions)
    requires forall r :: !Fires(r, c)
    ensures Fired(c) == []
    ensures FinalScores(c) == Scores(100, 100, 100)
    ensures Winner(FinalScores(c)) == Walk
  {
    NothingTried(|RuleOrder|, c);
  }

  lemma {:induction false} NothingTried(k: nat, c: Conditions)
    requires k <= |RuleOrder|
    requires forall r :: !Fires(r, c)
    ensures TriedUpTo(k, c) == Start
    decreases k
  {
    if k > 0 {
      NothingTried(k - 1, c);
    }
  }

  // ---------------------------------------------------------------------
  // The effect of each rule group on any scores

  /** Heavy precipitation or snow zeroes Walk and Bike; otherwise rain takes
      50 from Bike and 30 from Walk; Car is never touched. */
  lemma PrecipitationEffect(c: Conditions, p: Progress)
    ensures var w, s := c.weather, Try(Rain, c, Try(HeavyPrecipitation, c, p)).scores;
      s == if w.precipitation > 2.0 || w.isSnowing then p.scores.(walk := 0, bike := 0)
           else if w.isRaining then p.scores.(walk := p.scores.walk - 30, bike := p.scores.bike - 50)
           else p.scores
  {
  }

  /** Ice zeroes Bike, whatever rain penalty it had, and leaves Walk and Car. */
  lemma IceEffect(c: Conditions, p: Progress)
    ensures var w, s := c.weather, Try(Icy, c, p).scores;
      s == if w.temperature < 1.0 && (w.isRaining || w.precipitation > 0.0) then p.scores.(bike := 0)
           else p.scores
  {
  }

  /** The gas table: below 5 Car is zeroed, from 5 to 14 it loses 30, from 15
      on it is unchanged; Walk and Bike are never touched. */
  lemma GasEffect(c: Conditions, p: Progress)
    ensures var g, s := c.user.gasLevel, Try(GasLow, c, Try(GasCritical, c, p)).scores;
      s == if g < 5 then p.scores.(car := 0)
           else if g < 15 then p.scores.(car := p.scores.car - 30)
           else p.scores
  {
  }

  /** Below 5 or above 30 degrees Walk and Bike lose 20; from 15 to 25
      degrees Walk gains 10 and Bike 15; otherwise nothing changes. */
  lemma TemperatureEffect(c: Conditions, p: Progress)
    ensures var t, s := c.weather.temperature, Try(GreatTemperature, c, Try(ExtremeTemperature, c, p)).scores;
      s == if t < 5.0 || t > 30.0 then p.scores.(walk := p.scores.walk - 20, bike := p.scores.bike - 20)
           else if 15.0 <= t <= 25.0 then p.scores.(walk := p.scores.walk + 10, bike := p.scores.bike + 15)
           else p.scores
  {
  }

  /** Wind, laziness, urgency and budget add fixed deltas when they fire. */
  lemma SoftDeltas(c: Conditions, s: Scores)
    ensures c.weather.windSpeed > 25.0 ==>
      Try(HighWind, c, Progress(s, [])).scores == Scores(s.walk - 10, s.bike - 40, s.car)
    ensures c.laziness.Some? && c.laziness.value > 7.0 ==>
      Try(HighLaziness, c, Progress(s, [])).scores == Scores(s.walk - 20, s.bike - 20, s.car + 30)
    ensures c.user.urgency >= 8 ==>
      Try(HighUrgency, c, Progress(s, [])).scores == Scores(s.walk - 50, s.bike + 20, s.car + 40)
    ensures c.user.budgetMode ==>
      Try(BudgetMode, c, Progress(s, [])).scores == Scores(s.walk + 20, s.bike + 20, s.car - 40)
  {
  }

  // ---------------------------------------------------------------------
  // Each score on its own

  /** One method's score after a sequence of rules. */
  function ScoreAfter(rules: seq<Rule>, m: CommuteMethod, x: int): int
    decreases |rules|
  {
    if rules == [] then x else Apply(ChangeOf(rules[|rules| - 1], m), ScoreAfter(rules[..|rules| - 1], m, x))
  }

  /** The sum of the deltas a sequence of rules adds to one method. */
  function Gain(rules: seq<Rule>, m: CommuteMethod): int
    decreases |rules|
  {
    if rules == [] then 0
    else
      var ch := ChangeOf(rules[|rules| - 1], m);
      Gain(rules[..|rules| - 1], m) + (if ch.Add? then ch.delta else 0)
  }

  /** Replaying rules on the record moves each score by that method's own
      changes only. */
  lemma {:induction false} ReplayPerMethod(rules: seq<Rule>, s: Scores, m: CommuteMethod)
    ensures Replay(rules, s).Of(m) == ScoreAfter(rules, m, s.Of(m))
    decreases |rules|
  {
    if rules != [] {
      ReplayPerMethod(rules[..|rules| - 1], s, m);
    }
  }

  /** Without an assignment a score is its start plus every delta. */
  lemma {:induction false} ScoreWithoutVeto(rules: seq<Rule>, m: CommuteMethod, x: int)
    requires forall j :: 0 <= j < |rules| ==> !ChangeOf(rules[j], m).SetTo?
    ensures ScoreAfter(rules, m, x) == x + Gain(rules, m)
    decreases |rules|
  {
    if rules != [] {
      ScoreWithoutVeto(rules[..|rules| - 1], m, x);
    }
  }

  /** After its last assignment, a score is the assigned value plus every
      later delta. */
  lemma {:induction false} ScoreAfterVeto(rules: seq<Rule>, m: CommuteMethod, x: int, i: nat)
    requires i < |rules| && ChangeOf(rules[i], m).SetTo?
    requires forall j :: i < j < |rules| ==> !ChangeOf(rules[j], m).SetTo?
    ensures ScoreAfter(rules, m, x) == ChangeOf(rules[i], m).value + Gain(rules[i + 1..], m)
    decreases |rules|
  {
    var front := rules[..|rules| - 1];
    if i < |rules| - 1 {
      ScoreAfterVeto(front, m, x, i);
      assert rules[i + 1..][..|rules[i + 1..]| - 1] == front[i + 1..];
    }
  }

  /** Vetoes are not final: a method zeroed by a firing rule ends at 0 plus
      the deltas of the rules that fire after it, unless a later rule zeroes
      it again. */
  lemma VetoNotFinal(c: Conditions, m: CommuteMethod, i: nat)
    requires i < |Fired(c)| && ChangeOf(Fired(c)[i], m) == SetTo(0)
    requires forall j :: i < j < |Fired(c)| ==> !ChangeOf(Fired(c)[j], m).SetTo?
    ensures FinalScores(c).Of(m) == Gain(Fired(c)[i + 1..], m)
  {
    OutcomeSpec(c);
    ReplayPerMethod(Fired(c), Baseline, m);
    ScoreAfterVeto(Fired(c), m, 100, i);
  }

  /** A score no rule assigns is 100 plus the deltas of the firing rules. */
  lemma NoVeto(c: Conditions, m: CommuteMethod)
    requires forall j :: 0 <= j < |Fired(c)| ==> !ChangeOf(Fired(c)[j], m).SetTo?
    ensures FinalScores(c).Of(m) == 100 + Gain(Fired(c), m)
  {
    OutcomeSpec(c);
    ReplayPerMethod(Fired(c), Baseline, m);
    ScoreWithoutVeto(Fired(c), m, 100);
  }

  /** A score depends only on the rules that change it: two situations in
      which each such rule fires alike leave that method with equal scores. */
  lemma {:induction false} SameTriggersSameScore(k: nat, c1: Conditions, c2: Conditions, m: CommuteMethod)
    requires k <= |RuleOrder|
    requires forall r :: ChangeOf(r, m) != Keep ==> (Fires(r, c1) <==> Fires(r, c2))
    ensures TriedUpTo(k, c1).scores.Of(m) == TriedUpTo(k, c2).scores.Of(m)
    decreases k
  {
    if k > 0 {
      SameTriggersSameScore(k - 1, c1, c2, m);
      var r := RuleOrder[k - 1];
      assert ChangeOf(r, m) != Keep ==> (Fires(r, c1) <==> Fires(r, c2));
    }
  }

  /** The weather never changes the car's score. */
  lemma CarIgnoresWeather(c: Conditions, weather: Weather.WeatherData)
    ensures FinalScores(c.(weather := weather)).car == FinalScores(c).car
  {
    SameTriggersSameScore(|RuleOrder|, c.(weather := weather), c, Car);
  }

  /** The gas level never changes the walking or cycling score. */
  lemma ActiveIgnoresGas(c: Conditions, gasLevel: int)
    ensures var c' := c.(user := c.user.(gasLevel := gasLevel));
      FinalScores(c').walk == FinalScores(c).walk && FinalScores(c').bike == FinalScores(c).bike
  {
    var c' := c.(user := c.user.(gasLevel := gasLevel));
    SameTriggersSameScore(|RuleOrder|, c', c, Walk);
    SameTriggersSameScore(|RuleOrder|, c', c, Bike);
  }

  /** On a day of heavy precipitation between 5 and 15 degrees, without
      strong wind, urgency or laziness, with at least 15 per cent of gas and
      budget mode on, walking and cycling are ruled out and budget mode then
      lifts both back to 20. */
  lemma BudgetLiftsVetoedWalk(c: Conditions)
    requires c.weather.precipitation > 2.0 && 5.0 <= c.weather.temperature < 15.0
    requires c.weather.windSpeed <= 25.0 && c.laziness.None?
    requires c.user.gasLevel >= 15 && c.user.urgency < 8 && c.user.budgetMode
    ensures Fired(c) == [HeavyPrecipitation, BudgetMode]
    ensures FinalScores(c) == Scores(20, 20, 60)
  {
    HardConstraintsTried(c);
    assert TriedUpTo(5, c) == Progress(Scores(0, 0, 100), [HeavyPrecipitation]);
    WeatherFactorsTried(c);
    assert TriedUpTo(8, c) == TriedUpTo(5, c);
    PersonalFactorsTried(c);
  }

  /** Heavy precipitation "rules out" cycling, yet on such a day between 15
      and 25 degrees, without strong wind or laziness, with an almost empty
      tank, high urgency and budget mode on, cycling is the recommendation. */
  lemma VetoedBikeCanWin(c: Conditions)
    requires c.weather.precipitation > 2.0 && 15.0 <= c.weather.temperature <= 25.0
    requires c.weather.windSpeed <= 25.0 && c.laziness.None?
    requires c.user.gasLevel < 5 && c.user.urgency >= 8 && c.user.budgetMode
    ensures Fires(HeavyPrecipitation, c)
    ensures FinalScores(c) == Scores(-20, 55, 0)
    ensures Winner(FinalScores(c)) == Bike
  {
    HardConstraintsTried(c);
    assert TriedUpTo(5, c).scores == Scores(0, 0, 0);
    WeatherFactorsTried(c);
    var p8 := TriedUpTo(8, c);
    assert p8.scores == Scores(10, 15, 0);
    var p10 := Try(HighUrgency, c, Try(HighLaziness, c, p8));
    assert p10.scores == Scores(-40, 35, 40);
    assert Try(BudgetMode, c, p10).scores == Scores(-20, 55, 0);
    PersonalFactorsTried(c);
  }

  // ---------------------------------------------------------------------
  // The winner

  /** Reference winner: the highest score, ties to the earliest method. */
  function Winner(s: Scores): (m: CommuteMethod)
    ensures forall m' :: s.Of(m') <= s.Of(m)
    ensures forall m' :: Rank(m') < Rank(m) ==> s.Of(m') < s.Of(m)
  {
    if s.walk >= s.bike && s.walk >= s.car then Walk
    else if s.bike >= s.car then Bike
    else Car
  }

  /** The winner is the only method that has the highest score and is
      strictly ahead of every earlier method. */
  lemma WinnerUnique(s: Scores, m: CommuteMethod)
    requires forall m' :: s.Of(m') <= s.Of(m)
    requires forall m' :: Rank(m') < Rank(m) ==> s.Of(m') < s.Of(m)
    ensures m == Winner(s)
  {
    var w := Winner(s);
    assert s.Of(m) == s.Of(w);
  }

  /** When all three scores are equal (all zero, say) the first method in
      order, Walk, wins: the Car the selection starts from is never kept,
      since every score beats -Infinity. */
  lemma TiesGoToWalk(s: Scores)
    requires s.walk == s.bike == s.car
    ensures Winner(s) == Walk
  {
  }

  /** The running maximum of the winner loop, starting at -Infinity. */
  datatype Bound = NegInfinity | Finite(value: int)

  predicate Exceeds(x: int, b: Bound) {
    b.NegInfinity? || x > b.value
  }

  /** The `forEach` over Walk, Bike, Car with a strict `>` against the
      running maximum. The initial 'Car' never survives: every score exceeds
      -Infinity, so Walk is taken first. */
  method SelectWinner(scores: Scores) returns (bestMethod: CommuteMethod)
    ensures bestMethod == Winner(scores)
    ensures forall m :: scores.Of(m) <= scores.Of(bestMethod)
    ensures forall m :: Rank(m) < Rank(bestMethod) ==> scores.Of(m) < scores.Of(bestMethod)
  {
    bestMethod := Car;
    var maxScore := NegInfinity;
    var i := 0;
    while i < |Methods|
      invariant 0 <= i <= |Methods|
      invariant i == 0 <==> maxScore.NegInfinity?
      invariant i > 0 ==> maxScore == Finite(scores.Of(bestMethod)) && Rank(bestMethod) < i
      invariant forall k :: 0 <= k < i ==> scores.Of(Methods[k]) <= scores.Of(bestMethod)
      invariant forall k :: 0 <= k < i && k < Rank(bestMethod) ==> scores.Of(Methods[k]) < scores.Of(bestMethod)
    {
      var m := Methods[i];
      if Exceeds(scores.Of(m), maxScore) {
        maxScore := Finite(scores.Of(m));
        bestMethod := m;
      }
      i := i + 1;
    }
    forall m ensures scores.Of(m) <= scores.Of(bestMethod) {
      assert Methods[Rank(m)] == m;
    }
    WinnerUnique(scores, bestMethod);
  }

  // ---------------------------------------------------------------------
  // makeDecision

  datatype Recommendation = Recommendation(
    bestMethod: CommuteMethod,
    scores: Scores,
    reasoning: seq<Rule>)

  /** The hard constraints of `makeDecision`: heavy precipitation or snow,
      else rain; ice; critical, else low, gas. */
  method HardConstraints(c: Conditions, scores: Scores, reasoning: seq<Rule>)
    returns (scores': Scores, reasoning': seq<Rule>)
    ensures Progress(scores', reasoning') ==
      Try(GasLow, c, Try(GasCritical, c, Try(Icy, c, Try(Rain, c, Try(HeavyPrecipitation, c,
        Progress(scores, reasoning))))))
  {
    var weather, userData := c.weather, c.user;
    scores', reasoning' := scores, reasoning;
    if weather.precipitation > 2.0 || weather.isSnowing {
      scores' := scores'.(bike := 0, walk := 0);
      reasoning' := reasoning' + [HeavyPrecipitation];
    } else if weather.isRaining {
      scores' := scores'.(bike := scores'.bike - 50, walk := scores'.walk - 30);
      reasoning' := reasoning' + [Rain];
    }
    ghost var p := Progress(scores', reasoning');
    assert p == Try(Rain, c, Try(HeavyPrecipitation, c, Progress(scores, reasoning)));

    if weather.temperature < 1.0 && (weather.isRaining || weather.precipitation > 0.0) {
      scores' := scores'.(bike := 0);
      reasoning' := reasoning' + [Icy];
    }
    assert Progress(scores', reasoning') == Try(Icy, c, p);
    p := Progress(scores', reasoning');

    if userData.gasLevel < 5 {
      scores' := scores'.(car := 0);
      reasoning' := reasoning' + [GasCritical];
    } else if userData.gasLevel < 15 {
      scores' := scores'.(car := scores'.car - 30);
      reasoning' := reasoning' + [GasLow];
    }
    assert Progress(scores', reasoning') == Try(GasLow, c, Try(GasCritical, c, p));
  }

  /** The soft factors that come from the weather: extreme, else great,
      temperature; high wind. */
  method WeatherFactors(c: Conditions, scores: Scores, reasoning: seq<Rule>)
    returns (scores': Scores, reasoning': seq<Rule>)
    ensures Progress(scores', reasoning') ==
      Try(HighWind, c, Try(GreatTemperature, c, Try(ExtremeTemperature, c, Progress(scores, reasoning))))
  {
    var weather := c.weather;
    scores', reasoning' := scores, reasoning;
    if weather.temperature < 5.0 || weather.temperature > 30.0 {
      scores' := scores'.(walk := scores'.walk - 20, bike := scores'.bike - 20);
      reasoning' := reasoning' + [ExtremeTemperature];
    } else if weather.temperature >= 15.0 && weather.temperature <= 25.0 {
      scores' := scores'.(walk := scores'.walk + 10, bike := scores'.bike + 15);
      reasoning' := reasoning' + [GreatTemperature];
    }
    ghost var p := Progress(scores', reasoning');
    assert p == Try(GreatTemperature, c, Try(ExtremeTemperature, c, Progress(scores, reasoning)));

    if weather.windSpeed > 25.0 {
      scores' := scores'.(bike := scores'.bike - 40, walk := scores'.walk - 10);
      reasoning' := reasoning' + [HighWind];
    }
    assert Progress(scores', reasoning') == Try(HighWind, c, p);
  }

  /** The soft factors that come from the user: laziness, urgency, budget. */
  method PersonalFactors(c: Conditions, scores: Scores, reasoning: seq<Rule>)
    returns (scores': Scores, reasoning': seq<Rule>)
    ensures Progress(scores', reasoning') ==
      Try(BudgetMode, c, Try(HighUrgency, c, Try(HighLaziness, c, Progress(scores, reasoning))))
  {
    var userData, laziness := c.user, c.laziness;
    scores', reasoning' := scores, reasoning;
    if laziness.Some? && laziness.value > 7.0 {
      scores' := scores'.(car := scores'.car + 30, bike := scores'.bike - 20, walk := scores'.walk - 20);
      reasoning' := reasoning' + [HighLaziness];
    }
    ghost var p := Progress(scores', reasoning');
    assert p == Try(HighLaziness, c, Progress(scores, reasoning));

    if userData.urgency >= 8 {
      scores' := scores'.(car := scores'.car + 40, bike := scores'.bike + 20, walk := scores'.walk - 50);
      reasoning' := reasoning' + [HighUrgency];
    }
    assert Progress(scores', reasoning') == Try(HighUrgency, c, p);
    p := Progress(scores', reasoning');

    if userData.budgetMode {
      scores' := scores'.(car := scores'.car - 40, walk := scores'.walk + 20, bike := scores'.bike + 20);
      reasoning' := reasoning' + [BudgetMode];
    }
    assert Progress(scores', reasoning') == Try(BudgetMode, c, p);
  }

  /** `makeDecision`: every score starts at 100 and the reasoning empty; the
      rules run in order; then the winner is picked. */
  method MakeDecision(userData: Sheets.UserData, weather: Weather.WeatherData, laziness: Option<real>)
    returns (rec: Recommendation)
    ensures rec.scores == FinalScores(Conditions(userData, weather, laziness))
    ensures rec.reasoning == Fired(Conditions(userData, weather, laziness))
    ensures rec.bestMethod == Winner(rec.scores)
  {
    var c := Conditions(userData, weather, laziness);
    var scores := Scores(walk := 100, bike := 100, car := 100);
    var reasoning: seq<Rule> := [];
    scores, reasoning := HardConstraints(c, scores, reasoning);
    scores, reasoning := WeatherFactors(c, scores, reasoning);
    scores, reasoning := PersonalFactors(c, scores, reasoning);
    HardConstraintsTried(c);
    WeatherFactorsTried(c);
    PersonalFactorsTried(c);
    var bestMethod := SelectWinner(scores);
    rec := Recommendation(bestMethod, scores, reasoning);
  }
}
