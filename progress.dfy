/** The progress bars of the KPI panel: how far a value is towards its
    goal, and the colour tier the bar is drawn in. */
module Progress {
  import opened Wrappers
  import Values

  /** The four colour tiers of a progress bar, best first. */
  datatype Tier = OnTarget | NearTarget | BelowTarget | OffTarget

  /** Python's min(x, 100): the first argument unless the second is smaller. */
  function Min100(x: real): real {
    if 100.0 < x then 100.0 else x
  }

  /** progress_percent: 0 for a goal of 0, else min(value / goal * 100, 100).
      A value of None stands for NaN (the average ticket of a table without
      revenue); NaN survives the division and min(), so the result is NaN
      too, except for a goal of 0, which is checked first. */
  function ProgressPercent(value: Option<real>, goal: real): (p: Option<real>)
    ensures goal == 0.0 ==> p == Some(0.0)
    ensures p.None? <==> goal != 0.0 && value.None?
    ensures p.Some? ==> p.value <= 100.0
    ensures goal > 0.0 && value.Some? && value.value >= goal ==> p == Some(100.0)
    ensures goal > 0.0 && value.Some? && 0.0 <= value.value < goal ==> 0.0 <= p.value < 100.0
  {
    if goal == 0.0 then Some(0.0)
    else
      match value
      case None => None
      case Some(v) =>
        Scaled(v, goal);
        Some(Min100(v / goal * 100.0))
  }

  /** Where v stands against a positive goal g, the percentage v / g * 100
      stands against 100. */
  lemma Scaled(v: real, g: real)
    ensures g > 0.0 && v >= g ==> v / g * 100.0 >= 100.0
    ensures g > 0.0 && 0.0 <= v < g ==> 0.0 <= v / g * 100.0 < 100.0
  {
    if g <= 0.0 {
      return;
    }
    var q := v / g;
    assert q * g == v;
    if v >= g {
      assert (q - 1.0) * g == v - g;
      Values.NonNegativeFactor(q - 1.0, g);
    }
    if 0.0 <= v < g {
      assert (1.0 - q) * g == g - v;
      PositiveFactor(1.0 - q, g);
    }
  }

  /** A product with a positive factor is positive only if the other
      factor is. */
  lemma PositiveFactor(a: real, g: real)
    requires g > 0.0 && a * g > 0.0
    ensures a > 0.0
  {
  }

  /** The first threshold the progress reaches decides the tier; NaN reaches
      none of them. */
  function TierOf(p: Option<real>): (t: Tier)
    ensures p.None? ==> t == OffTarget
    ensures p.Some? ==>
      && (t == OnTarget <==> p.value >= 100.0)
      && (t == NearTarget <==> 80.0 <= p.value < 100.0)
      && (t == BelowTarget <==> 60.0 <= p.value < 80.0)
      && (t == OffTarget <==> p.value < 60.0)
  {
    match p
    case None => OffTarget
    case Some(x) =>
      if x >= 100.0 then OnTarget
      else if x >= 80.0 then NearTarget
      else if x >= 60.0 then BelowTarget
      else OffTarget
  }

  function Color(t: Tier): string {
    match t
    case OnTarget => "#4CAF50"
    case NearTarget => "#2196F3"
    case BelowTarget => "#FF9800"
    case OffTarget => "#F44336"
  }

  function Icon(t: Tier): string {
    match t
    case OnTarget => "✓"
    case NearTarget => "●"
    case BelowTarget => "▲"
    case OffTarget => "▼"
  }

  /** How good a tier is: 3 for on target down to 0. */
  function Rank(t: Tier): (r: nat)
    ensures r <= 3
  {
    match t
    case OnTarget => 3
    case NearTarget => 2
    case BelowTarget => 1
    case OffTarget => 0
  }

  /** The tier of a bar, from the value and goal it is drawn for. */
  function BarTier(value: Option<real>, goal: real): Tier {
    TierOf(ProgressPercent(value, goal))
  }

  /** Each tier has a colour and an icon of its own, so the bar tells the
      tier apart by either. */
  lemma TiersDrawnApart(a: Tier, b: Tier)
    requires a != b
    ensures Color(a) != Color(b) && Icon(a) != Icon(b)
  {
  }

  /** A bar is green exactly when the value reaches its positive goal. */
  lemma OnTargetIffGoalReached(v: real, goal: real)
    requires goal > 0.0
    ensures BarTier(Some(v), goal) == OnTarget <==> v >= goal
  {
    if v < goal && v >= 0.0 {
      Scaled(v, goal);
    } else if v < 0.0 {
      NegativeBelow(v, goal);
    }
  }

  /** A negative value is below every tier of a positive goal. */
  lemma NegativeBelow(v: real, goal: real)
    requires goal > 0.0 && v < 0.0
    ensures v / goal * 100.0 < 0.0
  {
    var q := v / goal;
    assert q * goal == v;
  }

  /** For a fixed positive goal, a larger value never gets a worse tier. */
  lemma {:induction false} TierMonotone(v1: real, v2: real, goal: real)
    requires goal > 0.0 && v1 <= v2
    ensures Rank(BarTier(Some(v1), goal)) <= Rank(BarTier(Some(v2), goal))
  {
    var q1, q2 := v1 / goal, v2 / goal;
    assert q1 * goal == v1 && q2 * goal == v2;
    assert (q2 - q1) * goal >= 0.0;
    assert q1 <= q2;
  }

  /** A goal of 0 always draws a red bar at 0%, whatever the value. */
  lemma ZeroGoalOffTarget(value: Option<real>)
    ensures ProgressPercent(value, 0.0) == Some(0.0)
    ensures BarTier(value, 0.0) == OffTarget
  {
  }

  /** The goals the KPI panel draws its bars against: average ticket 2500,
      job close rate 80, weekly revenue 20000, average efficiency 100,
      compliance 100, membership win rate 25. */
  const AvgTicketGoal: real := 2500.0
  const JobCloseRateGoal: real := 80.0
  const WeeklyRevenueGoal: real := 20000.0
  const EfficiencyGoal: real := 100.0
  const ComplianceGoal: real := 100.0
  const MembershipWinRateGoal: real := 25.0

  /** A job close rate of 82% meets its goal of 80; 70% is in the blue
      tier, being 87.5% of the way. */
  lemma JobCloseRateBars()
    ensures BarTier(Some(82.0), JobCloseRateGoal) == OnTarget
    ensures BarTier(Some(70.0), JobCloseRateGoal) == NearTarget
  {
    assert 70.0 / 80.0 * 100.0 == 87.5;
  }
}
