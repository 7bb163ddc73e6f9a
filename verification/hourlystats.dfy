/** The learned number of events for each hour of the day and of the week, and the alerts when an hour exceeds it. */
module HourlyStats {

  const SAMPLES: nat := 24
  const DAYS: nat := 7

  /** Update_Hour for one hour: the average after a day with `count` events. All values are not negative, so
      the division of the source is this one. */
  function Learned(average: nat, count: nat, inter: nat, errors: nat): nat
    requires inter > 0
  {
    if count == 0 then average
    else if average == 0 then count + 20
    else if errors >= 3 then (3 * count + inter * average) / (inter + 3) + 25
    else (count + inter * average) / (inter + 1) + 5
  }

  /** The same for an hour of a day of the week; the last cell stays. */
  function LearnedWeekly(averages: seq<nat>, counts: seq<nat>, j: nat, errors: nat): nat
    requires j <= SAMPLES && |averages| == |counts| == SAMPLES + 1
  {
    if j < SAMPLES then Learned(averages[j], counts[j], 1, errors) else averages[j]
  }

  /** An update keeps an average within any slack of at least 81 above the busiest hour. */
  lemma LearnedStaysBounded(average: nat, count: nat, inter: nat, errors: nat, busiest: nat, slack: nat)
    requires 1 <= inter <= 7 && count <= busiest && average <= busiest + slack && slack >= 81
    ensures Learned(average, count, inter, errors) <= busiest + slack
  {
    match inter
    case 1 => Weighted(average, count, 1, busiest, slack);
    case 2 => Weighted(average, count, 2, busiest, slack);
    case 3 => Weighted(average, count, 3, busiest, slack);
    case 4 => Weighted(average, count, 4, busiest, slack);
    case 5 => Weighted(average, count, 5, busiest, slack);
    case 6 => Weighted(average, count, 6, busiest, slack);
    case _ => Weighted(average, count, 7, busiest, slack);
  }

  lemma Weighted(average: nat, count: nat, inter: nat, busiest: nat, slack: nat)
    requires 1 <= inter <= 7 && count <= busiest && average <= busiest + slack && slack >= 81
    ensures (3 * count + inter * average) / (inter + 3) + 25 <= busiest + slack
    ensures (count + inter * average) / (inter + 1) + 5 <= busiest + slack
  {
    if inter == 1 { assert 1 * average == average; }
  }

  /** One update keeps an average within `slack` of the busiest hour. */
  ghost predicate Keeps(slack: nat, average: nat, count: nat, inter: nat, errors: nat, busiest: nat) {
    1 <= inter <= 7 && count <= busiest && average <= busiest + slack ==>
      Learned(average, count, inter, errors) <= busiest + slack
  }

  /** Every update keeps a slack exactly when that is at least 81. */
  lemma LeastSlack(slack: nat)
    ensures (forall average: nat, count: nat, inter: nat, errors: nat, busiest: nat
              {:trigger Keeps(slack, average, count, inter, errors, busiest)} ::
              Keeps(slack, average, count, inter, errors, busiest))
       <==> slack >= 81
  {
    if slack >= 81 {
      hide Learned;
      forall average: nat, count: nat, inter: nat, errors: nat, busiest: nat
        ensures Keeps(slack, average, count, inter, errors, busiest)
      {
        if 1 <= inter <= 7 && count <= busiest && average <= busiest + slack {
          LearnedStaysBounded(average, count, inter, errors, busiest, slack);
        }
      }
    } else {
      assert !Keeps(slack, 1 + slack, 1, 7, 3, 1);
    }
  }

  /** At 83 above an hour that is always equally busy, on days with three alerts, the average stands still. */
  lemma HighestRest(busiest: nat)
    requires busiest > 0
    ensures Learned(busiest + 83, busiest, 7, 3) == busiest + 83
  {
  }

  /** An hour without events keeps its average, one without an average gets 20 more than its count, and any other gets
      5 more than the mean of that day and `inter` days before, rounded down; after a day with three alerts that day
      counts three times and it gets 25 more. */
  lemma LearnedIsMean(average: nat, count: nat, inter: nat, errors: nat)
    requires inter > 0
    ensures var r := Learned(average, count, inter, errors);
      && (count == 0 ==> r == average)
      && (count > 0 && average == 0 ==> r == count + 20)
      && (count > 0 && average > 0 && errors < 3 ==>
            r >= 5 && (inter + 1) * (r - 5) <= count + inter * average < (inter + 1) * (r - 5) + inter + 1)
      && (count > 0 && average > 0 && errors >= 3 ==>
            r >= 25 && (inter + 3) * (r - 25) <= 3 * count + inter * average < (inter + 3) * (r - 25) + inter + 3)
  {
    hide Learned;
    if count > 0 && average > 0 {
      if errors < 3 {
        Divided(average, count, inter, errors);
      } else {
        DividedByThree(average, count, inter, errors);
      }
    }
    LearnedAtFirst(average, count, inter, errors);
  }

  lemma LearnedAtFirst(average: nat, count: nat, inter: nat, errors: nat)
    requires inter > 0
    ensures count == 0 ==> Learned(average, count, inter, errors) == average
    ensures count > 0 && average == 0 ==> Learned(average, count, inter, errors) == count + 20
  {
  }

  lemma Divided(average: nat, count: nat, inter: nat, errors: nat)
    requires inter > 0 && count > 0 && average > 0 && errors < 3
    ensures var n, d, r := count + inter * average, inter + 1, Learned(average, count, inter, errors);
      r >= 5 && d * (r - 5) <= n < d * (r - 5) + d
  {
    var n, d, q := count + inter * average, inter + 1, Learned(average, count, inter, errors) - 5;
    assert q == n / d;
    hide Learned;
    Quotient(n, d, q);
  }

  lemma DividedByThree(average: nat, count: nat, inter: nat, errors: nat)
    requires inter > 0 && count > 0 && average > 0 && errors >= 3
    ensures var n, d, r := 3 * count + inter * average, inter + 3, Learned(average, count, inter, errors);
      r >= 25 && d * (r - 25) <= n < d * (r - 25) + d
  {
    var n, d, q := 3 * count + inter * average, inter + 3, Learned(average, count, inter, errors) - 25;
    assert q == n / d;
    hide Learned;
    Quotient(n, d, q);
  }

  lemma Quotient(n: nat, d: nat, q: int)
    requires d > 0 && q == n / d
    ensures q >= 0 && d * q <= n < d * q + d
  {
  }

  /** Where an average stands still while an hour is always equally busy: 4 to 5 above it for each day of the mean, or
      after days with three alerts within the same bounds for a third of 24 to 25. */
  lemma StandsStill(average: nat, count: nat, inter: nat, errors: nat)
    requires inter > 0 && count > 0 && average > 0
    ensures var r := Learned(average, count, inter, errors);
      if errors < 3 then r == average <==> count + 4 * (inter + 1) < average <= count + 5 * (inter + 1)
      else r == average <==> 3 * count + 24 * (inter + 3) < 3 * average <= 3 * count + 25 * (inter + 3)
  {
    LearnedIsMean(average, count, inter, errors);
    var r := Learned(average, count, inter, errors);
    hide Learned;
    if errors < 3 {
      MeanStandsStill(average, count, inter, 1, 5, r - 5);
    } else {
      MeanStandsStill(average, count, inter, 3, 25, r - 25);
    }
  }

  lemma MeanStandsStill(average: nat, count: nat, inter: nat, w: nat, step: nat, q: int)
    requires w > 0 && (inter + w) * q <= w * count + inter * average < (inter + w) * q + inter + w
    ensures q == average - step
      <==> w * count + (step - 1) * (inter + w) < w * average <= w * count + step * (inter + w)
  {
    Expanded(inter, w, average, step);
    Settled(inter + w, q, average - step, w * count, inter * average, w * average, step * (inter + w));
  }

  /** The same with the products as numbers of their own. */
  lemma Settled(d: nat, q: int, p: int, wc: nat, ia: nat, wa: int, sd: int)
    requires d > 0 && d * q <= wc + ia < d * q + d && d * p == ia + wa - sd
    ensures q == p <==> wc + (sd - d) < wa <= wc + sd
  {
    OneQuotient(wc + ia, d, q, p);
  }

  lemma Expanded(inter: nat, w: nat, average: int, step: int)
    ensures (inter + w) * (average - step) == inter * average + w * average - step * (inter + w)
    ensures (step - 1) * (inter + w) == step * (inter + w) - (inter + w)
  {
  }

  /** Only one number is the quotient. */
  lemma OneQuotient(n: nat, d: nat, q: int, p: int)
    requires d > 0 && d * q <= n < d * q + d
    ensures p == q <==> d * p <= n < d * p + d
  {
    if p > q {
      assert d * p >= d * (q + 1) == d * q + d;
    } else if p < q {
      assert d * q >= d * (p + 1) == d * p + d;
    }
  }

  class Statistics {
    const rHour: array<nat>
    const cHour: array<nat>
    const rWeek: array2<nat>
    const cWeek: array2<nat>
    var dailyErrors: nat
    var ignoreHour: nat
    var fired: bool
    const minDiff: nat
    const maxDiff: nat
    const percentDiff: nat
    ghost var alerts: nat

    ghost predicate Shapes() {
      && rHour.Length == cHour.Length == SAMPLES + 1 && rHour != cHour
      && rWeek.Length0 == cWeek.Length0 == DAYS && rWeek.Length1 == cWeek.Length1 == SAMPLES + 1 && rWeek != cWeek
    }

    /** Between two updates there are as many alerts as counted errors, and never more than three. */
    ghost predicate Valid()
      reads this, cWeek
    {
      && Shapes()
      && alerts == dailyErrors <= 3
      && ignoreHour < SAMPLES
      && forall d | 0 <= d < DAYS :: cWeek[d, SAMPLES] == 0
    }

    /** The part of Start_Hour that takes the averages from their files. */
    constructor (hours: seq<nat>, weeks: seq<seq<nat>>, minDiff: nat, maxDiff: nat, percentDiff: nat)
      requires |hours| == SAMPLES + 1 && |weeks| == DAYS && forall d | 0 <= d < DAYS :: |weeks[d]| == SAMPLES + 1
      ensures Valid() && fresh(rHour) && fresh(cHour) && fresh(rWeek) && fresh(cWeek) && alerts == 0
      ensures rHour[..] == hours && (forall i | 0 <= i <= SAMPLES :: cHour[i] == 0)
      ensures forall d, i | 0 <= d < DAYS && 0 <= i <= SAMPLES :: rWeek[d, i] == weeks[d][i] && cWeek[d, i] == 0
      ensures this.minDiff == minDiff && this.maxDiff == maxDiff && this.percentDiff == percentDiff
    {
      rHour := new nat[SAMPLES + 1](i requires 0 <= i <= SAMPLES => hours[i]);
      cHour := new nat[SAMPLES + 1](_ => 0);
      rWeek := new nat[DAYS, SAMPLES + 1]((d, i) requires 0 <= d < DAYS && 0 <= i <= SAMPLES => weeks[d][i]);
      cWeek := new nat[DAYS, SAMPLES + 1]((_, _) => 0);
      dailyErrors, ignoreHour, fired, alerts := 0, 0, false, 0;
      this.minDiff, this.maxDiff, this.percentDiff := minDiff, maxDiff, percentDiff;
      new;
      assert rHour[..] == hours;
    }

    /** gethour */
    function Threshold(average: nat): (t: nat)
      ensures minDiff <= maxDiff ==> average + minDiff <= t <= average + maxDiff
      ensures average <= t
    {
      var diff := average * percentDiff / 100 + 1;
      if diff < minDiff then average + minDiff
      else if diff > maxDiff then average + maxDiff
      else average + diff
    }

    /** The threshold is `d` above the average, for a `d` between the two configured differences, exactly when one more
        than the configured percentage of the average, rounded down, is `d`, or is beyond the end that `d` is. */
    lemma ThresholdSteps(average: nat, d: nat)
      requires minDiff <= d <= maxDiff && d > 0
      ensures Threshold(average) == average + d
        <==> (d == minDiff || 100 * (d - 1) <= average * percentDiff)
             && (d == maxDiff || average * percentDiff < 100 * d)
    {
      Quotient(average * percentDiff, 100, average * percentDiff / 100);
    }

    /** The loop body of Update_Hour; the last cell counts the updates. */
    method LearnHour(i: nat, inter: nat)
      requires Shapes() && i <= SAMPLES && inter > 0
      modifies rHour, cHour
      ensures cHour[..] == old(cHour[..])[i := 0]
      ensures rHour[..] ==
        if i < SAMPLES then old(rHour[..])[i := Learned(old(rHour[i]), old(cHour[i]), inter, dailyErrors)]
        else old(rHour[..])
    {
      if i != SAMPLES {
        if cHour[i] == 0 {
          return;
        }
        if rHour[i] == 0 {
          rHour[i] := cHour[i] + 20;
        } else if dailyErrors >= 3 {
          rHour[i] := (3 * cHour[i] + inter * rHour[i]) / (inter + 3) + 25;
        } else {
          rHour[i] := (cHour[i] + inter * rHour[i]) / (inter + 1) + 5;
        }
      }
      cHour[i] := 0;
    }

    /** The hours of the day in Update_Hour. */
    method UpdateHours()
      requires Shapes()
      modifies rHour, cHour
      ensures forall i | 0 <= i <= SAMPLES :: cHour[i] == 0
      ensures rHour[SAMPLES] == old(rHour[SAMPLES]) + 1
      ensures forall i | 0 <= i < SAMPLES ::
        rHour[i] == Learned(old(rHour[i]), old(cHour[i]), if rHour[SAMPLES] > 7 then 7 else rHour[SAMPLES], dailyErrors)
    {
      rHour[SAMPLES] := rHour[SAMPLES] + 1;
      var inter := rHour[SAMPLES];
      if inter > 7 {
        inter := 7;
      }
      hide Learned;
      for i := 0 to SAMPLES + 1
        invariant rHour[SAMPLES] == old(rHour[SAMPLES]) + 1
        invariant forall k | 0 <= k < i :: cHour[k] == 0
        invariant forall k | i <= k <= SAMPLES :: cHour[k] == old(cHour[k])
        invariant forall k | i <= k < SAMPLES :: rHour[k] == old(rHour[k])
        invariant forall k | 0 <= k < i && k < SAMPLES ::
          rHour[k] == Learned(old(rHour[k]), old(cHour[k]), inter, dailyErrors)
      {
        LearnHour(i, inter);
      }
    }

    /** What the inner loop of the weekly part has done to one day up to cell `n`, when the averages and counts
        of that day were `averages` and `counts`. */
    ghost predicate DayLearned(d: nat, n: nat, inter: nat, averages: seq<nat>, counts: seq<nat>)
      requires Shapes() && d < DAYS && n <= SAMPLES + 1 && |averages| == |counts| == SAMPLES + 1 && inter > 0
      reads this, rWeek, cWeek
    {
      && (forall j | 0 <= j < n :: cWeek[d, j] == 0)
      && (forall j | n <= j <= SAMPLES :: cWeek[d, j] == counts[j])
      && (forall j | n <= j < SAMPLES :: rWeek[d, j] == averages[j])
      && (forall j | 0 <= j < n && j < SAMPLES :: rWeek[d, j] == Learned(averages[j], counts[j], inter, dailyErrors))
      && rWeek[d, SAMPLES] == averages[SAMPLES]
    }

    /** The inner loop of the weekly part: the cell that would count the updates of the day is reset with the others,
        so they always weigh one. */
    method UpdateDay(d: nat, ghost averages: seq<nat>, ghost counts: seq<nat>)
      requires Shapes() && d < DAYS && |averages| == |counts| == SAMPLES + 1
      requires forall j | 0 <= j <= SAMPLES :: rWeek[d, j] == averages[j] && cWeek[d, j] == counts[j]
      requires cWeek[d, SAMPLES] == 0
      modifies rWeek, cWeek
      ensures DayLearned(d, SAMPLES + 1, 1, averages, counts)
      ensures forall e, j | 0 <= e < DAYS && e != d && 0 <= j <= SAMPLES ::
        rWeek[e, j] == old(rWeek[e, j]) && cWeek[e, j] == old(cWeek[e, j])
    {
      cWeek[d, SAMPLES] := cWeek[d, SAMPLES] + 1;
      var inter := if cWeek[d, SAMPLES] > 7 then 7 else cWeek[d, SAMPLES];
      hide Learned;
      for j := 0 to SAMPLES + 1
        invariant DayLearned(d, j, 1, averages, counts[SAMPLES := 1])
        invariant forall e, k | 0 <= e < DAYS && e != d && 0 <= k <= SAMPLES ::
          rWeek[e, k] == old(rWeek[e, k]) && cWeek[e, k] == old(cWeek[e, k])
      {
        LearnDayHour(d, j, inter);
      }
    }

    /** Its body. */
    method LearnDayHour(d: nat, j: nat, inter: nat)
      requires Shapes() && d < DAYS && j <= SAMPLES && inter > 0
      modifies rWeek, cWeek
      ensures cWeek[d, j] == 0
      ensures rWeek[d, j] == if j < SAMPLES then Learned(old(rWeek[d, j]), old(cWeek[d, j]), inter, dailyErrors)
        else old(rWeek[d, j])
      ensures forall e, k | 0 <= e < DAYS && 0 <= k <= SAMPLES && !(e == d && k == j) ::
        rWeek[e, k] == old(rWeek[e, k]) && cWeek[e, k] == old(cWeek[e, k])
    {
      if j != SAMPLES {
        if cWeek[d, j] == 0 {
          return;
        }
        if rWeek[d, j] == 0 {
          rWeek[d, j] := cWeek[d, j] + 20;
        } else if dailyErrors >= 3 {
          rWeek[d, j] := (3 * cWeek[d, j] + inter * rWeek[d, j]) / (inter + 3) + 25;
        } else {
          rWeek[d, j] := (cWeek[d, j] + inter * rWeek[d, j]) / (inter + 1) + 5;
        }
      }
      cWeek[d, j] := 0;
    }

    /** The days of the week in Update_Hour. */
    method UpdateWeek(ghost averages: seq<seq<nat>>, ghost counts: seq<seq<nat>>)
      requires Shapes() && WeekIs(averages, counts) && forall d | 0 <= d < DAYS :: cWeek[d, SAMPLES] == 0
      modifies rWeek, cWeek
      ensures forall d | 0 <= d < DAYS :: DayLearned(d, SAMPLES + 1, 1, averages[d], counts[d])
    {
      hide Learned;
      for d := 0 to DAYS
        invariant forall e | 0 <= e < d :: DayLearned(e, SAMPLES + 1, 1, averages[e], counts[e])
        invariant forall e, j | d <= e < DAYS && 0 <= j <= SAMPLES ::
          rWeek[e, j] == averages[e][j] && cWeek[e, j] == counts[e][j]
      {
        UpdateDay(d, averages[d], counts[d]);
      }
    }

    /** These are the averages and counts by day. */
    ghost predicate WeekIs(averages: seq<seq<nat>>, counts: seq<seq<nat>>)
      requires Shapes()
      reads rWeek, cWeek
    {
      && |averages| == |counts| == DAYS
      && (forall d | 0 <= d < DAYS :: |averages[d]| == |counts[d]| == SAMPLES + 1)
      && forall d, j | 0 <= d < DAYS && 0 <= j <= SAMPLES ::
        averages[d][j] == rWeek[d, j] && counts[d][j] == cWeek[d, j]
    }

    /** Update_Hour: every hour of the day and of the week learns from its count, all counts start again, and so
        does the number of alerts. */
    method Update(ghost averages: seq<seq<nat>>, ghost counts: seq<seq<nat>>)
      requires Valid() && WeekIs(averages, counts)
      modifies this`dailyErrors, this`alerts, rHour, cHour, rWeek, cWeek
      ensures Valid() && alerts == 0
      ensures forall i | 0 <= i <= SAMPLES :: cHour[i] == 0
      ensures rHour[SAMPLES] == old(rHour[SAMPLES]) + 1
      ensures forall i | 0 <= i < SAMPLES ::
        rHour[i] ==
          Learned(old(rHour[i]), old(cHour[i]), if rHour[SAMPLES] > 7 then 7 else rHour[SAMPLES], old(dailyErrors))
      ensures forall d, j | 0 <= d < DAYS && 0 <= j <= SAMPLES :: cWeek[d, j] == 0
      ensures forall d, j | 0 <= d < DAYS && 0 <= j <= SAMPLES ::
        rWeek[d, j] == LearnedWeekly(averages[d], counts[d], j, old(dailyErrors))
    {
      hide Learned;
      UpdateHours();
      UpdateWeek(averages, counts);
      forall d, j | 0 <= d < DAYS && 0 <= j <= SAMPLES
        ensures cWeek[d, j] == 0 && rWeek[d, j] == LearnedWeekly(averages[d], counts[d], j, dailyErrors)
      {
        assert DayLearned(d, SAMPLES + 1, 1, averages[d], counts[d]);
      }
      dailyErrors := 0;
      alerts := 0;
    }

    /** No hour had more than `busiest` events since the last update. */
    ghost predicate NoBusier(busiest: nat)
      requires Shapes()
      reads this, cHour, cWeek
    {
      && (forall i | 0 <= i < SAMPLES :: cHour[i] <= busiest)
      && forall d, j | 0 <= d < DAYS && 0 <= j < SAMPLES :: cWeek[d, j] <= busiest
    }

    ghost predicate AveragesWithin(bound: nat)
      requires Shapes()
      reads this, rHour, rWeek
    {
      && (forall i | 0 <= i < SAMPLES :: rHour[i] <= bound)
      && forall d, j | 0 <= d < DAYS && 0 <= j < SAMPLES :: rWeek[d, j] <= bound
    }

    /** A daily update keeps all averages within 83 of the busiest hour. */
    method UpdateBounded(ghost busiest: nat, ghost averages: seq<seq<nat>>, ghost counts: seq<seq<nat>>)
      requires Valid() && WeekIs(averages, counts) && NoBusier(busiest) && AveragesWithin(busiest + 83)
      modifies this`dailyErrors, this`alerts, rHour, cHour, rWeek, cWeek
      ensures Valid() && AveragesWithin(busiest + 83) && NoBusier(0)
    {
      hide Learned;
      ghost var hours, today, errors := rHour[..], cHour[..], dailyErrors;
      Update(averages, counts);
      forall i | 0 <= i < SAMPLES ensures rHour[i] <= busiest + 83 {
        LearnedStaysBounded(hours[i], today[i], if rHour[SAMPLES] > 7 then 7 else rHour[SAMPLES], errors, busiest, 83);
      }
      forall d, j | 0 <= d < DAYS && 0 <= j < SAMPLES ensures rWeek[d, j] <= busiest + 83 {
        LearnedStaysBounded(averages[d][j], counts[d][j], 1, errors, busiest, 83);
      }
    }

    /** An hour with a known average got too many events. */
    predicate Exceeds(average: nat, count: nat) {
      average != 0 && count > Threshold(average)
    }

    /** A day of the week is compared only if its number of updates, as it was loaded, is above two: no update
        changes that number. */
    ghost predicate WeeklyOff()
      requires Shapes()
      reads this, rWeek
    {
      forall d | 0 <= d < DAYS :: rWeek[d, SAMPLES] <= 2
    }

    /** Check_Hour */
    method CheckHour(hour: int, wday: int) returns (alert: bool)
      requires Valid()
      modifies this, cHour, cWeek
      ensures Valid() && alerts == old(alerts) + if alert then 1 else 0
      ensures var known := 0 <= hour < SAMPLES && 0 <= wday < DAYS;
        && (forall i | 0 <= i <= SAMPLES :: cHour[i] == old(cHour[i]) + if known && i == hour then 1 else 0)
        && (forall d, i | 0 <= d < DAYS && 0 <= i <= SAMPLES ::
          cWeek[d, i] == old(cWeek[d, i]) + if known && d == wday && i == hour then 1 else 0)
        && (!known ==> !alert && unchanged(this))
      ensures alert <==>
        && 0 <= hour < SAMPLES && 0 <= wday < DAYS && rHour[SAMPLES] > 2 && old(dailyErrors) < 3
        && !(old(fired) && old(ignoreHour) == hour)
        && (Exceeds(rHour[hour], cHour[hour])
          || (rWeek[wday, SAMPLES] > 2 && Exceeds(rWeek[wday, hour], cWeek[wday, hour])))
      ensures var on := 0 <= hour < SAMPLES && 0 <= wday < DAYS && rHour[SAMPLES] > 2 && old(dailyErrors) < 3
        && !(old(fired) && old(ignoreHour) == hour);
        if on then fired == alert && ignoreHour == hour else fired == old(fired) && ignoreHour == old(ignoreHour)
    {
      if hour < 0 || hour >= SAMPLES || wday < 0 || wday >= DAYS {
        return false;
      }
      cHour[hour] := cHour[hour] + 1;
      cWeek[wday, hour] := cWeek[wday, hour] + 1;
      if rHour[SAMPLES] <= 2 {
        return false;
      }
      if dailyErrors >= 3 || (fired && ignoreHour == hour) {
        return false;
      } else if ignoreHour != hour {
        ignoreHour := hour;
        fired := false;
      }
      if rHour[hour] != 0 {
        if cHour[hour] > rHour[hour] {
          if cHour[hour] > Threshold(rHour[hour]) {
            Alert();
            return true;
          }
        }
      }
      if rWeek[wday, SAMPLES] <= 2 {
        return false;
      }
      if rWeek[wday, hour] != 0 {
        if cWeek[wday, hour] > rWeek[wday, hour] {
          if cWeek[wday, hour] > Threshold(rWeek[wday, hour]) {
            Alert();
            return true;
          }
        }
      }
      return false;
    }

    method Alert()
      modifies this`fired, this`dailyErrors, this`alerts
      ensures fired && dailyErrors == old(dailyErrors) + 1 && alerts == old(alerts) + 1
    {
      fired := true;
      dailyErrors := dailyErrors + 1;
      alerts := alerts + 1;
    }

    /** Whatever hours and days the events between two updates fall into, at most three of them alert. */
    method CheckDay(times: seq<(int, int)>) returns (fires: nat)
      requires Valid()
      modifies this, cHour, cWeek
      ensures Valid() && fires == alerts - old(alerts) <= 3 - old(alerts)
    {
      fires := 0;
      for i := 0 to |times|
        invariant Valid() && alerts == old(alerts) + fires
      {
        var alert := CheckHour(times[i].0, times[i].1);
        if alert {
          fires := fires + 1;
        }
      }
    }

    /** The averages of the week never lead to an alert on an installation that starts without them: over any
        number of days, whatever happens, no day of the week is ever compared. */
    method WeeksNeverCompared(days: seq<seq<(int, int)>>)
      requires Valid() && WeeklyOff()
      modifies this, rHour, cHour, rWeek, cWeek
      ensures Valid() && WeeklyOff()
    {
      for i := 0 to |days|
        invariant Valid() && WeeklyOff()
      {
        var fires := CheckDay(days[i]);
        ghost var averages := seq(DAYS, d requires 0 <= d < DAYS reads rWeek =>
          seq(SAMPLES + 1, j requires 0 <= j <= SAMPLES reads rWeek => rWeek[d, j]));
        ghost var counts := seq(DAYS, d requires 0 <= d < DAYS reads cWeek =>
          seq(SAMPLES + 1, j requires 0 <= j <= SAMPLES reads cWeek => cWeek[d, j]));
        Update(averages, counts);
      }
    }
  }

  /** The three messages recorded last, newest first; blanks stand for messages not recorded yet. */
  function LastThree(recorded: seq<string>): (w: seq<string>)
    ensures |w| == 3
  {
    var n := |recorded|;
    [if n > 0 then recorded[n - 1] else " ",
     if n > 1 then recorded[n - 2] else " ",
     if n > 2 then recorded[n - 3] else " "]
  }

  /** The flood window of one thread. */
  class RecentMessages {
    var last: string
    var prevLast: string
    var pprevLast: string
    ghost var recorded: seq<string>

    ghost predicate Valid()
      reads this
    {
      [last, prevLast, pprevLast] == LastThree(recorded)
    }

    /** lastmsg_ensure_init */
    constructor ()
      ensures Valid() && recorded == []
    {
      last, prevLast, pprevLast, recorded := " ", " ", " ", [];
    }

    /** LastMsg_Stats */
    method Repeated(log: string) returns (repeated: bool)
      requires Valid()
      ensures repeated <==>
        || (exists i :: 0 <= i < |recorded| && i >= |recorded| - 3 && recorded[i] == log)
        || (|recorded| < 3 && log == " ")
    {
      assert [last, prevLast, pprevLast] == LastThree(recorded);
      return log == last || log == prevLast || log == pprevLast;
    }

    /** LastMsg_Change */
    method Record(log: string)
      requires Valid()
      modifies this
      ensures Valid() && recorded == old(recorded) + [log]
    {
      pprevLast := prevLast;
      prevLast := last;
      last := log;
      recorded := recorded + [log];
    }
  }
}
