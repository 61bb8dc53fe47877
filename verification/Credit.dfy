/** The credit score: five agencies asked at once, the valid replies of three seconds averaged. */
module Credit {
  import opened Arithmetic
  import opened Calendar
  import opened Generator
  import opened Records
  import opened Services

  const AGENCIES := 5
  const REPLY_WINDOW := 3000
  const REVIEW_DATE_BOUND_DAYS := 20

  /** The last year a date can lie in. */
  const LAST_YEAR := 262142

  datatype Reply = Scored(score: nat) | Refused

  /** A reply and the milliseconds it took. */
  datatype Arrival = Arrival(at: nat, reply: Reply)

  predicate InOrder(arrivals: seq<Arrival>) {
    forall i, j :: 0 <= i < j < |arrivals| ==> arrivals[i].at <= arrivals[j].at
  }

  predicate Counts(a: Arrival) {
    a.at < 3000 && a.reply.Scored? && 1 <= a.reply.score <= 998
  }

  /** The valid scores that arrived in time. */
  ghost function Counted(arrivals: seq<Arrival>): seq<int> {
    if arrivals == [] then []
    else
      var front, a := Counted(arrivals[..|arrivals| - 1]), arrivals[|arrivals| - 1];
      if Counts(a) then front + [a.reply.score] else front
  }

  ghost function Sum(scores: seq<int>): int {
    if scores == [] then 0 else Sum(scores[..|scores| - 1]) + scores[|scores| - 1]
  }

  lemma SumWith(scores: seq<int>, x: int)
    ensures Sum(scores + [x]) == Sum(scores) + x
  {
    assert (scores + [x])[..|scores|] == scores;
  }

  lemma {:induction false} SumOfRemoved(scores: seq<int>, i: nat)
    requires i < |scores|
    ensures Sum(scores) == Sum(scores[..i] + scores[i + 1..]) + scores[i]
  {
    var n := |scores| - 1;
    var rest := scores[..i] + scores[i + 1..];
    if i == n {
      assert rest == scores[..n];
    } else {
      var front := scores[..n];
      SumOfRemoved(front, i);
      assert rest == front[..i] + front[i + 1..] + [scores[n]];
      SumWith(front[..i] + front[i + 1..], scores[n]);
    }
  }

  lemma Removed(scores: seq<int>, i: nat)
    requires i < |scores|
    ensures multiset(scores[..i] + scores[i + 1..]) == multiset(scores) - multiset{scores[i]}
  {
    assert scores == scores[..i] + [scores[i]] + scores[i + 1..];
  }

  /** The sum and the number of scores do not depend on their order. */
  lemma {:induction false} SumOfPermutation(first: seq<int>, second: seq<int>)
    requires multiset(first) == multiset(second)
    ensures Sum(first) == Sum(second) && |first| == |second|
    decreases |first|
  {
    assert |multiset(first)| == |first| && |multiset(second)| == |second|;
    if first != [] {
      var n := |first| - 1;
      assert first[n] in multiset(second);
      var i :| 0 <= i < |second| && second[i] == first[n];
      Removed(first, n);
      Removed(second, i);
      SumOfRemoved(second, i);
      assert first[..n] + first[n + 1..] == first[..n];
      SumOfPermutation(first[..n], second[..i] + second[i + 1..]);
    }
  }

  class ReviewDates {
    var state: int

    constructor (seed: int)
      requires 0 <= seed < Pow2(64)
      ensures state == seed
    {
      state := seed;
    }

    /** Between one day and twenty. */
    method NextOffsetDays() returns (days: nat)
      modifies this
      ensures state == Draw(old(state))
      ensures days == state % REVIEW_DATE_BOUND_DAYS + 1 && 1 <= days <= 20
    {
      state := (state * MULTIPLIER + 1) % Pow2(64);
      days := state % REVIEW_DATE_BOUND_DAYS + 1;
    }
  }

  predicate InScale(scores: seq<int>, low: int, high: int) {
    forall i :: 0 <= i < |scores| ==> low <= scores[i] <= high
  }

  lemma {:induction false} SumBetween(scores: seq<int>, low: int, high: int)
    requires InScale(scores, low, high)
    ensures |scores| * low <= Sum(scores) <= |scores| * high
  {
    if scores != [] {
      var n := |scores| - 1;
      SumBetween(scores[..n], low, high);
      MulForm(n, 1, low);
      MulForm(n, 1, high);
    }
  }

  lemma MeanInside(sum: int, n: int, low: int, high: int)
    requires n >= 1 && n * low <= sum <= n * high
    ensures low <= sum / n <= high
  {
    var mean := sum / n;
    DivForm(sum, n);
    if mean < low {
      MulForm(n, mean, 1);
      MulMono(mean + 1, low, n);
    } else if mean > high {
      MulForm(n, high, 1);
      MulMono(high + 1, mean, n);
    }
  }

  /** The truncated mean lies between any bounds of the scores. */
  lemma MeanBetween(scores: seq<int>, low: int, high: int)
    requires |scores| > 0 && InScale(scores, low, high)
    ensures low <= Sum(scores) / |scores| <= high
  {
    SumBetween(scores, low, high);
    MeanInside(Sum(scores), |scores|, low, high);
  }

  lemma {:induction false} CountedInScale(arrivals: seq<Arrival>, low: int, high: int)
    requires forall a :: a in arrivals && Counts(a) ==> low <= a.reply.score <= high
    ensures InScale(Counted(arrivals), low, high) && InScale(Counted(arrivals), 1, 998)
    ensures |Counted(arrivals)| <= |arrivals|
    ensures |Counted(arrivals)| > 0 <==> exists a :: a in arrivals && Counts(a)
  {
    if arrivals != [] {
      var front := arrivals[..|arrivals| - 1];
      assert arrivals == front + [arrivals[|arrivals| - 1]];
      CountedInScale(front, low, high);
    }
  }

  /** What the counted scores and the review date decide. */
  ghost function Decision(counted: seq<int>, review: Date): Option<CreditDecision>
    requires InScale(counted, 1, 998)
  {
    if |counted| == 0 || review.year > LAST_YEAR then None
    else MeanBetween(counted, 1, 998); Some(CreditDecision(Sum(counted) / |counted|, review))
  }

  /** Only the valid replies in the window matter, and not the order in which they came. */
  lemma DecisionIgnoresOrder(first: seq<int>, second: seq<int>, review: Date)
    requires multiset(first) == multiset(second) && InScale(first, 1, 998) && InScale(second, 1, 998)
    ensures Decision(first, review) == Decision(second, review)
  {
    SumOfPermutation(first, second);
  }

  /** The mean of scores, rounded down. */
  ghost predicate IsMean(score: int, scores: seq<int>) {
    |scores| * score <= Sum(scores) < |scores| * (score + 1)
  }

  /**
   * A decision exists exactly when some valid reply came in time and the review date exists. Its score
   * is their mean rounded down, so it lies between the least and the greatest of them and always fits
   * the customer's columns.
   */
  lemma DecisionExists(arrivals: seq<Arrival>, review: Date, low: int, high: int)
    requires forall a :: a in arrivals && Counts(a) ==> low <= a.reply.score <= high
    requires InScale(Counted(arrivals), 1, 998)
    ensures var d := Decision(Counted(arrivals), review);
            && (d.Some? <==> review.year <= 262142 && exists a :: a in arrivals && Counts(a))
            && (d.Some? ==> low <= d.value.score <= high && 1 <= d.value.score <= 998 && d.value.review == review)
            && (d.Some? ==> IsMean(d.value.score, Counted(arrivals)))
  {
    CountedInScale(arrivals, low, high);
    var scores := Counted(arrivals);
    if |scores| > 0 {
      MeanBetween(scores, low, high);
      MeanBetween(scores, 1, 998);
      DivForm(Sum(scores), |scores|);
      MulForm(|scores|, Sum(scores) / |scores|, 1);
    }
  }

  /** Replies after the first late one are late. */
  lemma {:induction false} LateCountForNothing(arrivals: seq<Arrival>, i: nat)
    requires InOrder(arrivals) && i <= |arrivals| && (i < |arrivals| ==> arrivals[i].at >= REPLY_WINDOW)
    ensures Counted(arrivals) == Counted(arrivals[..i])
  {
    if i == |arrivals| {
      assert arrivals[..i] == arrivals;
    } else {
      LateCountForNothing(arrivals[..|arrivals| - 1], i);
      assert arrivals[..|arrivals| - 1][..i] == arrivals[..i];
    }
  }

  lemma CountNext(arrivals: seq<Arrival>, i: nat)
    requires i < |arrivals|
    ensures var before, after, a := Counted(arrivals[..i]), Counted(arrivals[..i + 1]), arrivals[i];
            && |after| == |before| + (if Counts(a) then 1 else 0)
            && Sum(after) == Sum(before) + if Counts(a) then a.reply.score else 0
  {
    assert arrivals[..i + 1][..i] == arrivals[..i];
    if Counts(arrivals[i]) {
      SumWith(Counted(arrivals[..i]), arrivals[i].reply.score);
    }
  }

  /**
   * Takes replies as they come until all are in or the window closes, and adds up the valid ones.
   * An agency that never answers has no arrival.
   */
  method CollectScores(arrivals: seq<Arrival>) returns (total: nat, returned: nat)
    requires |arrivals| <= AGENCIES && InOrder(arrivals)
    ensures returned == |Counted(arrivals)| && total == Sum(Counted(arrivals)) <= 998 * AGENCIES
  {
    var now, i := 0, 0;
    total, returned := 0, 0;
    while i < |arrivals|
      invariant 0 <= i <= |arrivals| && 0 <= total <= 998 * i
      invariant returned == |Counted(arrivals[..i])| && total == Sum(Counted(arrivals[..i]))
      invariant now == if i == 0 then 0 else arrivals[i - 1].at
    {
      if now >= REPLY_WINDOW || arrivals[i].at >= REPLY_WINDOW { break; }
      var a := arrivals[i];
      CountNext(arrivals, i);
      if a.reply.Scored? && 1 <= a.reply.score <= 998 {
        total, returned := total + a.reply.score, returned + 1;
      }
      now, i := a.at, i + 1;
    }
    LateCountForNothing(arrivals, i);
  }

  method EvaluateCredit(arrivals: seq<Arrival>, today: Date, dates: ReviewDates) returns (decision: Option<CreditDecision>)
    requires |arrivals| <= AGENCIES && InOrder(arrivals)
    modifies dates
    ensures InScale(Counted(arrivals), 1, 998)
    ensures var counted := Counted(arrivals);
            && decision == Decision(counted, PlusDays(today, dates.state % REVIEW_DATE_BOUND_DAYS + 1))
            && dates.state == if |counted| == 0 then old(dates.state) else Draw(old(dates.state))
  {
    CountedInScale(arrivals, 1, 998);
    var total, returned := CollectScores(arrivals);
    if returned == 0 { return None; }
    var offset := dates.NextOffsetDays();
    var review := PlusDays(today, offset);
    if review.year > LAST_YEAR { return None; }
    MeanBetween(Counted(arrivals), 1, 998);
    return Some(CreditDecision(total / returned, review));
  }

  /** The agencies of the system itself: a delay of one or two seconds, a score from 1 to 998. */
  method SeededOutcome(seed: int) returns (delay: nat, score: nat)
    requires 0 <= seed < Pow2(64)
    ensures Counts(Arrival(1000 * delay, Scored(score)))
    ensures delay == Draw(seed) % 2 + 1 && score == Draw(Draw(seed)) % 998 + 1
  {
    var state := (seed * MULTIPLIER + 1) % Pow2(64);
    delay := state % 2 + 1;
    state := (state * MULTIPLIER + 1) % Pow2(64);
    score := state % 998 + 1;
  }
}
