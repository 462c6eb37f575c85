/** The statistics the analytics screen shows over the results collection: a four-bucket
    score histogram, the pass rate and its pie values, the rank of each result, and the
    newest-first table order. Scores are in tenths, so every threshold is exact. */
module Statistics {
  import opened Types

  // JavaScript comparisons with NaN are false, so a NaN score satisfies none of these.

  predicate AtMost(s: Score, tenths: int) { s.Tenths? && s.v <= tenths }
  predicate Above(s: Score, tenths: int) { s.Tenths? && s.v > tenths }
  predicate AtLeast(s: Score, tenths: int) { s.Tenths? && s.v >= tenths }

  /** The buckets of the histogram: "0-2" is `score <= 2`, "2-5" is `2 < score <= 5`,
      "5-8" is `5 < score <= 8`, "8-10" is `score > 8`. */
  predicate InBucket(k: nat, s: Score) {
    if k == 0 then AtMost(s, 20)
    else if k == 1 then Above(s, 20) && AtMost(s, 50)
    else if k == 2 then Above(s, 50) && AtMost(s, 80)
    else if k == 3 then Above(s, 80)
    else false
  }

  /** A score passes at 5 points or more. */
  predicate Passes(s: Score) { AtLeast(s, 50) }

  /** The number of results whose score is in bucket `k`. */
  function BucketCount(results: seq<StudentResult>, k: nat): (n: nat)
    ensures n <= |results|
  {
    if results == [] then 0
    else BucketCount(results[1..], k) + (if InBucket(k, results[0].score) then 1 else 0)
  }

  /** The bar heights of the histogram. */
  function ScoreData(results: seq<StudentResult>): (counts: seq<nat>)
    ensures |counts| == 4
    ensures forall k :: 0 <= k < 4 ==> counts[k] <= |results|
  {
    [BucketCount(results, 0), BucketCount(results, 1), BucketCount(results, 2), BucketCount(results, 3)]
  }

  function PassCount(results: seq<StudentResult>): (n: nat)
    ensures n <= |results|
  {
    if results == [] then 0
    else PassCount(results[1..]) + (if Passes(results[0].score) then 1 else 0)
  }

  function NaNCount(results: seq<StudentResult>): (n: nat)
    ensures n <= |results|
  {
    if results == [] then 0
    else NaNCount(results[1..]) + (if results[0].score.NaN? then 1 else 0)
  }

  /** The number of results whose score is exactly 5 points. */
  function FiveCount(results: seq<StudentResult>): (n: nat)
    ensures n <= |results|
  {
    if results == [] then 0
    else FiveCount(results[1..]) + (if results[0].score == Tenths(50) then 1 else 0)
  }

  /** Every number score lies in exactly one bucket; NaN lies in none. */
  lemma BucketsPartition(s: Score)
    ensures s.Tenths? ==> exists k :: 0 <= k < 4 && InBucket(k, s)
    ensures forall j, k :: 0 <= j < k < 4 ==> !(InBucket(j, s) && InBucket(k, s))
    ensures s.NaN? ==> forall k :: !InBucket(k, s)
  {
    if s.Tenths? {
      if s.v <= 20 {
        assert InBucket(0, s);
      } else if s.v <= 50 {
        assert InBucket(1, s);
      } else if s.v <= 80 {
        assert InBucket(2, s);
      } else {
        assert InBucket(3, s);
      }
    }
  }

  /** The bars add up to the number of results whose score is a number: every result is
      counted once, except NaN scores, which appear in no bar. */
  lemma {:induction false} BucketsSum(results: seq<StudentResult>)
    ensures BucketCount(results, 0) + BucketCount(results, 1) + BucketCount(results, 2) + BucketCount(results, 3)
            == |results| - NaNCount(results)
  {
    if results != [] {
      BucketsSum(results[1..]);
      BucketsPartition(results[0].score);
    }
  }

  /** A score of exactly 5 passes although it is drawn in the "2-5" bar, so the pass count
      is the two upper bars plus the fives. */
  lemma {:induction false} PassCountFromBuckets(results: seq<StudentResult>)
    ensures PassCount(results) == BucketCount(results, 2) + BucketCount(results, 3) + FiveCount(results)
  {
    if results != [] {
      PassCountFromBuckets(results[1..]);
    }
  }

  /** The pass rate in percent, as an exact rational: 0 with no results. */
  function PassRate(results: seq<StudentResult>): (rate: real)
    ensures 0.0 <= rate <= 100.0
    ensures results == [] ==> rate == 0.0
    ensures results != [] ==> rate * (|results| as real) == 100.0 * (PassCount(results) as real)
  {
    if |results| > 0 then
      var p := PassCount(results) as real;
      var n := |results| as real;
      assert p / n <= 1.0;
      (p / n) * 100.0
    else 0.0
  }

  /** The two slices of the pie: passed and not passed. */
  function PieData(results: seq<StudentResult>): (values: seq<real>)
    ensures |values| == 2 && values[0] + values[1] == 100.0
    ensures 0.0 <= values[0] <= 100.0 && 0.0 <= values[1] <= 100.0
    ensures results != [] && PassCount(results) == |results| ==> values[1] == 0.0
    ensures PassCount(results) == 0 ==> values[0] == 0.0
  {
    var rate := PassRate(results);
    [rate, 100.0 - rate]
  }

  /** The rank each result is given. */
  datatype Rank = Weak | Average | Good | Excellent   // Yếu, Trung bình, Khá, Giỏi

  /** Rank by score: at least 8 is excellent, at least 6.5 good, at least 5 average,
      anything else (NaN included) weak. */
  function Classify(s: Score): (r: Rank)
    ensures r == Excellent <==> AtLeast(s, 80)
    ensures r == Good <==> AtLeast(s, 65) && !AtLeast(s, 80)
    ensures r == Average <==> AtLeast(s, 50) && !AtLeast(s, 65)
    ensures r == Weak <==> !Passes(s)
  {
    if AtLeast(s, 80) then Excellent
    else if AtLeast(s, 65) then Good
    else if AtLeast(s, 50) then Average
    else Weak
  }

  function RankOrder(r: Rank): nat {
    match r
    case Weak => 0
    case Average => 1
    case Good => 2
    case Excellent => 3
  }

  /** A higher score never gets a lower rank. */
  lemma ClassifyMonotone(a: int, b: int)
    requires a <= b
    ensures RankOrder(Classify(Tenths(a))) <= RankOrder(Classify(Tenths(b)))
  {
  }

  /** The colour of the score figure in the table: green from 8 points, blue from 5,
      red below (NaN included). */
  datatype Colour = Green | Blue | Red

  function ScoreColour(s: Score): (c: Colour)
    ensures c == Green <==> AtLeast(s, 80)
    ensures c == Blue <==> Passes(s) && !AtLeast(s, 80)
    ensures c == Red <==> !Passes(s)
  {
    if AtLeast(s, 80) then Green else if AtLeast(s, 50) then Blue else Red
  }

  /** The colour agrees with the rank: green is excellent, red is weak, blue is the two
      ranks in between. */
  lemma ColourAgreesWithRank(s: Score)
    ensures ScoreColour(s) == Green <==> Classify(s) == Excellent
    ensures ScoreColour(s) == Red <==> Classify(s) == Weak
    ensures ScoreColour(s) == Blue <==> Classify(s) == Good || Classify(s) == Average
  {
  }

  /** The table lists the results newest first. */
  function Reversed(results: seq<StudentResult>): (r: seq<StudentResult>)
    ensures |r| == |results|
    ensures forall i :: 0 <= i < |results| ==> r[i] == results[|results| - 1 - i]
  {
    if results == [] then [] else Reversed(results[1..]) + [results[0]]
  }

  /** Reversing is its own inverse, so the table order loses nothing. */
  lemma ReversedTwice(results: seq<StudentResult>)
    ensures Reversed(Reversed(results)) == results
  {
  }
}
