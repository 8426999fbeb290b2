/** Tally arithmetic: a candidate's share of the votes, its display to one
    decimal, the leader's count and the relative bar width, and the rows of
    the results view. Percentages are exact rationals (`real`); `toFixed(1)`
    rounds the exact value to the nearest tenth with ties upward. */
module Tally {
  import opened Common
  import Numerals

  /** The share `voteCount / totalVotes * 100`, or 0 when there are no votes:
      the guard keeps the zero-vote case from dividing by zero. */
  function Share(voteCount: nat, totalVotes: nat): (p: real)
    ensures totalVotes == 0 ==> p == 0.0
    ensures totalVotes > 0 ==> p * (totalVotes as real) == 100.0 * (voteCount as real)
    ensures 0.0 <= p
    ensures voteCount <= totalVotes ==> p <= 100.0
  {
    if totalVotes > 0 then
      var p := (voteCount as real) / (totalVotes as real) * 100.0;
      p
    else 0.0
  }

  /** `x.toFixed(1)` for a non-negative x, as a whole number of tenths: the
      nearest tenth, ties going upward. */
  function RoundTenths(x: real): (n: nat)
    requires 0.0 <= x
    ensures (n as real) - 0.5 <= 10.0 * x < (n as real) + 0.5
    ensures x <= 100.0 ==> n <= 1000
  {
    (10.0 * x + 0.5).Floor
  }

  /** The number of tenths of a percent that `toFixed(1)` shows for a share:
      the integer nearest to 1000 * v / t, ties upward. */
  lemma RoundedShare(v: nat, t: nat)
    requires t > 0
    ensures 2 * RoundTenths(Share(v, t)) * t <= 2000 * v + t < 2 * (RoundTenths(Share(v, t)) + 1) * t
    ensures RoundTenths(Share(v, t)) == (2000 * v + t) / (2 * t)
  {
    var p := Share(v, t);
    var n := RoundTenths(p);
    ScaledBounds(2.0 * (n as real) - 1.0, 2.0 * (n as real) + 1.0, 20.0 * p, t as real, 2000.0 * (v as real));
    CastBack(n, t, v);
    DivisionByBounds(2000 * v + t, 2 * t, n);
  }

  lemma ScaledBounds(lo: real, hi: real, x: real, tr: real, y: real)
    requires lo <= x < hi
    requires x * tr == y && 0.0 < tr
    ensures lo * tr <= y < hi * tr
  {
    MulLeReal(lo, x, tr);
    MulLtReal(x, hi, tr);
  }

  lemma CastBack(n: int, t: int, v: int)
    requires (2.0 * (n as real) - 1.0) * (t as real) <= 2000.0 * (v as real) < (2.0 * (n as real) + 1.0) * (t as real)
    ensures 2 * n * t <= 2000 * v + t < 2 * (n + 1) * t
  {
    CastMul(2 * n - 1, t);
    CastMul(2 * n + 1, t);
    assert ((2 * n - 1) * t) as real <= (2000 * v) as real;
    assert (2000 * v) as real < ((2 * n + 1) * t) as real;
  }

  lemma MulLeReal(a: real, b: real, c: real)
    requires a <= b && 0.0 <= c
    ensures a * c <= b * c
  {
  }

  lemma MulLtReal(a: real, b: real, c: real)
    requires a < b && 0.0 < c
    ensures a * c < b * c
  {
  }

  lemma CastMul(a: int, b: int)
    ensures ((a * b) as real) == (a as real) * (b as real)
  {
  }

  lemma DivisionByBounds(a: nat, b: nat, q: nat)
    requires b > 0
    requires q * b <= a < (q + 1) * b
    ensures a / b == q
  {
    var d := a / b;
    assert a == d * b + a % b && 0 <= a % b < b;
    if d > q {
      MulLeInt(q + 1, d, b);
      assert false;
    } else if d < q {
      MulLeInt(d + 1, q, b);
      assert false;
    }
  }

  lemma MulLeInt(a: nat, b: nat, c: nat)
    requires a <= b
    ensures a * c <= b * c
  {
  }

  /** The `percentage` field the election page attaches to a candidate: the
      string `toFixed(1)` yields, held as its number of tenths, or the number 0
      itself when the election has no votes. */
  datatype Percentage = Fixed(tenths: nat) | Zero

  /** `x || 0` for a count the backend may leave out. */
  function CountOrZero(x: Option<nat>): nat
  {
    if x.Some? then x.value else 0
  }

  /** The election page's percentage of one candidate: 0 exactly when the
      total is missing or zero, otherwise the share rounded to the nearest
      tenth of a percent, ties upward; at most 100.0 when the candidate's
      count does not exceed the total. */
  function CandidatePercentage(voteCount: Option<nat>, totalVotes: Option<nat>): (p: Percentage)
    ensures p.Zero? <==> CountOrZero(totalVotes) == 0
    ensures p.Fixed? ==>
              var v, t := CountOrZero(voteCount), CountOrZero(totalVotes);
              2 * p.tenths * t <= 2000 * v + t < 2 * (p.tenths + 1) * t
    ensures p.Fixed? && CountOrZero(voteCount) <= CountOrZero(totalVotes) ==> p.tenths <= 1000
  {
    var t := CountOrZero(totalVotes);
    if t > 0 then
      RoundedShare(CountOrZero(voteCount), t);
      Fixed(RoundTenths(Share(CountOrZero(voteCount), t)))
    else Zero
  }

  /** Two candidates with 3 and 1 of 4 votes get 75.0 and 25.0. */
  lemma ThreeToOneExample()
    ensures CandidatePercentage(Some(3), Some(4)) == Fixed(750)
    ensures CandidatePercentage(Some(1), Some(4)) == Fixed(250)
    ensures CandidatePercentage(Some(0), Some(0)) == Zero
    ensures CandidatePercentage(None, None) == Zero
  {
    RoundedShare(3, 4);
    RoundedShare(1, 4);
  }

  /** The text `toFixed(1)` produces for a number of tenths: the whole part in
      decimal, a point, and the tenths digit. */
  function Fixed1(tenths: nat): (s: string)
    ensures |s| >= 3 && s[|s| - 2] == '.'
    ensures forall i :: 0 <= i < |s| && i != |s| - 2 ==> Numerals.IsDecimalDigit(s[i])
    ensures Numerals.DigitsValue(s[..|s| - 2], false) * 10 + Numerals.DigitValue(s[|s| - 1], false) == tenths
    ensures s[0] == '0' ==> |s| == 3
  {
    var whole := Numerals.ToDecimal(tenths / 10);
    var s := whole + "." + [Numerals.DigitChar(tenths % 10)];
    assert s[..|s| - 2] == whole && s[0] == whole[0];
    s
  }

  /** What the election page prints before its `%` sign. */
  function PercentageLabel(p: Percentage): string
  {
    match p
    case Fixed(tenths) => Fixed1(tenths)
    case Zero => "0"
  }

  /** What the results page prints before its `%` sign: `toFixed(1)` of the
      unrounded share. */
  function ResultsPercentageLabel(voteCount: nat, totalVotes: nat): string
  {
    Fixed1(RoundTenths(Share(voteCount, totalVotes)))
  }

  /** The two pages print the same percentage whenever there are votes, but
      with no votes the election page prints "0" and the results page "0.0". */
  lemma PercentageLabelsAgree(v: nat, t: nat)
    ensures t > 0 ==> PercentageLabel(CandidatePercentage(Some(v), Some(t))) == ResultsPercentageLabel(v, t)
    ensures t == 0 ==> PercentageLabel(CandidatePercentage(Some(v), Some(t))) == "0"
    ensures t == 0 ==> ResultsPercentageLabel(v, t) == "0.0"
  {
    if t == 0 {
      assert RoundTenths(Share(v, t)) == 0;
      assert Numerals.ToDecimal(0) == "0";
    }
  }

  /** A candidate as the election endpoint returns it; `percentage` is the
      field the page adds. */
  datatype Candidate = Candidate(
    id: Option<string>, name: string, motto: string, image: Option<string>,
    voteCount: Option<nat>, percentage: Option<Percentage>)

  /** `candidates.map(candidate => ({...candidate, percentage}))`: the same
      candidates in the same order, each with only its percentage replaced. */
  function WithPercentages(cs: seq<Candidate>, totalVotes: Option<nat>): (r: seq<Candidate>)
    ensures |r| == |cs|
    ensures forall i :: 0 <= i < |cs| ==>
              r[i] == cs[i].(percentage := Some(CandidatePercentage(cs[i].voteCount, totalVotes)))
  {
    if |cs| == 0 then []
    else [cs[0].(percentage := Some(CandidatePercentage(cs[0].voteCount, totalVotes)))]
         + WithPercentages(cs[1..], totalVotes)
  }

  /** `Math.max(...counts)`; None stands for the -Infinity of an empty list. */
  function MaxVotes(counts: seq<nat>): (m: Option<nat>)
    ensures m.None? <==> |counts| == 0
    ensures m.Some? ==> forall i :: 0 <= i < |counts| ==> counts[i] <= m.value
    ensures m.Some? ==> exists i :: 0 <= i < |counts| && counts[i] == m.value
  {
    if |counts| == 0 then None
    else
      var rest := MaxVotes(counts[1..]);
      if rest.None? || counts[0] >= rest.value then
        assert forall i :: 1 <= i < |counts| ==> counts[i] == counts[1..][i - 1];
        Some(counts[0])
      else
        assert forall i :: 1 <= i < |counts| ==> counts[i] == counts[1..][i - 1];
        ghost var k :| 0 <= k < |counts[1..]| && counts[1..][k] == rest.value;
        assert counts[k + 1] == rest.value;
        rest
  }

  /** The bar width as the results page writes it, `voteCount / maxVotes * 100`;
      None stands for the NaN that 0 / 0 yields when every count is zero. A
      positive count over a zero maximum (Infinity in JavaScript) cannot occur
      on the page, since `maxVotes` is the largest count, so that case is also
      None here. */
  function BarWidthAsWritten(voteCount: nat, maxVotes: nat): (w: Option<real>)
    ensures w.None? <==> maxVotes == 0
    ensures w.Some? ==> w.value * (maxVotes as real) == 100.0 * (voteCount as real)
  {
    if maxVotes == 0 then None
    else Some((voteCount as real) / (maxVotes as real) * 100.0)
  }

  /** With all counts zero the leader's count is 0 and every bar width the
      results page computes is NaN. */
  lemma AllZeroCountsGiveNaN(counts: seq<nat>)
    requires |counts| > 0
    requires forall i :: 0 <= i < |counts| ==> counts[i] == 0
    ensures MaxVotes(counts) == Some(0)
    ensures forall i :: 0 <= i < |counts| ==> BarWidthAsWritten(counts[i], MaxVotes(counts).value).None?
  {
    var m := MaxVotes(counts);
    ghost var k :| 0 <= k < |counts| && counts[k] == m.value;
  }

  /** The bar width with the divisor clamped to at least 1: all-zero counts
      give empty bars. It lies in [0, 100] for every count up to the leader's,
      the leader's bar is full when the leader has votes, and it agrees with the page's formula wherever
      that formula is defined. */
  function BarWidth(voteCount: nat, maxVotes: nat): (w: real)
    ensures voteCount <= maxVotes ==> 0.0 <= w <= 100.0
    ensures maxVotes > 0 && voteCount == maxVotes ==> w == 100.0
    ensures maxVotes == 0 && voteCount == 0 ==> w == 0.0
    ensures maxVotes > 0 ==> BarWidthAsWritten(voteCount, maxVotes) == Some(w)
  {
    var d := if maxVotes > 0 then maxVotes else 1;
    var w := (voteCount as real) / (d as real) * 100.0;
    w
  }

  /** A candidate of the results endpoint. */
  datatype ResultCandidate = ResultCandidate(
    id: string, name: string, motto: string, image: string, voteCount: nat)

  /** One card of the results page: the rank label, the candidate's own
      fields, the percentage in tenths and the bar width. */
  datatype Row = Row(
    rank: nat, name: string, motto: string, image: string,
    votes: nat, percentTenths: nat, width: real)

  /** The counts in the candidates' order (plumbing for `ResultRows`). */
  function VoteCounts(cs: seq<ResultCandidate>): (counts: seq<nat>)
    ensures |counts| == |cs|
    ensures forall i :: 0 <= i < |cs| ==> counts[i] == cs[i].voteCount
  {
    seq(|cs|, i requires 0 <= i < |cs| => cs[i].voteCount)
  }

  /** One card: the candidate's own fields under rank index + 1, its rounded
      share of the total as the percentage, and its corrected bar width
      against the leader's count; the bar lies in [0, 100] when the count is at
      most the leader's and is full for a leader with votes, and the
      percentage lies in [0, 100.0] when the count is at most the total. */
  function RowOf(c: ResultCandidate, index: nat, totalVotes: nat, maxVotes: nat): (r: Row)
    ensures r.rank == index + 1 && r.name == c.name && r.motto == c.motto
            && r.image == c.image && r.votes == c.voteCount
    ensures c.voteCount <= maxVotes ==> 0.0 <= r.width <= 100.0
    ensures maxVotes > 0 && c.voteCount == maxVotes ==> r.width == 100.0
    ensures c.voteCount <= totalVotes ==> r.percentTenths <= 1000
    ensures totalVotes == 0 ==> r.percentTenths == 0
    ensures r.percentTenths == RoundTenths(Share(c.voteCount, totalVotes))
    ensures r.width == BarWidth(c.voteCount, maxVotes)
  {
    Row(index + 1, c.name, c.motto, c.image, c.voteCount,
        RoundTenths(Share(c.voteCount, totalVotes)), BarWidth(c.voteCount, maxVotes))
  }

  /** A count no smaller than any other is the maximum. */
  lemma {:induction false} MaxOfLeader(counts: seq<nat>, i: nat)
    requires i < |counts|
    requires forall j :: 0 <= j < |counts| ==> counts[j] <= counts[i]
    ensures MaxVotes(counts) == Some(counts[i])
  {
    var rest := counts[1..];
    if |rest| > 0 {
      if i == 0 {
        var r := MaxVotes(rest);
        var k :| 0 <= k < |rest| && rest[k] == r.value;
        assert rest[k] == counts[k + 1];
      } else {
        forall j | 0 <= j < |rest| ensures rest[j] <= rest[i - 1] {
          assert rest[j] == counts[j + 1];
        }
        MaxOfLeader(rest, i - 1);
      }
    }
  }

  /** The cards of the results page, in the order received: rank i + 1 is the
      i-th candidate whatever its count, each card shows that candidate's
      fields, its rounded share and its bar against the largest count; the
      leader's bar is full when the leader has votes, every bar lies in [0, 100], and every percentage
      lies in [0, 100.0] when no count exceeds the total. */
  function ResultRows(cs: seq<ResultCandidate>, totalVotes: nat): (rows: seq<Row>)
    ensures |rows| == |cs|
    ensures forall i :: 0 <= i < |cs| ==>
              rows[i].rank == i + 1 && rows[i].name == cs[i].name && rows[i].motto == cs[i].motto
              && rows[i].image == cs[i].image && rows[i].votes == cs[i].voteCount
    ensures forall i :: 0 <= i < |cs| ==> 0.0 <= rows[i].width <= 100.0
    ensures forall i :: (0 <= i < |cs| && cs[i].voteCount > 0
              && forall j :: 0 <= j < |cs| ==> cs[j].voteCount <= cs[i].voteCount) ==> rows[i].width == 100.0
    ensures forall i :: 0 <= i < |cs| && cs[i].voteCount <= totalVotes ==> rows[i].percentTenths <= 1000
    ensures totalVotes == 0 ==> forall i :: 0 <= i < |cs| ==> rows[i].percentTenths == 0
    ensures forall i :: 0 <= i < |cs| ==> rows[i].percentTenths == RoundTenths(Share(cs[i].voteCount, totalVotes))
    ensures |cs| > 0 ==>
              forall i :: 0 <= i < |cs| ==> rows[i].width == BarWidth(cs[i].voteCount, MaxVotes(VoteCounts(cs)).value)
  {
    var counts := VoteCounts(cs);
    var m := MaxVotes(counts);
    var maxVotes := if m.Some? then m.value else 0;
    var rows := seq(|cs|, i requires 0 <= i < |cs| => RowOf(cs[i], i, totalVotes, maxVotes));
    assert forall i :: 0 <= i < |cs| ==> rows[i] == RowOf(cs[i], i, totalVotes, maxVotes);
    assert forall i :: 0 <= i < |cs| ==> cs[i].voteCount <= maxVotes by {
      forall i | 0 <= i < |cs| ensures cs[i].voteCount <= maxVotes {
        assert counts[i] == cs[i].voteCount;
      }
    }
    forall i | 0 <= i < |cs| && forall j :: 0 <= j < |cs| ==> cs[j].voteCount <= cs[i].voteCount
      ensures cs[i].voteCount == maxVotes
    {
      MaxOfLeader(counts, i);
    }
    rows
  }

  /** Ranks follow the order received, not the counts: the first of two
      candidates with 1 and 3 votes is ranked 1. */
  lemma RankIsPositionNotVotes()
    ensures var rows := ResultRows([ResultCandidate("a", "A", "", "", 1), ResultCandidate("b", "B", "", "", 3)], 4);
            rows[0].rank == 1 && rows[1].rank == 2 && rows[0].votes < rows[1].votes
  {
  }
}
