/**
 * The stake-allocation arithmetic of the calculator: the odds filter, the dutching
 * denominator and the three result tables (dutching, guaranteed return, money back).
 * Values are exact reals. Every computed figure goes through a rounding function:
 * `Exact` keeps it as it is, and `ToFixed2` rounds it to cents as the displayed
 * tables do.
 */
module Allocation {
  import opened Decimal

  /** A parsed input field; `None` stands for the NaN that `parseFloat` gives for text that is not a number. */
  datatype Option<T> = None | Some(value: T)

  /** One row of the dutching or guaranteed-return table. */
  datatype Row = Row(odds: real, stake: real, payout: real)

  /** One row of the money-back table. */
  datatype MoneyBackRow = MoneyBackRow(odds: real, stake: real, payout: real, refund: real, netReturn: real)

  /** No rounding: the figures as exact arithmetic gives them. */
  function Exact(x: real): real { x }


  /** The filter's test: a number, and greater than 1. */
  predicate IsUsableOdds(p: Option<real>) {
    p.Some? && p.value > 1.0
  }

  predicate AllAboveOne(odds: seq<real>) {
    forall i :: 0 <= i < |odds| ==> odds[i] > 1.0
  }

  /** The odds of the picks that pass the filter, in pick order. */
  function ValidOdds(picks: seq<Option<real>>): (odds: seq<real>)
    ensures |odds| <= |picks|
    ensures AllAboveOne(odds)
  {
    if picks == [] then []
    else (if IsUsableOdds(picks[0]) then [picks[0].value] else []) + ValidOdds(picks[1..])
  }

  /** The sum of the reciprocals of the odds, folded from the left starting at 0. */
  function Denominator(odds: seq<real>): (d: real)
    requires AllAboveOne(odds)
    ensures d >= 0.0
    ensures |odds| > 0 ==> d > 0.0
  {
    if odds == [] then 0.0 else Denominator(odds[..|odds| - 1]) + 1.0 / odds[|odds| - 1]
  }

  /** The unrounded dutching stake on odds `o`: total · (1/o) / d. */
  function DutchingStake(total: real, d: real, o: real): real
    requires o > 1.0 && d > 0.0
  {
    total * (1.0 / o) / d
  }

  /** The unrounded guaranteed-return stake on odds `o`: total / o. */
  function GuaranteedStake(total: real, o: real): real
    requires o > 1.0
  {
    total / o
  }

  /** The payout every dutching pick shares before rounding: total / d. */
  function SharedPayout(total: real, d: real): real
    requires d > 0.0
  {
    total / d
  }

  /** The part of `c` that odds `o` receive when shares go by 1/odds: c · (1/o). */
  function Share(c: real, o: real): real
    requires o > 1.0
  {
    c * (1.0 / o)
  }

  /** What a stake returns if its pick wins: odds · stake. */
  function Payout(o: real, stake: real): real {
    o * stake
  }

  /** One dutching row for odds `o`, given the denominator `d` of the whole list. */
  function DutchingRow(round: real -> real, total: real, d: real, o: real): Row
    requires o > 1.0 && d > 0.0
  {
    var stake := round(DutchingStake(total, d, o));
    Row(o, stake, round(Payout(o, stake)))
  }

  /** One guaranteed-return row for odds `o`. */
  function GuaranteedRow(round: real -> real, total: real, o: real): Row
    requires o > 1.0
  {
    var stake := round(GuaranteedStake(total, o));
    Row(o, stake, round(Payout(o, stake)))
  }

  /** One money-back row for odds `o`: the guaranteed figures, the refund and the net return. */
  function MoneyBackRowFor(round: real -> real, total: real, o: real): MoneyBackRow
    requires o > 1.0
  {
    var stake := round(GuaranteedStake(total, o));
    var payout := round(Payout(o, stake));
    var refund := round(total - stake);
    MoneyBackRow(o, stake, payout, refund, round(payout - total + refund))
  }

  /** Dutching: each stake proportional to 1/odds so that the stakes add up to the total. */
  function DutchingTable(round: real -> real, total: real, odds: seq<real>): (rows: seq<Row>)
    requires AllAboveOne(odds)
    ensures |rows| == |odds|
    ensures forall i :: 0 <= i < |odds| ==> rows[i].odds == odds[i]
  {
    var d := Denominator(odds);
    seq(|odds|, i requires 0 <= i < |odds| => DutchingRow(round, total, d, odds[i]))
  }

  /** Guaranteed return: each stake sized so that its own payout is the total. */
  function GuaranteedTable(round: real -> real, total: real, odds: seq<real>): (rows: seq<Row>)
    requires AllAboveOne(odds)
    ensures |rows| == |odds|
    ensures forall i :: 0 <= i < |odds| ==> rows[i].odds == odds[i]
  {
    seq(|odds|, i requires 0 <= i < |odds| => GuaranteedRow(round, total, odds[i]))
  }

  /** Money back: the guaranteed figures with the refund of the rest of the total and the net return. */
  function MoneyBackTable(round: real -> real, total: real, odds: seq<real>): (rows: seq<MoneyBackRow>)
    requires AllAboveOne(odds)
    ensures |rows| == |odds|
    ensures forall i :: 0 <= i < |odds| ==> rows[i].odds == odds[i]
  {
    seq(|odds|, i requires 0 <= i < |odds| => MoneyBackRowFor(round, total, odds[i]))
  }

  /** The three tables a calculation produces. */
  datatype Results = Results(dutching: seq<Row>, guaranteed: seq<Row>, moneyBack: seq<MoneyBackRow>)

  const NoResults := Results([], [], [])

  function Tables(round: real -> real, total: real, odds: seq<real>): (r: Results)
    requires AllAboveOne(odds)
    ensures |r.dutching| == |r.guaranteed| == |r.moneyBack| == |odds|
  {
    Results(DutchingTable(round, total, odds), GuaranteedTable(round, total, odds), MoneyBackTable(round, total, odds))
  }

  /**
   * One press of Calculate on the parsed stake and picks: `None` when it returns early
   * (the stake is NaN or not positive, or no odds pass the filter), otherwise the
   * displayed tables.
   */
  function CalculateResults(stake: Option<real>, picks: seq<Option<real>>): (r: Option<Results>)
    ensures r.None? <==> stake.None? || stake.value <= 0.0 || ValidOdds(picks) == []
    ensures r.Some? ==> r.value == Tables(ToFixed2, stake.value, ValidOdds(picks))
  {
    if stake.None? || stake.value <= 0.0 then None
    else
      var odds := ValidOdds(picks);
      if |odds| == 0 then None else Some(Tables(ToFixed2, stake.value, odds))
  }

  // ---------------------------------------------------------------------------
  // The odds filter

  /** Filtering distributes over concatenation: the kept odds keep the picks' order. */
  lemma {:induction false} ValidOddsAppend(p: seq<Option<real>>, q: seq<Option<real>>)
    ensures ValidOdds(p + q) == ValidOdds(p) + ValidOdds(q)
  {
    if p == [] {
      assert p + q == q;
    } else {
      var head := if IsUsableOdds(p[0]) then [p[0].value] else [];
      assert (p + q)[0] == p[0];
      assert (p + q)[1..] == p[1..] + q;
      assert ValidOdds(p + q) == head + ValidOdds(p[1..] + q);
      ValidOddsAppend(p[1..], q);
      assert head + (ValidOdds(p[1..]) + ValidOdds(q)) == (head + ValidOdds(p[1..])) + ValidOdds(q);
    }
  }

  /** A value is among the valid odds exactly when some pick parsed to it and it exceeds 1. */
  lemma {:induction false} ValidOddsMembers(picks: seq<Option<real>>, x: real)
    ensures x in ValidOdds(picks) <==> Some(x) in picks && x > 1.0
  {
    if picks != [] {
      ValidOddsMembers(picks[1..], x);
      assert picks == [picks[0]] + picks[1..];
    }
  }

  /** Picks that all pass the filter are kept in full, in order. */
  lemma {:induction false} ValidOddsKeepsUsable(picks: seq<Option<real>>)
    requires forall i :: 0 <= i < |picks| ==> IsUsableOdds(picks[i])
    ensures |ValidOdds(picks)| == |picks|
    ensures forall i :: 0 <= i < |picks| ==> picks[i] == Some(ValidOdds(picks)[i])
  {
    if picks != [] {
      ValidOddsKeepsUsable(picks[1..]);
    }
  }

  // ---------------------------------------------------------------------------
  // Sums of table columns

  /** Left fold of `+` from 0. */
  function Sum(s: seq<real>): real {
    if s == [] then 0.0 else Sum(s[..|s| - 1]) + s[|s| - 1]
  }

  function Stakes(rows: seq<Row>): (s: seq<real>)
    ensures |s| == |rows|
    ensures forall i :: 0 <= i < |rows| ==> s[i] == rows[i].stake
  {
    seq(|rows|, i requires 0 <= i < |rows| => rows[i].stake)
  }

  // ---------------------------------------------------------------------------
  // Arithmetic facts the row lemmas rest on

  lemma Reciprocal(o: real)
    requires o > 0.0
    ensures o * (1.0 / o) == 1.0
  {
  }

  lemma Cancel(total: real, o: real)
    requires o > 0.0
    ensures o * (total / o) == total
  {
  }

  lemma Factor(c: real, a: real, b: real)
    ensures c * a + c * b == c * (a + b)
  {
  }

  lemma PayoutDifference(o: real, a: real, b: real)
    ensures Payout(o, a) - Payout(o, b) == Payout(o, a - b)
  {
  }

  lemma HalfCentScaled(o: real, e: real)
    requires o >= 0.0 && -0.005 <= e <= 0.005
    ensures -0.005 * o <= Payout(o, e) <= 0.005 * o
  {
    assert o * (0.005 - e) >= 0.0;
    assert o * (e + 0.005) >= 0.0;
  }

  /** Two successive errors of at most half a cent, the first one scaled by the odds. */
  lemma TwoRoundings(o: real, exact: real, stake: real, payout: real)
    requires o > 1.0
    requires -0.005 <= stake - exact <= 0.005
    requires -0.005 <= payout - Payout(o, stake) <= 0.005
    ensures Abs(payout - Payout(o, exact)) <= 0.005 * (o + 1.0)
  {
    PayoutDifference(o, stake, exact);
    HalfCentScaled(o, stake - exact);
  }

  /**
   * A payout computed from a stake rounded to cents is within (odds + 1) half-cents of
   * what the exact stake pays.
   */
  lemma RoundedPayoutWithin(round: real -> real, o: real, exact: real)
    requires WithinHalfCent(round) && o > 1.0
    ensures Abs(round(Payout(o, round(exact))) - Payout(o, exact)) <= 0.005 * (o + 1.0)
  {
    assert -0.005 <= round(exact) - exact <= 0.005;
    assert -0.005 <= round(Payout(o, round(exact))) - Payout(o, round(exact)) <= 0.005;
    TwoRoundings(o, exact, round(exact), round(Payout(o, round(exact))));
  }

  // ---------------------------------------------------------------------------
  // Single rows

  /** The exact dutching stake is (total/d)·(1/o) and pays total/d at odds o. */
  lemma DutchingStakeArithmetic(total: real, d: real, o: real)
    requires o > 1.0 && d > 0.0
    ensures DutchingStake(total, d, o) == Share(SharedPayout(total, d), o)
    ensures Payout(o, DutchingStake(total, d, o)) == SharedPayout(total, d)
  {
    Reciprocal(o);
    assert o * ((total / d) * (1.0 / o)) == (o * (1.0 / o)) * (total / d);
  }

  /** An exact dutching row: its stake is (total/d)·(1/o) and its payout is total/d. */
  lemma DutchingRowExact(total: real, d: real, o: real)
    requires o > 1.0 && d > 0.0
    ensures DutchingRow(Exact, total, d, o).stake == Share(SharedPayout(total, d), o)
    ensures DutchingRow(Exact, total, d, o).payout == SharedPayout(total, d)
  {
    DutchingStakeArithmetic(total, d, o);
  }

  /** A rounded dutching row: the stake is the exact one rounded, and the payout is near total/d. */
  lemma DutchingRowRounded(round: real -> real, total: real, d: real, o: real)
    requires WithinHalfCent(round) && o > 1.0 && d > 0.0
    ensures DutchingRow(round, total, d, o).stake == round(DutchingRow(Exact, total, d, o).stake)
    ensures Abs(DutchingRow(round, total, d, o).payout - SharedPayout(total, d)) <= 0.005 * (o + 1.0)
  {
    DutchingStakeArithmetic(total, d, o);
    RoundedPayoutWithin(round, o, DutchingStake(total, d, o));
  }

  /** The exact guaranteed stake times the odds is the total, and so is its payout. */
  lemma GuaranteedStakeArithmetic(total: real, o: real)
    requires o > 1.0
    ensures GuaranteedStake(total, o) * o == total
    ensures Payout(o, GuaranteedStake(total, o)) == total
  {
    Cancel(total, o);
  }

  /** An exact guaranteed row: stake · odds is the total and so is the payout. */
  lemma GuaranteedRowExact(total: real, o: real)
    requires o > 1.0
    ensures GuaranteedRow(Exact, total, o).stake * o == total
    ensures GuaranteedRow(Exact, total, o).payout == total
  {
    GuaranteedStakeArithmetic(total, o);
  }

  /** A rounded guaranteed row: the payout is within (odds + 1) half-cents of the total. */
  lemma GuaranteedRowRounded(round: real -> real, total: real, o: real)
    requires WithinHalfCent(round) && o > 1.0
    ensures Abs(GuaranteedRow(round, total, o).payout - total) <= 0.005 * (o + 1.0)
  {
    GuaranteedStakeArithmetic(total, o);
    RoundedPayoutWithin(round, o, GuaranteedStake(total, o));
  }

  /** A money-back row extends the guaranteed row; exactly, its refund is total − stake and its net return payout − stake. */
  lemma MoneyBackRowExact(total: real, o: real)
    requires o > 1.0
    ensures var r := MoneyBackRowFor(Exact, total, o);
      r.refund == total - r.stake && r.payout == total && r.netReturn == r.payout - r.stake
  {
    GuaranteedStakeArithmetic(total, o);
  }

  /** A rounded money-back row: net return is payout − stake within a cent, and exactly when the total is in cents. */
  lemma MoneyBackRowRounded(round: real -> real, total: real, o: real)
    requires RoundsToCents(round) && o > 1.0
    ensures var r := MoneyBackRowFor(round, total, o);
      Abs(r.netReturn - (r.payout - r.stake)) <= 0.01 &&
      (IsCents(total) ==> r.refund == total - r.stake && r.netReturn == r.payout - r.stake)
  {
    var r := MoneyBackRowFor(round, total, o);
    assert r.refund == round(total - r.stake);
    assert r.netReturn == round(r.payout - total + r.refund);
    assert IsCents(r.stake) && IsCents(r.payout);
    if IsCents(total) {
      CentsDifference(total, r.stake);
      assert r.refund == total - r.stake;
      CentsDifference(r.payout, r.stake);
      assert r.payout - total + r.refund == r.payout - r.stake;
    }
  }

  // ---------------------------------------------------------------------------
  // Table entries

  lemma DutchingAt(round: real -> real, total: real, odds: seq<real>, i: nat)
    requires AllAboveOne(odds) && i < |odds|
    ensures Denominator(odds) > 0.0
    ensures DutchingTable(round, total, odds)[i] == DutchingRow(round, total, Denominator(odds), odds[i])
  {
  }

  lemma GuaranteedAt(round: real -> real, total: real, odds: seq<real>, i: nat)
    requires AllAboveOne(odds) && i < |odds|
    ensures GuaranteedTable(round, total, odds)[i] == GuaranteedRow(round, total, odds[i])
  {
  }

  lemma MoneyBackAt(round: real -> real, total: real, odds: seq<real>, i: nat)
    requires AllAboveOne(odds) && i < |odds|
    ensures MoneyBackTable(round, total, odds)[i] == MoneyBackRowFor(round, total, odds[i])
  {
  }

  // ---------------------------------------------------------------------------
  // Exact arithmetic over whole tables

  /** One more term: extending the prefix by one adds Share(c, odds) on both sides. */
  lemma ScaledPrefixStep(s: seq<real>, odds: seq<real>, c: real, k: nat)
    requires AllAboveOne(odds) && |s| == |odds| && 0 < k <= |odds|
    requires s[k - 1] == Share(c, odds[k - 1])
    requires Sum(s[..k - 1]) == c * Denominator(odds[..k - 1])
    ensures Sum(s[..k]) == c * Denominator(odds[..k])
  {
    assert s[..k][..k - 1] == s[..k - 1];
    assert odds[..k][..k - 1] == odds[..k - 1];
    assert Sum(s[..k]) == Sum(s[..k - 1]) + s[k - 1];
    assert Denominator(odds[..k]) == Denominator(odds[..k - 1]) + 1.0 / odds[k - 1];
    Factor(c, Denominator(odds[..k - 1]), 1.0 / odds[k - 1]);
  }

  /** Summing c · (1/odds) over a prefix gives c times the prefix's denominator. */
  lemma {:induction false} ScaledPrefixSum(s: seq<real>, odds: seq<real>, c: real, k: nat)
    requires AllAboveOne(odds) && |s| == |odds| && k <= |odds|
    requires forall j :: 0 <= j < |odds| ==> s[j] == Share(c, odds[j])
    ensures Sum(s[..k]) == c * Denominator(odds[..k])
  {
    if k == 0 {
      assert s[..0] == [];
      assert odds[..0] == [];
    } else {
      ScaledPrefixSum(s, odds, c, k - 1);
      ScaledPrefixStep(s, odds, c, k);
    }
  }

  /** An exact dutching stake is the shared payout times 1/odds. */
  lemma DutchingStakeAt(total: real, odds: seq<real>, j: nat)
    requires AllAboveOne(odds) && j < |odds|
    ensures Denominator(odds) > 0.0
    ensures Stakes(DutchingTable(Exact, total, odds))[j] == Share(SharedPayout(total, Denominator(odds)), odds[j])
  {
    DutchingAt(Exact, total, odds, j);
    DutchingRowExact(total, Denominator(odds), odds[j]);
  }

  /** Exact dutching: the stakes add up to the total stake. */
  lemma DutchingStakesSumToTotal(total: real, odds: seq<real>)
    requires AllAboveOne(odds) && 0 < |odds|
    ensures Sum(Stakes(DutchingTable(Exact, total, odds))) == total
  {
    var s := Stakes(DutchingTable(Exact, total, odds));
    var d := Denominator(odds);
    forall j | 0 <= j < |odds|
      ensures s[j] == Share(SharedPayout(total, d), odds[j])
    {
      DutchingStakeAt(total, odds, j);
    }
    ScaledPrefixSum(s, odds, SharedPayout(total, d), |odds|);
    assert s[..|odds|] == s;
    assert odds[..|odds|] == odds;
  }

  /** Exact dutching: every payout is total / denominator, so all payouts are equal. */
  lemma DutchingPayoutsEqual(total: real, odds: seq<real>)
    requires AllAboveOne(odds)
    ensures forall i :: 0 <= i < |odds| ==>
      DutchingTable(Exact, total, odds)[i].payout == SharedPayout(total, Denominator(odds))
    ensures forall i, j :: 0 <= i < |odds| && 0 <= j < |odds| ==>
      DutchingTable(Exact, total, odds)[i].payout == DutchingTable(Exact, total, odds)[j].payout
  {
    forall i | 0 <= i < |odds|
      ensures DutchingTable(Exact, total, odds)[i].payout == SharedPayout(total, Denominator(odds))
    {
      DutchingAt(Exact, total, odds, i);
      DutchingRowExact(total, Denominator(odds), odds[i]);
    }
  }

  /** Exact guaranteed return: each stake times its odds is the total, and each payout is the total. */
  lemma GuaranteedPayoutIsTotal(total: real, odds: seq<real>)
    requires AllAboveOne(odds)
    ensures forall i :: 0 <= i < |odds| ==>
      GuaranteedTable(Exact, total, odds)[i].stake * odds[i] == total &&
      GuaranteedTable(Exact, total, odds)[i].payout == total
  {
    forall i | 0 <= i < |odds|
      ensures GuaranteedTable(Exact, total, odds)[i].stake * odds[i] == total
      ensures GuaranteedTable(Exact, total, odds)[i].payout == total
    {
      GuaranteedAt(Exact, total, odds, i);
      GuaranteedRowExact(total, odds[i]);
    }
  }

  /** With any rounding, the money-back odds, stake and payout are the guaranteed ones. */
  lemma MoneyBackExtendsGuaranteed(round: real -> real, total: real, odds: seq<real>)
    requires AllAboveOne(odds)
    ensures forall i :: 0 <= i < |odds| ==>
      MoneyBackTable(round, total, odds)[i].stake == GuaranteedTable(round, total, odds)[i].stake &&
      MoneyBackTable(round, total, odds)[i].payout == GuaranteedTable(round, total, odds)[i].payout
  {
    forall i | 0 <= i < |odds|
      ensures MoneyBackTable(round, total, odds)[i].stake == GuaranteedTable(round, total, odds)[i].stake
      ensures MoneyBackTable(round, total, odds)[i].payout == GuaranteedTable(round, total, odds)[i].payout
    {
      GuaranteedAt(round, total, odds, i);
      MoneyBackAt(round, total, odds, i);
    }
  }

  /** Exact money back: refund is total − stake, the payout is the total and the net return is payout − stake. */
  lemma MoneyBackExact(total: real, odds: seq<real>)
    requires AllAboveOne(odds)
    ensures forall i :: 0 <= i < |odds| ==>
      var r := MoneyBackTable(Exact, total, odds)[i];
      r.refund == total - r.stake && r.payout == total && r.netReturn == r.payout - r.stake
  {
    forall i | 0 <= i < |odds|
      ensures var r := MoneyBackTable(Exact, total, odds)[i];
        r.refund == total - r.stake && r.payout == total && r.netReturn == r.payout - r.stake
    {
      MoneyBackAt(Exact, total, odds, i);
      MoneyBackRowExact(total, odds[i]);
    }
  }

  // ---------------------------------------------------------------------------
  // Rounded arithmetic, as displayed

  lemma {:induction false} RoundedSumWithin(round: real -> real, exact: seq<real>, shown: seq<real>)
    requires WithinHalfCent(round)
    requires |exact| == |shown|
    requires forall i :: 0 <= i < |exact| ==> shown[i] == round(exact[i])
    ensures Abs(Sum(shown) - Sum(exact)) <= 0.005 * |exact| as real
  {
    if exact != [] {
      var n := |exact|;
      RoundedSumWithin(round, exact[..n - 1], shown[..n - 1]);
      assert -0.005 <= round(exact[n - 1]) - exact[n - 1] <= 0.005;
    }
  }

  /** Rounded dutching: the stakes add up to the total stake within half a cent per pick. */
  lemma DutchingRoundedSum(round: real -> real, total: real, odds: seq<real>)
    requires WithinHalfCent(round) && AllAboveOne(odds) && 0 < |odds|
    ensures Abs(Sum(Stakes(DutchingTable(round, total, odds))) - total) <= 0.005 * |odds| as real
  {
    var exact := Stakes(DutchingTable(Exact, total, odds));
    var shown := Stakes(DutchingTable(round, total, odds));
    forall i | 0 <= i < |odds|
      ensures shown[i] == round(exact[i])
    {
      DutchingAt(round, total, odds, i);
      DutchingAt(Exact, total, odds, i);
      DutchingRowRounded(round, total, Denominator(odds), odds[i]);
    }
    DutchingStakesSumToTotal(total, odds);
    RoundedSumWithin(round, exact, shown);
  }

  /** Rounded dutching: each payout is within (odds + 1) half-cents of the common exact payout. */
  lemma DutchingRoundedPayouts(round: real -> real, total: real, odds: seq<real>, i: nat)
    requires WithinHalfCent(round) && AllAboveOne(odds) && i < |odds|
    ensures Abs(DutchingTable(round, total, odds)[i].payout - SharedPayout(total, Denominator(odds))) <= 0.005 * (odds[i] + 1.0)
  {
    var d := Denominator(odds);
    var row := DutchingTable(round, total, odds)[i];
    DutchingAt(round, total, odds, i);
    assert row == DutchingRow(round, total, d, odds[i]);
    DutchingRowRounded(round, total, d, odds[i]);
    assert Abs(row.payout - SharedPayout(total, d)) <= 0.005 * (odds[i] + 1.0);
  }

  /** Rounded guaranteed return: each payout is within (odds + 1) half-cents of the total. */
  lemma GuaranteedRoundedPayouts(round: real -> real, total: real, odds: seq<real>)
    requires WithinHalfCent(round) && AllAboveOne(odds)
    ensures forall i :: 0 <= i < |odds| ==>
      Abs(GuaranteedTable(round, total, odds)[i].payout - total) <= 0.005 * (odds[i] + 1.0)
  {
    forall i | 0 <= i < |odds|
      ensures Abs(GuaranteedTable(round, total, odds)[i].payout - total) <= 0.005 * (odds[i] + 1.0)
    {
      GuaranteedAt(round, total, odds, i);
      GuaranteedRowRounded(round, total, odds[i]);
    }
  }

  /** Rounded money back: the net return is payout − stake within one cent, and exactly when the total is in cents. */
  lemma MoneyBackRoundedNet(round: real -> real, total: real, odds: seq<real>)
    requires RoundsToCents(round) && AllAboveOne(odds)
    ensures forall i :: 0 <= i < |odds| ==>
      var r := MoneyBackTable(round, total, odds)[i];
      Abs(r.netReturn - (r.payout - r.stake)) <= 0.01 &&
      (IsCents(total) ==> r.refund == total - r.stake && r.netReturn == r.payout - r.stake)
  {
    forall i | 0 <= i < |odds|
      ensures var r := MoneyBackTable(round, total, odds)[i];
        Abs(r.netReturn - (r.payout - r.stake)) <= 0.01 &&
        (IsCents(total) ==> r.refund == total - r.stake && r.netReturn == r.payout - r.stake)
    {
      MoneyBackAt(round, total, odds, i);
      MoneyBackRowRounded(round, total, odds[i]);
    }
  }

  /** As displayed: the dutching stakes add up to the stake within half a cent per pick. */
  lemma DisplayedDutchingSum(total: real, odds: seq<real>)
    requires AllAboveOne(odds) && 0 < |odds|
    ensures Abs(Sum(Stakes(DutchingTable(ToFixed2, total, odds))) - total) <= 0.005 * |odds| as real
  {
    ToFixed2RoundsToCents();
    DutchingRoundedSum(ToFixed2, total, odds);
  }

  /** As displayed: each guaranteed payout is within (odds + 1) half-cents of the stake. */
  lemma DisplayedGuaranteedPayouts(total: real, odds: seq<real>)
    requires AllAboveOne(odds)
    ensures forall i :: 0 <= i < |odds| ==>
      Abs(GuaranteedTable(ToFixed2, total, odds)[i].payout - total) <= 0.005 * (odds[i] + 1.0)
  {
    ToFixed2RoundsToCents();
    GuaranteedRoundedPayouts(ToFixed2, total, odds);
  }

  /** As displayed: each net return is payout − stake within a cent, and exactly when the stake is in cents. */
  lemma DisplayedMoneyBackNet(total: real, odds: seq<real>)
    requires AllAboveOne(odds)
    ensures forall i :: 0 <= i < |odds| ==>
      var r := MoneyBackTable(ToFixed2, total, odds)[i];
      Abs(r.netReturn - (r.payout - r.stake)) <= 0.01 &&
      (IsCents(total) ==> r.refund == total - r.stake && r.netReturn == r.payout - r.stake)
  {
    ToFixed2RoundsToCents();
    MoneyBackRoundedNet(ToFixed2, total, odds);
  }

  // ---------------------------------------------------------------------------
  // Worked examples

  /** Stake 100 on odds 2 and 3: dutching stakes 60 and 40, both paying 120. */
  lemma DutchingExample()
    ensures DutchingTable(ToFixed2, 100.0, [2.0, 3.0]) == [Row(2.0, 60.0, 120.0), Row(3.0, 40.0, 120.0)]
  {
    var odds := [2.0, 3.0];
    assert odds[..1] == [2.0];
    assert [2.0][..0] == [];
    assert Denominator(odds) == 5.0 / 6.0;
    assert ToFixed2(60.0) == 60.0;
    assert ToFixed2(40.0) == 40.0;
    assert ToFixed2(120.0) == 120.0;
  }

  /** Stake 100 on odds 2.5: guaranteed stake 40, paying 100. */
  lemma GuaranteedExample()
    ensures GuaranteedTable(ToFixed2, 100.0, [2.5]) == [Row(2.5, 40.0, 100.0)]
  {
    assert ToFixed2(40.0) == 40.0;
    assert ToFixed2(100.0) == 100.0;
  }

  /** Stake 100 on odds 3: the displayed stake 33.33 pays 99.99, not the total. */
  lemma GuaranteedRoundingExample()
    ensures GuaranteedTable(ToFixed2, 100.0, [3.0]) == [Row(3.0, 33.33, 99.99)]
  {
    assert ToFixed2(100.0 / 3.0) == 33.33;
    assert ToFixed2(99.99) == 99.99;
  }

  /** A stake that is NaN or not positive, or no odds above 1, makes the calculation return early. */
  lemma CalculateRejectsExamples()
    ensures CalculateResults(Some(100.0), []) == None
    ensures CalculateResults(Some(100.0), [Some(0.5), None]) == None
    ensures CalculateResults(Some(0.0), [Some(2.0)]) == None
    ensures CalculateResults(None, [Some(2.0)]) == None
  {
  }
}
