/**
 * The calculator component's state and its event handlers: the stake field, the list
 * of picks, the three result tables and the selected tab, each handler overwriting
 * fields the way the component's state setters do.
 */
module Calculator {
  import opened Decimal
  import opened Allocation

  /** The result tab on show. */
  datatype Tab = DutchingTab | GuaranteedTab | MoneyBackTab

  /** Every element except the one at position `index`, in order; an index outside the list removes nothing. */
  function RemoveAt<T>(s: seq<T>, index: int): (r: seq<T>)
    ensures |r| <= |s|
  {
    if s == [] then [] else (if index == 0 then [] else [s[0]]) + RemoveAt(s[1..], index - 1)
  }

  /** Removing an index in range drops exactly that element; an index out of range changes nothing. */
  lemma {:induction false} RemoveAtSlices<T>(s: seq<T>, index: int)
    ensures 0 <= index < |s| ==> RemoveAt(s, index) == s[..index] + s[index + 1..]
    ensures !(0 <= index < |s|) ==> RemoveAt(s, index) == s
  {
    if s != [] {
      RemoveAtSlices(s[1..], index - 1);
      if 0 < index < |s| {
        assert s[..index] == [s[0]] + s[1..][..index - 1];
        assert s[index + 1..] == s[1..][index..];
      } else if index != 0 {
        assert [s[0]] + s[1..] == s;
      }
    }
  }

  class CalculatorState {
    /** The parsed stake field. */
    var totalStake: Option<real>
    /** The parsed odds field of each pick. */
    var picks: seq<Option<real>>
    var results: Results
    var activeTab: Tab

    /** The stake and odds the tables on show were computed from. */
    ghost var lastStake: real
    ghost var lastOdds: seq<real>

    /** The tables on show are always the displayed tables of some positive stake and some odds above 1. */
    ghost predicate Valid()
      reads this
    {
      lastStake > 0.0 && AllAboveOne(lastOdds) && results == Tables(ToFixed2, lastStake, lastOdds)
    }

    /** The state the component starts in and that Reset restores. */
    predicate IsInitial()
      reads this
    {
      totalStake == Some(100.0) && picks == [None] && results == NoResults && activeTab == DutchingTab
    }

    /** Whether the results section is on show: some table has a row. */
    predicate ShowsResults()
      reads this
    {
      |results.dutching| > 0 || |results.guaranteed| > 0 || |results.moneyBack| > 0
    }

    constructor ()
      ensures Valid() && IsInitial()
    {
      totalStake := Some(100.0);
      picks := [None];
      results := NoResults;
      activeTab := DutchingTab;
      lastStake, lastOdds := 100.0, [];
    }

    /** Typing in the stake field. */
    method SetTotalStake(value: Option<real>)
      requires Valid()
      modifies this
      ensures Valid()
      ensures totalStake == value
      ensures picks == old(picks) && results == old(results) && activeTab == old(activeTab)
    {
      totalStake := value;
    }

    /** Typing in the odds field of pick `index`: only that pick's odds change. */
    method HandlePickChange(index: nat, value: Option<real>)
      requires Valid()
      requires index < |picks|
      modifies this
      ensures Valid()
      ensures |picks| == |old(picks)| && picks[index] == value
      ensures forall j :: 0 <= j < |picks| && j != index ==> picks[j] == old(picks)[j]
      ensures totalStake == old(totalStake) && results == old(results) && activeTab == old(activeTab)
    {
      var updated := picks;
      updated := updated[index := value];
      picks := updated;
    }

    /** "+ Add Odds": one empty pick is appended and the earlier picks stay as they were. */
    method AddPick()
      requires Valid()
      modifies this
      ensures Valid()
      ensures picks == old(picks) + [None]
      ensures totalStake == old(totalStake) && results == old(results) && activeTab == old(activeTab)
    {
      picks := picks + [None];
    }

    /** "−" on pick `index`: that pick is dropped and the others keep their order. */
    method RemovePick(index: int)
      requires Valid()
      modifies this
      ensures Valid()
      ensures picks == RemoveAt(old(picks), index)
      ensures 0 <= index < |old(picks)| ==> picks == old(picks)[..index] + old(picks)[index + 1..]
      ensures !(0 <= index < |old(picks)|) ==> picks == old(picks)
      ensures totalStake == old(totalStake) && results == old(results) && activeTab == old(activeTab)
    {
      RemoveAtSlices(picks, index);
      picks := RemoveAt(picks, index);
    }

    /** "Reset": back to the initial state, whatever the state was. */
    method ResetAll()
      requires Valid()
      modifies this
      ensures Valid() && IsInitial() && !ShowsResults()
    {
      totalStake := Some(100.0);
      picks := [None];
      results := NoResults;
      activeTab := DutchingTab;
      lastStake, lastOdds := 100.0, [];
    }

    /** Clicking a result tab. */
    method SelectTab(tab: Tab)
      requires Valid()
      modifies this
      ensures Valid()
      ensures activeTab == tab
      ensures totalStake == old(totalStake) && picks == old(picks) && results == old(results)
    {
      activeTab := tab;
    }

    /**
     * "Calculate": with a positive stake and at least one pick with odds above 1, the
     * three tables are replaced by those of the valid odds; when the calculation
     * returns early, nothing changes.
     */
    method Calculate()
      requires Valid()
      modifies this
      ensures Valid()
      ensures totalStake == old(totalStake) && picks == old(picks) && activeTab == old(activeTab)
      ensures CalculateResults(old(totalStake), old(picks)).None? ==> results == old(results)
      ensures CalculateResults(old(totalStake), old(picks)).Some? ==>
        results == CalculateResults(old(totalStake), old(picks)).value &&
        lastStake == old(totalStake).value && lastOdds == ValidOdds(old(picks)) &&
        ShowsResults()
    {
      var outcome := CalculateResults(totalStake, picks);
      if outcome.Some? {
        results := outcome.value;
        lastStake, lastOdds := totalStake.value, ValidOdds(picks);
      }
    }
  }
}
