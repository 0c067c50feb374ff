/** The results panel (`ResultsDisplay`): the vote total, each option's rounded percentage, the
    winning option, and the votes shown per option. */
module ResultsDisplay {
  import opened Wrappers

  /** `Object.entries(results)`: (option, count) pairs in the object's iteration order. */
  type Entries = seq<(string, nat)>

  /** The sum of every count (`Object.values(results).reduce((sum, count) => sum + count, 0)`). */
  function TotalVotes(es: Entries): (r: nat)
    ensures r == 0 <==> forall i :: 0 <= i < |es| ==> es[i].1 == 0
  {
    if es == [] then 0 else TotalVotes(es[..|es| - 1]) + es[|es| - 1].1
  }

  /** The total splits over a concatenation of entry lists. */
  lemma {:induction false} TotalVotesAppend(a: Entries, b: Entries)
    ensures TotalVotes(a + b) == TotalVotes(a) + TotalVotes(b)
    decreases |b|
  {
    if b == [] {
      assert a + b == a;
    } else {
      var n := |b| - 1;
      assert (a + b)[..|a + b| - 1] == a + b[..n];
      TotalVotesAppend(a, b[..n]);
    }
  }

  /** No single count exceeds the total. */
  lemma {:induction false} CountAtMostTotal(es: Entries, i: nat)
    requires i < |es|
    ensures es[i].1 <= TotalVotes(es)
    decreases |es|
  {
    var n := |es| - 1;
    if i < n {
      CountAtMostTotal(es[..n], i);
    }
  }

  /** `getPercentage`: 0 when nothing was counted, otherwise `100 * votes / total` rounded to the
      nearest whole number with halves rounded up (`Math.round`). */
  function GetPercentage(votes: nat, total: nat): (r: nat)
    ensures total == 0 ==> r == 0
    ensures total > 0 ==> 2 * total * r <= 200 * votes + total < 2 * total * (r + 1)
  {
    if total == 0 then 0
    else
      var q := (200 * votes + total) / (2 * total);
      assert q * (2 * total) <= 200 * votes + total < (q + 1) * (2 * total);
      q
  }

  /** A share of the total is between 0 and 100 percent, and all of it is exactly 100. */
  lemma PercentageInRange(votes: nat, total: nat)
    requires votes <= total
    ensures GetPercentage(votes, total) <= 100
    ensures total > 0 ==> GetPercentage(total, total) == 100
  {
    var r := GetPercentage(votes, total);
    if total > 0 && r > 100 {
      assert 2 * total * r >= 2 * total * 101 by {
        MultiplyMonotone(2 * total, 101, r);
      }
      assert false;
    }
    if total > 0 {
      var p := GetPercentage(total, total);
      if p > 100 {
        MultiplyMonotone(2 * total, 101, p);
        assert false;
      }
      if p < 100 {
        MultiplyMonotone(2 * total, p + 1, 100);
        assert false;
      }
    }
  }

  /** More votes never show a smaller percentage. */
  lemma PercentageMonotone(v1: nat, v2: nat, total: nat)
    requires v1 <= v2
    ensures GetPercentage(v1, total) <= GetPercentage(v2, total)
  {
    if total > 0 {
      var r1 := GetPercentage(v1, total);
      var r2 := GetPercentage(v2, total);
      if r1 > r2 {
        MultiplyMonotone(2 * total, r2 + 1, r1);
        assert false;
      }
    }
  }

  lemma MultiplyMonotone(k: nat, a: nat, b: nat)
    requires a <= b
    ensures k * a <= k * b
  {
  }

  /** The position `reduce((a, b) => results[a[0]] > results[b[0]] ? a : b)` ends on: the
      running winner is kept only while STRICTLY larger, so among equal maxima the last wins. */
  function WinnerIndex(es: Entries): (w: nat)
    requires |es| > 0
    ensures w < |es|
    ensures forall j :: 0 <= j < |es| ==> es[j].1 <= es[w].1
    ensures forall j :: w < j < |es| ==> es[j].1 < es[w].1
    decreases |es|
  {
    if |es| == 1 then 0
    else
      var n := |es| - 1;
      var w := WinnerIndex(es[..n]);
      assert forall j :: 0 <= j < n ==> es[..n][j] == es[j];
      if es[w].1 > es[n].1 then w else n
  }

  /** The last maximal position is unique: any position holding a maximum with only smaller
      counts after it is the one the reduction picks. */
  lemma WinnerIsLastMaximum(es: Entries, i: nat)
    requires i < |es|
    requires forall j :: 0 <= j < |es| ==> es[j].1 <= es[i].1
    requires forall j :: i < j < |es| ==> es[j].1 < es[i].1
    ensures WinnerIndex(es) == i
  {
  }

  /** `getWinningOption`: no winner exactly when there are no results. */
  function GetWinningOption(es: Entries): (r: Option<string>)
    ensures r.None? <==> |es| == 0
    ensures r.Some? ==>
      exists i :: (0 <= i < |es| && es[i].0 == r.value
                   && (forall j :: 0 <= j < |es| ==> es[j].1 <= es[i].1)
                   && (forall j :: i < j < |es| ==> es[j].1 < es[i].1))
  {
    if |es| == 0 then None
    else
      var w := WinnerIndex(es);
      Some(es[w].0)
  }

  /** The option keys of a results object are distinct. */
  predicate DistinctKeys(es: Entries)
  {
    forall i, j :: 0 <= i < j < |es| ==> es[i].0 != es[j].0
  }

  /** `results[option] || 0`: the votes shown for an option. */
  function DisplayedVotes(es: Entries, option: string): (r: nat)
    ensures (forall i :: 0 <= i < |es| ==> es[i].0 != option) ==> r == 0
    decreases |es|
  {
    if es == [] then 0
    else if es[|es| - 1].0 == option then es[|es| - 1].1
    else DisplayedVotes(es[..|es| - 1], option)
  }

  /** For a results object, an option that is present is shown with its own count. */
  lemma {:induction false} DisplayedVotesOfPresent(es: Entries, i: nat)
    requires DistinctKeys(es) && i < |es|
    ensures DisplayedVotes(es, es[i].0) == es[i].1
    decreases |es|
  {
    var n := |es| - 1;
    if i < n {
      assert es[n].0 != es[i].0;
      assert DistinctKeys(es[..n]);
      DisplayedVotesOfPresent(es[..n], i);
    }
  }

  /** The results the panel loads while it has no contract data. */
  const SAMPLE_RESULTS: Entries := [("Yes", 45), ("No", 32), ("Abstain", 8)]

  /** On the sample results "Yes" wins with 45 of 85 votes, shown as 53 percent. */
  lemma SampleResults()
    ensures TotalVotes(SAMPLE_RESULTS) == 85
    ensures GetWinningOption(SAMPLE_RESULTS) == Some("Yes")
    ensures GetPercentage(45, 85) == 53
  {
    var yes: Entries := [("Yes", 45)];
    var yesNo: Entries := [("Yes", 45), ("No", 32)];
    assert yes[..0] == [] && yesNo[..1] == yes && SAMPLE_RESULTS[..2] == yesNo;
    assert TotalVotes(yes) == 45;
    assert TotalVotes(yesNo) == 77;
    WinnerIsLastMaximum(SAMPLE_RESULTS, 0);
  }
}
