// The hospital's dashboard: a bar per blood group read from the stored
// inventory, the total stock, and counts and the five most recent of the
// requests addressed to the hospital.
module HospitalDashboardPage {
  import opened Common
  import opened BloodGroups
  import opened RequestSchema
  import opened HospitalSchema
  import Tally

  /** One bar of the stock chart; a counter can be negative after an unclamped `set`. */
  datatype Bar = Bar(name: string, count: int)

  /** The chart: the eight groups in their fixed order, each read from its own key. */
  function StockChart(inv: Inventory): (chart: seq<Bar>)
    requires Shaped(inv)
    ensures |chart| == 8
    ensures forall k :: 0 <= k < 8 ==> chart[k] == Bar(Label(AllGroups[k]), inv[InventoryKeys[k]])
  {
    seq(8, k requires 0 <= k < 8 => Bar(Label(AllGroups[k]), inv[Key(AllGroups[k])]))
  }

  function BarTotal(s: seq<Bar>): int
  {
    if |s| == 0 then 0 else BarTotal(s[..|s| - 1]) + s[|s| - 1].count
  }

  /** The sum of the counters stored under the keys of `keys`. */
  function SumAt(inv: Inventory, keys: seq<string>): int
    requires forall k :: k in keys ==> k in inv
  {
    if |keys| == 0 then 0 else SumAt(inv, keys[..|keys| - 1]) + inv[keys[|keys| - 1]]
  }

  /**
   * The sum of all values of a set-keyed map, independent of the order
   * `Object.values` lists them in: taking out any one key leaves the rest.
   */
  ghost function SumValues(inv: Inventory): int
    decreases |inv.Keys|
  {
    if |inv.Keys| == 0 then 0
    else
      var k := PickKey(inv);
      inv[k] + SumValues(inv - {k})
  }

  ghost function PickKey(inv: Inventory): (k: string)
    requires |inv.Keys| > 0
    ensures k in inv
  {
    var k :| k in inv.Keys; k
  }

  /** Removing any key subtracts exactly its value: the sum does not depend on the order. */
  lemma {:induction false} SumValuesRemove(inv: Inventory, k: string)
    requires k in inv
    ensures SumValues(inv) == inv[k] + SumValues(inv - {k})
    decreases |inv.Keys|
  {
    var j := PickKey(inv);
    if j != k {
      assert (inv - {j}).Keys == inv.Keys - {j};
      assert (inv - {k}).Keys == inv.Keys - {k};
      SumValuesRemove(inv - {j}, k);
      SumValuesRemove(inv - {k}, j);
      assert inv - {j} - {k} == inv - {k} - {j};
    }
  }

  /** Summing the values over a duplicate-free key list covering the map gives `SumValues`. */
  lemma {:induction false} SumAtIsSumValues(inv: Inventory, keys: seq<string>)
    requires forall i, j :: 0 <= i < j < |keys| ==> keys[i] != keys[j]
    requires inv.Keys == set k | k in keys
    ensures SumAt(inv, keys) == SumValues(inv)
    decreases |keys|
  {
    if |keys| == 0 {
      assert inv.Keys == {};
    } else {
      var last := keys[|keys| - 1];
      var rest := keys[..|keys| - 1];
      var smaller := inv - {last};
      DropLastKey(inv, keys);
      SumAtIsSumValues(smaller, rest);
      SumValuesRemove(inv, last);
      SumAtSameValues(inv, smaller, rest);
    }
  }

  /** Taking the last key off a duplicate-free covering list leaves a covering list for the rest of the map. */
  lemma DropLastKey(inv: Inventory, keys: seq<string>)
    requires |keys| > 0
    requires forall i, j :: 0 <= i < j < |keys| ==> keys[i] != keys[j]
    requires inv.Keys == set k | k in keys
    ensures var rest := keys[..|keys| - 1];
      (forall i, j :: 0 <= i < j < |rest| ==> rest[i] != rest[j])
      && (inv - {keys[|keys| - 1]}).Keys == set k | k in rest
  {
    var last := keys[|keys| - 1];
    var rest := keys[..|keys| - 1];
    assert last !in rest by {
      forall i | 0 <= i < |rest| ensures rest[i] != last {
        assert rest[i] == keys[i];
      }
    }
    forall k ensures k in (inv - {last}).Keys <==> k in rest {
      assert k in keys <==> k in rest || k == last;
    }
  }

  /** Sums over keys only read those keys. */
  lemma {:induction false} SumAtSameValues(a: Inventory, b: Inventory, keys: seq<string>)
    requires forall k :: k in keys ==> k in a && k in b && a[k] == b[k]
    ensures SumAt(a, keys) == SumAt(b, keys)
    decreases |keys|
  {
    if |keys| > 0 {
      SumAtSameValues(a, b, keys[..|keys| - 1]);
    }
  }

  /** The cards and the recent-requests table. */
  datatype Summary = Summary(chart: seq<Bar>, totalStock: int, totalRequests: nat, pendingRequests: nat,
                             fulfilledRequests: nat, recent: seq<BloodRequest>)

  /**
   * `fetchData`, from the stored inventory and the hospital's request list;
   * `Object.values` of a stored inventory lists the eight counters.
   */
  function Dashboard(inv: Inventory, requests: seq<BloodRequest>): (s: Summary)
    requires Shaped(inv)
    ensures s.chart == StockChart(inv)
    ensures s.totalStock == SumAt(inv, InventoryKeys)
    ensures s.totalRequests == |requests|
    ensures s.pendingRequests == Count(requests, StatusIs(Pending))
    ensures s.fulfilledRequests == Count(requests, StatusIs(Fulfilled))
    ensures s.recent == requests[..if |requests| < 5 then |requests| else 5]
  {
    Summary(StockChart(inv), SumAt(inv, InventoryKeys), |requests|, Count(requests, StatusIs(Pending)),
            Count(requests, StatusIs(Fulfilled)), Take(requests, 5))
  }

  /**
   * The chart bars add up to the total-stock card, and that card is the sum
   * of every counter of the inventory, whatever order the values come in.
   */
  lemma ChartMatchesTotal(inv: Inventory, requests: seq<BloodRequest>)
    requires Shaped(inv)
    ensures BarTotal(Dashboard(inv, requests).chart) == Dashboard(inv, requests).totalStock
    ensures Dashboard(inv, requests).totalStock == SumValues(inv)
  {
    var chart := StockChart(inv);
    ChartSums(inv, chart, 8);
    KeysDistinctAll();
    SumAtIsSumValues(inv, InventoryKeys);
    assert chart[..8] == chart && InventoryKeys[..8] == InventoryKeys;
  }

  lemma {:induction false} ChartSums(inv: Inventory, chart: seq<Bar>, n: nat)
    requires Shaped(inv) && n <= 8
    requires chart == StockChart(inv)
    ensures BarTotal(chart[..n]) == SumAt(inv, InventoryKeys[..n])
  {
    if n > 0 {
      ChartSums(inv, chart, n - 1);
      assert chart[..n][..n - 1] == chart[..n - 1];
      assert InventoryKeys[..n][..n - 1] == InventoryKeys[..n - 1];
    }
  }

  lemma KeysDistinctAll()
    ensures forall i, j :: 0 <= i < j < |InventoryKeys| ==> InventoryKeys[i] != InventoryKeys[j]
  {
    forall i, j | 0 <= i < j < |InventoryKeys| ensures InventoryKeys[i] != InventoryKeys[j] {
      KeysDistinct(AllGroups[i], AllGroups[j]);
    }
  }

  /** Pending and Fulfilled never overlap, so their cards add up to at most the total. */
  lemma CardsWithinTotal(inv: Inventory, requests: seq<BloodRequest>)
    requires Shaped(inv)
    ensures Dashboard(inv, requests).pendingRequests + Dashboard(inv, requests).fulfilledRequests
            <= Dashboard(inv, requests).totalRequests
  {
    var either := (r: BloodRequest) => LoadedStatus(r) == Pending || LoadedStatus(r) == Fulfilled;
    Tally.CountDisjoint(requests, StatusIs(Pending), StatusIs(Fulfilled), either);
  }
}
