// The orders the request queries return. MongoDB sorts `urgency` as a
// string, so ascending order is "critical" < "low" < "moderate"; newest-first
// sorts use `createdAt` or `updatedAt` descending. Ties keep natural order.
module RequestOrder {
  import opened Common
  import opened RequestSchema

  /** JavaScript / BSON string comparison on these ASCII values: lexicographic, a proper prefix first. */
  predicate StrLess(a: string, b: string)
    decreases |a|
  {
    |b| > 0 && (|a| == 0 || a[0] < b[0] || (a[0] == b[0] && StrLess(a[1..], b[1..])))
  }

  /** The position of an urgency's name in string order. */
  function UrgencyRank(u: Urgency): nat
  {
    match u
    case Critical => 0
    case Low => 1
    case Moderate => 2
  }

  lemma NameOrder()
    ensures StrLess("critical", "low") && StrLess("low", "moderate") && StrLess("critical", "moderate")
    ensures !StrLess("low", "critical") && !StrLess("moderate", "low") && !StrLess("moderate", "critical")
    ensures !StrLess("critical", "critical") && !StrLess("low", "low") && !StrLess("moderate", "moderate")
  {
    assert !StrLess("ritical", "ritical") by {
      assert !StrLess("itical", "itical") by {
        assert !StrLess("tical", "tical") by {
          assert !StrLess("ical", "ical") by {
            assert !StrLess("cal", "cal") by {
              assert !StrLess("al", "al") by {
                assert !StrLess("l", "l") by { assert !StrLess("", ""); }
              }
            }
          }
        }
      }
    }
    assert !StrLess("ow", "ow") by {
      assert !StrLess("w", "w") by { assert !StrLess("", ""); }
    }
    assert !StrLess("oderate", "oderate") by {
      assert !StrLess("derate", "derate") by {
        assert !StrLess("erate", "erate") by {
          assert !StrLess("rate", "rate") by {
            assert !StrLess("ate", "ate") by {
              assert !StrLess("te", "te") by {
                assert !StrLess("e", "e") by { assert !StrLess("", ""); }
              }
            }
          }
        }
      }
    }
  }

  /** Ranking urgencies agrees with comparing their stored names as strings. */
  lemma RankIsStringOrder(a: Urgency, b: Urgency)
    ensures UrgencyRank(a) < UrgencyRank(b) <==> StrLess(UrgencyName(a), UrgencyName(b))
    ensures UrgencyRank(a) == UrgencyRank(b) <==> a == b
  {
    NameOrder();
  }

  /** So a critical request sorts first and a moderate one last, whatever the intent of "moderate". */
  lemma CriticalLowModerate()
    ensures UrgencyRank(Critical) < UrgencyRank(Low) < UrgencyRank(Moderate)
  {
  }

  datatype SortKey =
    | UrgencyThenNewest   // sort({ urgency: 1, createdAt: -1 })
    | NewestCreated       // sort({ createdAt: -1 })
    | NewestUpdated       // sort({ updatedAt: -1 })

  /** `a` may come before `b` under the key. */
  predicate Leq(a: BloodRequest, b: BloodRequest, k: SortKey)
  {
    match k
    case UrgencyThenNewest =>
      UrgencyRank(a.urgency) < UrgencyRank(b.urgency)
      || (UrgencyRank(a.urgency) == UrgencyRank(b.urgency) && a.createdAt >= b.createdAt)
    case NewestCreated => a.createdAt >= b.createdAt
    case NewestUpdated => a.updatedAt >= b.updatedAt
  }

  predicate Sorted(rs: seq<BloodRequest>, k: SortKey)
  {
    forall i, j :: 0 <= i < j < |rs| ==> Leq(rs[i], rs[j], k)
  }

  lemma LeqTotal(a: BloodRequest, b: BloodRequest, k: SortKey)
    ensures Leq(a, b, k) || Leq(b, a, k)
  {
  }

  lemma LeqTransitive(a: BloodRequest, b: BloodRequest, c: BloodRequest, k: SortKey)
    requires Leq(a, b, k) && Leq(b, c, k)
    ensures Leq(a, c, k)
  {
  }

  /** Puts `x` before the first element it may precede. */
  function Insert(x: BloodRequest, rs: seq<BloodRequest>, k: SortKey): (r: seq<BloodRequest>)
    requires Sorted(rs, k)
    ensures Sorted(r, k)
    ensures multiset(r) == multiset(rs) + multiset{x}
  {
    if |rs| == 0 then [x]
    else if Leq(x, rs[0], k) then
      FrontSorted(x, rs, k);
      [x] + rs
    else
      var tail := Insert(x, rs[1..], k);
      ConsSorted(x, rs, tail, k);
      [rs[0]] + tail
  }

  lemma FrontSorted(x: BloodRequest, rs: seq<BloodRequest>, k: SortKey)
    requires Sorted(rs, k) && |rs| > 0 && Leq(x, rs[0], k)
    ensures Sorted([x] + rs, k)
  {
    var r := [x] + rs;
    forall i, j | 0 <= i < j < |r|
      ensures Leq(r[i], r[j], k)
    {
      if i == 0 && j > 1 {
        LeqTransitive(x, rs[0], rs[j - 1], k);
      }
    }
  }

  lemma ConsSorted(x: BloodRequest, rs: seq<BloodRequest>, tail: seq<BloodRequest>, k: SortKey)
    requires Sorted(rs, k) && |rs| > 0 && !Leq(x, rs[0], k)
    requires Sorted(tail, k) && multiset(tail) == multiset(rs[1..]) + multiset{x}
    ensures Sorted([rs[0]] + tail, k)
    ensures multiset([rs[0]] + tail) == multiset(rs) + multiset{x}
  {
    assert rs == [rs[0]] + rs[1..];
    var r := [rs[0]] + tail;
    forall j | 0 < j < |r|
      ensures Leq(rs[0], r[j], k)
    {
      assert r[j] == tail[j - 1];
      assert tail[j - 1] in multiset(tail);
      if r[j] == x {
        LeqTotal(x, rs[0], k);
      } else {
        assert r[j] in multiset(rs[1..]);
        var m :| 0 <= m < |rs[1..]| && rs[1..][m] == r[j];
        assert rs[m + 1] == r[j];
      }
    }
  }

  /** The query's ordering: a sorted permutation of its input, ties in input order. */
  function Sort(rs: seq<BloodRequest>, k: SortKey): (r: seq<BloodRequest>)
    ensures Sorted(r, k)
    ensures multiset(r) == multiset(rs)
    ensures |r| == |rs|
  {
    if |rs| == 0 then []
    else
      assert rs == [rs[0]] + rs[1..];
      Insert(rs[0], Sort(rs[1..], k), k)
  }

  /** In a list sorted by urgency then age, the urgency names ascend as strings. */
  lemma SortedUrgencyAscends(rs: seq<BloodRequest>, i: nat, j: nat)
    requires Sorted(rs, UrgencyThenNewest) && i < j < |rs|
    ensures !StrLess(UrgencyName(rs[j].urgency), UrgencyName(rs[i].urgency))
    ensures rs[i].urgency == rs[j].urgency ==> rs[i].createdAt >= rs[j].createdAt
  {
    RankIsStringOrder(rs[j].urgency, rs[i].urgency);
    RankIsStringOrder(rs[i].urgency, rs[j].urgency);
  }
}
