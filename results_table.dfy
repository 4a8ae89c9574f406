/**
 * The aggregates shown once votes are revealed: average and median of the
 * numeric votes, the consensus badge, per-vote and per-confidence counts, and
 * the order in which the vote distribution is listed.
 */
module ResultsTable {
  import opened Wrappers
  import opened Numerals
  import opened Types

  /** One revealed vote, with the voter's display name. */
  datatype VoteResult = VoteResult(participant: string, vote: string, confidence: Option<Confidence>)

  /** What the results card shows; absent when there are no results. */
  datatype ResultsView = ResultsView(
    hasConsensus: bool,
    average: real,
    median: real,
    showsAverage: bool,
    showsMedian: bool,
    confidenceCounts: map<Confidence, nat>,
    showsConfidence: bool,
    distribution: seq<(string, nat)>)

  function Votes(results: seq<VoteResult>): (vs: seq<string>)
    ensures |vs| == |results| && forall i :: 0 <= i < |results| ==> vs[i] == results[i].vote
  {
    seq(|results|, i requires 0 <= i < |results| => results[i].vote)
  }

  /** The votes that feed the average and the median: not "?" and numeric. */
  function NumericVotes(results: seq<VoteResult>): seq<nat> {
    NumericValues(Votes(results))
  }

  // ----- average -----

  function Sum(ns: seq<nat>): nat {
    if |ns| == 0 then 0 else ns[0] + Sum(ns[1..])
  }

  /** The arithmetic mean, or 0 when there is nothing to average. */
  function Average(ns: seq<nat>): real {
    if |ns| == 0 then 0.0 else Sum(ns) as real / |ns| as real
  }

  lemma {:induction false} SumAtLeast(ns: seq<nat>, lo: nat)
    requires forall i :: 0 <= i < |ns| ==> lo <= ns[i]
    ensures |ns| * lo <= Sum(ns)
  {
    if |ns| > 0 {
      SumAtLeast(ns[1..], lo);
      assert |ns| * lo == (|ns| - 1) * lo + lo;
    }
  }

  lemma {:induction false} SumAtMost(ns: seq<nat>, hi: nat)
    requires forall i :: 0 <= i < |ns| ==> ns[i] <= hi
    ensures Sum(ns) <= |ns| * hi
  {
    if |ns| > 0 {
      SumAtMost(ns[1..], hi);
      assert |ns| * hi == (|ns| - 1) * hi + hi;
    }
  }

  /** A quotient of naturals whose numerator is at least `n * lo` is at least `lo`. */
  lemma QuotientAtLeast(total: nat, n: nat, lo: nat)
    requires n > 0 && n * lo <= total
    ensures lo as real <= total as real / n as real
  {
    var d := (total - n * lo) as real;
    assert total as real == n as real * lo as real + d;
    assert total as real / n as real == lo as real + d / n as real;
  }

  /** A quotient of naturals whose numerator is at most `n * hi` is at most `hi`. */
  lemma QuotientAtMost(total: nat, n: nat, hi: nat)
    requires n > 0 && total <= n * hi
    ensures total as real / n as real <= hi as real
  {
    var d := (n * hi - total) as real;
    assert total as real == n as real * hi as real - d;
    assert total as real / n as real == hi as real - d / n as real;
  }

  /** The average of some numbers lies between their minimum and maximum. */
  lemma AverageBetweenMinAndMax(ns: seq<nat>)
    requires |ns| > 0
    ensures MinOf(ns) as real <= Average(ns) <= MaxOf(ns) as real
  {
    SumAtLeast(ns, MinOf(ns));
    SumAtMost(ns, MaxOf(ns));
    QuotientAtLeast(Sum(ns), |ns|, MinOf(ns));
    QuotientAtMost(Sum(ns), |ns|, MaxOf(ns));
  }

  // ----- median -----

  predicate SortedAscending(s: seq<nat>) {
    forall i, j :: 0 <= i < j < |s| ==> s[i] <= s[j]
  }

  /** A value no larger than every element can go in front of a sorted list. */
  lemma SortedCons(a: nat, rest: seq<nat>)
    requires SortedAscending(rest) && forall k :: 0 <= k < |rest| ==> a <= rest[k]
    ensures SortedAscending([a] + rest)
  {
    var r := [a] + rest;
    forall i, j | 0 <= i < j < |r| ensures r[i] <= r[j] {
      assert r[j] == rest[j - 1];
      if i > 0 {
        assert r[i] == rest[i - 1];
      }
    }
  }

  /** The head of a sorted list bounds any permutation of its tail plus a larger value. */
  lemma HeadBoundsInsertion(s: seq<nat>, x: nat, rest: seq<nat>)
    requires SortedAscending(s) && |s| > 0 && s[0] < x
    requires multiset(rest) == multiset(s[1..]) + multiset{x}
    ensures forall k :: 0 <= k < |rest| ==> s[0] <= rest[k]
  {
    forall k | 0 <= k < |rest| ensures s[0] <= rest[k] {
      assert rest[k] in multiset(rest);
      if rest[k] != x {
        assert rest[k] in multiset(s[1..]);
        var j :| 0 <= j < |s[1..]| && s[1..][j] == rest[k];
        assert s[j + 1] == rest[k];
      }
    }
  }

  function InsertAscending(x: nat, s: seq<nat>): (r: seq<nat>)
    requires SortedAscending(s)
    ensures SortedAscending(r) && multiset(r) == multiset(s) + multiset{x}
  {
    if |s| == 0 || x <= s[0] then
      assert SortedAscending([x] + s) by {
        SortedCons(x, s);
      }
      [x] + s
    else
      var rest := InsertAscending(x, s[1..]);
      assert s == [s[0]] + s[1..];
      assert SortedAscending([s[0]] + rest) by {
        HeadBoundsInsertion(s, x, rest);
        SortedCons(s[0], rest);
      }
      [s[0]] + rest
  }

  /** An ascending copy of the numbers: the `sort((a, b) => a - b)` of a copy. */
  function SortAscending(s: seq<nat>): (r: seq<nat>)
    ensures SortedAscending(r) && multiset(r) == multiset(s)
  {
    if |s| == 0 then []
    else
      assert s == [s[0]] + s[1..];
      InsertAscending(s[0], SortAscending(s[1..]))
  }

  lemma SortedHeadIsLeast(s: seq<nat>, x: nat)
    requires SortedAscending(s) && x in multiset(s)
    ensures |s| > 0 && s[0] <= x
  {
    assert x in s;
  }

  lemma DropHead(s: seq<nat>)
    requires |s| > 0
    ensures multiset(s[1..]) == multiset(s) - multiset{s[0]}
  {
    assert s == [s[0]] + s[1..];
  }

  /** Two ascending arrangements of the same numbers are the same sequence. */
  lemma {:induction false} SortedUnique(a: seq<nat>, b: seq<nat>)
    requires SortedAscending(a) && SortedAscending(b) && multiset(a) == multiset(b)
    ensures a == b
  {
    if |a| == 0 {
      assert |multiset(b)| == 0;
    } else {
      assert a[0] in multiset(a);
      SortedHeadIsLeast(b, a[0]);
      assert b[0] in multiset(b);
      SortedHeadIsLeast(a, b[0]);
      DropHead(a);
      DropHead(b);
      assert a[0] == b[0];
      SortedUnique(a[1..], b[1..]);
      assert a == [a[0]] + a[1..];
      assert b == [b[0]] + b[1..];
    }
  }

  /**
   * The middle element of the sorted numbers, or the mean of the two middle
   * ones when there is an even count; 0 when there are none.
   */
  function Median(ns: seq<nat>): real {
    if |ns| == 0 then 0.0 else Middle(SortAscending(ns))
  }

  /** The middle of a sorted list: its middle element, or the mean of its two middle elements. */
  function Middle(sorted: seq<nat>): real
    requires |sorted| > 0
  {
    var mid := |sorted| / 2;
    if |sorted| % 2 == 0 then (sorted[mid - 1] + sorted[mid]) as real / 2.0 else sorted[mid] as real
  }

  /** The median does not depend on the order the votes came in. */
  lemma MedianIgnoresOrder(ns: seq<nat>, shuffled: seq<nat>)
    requires multiset(ns) == multiset(shuffled)
    ensures Median(ns) == Median(shuffled)
  {
    assert |ns| == |shuffled| by {
      assert |multiset(ns)| == |multiset(shuffled)|;
    }
    SortedUnique(SortAscending(ns), SortAscending(shuffled));
  }

  /** The middle of a list whose elements all lie in a range lies in that range. */
  lemma MiddleBetween(sorted: seq<nat>, lo: nat, hi: nat)
    requires |sorted| > 0
    requires forall i :: 0 <= i < |sorted| ==> lo <= sorted[i] <= hi
    ensures lo as real <= Middle(sorted) <= hi as real
  {
    var mid := |sorted| / 2;
    assert lo <= sorted[mid] <= hi;
    if |sorted| % 2 == 0 {
      assert lo <= sorted[mid - 1] <= hi;
    }
  }

  /** Every value in a non-empty list lies between its minimum and maximum. */
  lemma ValuesWithinExtremes(ns: seq<nat>, x: nat)
    requires x in multiset(ns)
    ensures |ns| > 0 && MinOf(ns) <= x <= MaxOf(ns)
  {
    assert x in ns;
  }

  /** The median lies between the minimum and the maximum. */
  lemma MedianBetweenMinAndMax(ns: seq<nat>)
    requires |ns| > 0
    ensures MinOf(ns) as real <= Median(ns) <= MaxOf(ns) as real
  {
    var sorted := SortAscending(ns);
    assert |sorted| == |ns| by {
      assert |multiset(sorted)| == |multiset(ns)|;
    }
    forall i | 0 <= i < |sorted|
      ensures MinOf(ns) <= sorted[i] <= MaxOf(ns)
    {
      assert sorted[i] in multiset(sorted);
      ValuesWithinExtremes(ns, sorted[i]);
    }
    MiddleBetween(sorted, MinOf(ns), MaxOf(ns));
  }

  // ----- per-vote and per-confidence counts -----

  /** The sum of the counts of a tally. */
  ghost function TotalCount<K>(m: map<K, nat>): nat
    decreases m.Keys
  {
    if m.Keys == {} then 0
    else
      var k :| k in m.Keys;
      m[k] + TotalCount(m - {k})
  }

  lemma {:induction false} TotalCountRemove<K>(m: map<K, nat>, k: K)
    requires k in m
    ensures TotalCount(m) == m[k] + TotalCount(m - {k})
    decreases m.Keys
  {
    var j :| j in m.Keys && TotalCount(m) == m[j] + TotalCount(m - {j});
    if j != k {
      TotalCountRemove(m - {j}, k);
      TotalCountRemove(m - {k}, j);
      assert m - {j} - {k} == m - {k} - {j};
    }
  }

  /** Setting one key of a tally changes the total by the difference. */
  lemma TotalCountUpdate<K>(m: map<K, nat>, k: K, n: nat)
    ensures TotalCount(m[k := n]) + (if k in m then m[k] else 0) == TotalCount(m) + n
  {
    TotalCountRemove(m[k := n], k);
    if k in m {
      TotalCountRemove(m, k);
      assert m[k := n] - {k} == m - {k};
    } else {
      assert m[k := n] - {k} == m;
    }
  }

  /** The tally of `votes`, one vote at a time from the first. */
  function TallyOf(votes: seq<string>): map<string, nat> {
    if |votes| == 0 then map[]
    else
      var m, v := TallyOf(votes[..|votes| - 1]), votes[|votes| - 1];
      m[v := (if v in m then m[v] else 0) + 1]
  }

  /** The tally's keys in the order they were first added. */
  function KeysOf(votes: seq<string>): seq<string> {
    if |votes| == 0 then []
    else
      var ks, v := KeysOf(votes[..|votes| - 1]), votes[|votes| - 1];
      if v in ks then ks else ks + [v]
  }

  /**
   * The tally has a key exactly for each distinct vote, holding its
   * multiplicity, and its counts add up to the number of votes.
   */
  lemma {:induction false} TallyOfCounts(votes: seq<string>)
    ensures forall v :: v in TallyOf(votes) <==> v in votes
    ensures forall v :: v in TallyOf(votes) ==> TallyOf(votes)[v] == multiset(votes)[v]
    ensures TotalCount(TallyOf(votes)) == |votes|
  {
    if |votes| > 0 {
      var init, v := votes[..|votes| - 1], votes[|votes| - 1];
      var m := TallyOf(init);
      TallyOfCounts(init);
      assert votes == init + [v];
      assert multiset(votes) == multiset(init) + multiset{v};
      var t := m[v := (if v in m then m[v] else 0) + 1];
      forall u
        ensures u in t <==> u in votes
        ensures u in t ==> t[u] == multiset(votes)[u]
      {
        assert u in votes <==> u in init || u == v;
        if u == v && v !in m {
          assert multiset(init)[v] == 0;
        }
      }
      TotalCountUpdate(m, v, t[v]);
    }
  }

  /** The key list names each tallied vote exactly once. */
  lemma {:induction false} KeysOfDistinct(votes: seq<string>)
    ensures forall v :: v in KeysOf(votes) <==> v in votes
    ensures forall i, j :: 0 <= i < j < |KeysOf(votes)| ==> KeysOf(votes)[i] != KeysOf(votes)[j]
  {
    if |votes| > 0 {
      var init, v := votes[..|votes| - 1], votes[|votes| - 1];
      var ks := KeysOf(init);
      KeysOfDistinct(init);
      assert votes == init + [v];
      if v !in ks {
        var ks' := ks + [v];
        forall i, j | 0 <= i < j < |ks'| ensures ks'[i] != ks'[j] {
          if j == |ks| {
            assert ks'[i] in ks;
          }
        }
      }
    }
  }

  /** A prefix one longer is the prefix with the next element appended. */
  lemma PrefixStep<T>(s: seq<T>, i: nat)
    requires i < |s|
    ensures s[..i + 1] == s[..i] + [s[i]] && s[..i + 1][..i] == s[..i]
  {
  }

  /**
   * The per-vote tally, built by visiting the results in order as the
   * source's `reduce` does. The keys, in the order they were first added,
   * are returned beside the map, as a JavaScript object keeps them.
   */
  method VoteCounts(results: seq<VoteResult>) returns (counts: map<string, nat>, keys: seq<string>)
    ensures forall v :: v in counts <==> v in Votes(results)
    ensures forall v :: v in counts ==> counts[v] == multiset(Votes(results))[v] && counts[v] >= 1
    ensures TotalCount(counts) == |results|
    ensures forall i, j :: 0 <= i < j < |keys| ==> keys[i] != keys[j]
    ensures forall v :: v in keys <==> v in counts
  {
    ghost var votes := Votes(results);
    counts, keys := map[], [];
    var i := 0;
    while i < |results|
      invariant 0 <= i <= |results|
      invariant counts == TallyOf(votes[..i]) && keys == KeysOf(votes[..i])
    {
      var v := results[i].vote;
      PrefixStep(votes, i);
      counts := counts[v := (if v in counts then counts[v] else 0) + 1];
      if v !in keys {
        keys := keys + [v];
      }
      i := i + 1;
    }
    assert votes[..i] == votes;
    TallyOfCounts(votes);
    KeysOfDistinct(votes);
    forall v | v in counts ensures counts[v] >= 1 {
      assert v in multiset(votes);
    }
  }

  /** How many results carry confidence `c`. */
  function CountConfidence(results: seq<VoteResult>, c: Confidence): nat {
    if |results| == 0 then 0
    else CountConfidence(results[..|results| - 1], c) + (if results[|results| - 1].confidence == Some(c) then 1 else 0)
  }

  /** How many results carry a confidence at all. */
  function CountWithConfidence(results: seq<VoteResult>): nat {
    if |results| == 0 then 0
    else CountWithConfidence(results[..|results| - 1]) + (if results[|results| - 1].confidence.Some? then 1 else 0)
  }

  /**
   * The per-confidence tally: only results that carry a confidence are
   * counted, and a level appears exactly when some result carries it.
   */
  method ConfidenceCounts(results: seq<VoteResult>) returns (counts: map<Confidence, nat>)
    ensures forall c :: c in counts <==> CountConfidence(results, c) > 0
    ensures forall c :: c in counts ==> counts[c] == CountConfidence(results, c)
    ensures TotalCount(counts) == CountWithConfidence(results)
  {
    counts := map[];
    var i := 0;
    while i < |results|
      invariant 0 <= i <= |results|
      invariant forall c :: c in counts <==> CountConfidence(results[..i], c) > 0
      invariant forall c :: c in counts ==> counts[c] == CountConfidence(results[..i], c)
      invariant TotalCount(counts) == CountWithConfidence(results[..i])
    {
      assert results[..i + 1][..i] == results[..i];
      if results[i].confidence.Some? {
        var c := results[i].confidence.value;
        var prior := if c in counts then counts[c] else 0;
        TotalCountUpdate(counts, c, prior + 1);
        counts := counts[c := prior + 1];
      }
      i := i + 1;
    }
    assert results[..i] == results;
  }

  // ----- distribution order -----

  /** `Number.parseFloat(v) || 0`: the numeric value, with non-numerals as 0. */
  function NumberOrZero(v: string): nat {
    match ParseNat(v)
    case Some(n) => n
    case None => 0
  }

  /** The comparator of the distribution list. */
  function CompareVotes(a: string, b: string): int {
    if a == "?" then 1
    else if b == "?" then -1
    else NumberOrZero(a) - NumberOrZero(b)
  }

  /**
   * The order the distribution promises: "?" after everything else, other
   * votes by numeric value, with non-numerals valued 0.
   */
  predicate RankedNoLater(a: string, b: string) {
    if b == "?" then true
    else if a == "?" then false
    else NumberOrZero(a) <= NumberOrZero(b)
  }

  /** For two keys that are not both "?", the comparator agrees with the order. */
  lemma ComparatorMatchesRank(a: string, b: string)
    requires a != "?" || b != "?"
    ensures CompareVotes(a, b) <= 0 <==> RankedNoLater(a, b)
    ensures CompareVotes(a, b) < 0 ==> !RankedNoLater(b, a)
  {
  }

  predicate RankSorted(s: seq<(string, nat)>) {
    forall i, j :: 0 <= i < j < |s| ==> RankedNoLater(s[i].0, s[j].0)
  }

  lemma RankTransitive(a: string, b: string, c: string)
    requires RankedNoLater(a, b) && RankedNoLater(b, c)
    ensures RankedNoLater(a, c)
  {
  }

  /** An entry ranked no later than every element can go in front of a sorted list. */
  lemma RankCons(e: (string, nat), rest: seq<(string, nat)>)
    requires RankSorted(rest) && forall k :: 0 <= k < |rest| ==> RankedNoLater(e.0, rest[k].0)
    ensures RankSorted([e] + rest)
  {
    var r := [e] + rest;
    forall i, j | 0 <= i < j < |r| ensures RankedNoLater(r[i].0, r[j].0) {
      assert r[j] == rest[j - 1];
      if i > 0 {
        assert r[i] == rest[i - 1];
      }
    }
  }

  /** The head of a sorted list ranks no later than any element of its tail. */
  lemma HeadRanksFirst(s: seq<(string, nat)>, e: (string, nat), rest: seq<(string, nat)>)
    requires RankSorted(s) && |s| > 0 && RankedNoLater(s[0].0, e.0)
    requires multiset(rest) == multiset(s[1..]) + multiset{e}
    ensures forall k :: 0 <= k < |rest| ==> RankedNoLater(s[0].0, rest[k].0)
  {
    forall k | 0 <= k < |rest| ensures RankedNoLater(s[0].0, rest[k].0) {
      assert rest[k] in multiset(rest);
      if rest[k] != e {
        assert rest[k] in multiset(s[1..]);
        var j :| 0 <= j < |s[1..]| && s[1..][j] == rest[k];
        assert s[j + 1] == rest[k];
      }
    }
  }

  function InsertEntry(e: (string, nat), s: seq<(string, nat)>): (r: seq<(string, nat)>)
    requires RankSorted(s)
    ensures RankSorted(r) && multiset(r) == multiset(s) + multiset{e}
  {
    if |s| == 0 then
      [e]
    else if CompareVotes(e.0, s[0].0) <= 0 then
      assert RankSorted([e] + s) by {
        forall k | 0 <= k < |s| ensures RankedNoLater(e.0, s[k].0) {
          if k > 0 {
            RankTransitive(e.0, s[0].0, s[k].0);
          }
        }
        RankCons(e, s);
      }
      [e] + s
    else
      var rest := InsertEntry(e, s[1..]);
      assert s == [s[0]] + s[1..];
      assert RankSorted([s[0]] + rest) by {
        HeadRanksFirst(s, e, rest);
        RankCons(s[0], rest);
      }
      [s[0]] + rest
  }

  /**
   * The entries sorted with the comparator, as a stable sort does: an entry
   * is placed before the first later one it does not compare above.
   */
  function SortDistribution(entries: seq<(string, nat)>): (r: seq<(string, nat)>)
    ensures RankSorted(r) && multiset(r) == multiset(entries)
  {
    if |entries| == 0 then []
    else
      assert entries == [entries[0]] + entries[1..];
      InsertEntry(entries[0], SortDistribution(entries[1..]))
  }

  /** The list ends with the "?" entry. */
  predicate EndsWithUnsure(r: seq<(string, nat)>) {
    |r| > 0 && r[|r| - 1].0 == "?"
  }

  lemma UnsureSortsLast(r: seq<(string, nat)>, i: nat)
    requires RankSorted(r) && i < |r| && r[i].0 == "?"
    ensures EndsWithUnsure(r)
  {
    if i < |r| - 1 {
      assert RankedNoLater(r[i].0, r[|r| - 1].0);
    }
  }

  /** If any vote was "?", the "?" entry is listed last. */
  lemma QuestionMarkListedLast(entries: seq<(string, nat)>, n: nat)
    requires ("?", n) in entries
    ensures EndsWithUnsure(SortDistribution(entries))
  {
    var r := SortDistribution(entries);
    assert ("?", n) in multiset(r) by {
      assert ("?", n) in multiset(entries);
    }
    var i :| 0 <= i < |r| && r[i] == ("?", n);
    UnsureSortsLast(r, i);
  }

  /** "?" inserted into a list without "?" goes to the end. */
  lemma {:induction false} UnsureInsertedLast(e: (string, nat), s: seq<(string, nat)>)
    requires RankSorted(s) && e.0 == "?"
    requires forall k :: 0 <= k < |s| ==> s[k].0 != "?"
    ensures InsertEntry(e, s) == s + [e]
  {
    if |s| > 0 {
      assert RankSorted(s[1..]) by {
        forall i, j | 0 <= i < j < |s[1..]| ensures RankedNoLater(s[1..][i].0, s[1..][j].0) {
          assert s[1..][i] == s[i + 1] && s[1..][j] == s[j + 1];
        }
      }
      UnsureInsertedLast(e, s[1..]);
      assert s == [s[0]] + s[1..];
    }
  }

  /** Numeric votes are listed by value, not alphabetically, and "?" goes last. */
  lemma DistributionByValue()
    ensures SortDistribution([("?", 2), ("5", 1), ("13", 1)]) == [("5", 1), ("13", 1), ("?", 2)]
  {
    var thirteen, five, unsure := ("13", 1), ("5", 1), ("?", 2);
    var numbers := SortDistribution([five, thirteen]);
    assert numbers == [five, thirteen] by {
      OneDigitNumeral("5");
      TwoDigitNumeral("13");
      assert [five, thirteen][1..] == [thirteen];
      assert SortDistribution([thirteen]) == [thirteen];
    }
    assert SortDistribution([unsure, five, thirteen]) == InsertEntry(unsure, numbers) by {
      assert [unsure, five, thirteen][1..] == [five, thirteen];
    }
    UnsureInsertedLast(unsure, numbers);
  }

  /** A label that is not a numeral is placed as if it were 0. */
  lemma DistributionLabelsAsZero()
    ensures SortDistribution([("1", 1), ("XS", 1)]) == [("XS", 1), ("1", 1)]
  {
    OneDigitNumeral("1");
    assert NumberOrZero("XS") == 0 by {
      assert !IsDigit("XS"[0]);
    }
    var one, xs := ("1", 1), ("XS", 1);
    assert [one, xs][1..] == [xs];
    assert SortDistribution([xs]) == [xs];
  }

  /** The entries of a tally, in the order of its keys. */
  function Entries(counts: map<string, nat>, keys: seq<string>): (r: seq<(string, nat)>)
    requires forall v :: v in keys ==> v in counts
    ensures |r| == |keys| && forall i :: 0 <= i < |keys| ==> r[i] == (keys[i], counts[keys[i]])
  {
    seq(|keys|, i requires 0 <= i < |keys| => (keys[i], counts[keys[i]]))
  }

  lemma AverageExample()
    ensures Average(NumericValues(["1", "2", "3"])) == 2.0
  {
    OneDigitNumeral("1");
    OneDigitNumeral("2");
    OneDigitNumeral("3");
    NumericTriple("1", "2", "3");
    assert Sum([1, 2, 3]) == 6;
  }

  /** The median read off numbers that are already in ascending order. */
  lemma MedianOfSorted(ns: seq<nat>)
    requires SortedAscending(ns) && |ns| > 0
    ensures Median(ns) == if |ns| % 2 == 0 then (ns[|ns| / 2 - 1] + ns[|ns| / 2]) as real / 2.0 else ns[|ns| / 2] as real
  {
    SortedUnique(SortAscending(ns), ns);
  }

  lemma NumericExampleVotes()
    ensures NumericValues(["1", "2", "3", "5"]) == [1, 2, 3, 5]
  {
    OneDigitNumeral("1");
    OneDigitNumeral("2");
    OneDigitNumeral("3");
    OneDigitNumeral("5");
    NumericTriple("2", "3", "5");
    NumericCons("1", ["2", "3", "5"]);
    assert ["1"] + ["2", "3", "5"] == ["1", "2", "3", "5"];
  }

  lemma MedianExample()
    ensures Median(NumericValues(["1", "2", "3", "5"])) == 2.5
  {
    NumericExampleVotes();
    MedianOfSorted([1, 2, 3, 5]);
  }

  /** The distribution has a row for `vote`. */
  predicate Listed(distribution: seq<(string, nat)>, vote: string) {
    exists k :: 0 <= k < |distribution| && distribution[k].0 == vote
  }

  /**
   * The vote distribution: one row per distinct vote with its number of
   * votes, in the comparator's order.
   */
  method Distribution(results: seq<VoteResult>) returns (distribution: seq<(string, nat)>)
    ensures RankSorted(distribution)
    ensures forall k :: 0 <= k < |distribution| ==> distribution[k].1 == multiset(Votes(results))[distribution[k].0] >= 1
    ensures forall vote :: vote in Votes(results) <==> Listed(distribution, vote)
    ensures forall i, j :: 0 <= i < j < |distribution| ==> distribution[i].0 != distribution[j].0
  {
    var voteCounts, keys := VoteCounts(results);
    var entries := Entries(voteCounts, keys);
    distribution := SortDistribution(entries);
    DistributionCounts(voteCounts, keys, entries, distribution, Votes(results));
    DistributionCoversVotes(voteCounts, keys, entries, distribution, Votes(results));
    DistributionKeysDistinct(voteCounts, keys, entries, distribution);
  }

  /**
   * The results card. With no results nothing is shown. Otherwise: the
   * consensus badge over every vote ("?" included), average and median over
   * the numeric votes, each shown only when asked for and when some vote is
   * numeric, the confidence tally, and the vote distribution in display order.
   */
  method Render(results: seq<VoteResult>, showAverage: bool, showMedian: bool) returns (view: Option<ResultsView>)
    ensures view.None? <==> |results| == 0
    ensures view.Some? ==>
      var v, numeric := view.value, NumericVotes(results);
      && v.hasConsensus == CheckConsensus(Votes(results))
      && v.average == Average(numeric) && v.median == Median(numeric)
      && v.showsAverage == (showAverage && |numeric| > 0)
      && v.showsMedian == (showMedian && |numeric| > 0)
      && (forall c :: c in v.confidenceCounts ==> v.confidenceCounts[c] == CountConfidence(results, c) > 0)
      && (forall c :: CountConfidence(results, c) > 0 ==> c in v.confidenceCounts)
      && v.showsConfidence == (|v.confidenceCounts| > 0)
      && RankSorted(v.distribution)
      && (forall k :: 0 <= k < |v.distribution| ==> v.distribution[k].1 == multiset(Votes(results))[v.distribution[k].0] >= 1)
      && (forall vote :: vote in Votes(results) <==> Listed(v.distribution, vote))
      && (forall i, j :: 0 <= i < j < |v.distribution| ==> v.distribution[i].0 != v.distribution[j].0)
  {
    if |results| == 0 {
      return None;
    }
    var numeric := NumericVotes(results);
    var average := Average(numeric);
    var median := Median(numeric);
    var hasConsensus := CheckConsensus(Votes(results));
    var confidenceCounts := ConfidenceCounts(results);
    var distribution := Distribution(results);
    view := Some(ResultsView(
      hasConsensus, average, median,
      showAverage && |numeric| > 0, showMedian && |numeric| > 0,
      confidenceCounts, |confidenceCounts| > 0,
      distribution));
  }

  lemma DistributionCounts(counts: map<string, nat>, keys: seq<string>, entries: seq<(string, nat)>,
                            distribution: seq<(string, nat)>, votes: seq<string>)
    requires forall v :: v in counts ==> counts[v] == multiset(votes)[v] && counts[v] >= 1
    requires forall v :: v in keys ==> v in counts
    requires entries == Entries(counts, keys)
    requires multiset(distribution) == multiset(entries)
    ensures forall k :: 0 <= k < |distribution| ==> distribution[k].1 == multiset(votes)[distribution[k].0] >= 1
  {
    forall k | 0 <= k < |distribution|
      ensures distribution[k].1 == multiset(votes)[distribution[k].0] >= 1
    {
      assert distribution[k] in multiset(entries);
      var i :| 0 <= i < |entries| && entries[i] == distribution[k];
    }
  }

  lemma DistributionCoversVotes(counts: map<string, nat>, keys: seq<string>, entries: seq<(string, nat)>,
                                distribution: seq<(string, nat)>, votes: seq<string>)
    requires forall v :: v in counts <==> v in votes
    requires forall v :: v in keys <==> v in counts
    requires entries == Entries(counts, keys)
    requires multiset(distribution) == multiset(entries)
    ensures forall vote :: vote in votes <==> Listed(distribution, vote)
  {
    forall vote | vote in votes
      ensures Listed(distribution, vote)
    {
      var i :| 0 <= i < |keys| && keys[i] == vote;
      assert entries[i] in multiset(distribution);
      var k :| 0 <= k < |distribution| && distribution[k] == entries[i];
    }
    forall k | 0 <= k < |distribution|
      ensures distribution[k].0 in votes
    {
      assert distribution[k] in multiset(entries);
      var i :| 0 <= i < |entries| && entries[i] == distribution[k];
    }
  }

  lemma {:induction false} DistinctOccursOnce<T>(s: seq<T>, x: T)
    requires forall i, j :: 0 <= i < j < |s| ==> s[i] != s[j]
    ensures multiset(s)[x] <= 1
  {
    if |s| > 0 {
      DistinctOccursOnce(s[1..], x);
      assert s == [s[0]] + s[1..];
      if s[0] == x {
        assert x !in s[1..];
      }
    }
  }

  lemma TwoPositions<T>(t: seq<T>, i: nat, j: nat)
    requires i < j < |t|
    ensures multiset(t)[t[i]] >= if t[j] == t[i] then 2 else 1
  {
    assert t == t[..i] + [t[i]] + t[i + 1..j] + [t[j]] + t[j + 1..];
  }

  /** A rearrangement of a sequence without repetitions has none either. */
  lemma DistinctPermutation<T>(s: seq<T>, t: seq<T>)
    requires forall i, j :: 0 <= i < j < |s| ==> s[i] != s[j]
    requires multiset(t) == multiset(s)
    ensures forall i, j :: 0 <= i < j < |t| ==> t[i] != t[j]
  {
    forall i, j | 0 <= i < j < |t| ensures t[i] != t[j] {
      DistinctOccursOnce(s, t[i]);
      TwoPositions(t, i, j);
    }
  }

  lemma DistributionKeysDistinct(counts: map<string, nat>, keys: seq<string>, entries: seq<(string, nat)>,
                                 distribution: seq<(string, nat)>)
    requires forall i, j :: 0 <= i < j < |keys| ==> keys[i] != keys[j]
    requires forall v :: v in keys ==> v in counts
    requires entries == Entries(counts, keys)
    requires multiset(distribution) == multiset(entries)
    ensures forall i, j :: 0 <= i < j < |distribution| ==> distribution[i].0 != distribution[j].0
  {
    assert forall i, j :: 0 <= i < j < |entries| ==> entries[i] != entries[j];
    DistinctPermutation(entries, distribution);
    forall i, j | 0 <= i < j < |distribution|
      ensures distribution[i].0 != distribution[j].0
    {
      assert distribution[i] in multiset(entries) && distribution[j] in multiset(entries);
      var a :| 0 <= a < |entries| && entries[a] == distribution[i];
      var b :| 0 <= b < |entries| && entries[b] == distribution[j];
    }
  }
}
