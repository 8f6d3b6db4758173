/**
  Day 1: find `num_entries` entries of the expense report that add up to `sum`
  and return their product.

  The search walks the combinations of entry positions in the order the
  combinations iterator produces them: strictly increasing index sequences in
  lexicographic order. `Combinations` is that order written out; the search
  method is the `for` loop over it, returning at the first match.
*/
module EntrySearch {
  import opened Errors

  /** `c` picks `k` distinct positions from `lo .. n-1`, listed in increasing order. */
  predicate IsCombinationFrom(c: seq<nat>, lo: nat, n: nat, k: nat) {
    && |c| == k
    && (forall i :: 0 <= i < |c| ==> lo <= c[i] < n)
    && (forall i, j :: 0 <= i < j < |c| ==> c[i] < c[j])
  }

  /** `c` is a combination of `k` positions out of a sequence of length `n`. */
  predicate IsCombination(c: seq<nat>, n: nat, k: nat) {
    IsCombinationFrom(c, 0, n, k)
  }

  /** Lexicographic order on index sequences (only used on sequences of equal length). */
  predicate LexLess(a: seq<nat>, b: seq<nat>) {
    && |a| > 0 && |b| > 0
    && (a[0] < b[0] || (a[0] == b[0] && LexLess(a[1..], b[1..])))
  }

  /** Puts `x` in front of every sequence of `cs`. */
  function Prefixed(x: nat, cs: seq<seq<nat>>): (r: seq<seq<nat>>)
    ensures |r| == |cs|
    ensures forall i :: 0 <= i < |r| ==> r[i] == [x] + cs[i]
  {
    seq(|cs|, i requires 0 <= i < |cs| => [x] + cs[i])
  }

  /**
    The combinations of `k` positions out of `lo .. n-1`, in the order the
    combinations iterator yields them: first those that start with `lo`, then
    those that do not. There is exactly one combination of zero positions and
    none of more positions than there are.
  */
  function Combinations(lo: nat, n: nat, k: nat): seq<seq<nat>>
    decreases n - lo
  {
    if k == 0 then [[]]
    else if lo >= n then []
    else Prefixed(lo, Combinations(lo + 1, n, k - 1)) + Combinations(lo + 1, n, k)
  }

  function Sum(xs: seq<int>): int {
    if xs == [] then 0 else xs[0] + Sum(xs[1..])
  }

  function Product(xs: seq<int>): int {
    if xs == [] then 1 else xs[0] * Product(xs[1..])
  }

  /** The entries at the positions of `c`, in that order. */
  function Pick(entries: seq<int>, c: seq<nat>): (r: seq<int>)
    requires forall i :: 0 <= i < |c| ==> c[i] < |entries|
    ensures |r| == |c|
    ensures forall i :: 0 <= i < |c| ==> r[i] == entries[c[i]]
  {
    seq(|c|, i requires 0 <= i < |c| => entries[c[i]])
  }

  /** The entries at the positions of combination `c` add up to `sum`. */
  predicate Matches(entries: seq<int>, k: nat, sum: int, c: seq<nat>) {
    IsCombination(c, |entries|, k) && Sum(Pick(entries, c)) == sum
  }

  /** `c` matches, and no combination that comes before it in the iteration order does. */
  ghost predicate IsFirstMatch(entries: seq<int>, k: nat, sum: int, c: seq<nat>) {
    && Matches(entries, k, sum, c)
    && forall d :: LexLess(d, c) ==> !Matches(entries, k, sum, d)
  }

  /** No combination of `k` positions adds up to `sum`. */
  ghost predicate NoMatch(entries: seq<int>, k: nat, sum: int) {
    forall d :: !Matches(entries, k, sum, d)
  }

  // ---------------------------------------------------------------------------
  // The search

  /**
    Tries the combinations of `numEntries` positions in iteration order and
    returns the product of the first one whose entries add up to `sum`;
    `BadEntries` when none does.
  */
  method FindProductOfEntriesWithSum(entries: seq<int>, numEntries: nat, sum: int) returns (r: Result<int>)
    ensures r.Ok? ==> exists c :: IsFirstMatch(entries, numEntries, sum, c) && r.value == Product(Pick(entries, c))
    ensures r.Err? ==> r.error == BadEntries && NoMatch(entries, numEntries, sum)
  {
    var combinations := Combinations(0, |entries|, numEntries);
    for i := 0 to |combinations|
      invariant forall j :: 0 <= j < i ==> !Matches(entries, numEntries, sum, combinations[j])
    {
      var combination := combinations[i];
      ListedIsCombination(|entries|, numEntries, i);
      if Sum(Pick(entries, combination)) == sum {
        FirstListedMatch(entries, numEntries, sum, i);
        return Ok(Product(Pick(entries, combination)));
      }
    }
    NoListedMatch(entries, numEntries, sum);
    return Err(BadEntries);
  }

  lemma ListedIsCombination(n: nat, k: nat, i: nat)
    requires i < |Combinations(0, n, k)|
    ensures IsCombination(Combinations(0, n, k)[i], n, k)
  {
    CombinationsSound(0, n, k);
    assert Combinations(0, n, k)[i] in Combinations(0, n, k);
  }

  /** The first listed combination that matches is the lexicographically first match. */
  lemma FirstListedMatch(entries: seq<int>, k: nat, sum: int, i: nat)
    requires i < |Combinations(0, |entries|, k)|
    requires Matches(entries, k, sum, Combinations(0, |entries|, k)[i])
    requires forall j :: 0 <= j < i ==> !Matches(entries, k, sum, Combinations(0, |entries|, k)[j])
    ensures IsFirstMatch(entries, k, sum, Combinations(0, |entries|, k)[i])
  {
    var combinations := Combinations(0, |entries|, k);
    forall d | LexLess(d, combinations[i]) && Matches(entries, k, sum, d)
      ensures false
    {
      CombinationsComplete(d, 0, |entries|, k);
      var j :| 0 <= j < |combinations| && combinations[j] == d;
      if j >= i {
        if j > i {
          CombinationsSorted(0, |entries|, k);
        }
        LexAsymmetric(combinations[i], combinations[j]);
      }
    }
  }

  /** When no listed combination matches, no combination matches at all. */
  lemma NoListedMatch(entries: seq<int>, k: nat, sum: int)
    requires forall j :: 0 <= j < |Combinations(0, |entries|, k)| ==> !Matches(entries, k, sum, Combinations(0, |entries|, k)[j])
    ensures NoMatch(entries, k, sum)
  {
    forall d | Matches(entries, k, sum, d)
      ensures false
    {
      CombinationsComplete(d, 0, |entries|, k);
    }
  }

  // ---------------------------------------------------------------------------
  // The iteration order

  lemma {:induction false} LexAsymmetric(a: seq<nat>, b: seq<nat>)
    ensures !(LexLess(a, b) && LexLess(b, a))
  {
    if |a| > 0 && |b| > 0 && a[0] == b[0] {
      LexAsymmetric(a[1..], b[1..]);
    }
  }

  /** Two different sequences of the same length are ordered one way or the other. */
  lemma {:induction false} LexTotal(a: seq<nat>, b: seq<nat>)
    requires |a| == |b| && a != b
    ensures LexLess(a, b) || LexLess(b, a)
  {
    if a[0] == b[0] {
      assert a == [a[0]] + a[1..] && b == [b[0]] + b[1..];
      LexTotal(a[1..], b[1..]);
    }
  }

  /** Every listed sequence is a combination. */
  lemma {:induction false} CombinationsSound(lo: nat, n: nat, k: nat)
    ensures forall c :: c in Combinations(lo, n, k) ==> IsCombinationFrom(c, lo, n, k)
    decreases n - lo
  {
    if k > 0 && lo < n {
      var front := Combinations(lo + 1, n, k - 1);
      var back := Combinations(lo + 1, n, k);
      var cs := Combinations(lo, n, k);
      assert cs == Prefixed(lo, front) + back;
      CombinationsSound(lo + 1, n, k - 1);
      CombinationsSound(lo + 1, n, k);
      forall i | 0 <= i < |cs|
        ensures IsCombinationFrom(cs[i], lo, n, k)
      {
        if i < |front| {
          assert cs[i] == [lo] + front[i];
          assert front[i] in front;
          assert IsCombinationFrom(front[i], lo + 1, n, k - 1);
        } else {
          assert cs[i] == back[i - |front|];
          assert back[i - |front|] in back;
        }
      }
    }
  }

  /** Dropping the first position of a combination that starts at `lo` leaves one above `lo`. */
  lemma CombinationTail(c: seq<nat>, lo: nat, n: nat, k: nat)
    requires IsCombinationFrom(c, lo, n, k) && k > 0 && c[0] == lo
    ensures IsCombinationFrom(c[1..], lo + 1, n, k - 1)
  {
    assert forall i :: 0 <= i < |c[1..]| ==> c[1..][i] == c[i + 1] && c[0] < c[i + 1];
  }

  /** A combination from `lo` that does not start at `lo` lies entirely above it. */
  lemma CombinationAbove(c: seq<nat>, lo: nat, n: nat, k: nat)
    requires IsCombinationFrom(c, lo, n, k) && k > 0 && c[0] != lo
    ensures IsCombinationFrom(c, lo + 1, n, k)
  {
    assert forall i :: 0 <= i < |c| ==> c[0] <= c[i];
  }

  lemma InPrefixed(x: nat, cs: seq<seq<nat>>, d: seq<nat>)
    requires d in cs
    ensures [x] + d in Prefixed(x, cs)
  {
    var i :| 0 <= i < |cs| && cs[i] == d;
    assert Prefixed(x, cs)[i] == [x] + d;
  }

  /** Every combination is listed. */
  lemma {:induction false} CombinationsComplete(c: seq<nat>, lo: nat, n: nat, k: nat)
    requires IsCombinationFrom(c, lo, n, k)
    ensures c in Combinations(lo, n, k)
    decreases n - lo
  {
    if k == 0 {
      assert c == [];
    } else {
      var front := Combinations(lo + 1, n, k - 1);
      var back := Combinations(lo + 1, n, k);
      assert lo <= c[0] < n;
      assert Combinations(lo, n, k) == Prefixed(lo, front) + back;
      if c[0] == lo {
        CombinationTail(c, lo, n, k);
        CombinationsComplete(c[1..], lo + 1, n, k - 1);
        InPrefixed(lo, front, c[1..]);
        assert [lo] + c[1..] == c;
      } else {
        CombinationAbove(c, lo, n, k);
        CombinationsComplete(c, lo + 1, n, k);
      }
    }
  }

  /** The listing is strictly increasing in lexicographic order. */
  lemma {:induction false} CombinationsSorted(lo: nat, n: nat, k: nat)
    ensures forall i, j :: 0 <= i < j < |Combinations(lo, n, k)| ==>
      LexLess(Combinations(lo, n, k)[i], Combinations(lo, n, k)[j])
    decreases n - lo
  {
    if k > 0 && lo < n {
      var front := Combinations(lo + 1, n, k - 1);
      var back := Combinations(lo + 1, n, k);
      var cs := Combinations(lo, n, k);
      assert cs == Prefixed(lo, front) + back;
      CombinationsSorted(lo + 1, n, k - 1);
      CombinationsSorted(lo + 1, n, k);
      CombinationsSound(lo + 1, n, k);
      forall i, j | 0 <= i < j < |cs|
        ensures LexLess(cs[i], cs[j])
      {
        if j < |front| {
          assert cs[i] == [lo] + front[i] && cs[j] == [lo] + front[j];
          assert cs[i][1..] == front[i] && cs[j][1..] == front[j];
          assert LexLess(front[i], front[j]);
        } else if i < |front| {
          assert cs[i] == [lo] + front[i];
          var other := back[j - |front|];
          assert cs[j] == other && other in back;
          assert IsCombinationFrom(other, lo + 1, n, k);
          assert cs[i][0] == lo < other[0];
        } else {
          assert cs[i] == back[i - |front|] && cs[j] == back[j - |front|];
          assert LexLess(back[i - |front|], back[j - |front|]);
        }
      }
    }
  }

  /** A combination cannot hold more positions than the range offers. */
  lemma {:induction false} CombinationFitsRange(c: seq<nat>, lo: nat, n: nat, k: nat)
    requires IsCombinationFrom(c, lo, n, k)
    ensures k == 0 || lo + k <= n
    decreases k
  {
    if k > 0 {
      assert lo <= c[0];
      assert IsCombinationFrom(c[1..], c[0] + 1, n, k - 1);
      CombinationFitsRange(c[1..], c[0] + 1, n, k - 1);
    }
  }

  /** Taking all of `lo .. n-1` leaves exactly one combination: the whole range. */
  lemma {:induction false} FullCombinationIsRange(c: seq<nat>, lo: nat, n: nat)
    requires lo <= n && IsCombinationFrom(c, lo, n, n - lo)
    ensures forall i :: 0 <= i < |c| ==> c[i] == lo + i
    decreases n - lo
  {
    if lo < n {
      assert IsCombinationFrom(c[1..], c[0] + 1, n, n - lo - 1);
      CombinationFitsRange(c[1..], c[0] + 1, n, n - lo - 1);
      assert c[0] == lo;
      FullCombinationIsRange(c[1..], lo + 1, n);
    }
  }

  // ---------------------------------------------------------------------------
  // What the search returns

  /** At most one combination is the first match, so the search is deterministic. */
  lemma FirstMatchUnique(entries: seq<int>, k: nat, sum: int, c1: seq<nat>, c2: seq<nat>)
    requires IsFirstMatch(entries, k, sum, c1) && IsFirstMatch(entries, k, sum, c2)
    ensures c1 == c2
  {
    if c1 != c2 {
      LexTotal(c1, c2);
    }
  }

  /** Asking for more entries than there are finds nothing. */
  lemma TooManyEntries(entries: seq<int>, k: nat, sum: int)
    requires k > |entries|
    ensures NoMatch(entries, k, sum)
  {
    forall d | Matches(entries, k, sum, d)
      ensures false
    {
      CombinationFitsRange(d, 0, |entries|, k);
    }
  }

  /** Asking for all entries succeeds exactly when they all add up to `sum`, with the product of all of them. */
  lemma AllEntries(entries: seq<int>, sum: int)
    ensures Sum(entries) == sum ==> IsFirstMatch(entries, |entries|, sum, Positions(|entries|))
    ensures Pick(entries, Positions(|entries|)) == entries
    ensures Sum(entries) != sum ==> NoMatch(entries, |entries|, sum)
  {
    var all := Positions(|entries|);
    assert Pick(entries, all) == entries;
    forall d | IsCombination(d, |entries|, |entries|)
      ensures d == all
    {
      FullCombinationIsRange(d, 0, |entries|);
    }
    forall d | LexLess(d, all)
      ensures !Matches(entries, |entries|, sum, d)
    {
      if IsCombination(d, |entries|, |entries|) {
        LexAsymmetric(d, d);
      }
    }
  }

  /** The positions `0 .. n-1`. */
  function Positions(n: nat): (r: seq<nat>)
    ensures IsCombination(r, n, n)
  {
    seq(n, i requires 0 <= i < n => i)
  }

  /** Zero entries: the empty combination adds up to 0 and has product 1. */
  lemma NoEntries(entries: seq<int>, sum: int)
    ensures sum == 0 ==> IsFirstMatch(entries, 0, sum, []) && Product(Pick(entries, [])) == 1
    ensures sum != 0 ==> NoMatch(entries, 0, sum)
  {
  }

  // ---------------------------------------------------------------------------
  // The puzzle's worked example

  const Example: seq<int> := [1721, 979, 366, 299, 675, 1456]

  /** In the puzzle's example, the first two entries that add up to 2020 are 1721 and 299, with product 514579. */
  lemma ExampleTwoEntries()
    ensures IsFirstMatch(Example, 2, 2020, [0, 3]) && Product(Pick(Example, [0, 3])) == 514579
  {
    forall d | LexLess(d, [0, 3]) && IsCombination(d, 6, 2)
      ensures !Matches(Example, 2, 2020, d)
    {
      assert [0, 3][1..] == [3] && [3][1..] == [];
      assert d[0] == 0 && LexLess(d[1..], [3]);
      assert d[1..][0] == d[1] && !LexLess(d[2..], []);
      assert d[1] == 1 || d[1] == 2;
      assert Pick(Example, d) == [Example[0], Example[d[1]]];
      SumOfTwo(Example[0], Example[d[1]]);
    }
    SumOfTwo(1721, 299);
    assert Pick(Example, [0, 3]) == [1721, 299];
  }

  /** The first three entries of the example that add up to 2020 are 979, 366 and 675, with product 241861950. */
  lemma ExampleThreeEntries()
    ensures IsFirstMatch(Example, 3, 2020, [1, 2, 4]) && Product(Pick(Example, [1, 2, 4])) == 241861950
  {
    forall d | LexLess(d, [1, 2, 4]) && IsCombination(d, 6, 3)
      ensures !Matches(Example, 3, 2020, d)
    {
      assert Pick(Example, d) == [Example[d[0]], Example[d[1]], Example[d[2]]];
      SumOfThree(Example[d[0]], Example[d[1]], Example[d[2]]);
      assert [1, 2, 4][1..] == [2, 4] && [2, 4][1..] == [4];
      assert d[0] <= 1;
      ExampleEntryAtLeast(d[1]);
      ExampleEntryAtLeast(d[2]);
      if d[0] == 1 {
        assert LexLess(d[1..], [2, 4]);
        assert d[1..][1..] == d[2..];
        assert d[1] == 2 && LexLess(d[2..], [4]);
        assert [4][1..] == [] && !LexLess(d[3..], []);
        assert d[2..][0] == d[2] && d[2..][1..] == d[3..];
        assert d[2] == 3;
      }
    }
    assert Pick(Example, [1, 2, 4]) == [979, 366, 675];
    SumOfThree(979, 366, 675);
  }

  lemma ExampleEntryAtLeast(i: int)
    requires 0 <= i < |Example|
    ensures Example[i] >= 299
  {
    assert i == 0 || i == 1 || i == 2 || i == 3 || i == 4 || i == 5;
  }

  lemma SumOfTwo(x: int, y: int)
    ensures Sum([x, y]) == x + y
  {
    assert [x, y][1..] == [y] && [y][1..] == [];
    assert Sum([y]) == y + Sum([]);
  }

  lemma SumOfThree(x: int, y: int, z: int)
    ensures Sum([x, y, z]) == x + y + z
  {
    assert [x, y, z][1..] == [y, z];
    SumOfTwo(y, z);
  }
}
