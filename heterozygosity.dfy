/** The integer part of the heterozygosity test
    (`_calculate_heterozygosity`): which 2x2 table is handed to Fisher's
    exact test, or the shortcut p-value 1.0 when there is no minor count. */
module Heterozygosity {

  /** [[theoreticalMajor, theoreticalMinor], [major, minor]] */
  datatype Table = Table(theoreticalMajor: int, theoreticalMinor: nat, major: nat, minor: nat)

  datatype Decision =
    | NoMinor          // p-value 1.0 without a test
    | Test(table: Table)

  function InsertAscending(x: nat, s: seq<nat>): seq<nat>
  {
    if s == [] || x <= s[0] then [x] + s else [s[0]] + InsertAscending(x, s[1..])
  }

  /** `list.sort()` on integers. */
  function SortAscending(s: seq<nat>): seq<nat>
  {
    if s == [] then [] else InsertAscending(s[0], SortAscending(s[1..]))
  }

  ghost predicate Ascending(s: seq<nat>)
  {
    forall i, j :: 0 <= i < j < |s| ==> s[i] <= s[j]
  }

  function Sum(s: seq<nat>): nat
  {
    if s == [] then 0 else s[0] + Sum(s[1..])
  }

  function NonZero(x: nat): nat { if x == 0 then 0 else 1 }

  /** How many entries are non-zero. */
  function NonZeros(s: seq<nat>): nat
  {
    if s == [] then 0 else NonZero(s[0]) + NonZeros(s[1..])
  }

  lemma {:induction false} InsertAscendingKeeps(x: nat, s: seq<nat>)
    ensures |InsertAscending(x, s)| == |s| + 1
    ensures forall p :: p in InsertAscending(x, s) <==> p == x || p in s
    ensures multiset(InsertAscending(x, s)) == multiset(s) + multiset{x}
    ensures Sum(InsertAscending(x, s)) == x + Sum(s)
    ensures NonZeros(InsertAscending(x, s)) == NonZero(x) + NonZeros(s)
  {
    if s != [] && x > s[0] {
      InsertAscendingKeeps(x, s[1..]);
      assert s == [s[0]] + s[1..];
      assert InsertAscending(x, s)[1..] == InsertAscending(x, s[1..]);
    }
  }

  /** Inserting keeps every element at or above a common lower bound. */
  lemma {:induction false} InsertAscendingAbove(x: nat, s: seq<nat>, lo: nat)
    requires lo <= x && forall i :: 0 <= i < |s| ==> lo <= s[i]
    ensures forall i :: 0 <= i < |InsertAscending(x, s)| ==> lo <= InsertAscending(x, s)[i]
  {
    if s != [] && x > s[0] {
      var tail := s[1..];
      assert forall i :: 0 <= i < |tail| ==> tail[i] == s[i + 1];
      InsertAscendingAbove(x, tail, lo);
    }
  }

  lemma {:induction false} InsertAscendingSorted(x: nat, s: seq<nat>)
    requires Ascending(s)
    ensures Ascending(InsertAscending(x, s))
  {
    if s == [] {
    } else if x > s[0] {
      var tail := s[1..];
      assert Ascending(tail) by {
        forall i, j | 0 <= i < j < |tail| ensures tail[i] <= tail[j] {
          assert tail[i] == s[i + 1] && tail[j] == s[j + 1];
        }
      }
      InsertAscendingSorted(x, tail);
      assert forall i :: 0 <= i < |tail| ==> s[0] <= tail[i] by {
        forall i | 0 <= i < |tail| ensures s[0] <= tail[i] {
          assert tail[i] == s[i + 1];
        }
      }
      InsertAscendingAbove(x, tail, s[0]);
      var r := InsertAscending(x, tail);
      var out := [s[0]] + r;
      assert InsertAscending(x, s) == out;
      forall i, j | 0 <= i < j < |out| ensures out[i] <= out[j] {
        assert out[j] == r[j - 1];
        if i > 0 {
          assert out[i] == r[i - 1];
        }
      }
    } else {
      var out := [x] + s;
      forall i, j | 0 <= i < j < |out| ensures out[i] <= out[j] {
        assert out[j] == s[j - 1];
        if i > 0 {
          assert out[i] == s[i - 1];
        } else {
          assert s[0] <= s[j - 1];
        }
      }
    }
  }

  lemma {:induction false} SortAscendingSorted(s: seq<nat>)
    ensures Ascending(SortAscending(s))
    ensures |SortAscending(s)| == |s|
    ensures multiset(SortAscending(s)) == multiset(s)
    ensures Sum(SortAscending(s)) == Sum(s)
    ensures NonZeros(SortAscending(s)) == NonZeros(s)
  {
    if s != [] {
      SortAscendingSorted(s[1..]);
      InsertAscendingSorted(s[0], SortAscending(s[1..]));
      InsertAscendingKeeps(s[0], SortAscending(s[1..]));
      assert s == [s[0]] + s[1..];
    }
  }

  /** Sort the four counts; the largest is the major count, the second the
      minor count, the third the background; the smallest is not used. */
  function Decide(a: nat, c: nat, g: nat, t: nat): Decision
  {
    var calls := SortAscending([a, c, g, t]);
    if |calls| != 4 then NoMinor
    else
      var major, minor, background := calls[3], calls[2], calls[1];
      if minor == 0 then NoMinor
      else Test(Table(a + c + g + t - background, background, major, minor))
  }

  /** The reported value: 1.0 without a minor count, otherwise the p-value
      the exact test (a parameter here) gives for the selected table. */
  function PValue(fisher: Table -> real, a: nat, c: nat, g: nat, t: nat): (r: real)
    ensures NonZeros([a, c, g, t]) <= 1 ==> r == 1.0
    ensures NonZeros([a, c, g, t]) > 1 ==> Decide(a, c, g, t).Test? && r == fisher(Decide(a, c, g, t).table)
  {
    DecisionNeedsTwoCounts(a, c, g, t);
    match Decide(a, c, g, t)
    case NoMinor => 1.0
    case Test(table) => fisher(table)
  }

  lemma FourTotals(s: seq<nat>)
    requires |s| == 4
    ensures s == [s[0], s[1], s[2], s[3]]
    ensures Sum(s) == s[0] + s[1] + s[2] + s[3]
    ensures NonZeros(s) == NonZero(s[0]) + NonZero(s[1]) + NonZero(s[2]) + NonZero(s[3])
  {
    var s1, s2, s3 := s[1..], s[2..], s[3..];
    assert s1[1..] == s2 && s2[1..] == s3 && s3[1..] == [];
    assert Sum(s3) == s[3] && NonZeros(s3) == NonZero(s[3]);
    assert Sum(s2) == s[2] + Sum(s3) && NonZeros(s2) == NonZero(s[2]) + NonZeros(s3);
    assert Sum(s1) == s[1] + Sum(s2) && NonZeros(s1) == NonZero(s[1]) + NonZeros(s2);
  }

  /** Sorting four counts, stated entry by entry. */
  lemma SortedOfFour(input: seq<nat>)
    requires |input| == 4
    ensures var s := SortAscending(input);
            |s| == 4 && s[0] <= s[1] <= s[2] <= s[3] &&
            multiset([s[0], s[1], s[2], s[3]]) == multiset([input[0], input[1], input[2], input[3]]) &&
            s[0] + s[1] + s[2] + s[3] == input[0] + input[1] + input[2] + input[3] &&
            NonZero(s[0]) + NonZero(s[1]) + NonZero(s[2]) + NonZero(s[3]) ==
              NonZero(input[0]) + NonZero(input[1]) + NonZero(input[2]) + NonZero(input[3])
  {
    SortAscendingSorted(input);
    FourTotals(input);
    FourTotals(SortAscending(input));
  }

  lemma SortedFour(a: nat, c: nat, g: nat, t: nat)
    ensures var s := SortAscending([a, c, g, t]);
            |s| == 4 && s[0] <= s[1] <= s[2] <= s[3] &&
            multiset([s[0], s[1], s[2], s[3]]) == multiset([a, c, g, t]) &&
            s[0] + s[1] + s[2] + s[3] == a + c + g + t &&
            NonZero(s[0]) + NonZero(s[1]) + NonZero(s[2]) + NonZero(s[3]) == NonZeros([a, c, g, t])
  {
    var input := [a, c, g, t];
    SortedOfFour(input);
    FourTotals(input);
  }

  /** No test is run exactly when at most one count is non-zero. */
  lemma DecisionNeedsTwoCounts(a: nat, c: nat, g: nat, t: nat)
    ensures Decide(a, c, g, t).NoMinor? <==> NonZeros([a, c, g, t]) <= 1
  {
    SortedFour(a, c, g, t);
    var s := SortAscending([a, c, g, t]);
    assert Decide(a, c, g, t).NoMinor? <==> s[2] == 0;
    if s[2] == 0 {
      assert s[0] == 0 && s[1] == 0;
    } else {
      assert NonZero(s[2]) == 1 && NonZero(s[3]) == 1;
    }
  }

  /** When a test is run, the table holds the three largest counts (with
      multiplicity), in order; the unused fourth count is the smallest,
      and the theoretical row adds up to the total coverage. */
  lemma DecisionSelectsTopThree(a: nat, c: nat, g: nat, t: nat)
    ensures Decide(a, c, g, t).Test? ==>
              var tb := Decide(a, c, g, t).table;
              exists rest: nat ::
                multiset([rest, tb.theoreticalMinor, tb.minor, tb.major]) == multiset([a, c, g, t]) &&
                rest <= tb.theoreticalMinor <= tb.minor <= tb.major &&
                tb.minor > 0 &&
                tb.theoreticalMajor + tb.theoreticalMinor == a + c + g + t &&
                tb.theoreticalMajor == rest + tb.minor + tb.major
  {
    SortedFour(a, c, g, t);
    var s := SortAscending([a, c, g, t]);
    if s[2] != 0 {
      TableOfSorted(s, a, c, g, t);
    }
  }

  lemma TableOfSorted(s: seq<nat>, a: nat, c: nat, g: nat, t: nat)
    requires s == SortAscending([a, c, g, t]) && |s| == 4 && s[2] != 0
    requires s[0] <= s[1] <= s[2] <= s[3]
    requires multiset([s[0], s[1], s[2], s[3]]) == multiset([a, c, g, t])
    requires s[0] + s[1] + s[2] + s[3] == a + c + g + t
    ensures Decide(a, c, g, t) == Test(Table(s[0] + s[2] + s[3], s[1], s[3], s[2]))
  {
  }

  /** The documented example: counts A 10, C 2, G 1, T 0 give the table
      [[12, 1], [10, 2]]. */
  lemma DocumentedTable()
    ensures Decide(10, 2, 1, 0) == Test(Table(12, 1, 10, 2))
  {
    assert SortAscending([10, 2, 1, 0]) == [0, 1, 2, 10];
  }
}
