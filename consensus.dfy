/** Consensus and minor base calling from the four base counts of one
    position (`_calculate_consensus_minor`). */
module Consensus {

  /** A (count, base) pair as the caller sorts them. */
  type Call = (nat, char)

  /** The order of `sort` followed by `reverse`: larger count first, and
      among equal counts the larger base letter first. */
  predicate Above(x: Call, y: Call)
  {
    x.0 > y.0 || (x.0 == y.0 && x.1 > y.1)
  }

  ghost predicate Descending(s: seq<Call>)
  {
    forall i, j :: 0 <= i < j < |s| ==> Above(s[i], s[j])
  }

  function Insert(x: Call, s: seq<Call>): seq<Call>
  {
    if s == [] then [x]
    else if Above(s[0], x) then [s[0]] + Insert(x, s[1..])
    else [x] + s
  }

  /** Sorting the four pairs and reversing them: since the bases are distinct
      the pairs are distinct, so this is the strictly descending order. */
  function SortDescending(s: seq<Call>): seq<Call>
  {
    if s == [] then [] else Insert(s[0], SortDescending(s[1..]))
  }

  lemma {:induction false} InsertSorted(x: Call, s: seq<Call>)
    requires Descending(s) && x !in s
    ensures Descending(Insert(x, s))
    ensures |Insert(x, s)| == |s| + 1
    ensures forall p :: p in Insert(x, s) <==> p == x || p in s
  {
    if s != [] && Above(s[0], x) {
      InsertSorted(x, s[1..]);
      var r := Insert(x, s[1..]);
      assert forall p :: p in r ==> Above(s[0], p) by {
        forall p | p in r ensures Above(s[0], p) {
          if p != x {
            var j :| 0 <= j < |s[1..]| && s[1..][j] == p;
            assert s[j + 1] == p;
          }
        }
      }
      var out := [s[0]] + r;
      forall i, j | 0 <= i < j < |out| ensures Above(out[i], out[j]) {
        if i == 0 { assert out[j] in r; } else { assert out[i] == r[i - 1] && out[j] == r[j - 1]; }
      }
    }
  }

  lemma {:induction false} SortSorted(s: seq<Call>)
    requires forall i, j :: 0 <= i < j < |s| ==> s[i] != s[j]
    ensures Descending(SortDescending(s))
    ensures |SortDescending(s)| == |s|
    ensures forall p :: p in SortDescending(s) <==> p in s
  {
    if s != [] {
      SortSorted(s[1..]);
      assert s[0] !in s[1..];
      InsertSorted(s[0], SortDescending(s[1..]));
    }
  }

  /** The loop over the sorted pairs: tied-for-best bases become consensus
      calls, the first smaller non-zero count fixes the minor count and the
      bases with that count become minor calls; a zero count stops the loop. */
  function Scan(calls: seq<Call>, best: nat, minor: nat, cons: seq<char>, minors: seq<char>)
    : (seq<char>, nat, seq<char>)
  {
    if calls == [] then (cons, minor, minors)
    else
      var (count, base) := calls[0];
      if count == 0 then (cons, minor, minors)
      else if count == best then Scan(calls[1..], best, minor, cons + [base], minors)
      else if minor == 0 then Scan(calls[1..], best, count, cons, minors + [base])
      else if count == minor then Scan(calls[1..], best, minor, cons, minors + [base])
      else Scan(calls[1..], best, minor, cons, minors)
  }

  /** `'/'.join(bases)` */
  function Join(bases: seq<char>): string
  {
    if |bases| <= 1 then bases else [bases[0], '/'] + Join(bases[1..])
  }

  function Pairs(a: nat, c: nat, g: nat, t: nat): seq<Call>
  {
    [(a, 'A'), (c, 'C'), (g, 'G'), (t, 'T')]
  }

  /** The consensus call and the minor call. `minorpct` is the minor-call
      threshold; the ratio is compared exactly. */
  function ConsensusMinor(minorpct: real, a: nat, c: nat, g: nat, t: nat): (string, string)
  {
    var calls := SortDescending(Pairs(a, c, g, t));
    var best := if calls == [] then 0 else calls[0].0;
    var (cons, minor, minors) := Scan(calls, best, 0, [], []);
    if best == 0 then ("N", "")
    else
      var kept := if (minor as real) / (best as real) < minorpct then [] else minors;
      if |cons| == 1 then ([cons[0]], Join(kept))
      else (Join(cons), "")
  }

  // ---------------------------------------------------------------------
  // An independent description of the result, by base letter.

  function CountOf(b: char, a: nat, c: nat, g: nat, t: nat): nat
  {
    if b == 'A' then a else if b == 'C' then c else if b == 'G' then g else if b == 'T' then t else 0
  }

  function Max(x: nat, y: nat): nat { if x < y then y else x }

  /** The largest of the four counts. */
  function Best(a: nat, c: nat, g: nat, t: nat): nat
  {
    Max(Max(a, c), Max(g, t))
  }

  function BelowOr0(x: nat, best: nat): nat { if x < best then x else 0 }

  /** The largest count strictly below `best`, or 0 when there is none. */
  function NextBelow(best: nat, a: nat, c: nat, g: nat, t: nat): nat
  {
    Max(Max(BelowOr0(a, best), BelowOr0(c, best)), Max(BelowOr0(g, best), BelowOr0(t, best)))
  }

  /** The four bases in descending letter order. */
  const Letters: seq<char> := ['T', 'G', 'C', 'A']

  function SelectWith(letters: seq<char>, k: nat, a: nat, c: nat, g: nat, t: nat): seq<char>
  {
    if letters == [] then []
    else (if CountOf(letters[0], a, c, g, t) == k then [letters[0]] else [])
         + SelectWith(letters[1..], k, a, c, g, t)
  }

  /** The bases whose count is `k`, in descending letter order. */
  function BasesWith(k: nat, a: nat, c: nat, g: nat, t: nat): seq<char>
  {
    SelectWith(Letters, k, a, c, g, t)
  }

  // ---------------------------------------------------------------------
  // Proof of the description.

  /** The bases of the pairs in `s` whose count is `k`, in order. */
  function LettersWith(s: seq<Call>, k: nat): seq<char>
  {
    if s == [] then [] else (if s[0].0 == k then [s[0].1] else []) + LettersWith(s[1..], k)
  }

  function FirstBelow(s: seq<Call>, best: nat): nat
  {
    if s == [] then 0 else if s[0].0 < best then s[0].0 else FirstBelow(s[1..], best)
  }

  ghost predicate StrictlyDecreasing(s: seq<char>)
  {
    forall i, j :: 0 <= i < j < |s| ==> s[i] > s[j]
  }

  lemma {:induction false} LettersWithMembers(s: seq<Call>, k: nat)
    ensures forall ch :: ch in LettersWith(s, k) <==> (k, ch) in s
  {
    if s != [] {
      LettersWithMembers(s[1..], k);
      forall ch ensures ch in LettersWith(s, k) <==> (k, ch) in s {
        if (k, ch) in s && (k, ch) != s[0] {
          var j :| 0 <= j < |s| && s[j] == (k, ch);
          assert s[1..][j - 1] == (k, ch);
        }
      }
    }
  }

  lemma {:induction false} LettersWithDecreasing(s: seq<Call>, k: nat)
    requires Descending(s)
    ensures StrictlyDecreasing(LettersWith(s, k))
  {
    if s != [] {
      LettersWithDecreasing(s[1..], k);
      LettersWithMembers(s[1..], k);
      var rest := LettersWith(s[1..], k);
      if s[0].0 == k {
        forall j | 0 <= j < |rest| ensures s[0].1 > rest[j] {
          assert (k, rest[j]) in s[1..];
          var m :| 0 <= m < |s[1..]| && s[1..][m] == (k, rest[j]);
          assert Above(s[0], s[m + 1]);
        }
        var out := [s[0].1] + rest;
        forall i, j | 0 <= i < j < |out| ensures out[i] > out[j] {
          if i > 0 { assert out[i] == rest[i - 1] && out[j] == rest[j - 1]; }
        }
      }
    }
  }

  lemma {:induction false} SelectWithMembers(letters: seq<char>, k: nat, a: nat, c: nat, g: nat, t: nat)
    ensures forall ch :: ch in SelectWith(letters, k, a, c, g, t)
                         <==> ch in letters && CountOf(ch, a, c, g, t) == k
  {
    if letters != [] {
      SelectWithMembers(letters[1..], k, a, c, g, t);
    }
  }

  lemma {:induction false} SelectWithDecreasing(letters: seq<char>, k: nat, a: nat, c: nat, g: nat, t: nat)
    requires StrictlyDecreasing(letters)
    ensures StrictlyDecreasing(SelectWith(letters, k, a, c, g, t))
  {
    if letters != [] {
      SelectWithDecreasing(letters[1..], k, a, c, g, t);
      SelectWithMembers(letters[1..], k, a, c, g, t);
      var rest := SelectWith(letters[1..], k, a, c, g, t);
      if CountOf(letters[0], a, c, g, t) == k {
        forall j | 0 <= j < |rest| ensures letters[0] > rest[j] {
          assert rest[j] in letters[1..];
          var m :| 0 <= m < |letters[1..]| && letters[1..][m] == rest[j];
          assert letters[m + 1] == rest[j];
        }
        var out := [letters[0]] + rest;
        forall i, j | 0 <= i < j < |out| ensures out[i] > out[j] {
          if i > 0 { assert out[i] == rest[i - 1] && out[j] == rest[j - 1]; }
        }
      }
    }
  }

  lemma BasesWithDecreasing(k: nat, a: nat, c: nat, g: nat, t: nat)
    ensures StrictlyDecreasing(BasesWith(k, a, c, g, t))
  {
    SelectWithDecreasing(Letters, k, a, c, g, t);
  }

  lemma HeadIsLargestChar(x: seq<char>, ch: char)
    requires StrictlyDecreasing(x) && ch in x
    ensures ch <= x[0]
  {
  }

  /** Two strictly decreasing sequences with the same members are equal. */
  lemma {:induction false} DecreasingUnique(x: seq<char>, y: seq<char>)
    requires StrictlyDecreasing(x) && StrictlyDecreasing(y)
    requires forall ch :: ch in x <==> ch in y
    ensures x == y
  {
    if x != [] { assert x[0] in y; }
    if y != [] { assert y[0] in x; }
    if x != [] && y != [] {
      HeadIsLargestChar(y, x[0]);
      HeadIsLargestChar(x, y[0]);
      forall ch ensures ch in x[1..] <==> ch in y[1..] {
        if ch in x[1..] {
          var i :| 0 <= i < |x[1..]| && x[1..][i] == ch;
          assert x[i + 1] < x[0] && x[i + 1] in x;
          var m :| 0 <= m < |y| && y[m] == ch;
          assert m != 0;
          assert y[1..][m - 1] == ch;
        }
        if ch in y[1..] {
          var i :| 0 <= i < |y[1..]| && y[1..][i] == ch;
          assert y[i + 1] < y[0] && y[i + 1] in y;
          var m :| 0 <= m < |x| && x[m] == ch;
          assert m != 0;
          assert x[1..][m - 1] == ch;
        }
      }
      DecreasingUnique(x[1..], y[1..]);
    }
  }

  /** Every pair after the first has a count no larger than the first. */
  lemma HeadIsLargest(s: seq<Call>)
    requires Descending(s) && s != []
    ensures forall i :: 0 <= i < |s| ==> s[i].0 <= s[0].0
  {
    forall i | 0 < i < |s| ensures s[i].0 <= s[0].0 { assert Above(s[0], s[i]); }
  }

  lemma {:induction false} LettersWithEmptyAbove(s: seq<Call>, k: nat)
    requires forall i :: 0 <= i < |s| ==> s[i].0 < k
    ensures LettersWith(s, k) == []
  {
    if s != [] { LettersWithEmptyAbove(s[1..], k); }
  }

  lemma {:induction false} ScanMinorPhase(s: seq<Call>, best: nat, minor: nat, cons: seq<char>, minors: seq<char>)
    requires Descending(s)
    requires 0 < minor < best
    requires forall i :: 0 <= i < |s| ==> s[i].0 <= minor
    ensures Scan(s, best, minor, cons, minors) == (cons, minor, minors + LettersWith(s, minor))
  {
    if s != [] {
      if s[0].0 == 0 {
        HeadIsLargest(s);
        LettersWithEmptyAbove(s, minor);
        assert minors + LettersWith(s, minor) == minors;
      } else {
        var here := if s[0].0 == minor then [s[0].1] else [];
        assert LettersWith(s, minor) == here + LettersWith(s[1..], minor);
        assert minors + LettersWith(s, minor) == (minors + here) + LettersWith(s[1..], minor);
        var next := if s[0].0 == minor then minors + [s[0].1] else minors;
        assert Scan(s, best, minor, cons, minors) == Scan(s[1..], best, minor, cons, next);
        ScanMinorPhase(s[1..], best, minor, cons, next);
        assert next == minors + here;
      }
    } else {
      assert minors + LettersWith(s, minor) == minors;
    }
  }

  lemma {:induction false} ScanTopPhase(s: seq<Call>, best: nat, cons: seq<char>)
    requires Descending(s)
    requires best > 0
    requires forall i :: 0 <= i < |s| ==> s[i].0 <= best
    ensures var m := FirstBelow(s, best);
            Scan(s, best, 0, cons, []) ==
              (cons + LettersWith(s, best), m, if m > 0 then LettersWith(s, m) else [])
  {
    if s != [] {
      var (count, base) := s[0];
      HeadIsLargest(s);
      if count == 0 {
        LettersWithEmptyAbove(s, best);
        assert cons + LettersWith(s, best) == cons;
      } else if count == best {
        ScanTopPhase(s[1..], best, cons + [base]);
        assert LettersWith(s, best) == [base] + LettersWith(s[1..], best);
        assert cons + LettersWith(s, best) == (cons + [base]) + LettersWith(s[1..], best);
        var m := FirstBelow(s[1..], best);
        FirstBelowIsNext(s[1..], best);
        assert LettersWith(s, m) == LettersWith(s[1..], m);
      } else {
        assert forall i :: 0 <= i < |s[1..]| ==> s[1..][i].0 <= count by {
          forall i | 0 <= i < |s[1..]| ensures s[1..][i].0 <= count {
            assert s[1..][i] == s[i + 1];
          }
        }
        assert [] + [base] == [base];
        ScanMinorPhase(s[1..], best, count, cons, [base]);
        LettersWithEmptyAbove(s, best);
        assert cons + LettersWith(s, best) == cons;
        assert LettersWith(s, count) == [base] + LettersWith(s[1..], count);
      }
    } else {
      assert cons + LettersWith(s, best) == cons;
    }
  }

  lemma {:induction false} FirstBelowIsNext(s: seq<Call>, best: nat)
    requires Descending(s)
    ensures FirstBelow(s, best) < best || FirstBelow(s, best) == 0
    ensures FirstBelow(s, best) == 0 || exists i :: 0 <= i < |s| && s[i].0 == FirstBelow(s, best)
    ensures forall i :: 0 <= i < |s| && s[i].0 < best ==> s[i].0 <= FirstBelow(s, best)
  {
    if s != [] {
      FirstBelowIsNext(s[1..], best);
      if s[0].0 < best {
        forall i | 0 <= i < |s| ensures s[i].0 <= s[0].0 {
          if i > 0 { assert Above(s[0], s[i]); }
        }
      } else {
        var f := FirstBelow(s[1..], best);
        if f != 0 {
          var i :| 0 <= i < |s[1..]| && s[1..][i].0 == f;
          assert s[i + 1].0 == f;
        }
      }
    }
  }

  lemma SortedCalls(a: nat, c: nat, g: nat, t: nat)
    ensures var calls := SortDescending(Pairs(a, c, g, t));
            Descending(calls) && |calls| == 4 &&
            (forall p :: p in calls <==> p in Pairs(a, c, g, t)) &&
            calls[0].0 == Best(a, c, g, t)
  {
    var ps := Pairs(a, c, g, t);
    SortSorted(ps);
    var calls := SortDescending(ps);
    HeadIsLargest(calls);
    assert ps[0] in calls && ps[1] in calls && ps[2] in calls && ps[3] in calls;
    assert calls[0] in ps;
  }

  lemma LettersMatchBases(calls: seq<Call>, k: nat, a: nat, c: nat, g: nat, t: nat)
    requires Descending(calls)
    requires forall p :: p in calls <==> p in Pairs(a, c, g, t)
    ensures LettersWith(calls, k) == BasesWith(k, a, c, g, t)
  {
    LettersWithMembers(calls, k);
    LettersWithDecreasing(calls, k);
    SelectWithMembers(Letters, k, a, c, g, t);
    BasesWithDecreasing(k, a, c, g, t);
    DecreasingUnique(LettersWith(calls, k), BasesWith(k, a, c, g, t));
  }

  lemma FirstBelowOfSorted(calls: seq<Call>, a: nat, c: nat, g: nat, t: nat)
    requires Descending(calls)
    requires forall p :: p in calls <==> p in Pairs(a, c, g, t)
    requires calls != [] && calls[0].0 == Best(a, c, g, t)
    ensures FirstBelow(calls, Best(a, c, g, t)) == NextBelow(Best(a, c, g, t), a, c, g, t)
  {
    var best := Best(a, c, g, t);
    var m := FirstBelow(calls, best);
    FirstBelowIsNext(calls, best);
    assert m == 0 || m == a || m == c || m == g || m == t by {
      if m != 0 {
        var i :| 0 <= i < |calls| && calls[i].0 == m;
        assert calls[i] in Pairs(a, c, g, t);
      }
    }
    forall p | p in Pairs(a, c, g, t) && p.0 < best ensures p.0 <= m {
      var i :| 0 <= i < |calls| && calls[i] == p;
    }
    assert (a, 'A') in Pairs(a, c, g, t) && (c, 'C') in Pairs(a, c, g, t);
    assert (g, 'G') in Pairs(a, c, g, t) && (t, 'T') in Pairs(a, c, g, t);
  }

  /** What the scan over the sorted pairs collects, base by base. */
  lemma ScanCharacterised(calls: seq<Call>, a: nat, c: nat, g: nat, t: nat)
    requires Descending(calls)
    requires forall p :: p in calls <==> p in Pairs(a, c, g, t)
    requires calls != [] && calls[0].0 == Best(a, c, g, t) > 0
    ensures var best := Best(a, c, g, t);
            var second := NextBelow(best, a, c, g, t);
            Scan(calls, best, 0, [], []) ==
              (BasesWith(best, a, c, g, t), second,
               if second > 0 then BasesWith(second, a, c, g, t) else [])
  {
    var best := Best(a, c, g, t);
    HeadIsLargest(calls);
    ScanTopPhase(calls, best, []);
    FirstBelowOfSorted(calls, a, c, g, t);
    var m := FirstBelow(calls, best);
    LettersMatchBases(calls, best, a, c, g, t);
    if m > 0 { LettersMatchBases(calls, m, a, c, g, t); }
    assert [] + LettersWith(calls, best) == LettersWith(calls, best);
  }

  /** The consensus and minor calls described base by base: "N" and no minor
      call when every count is 0; otherwise the consensus is the bases tied
      for the largest count, '/'-joined in descending letter order, and the
      minor call, given only when exactly one base is on top, is the bases
      whose count is the largest one strictly below the top, unless there is
      none or its ratio to the top count is below `minorpct`. */
  lemma ConsensusMinorCharacterised(minorpct: real, a: nat, c: nat, g: nat, t: nat)
    ensures var best := Best(a, c, g, t);
            var top := BasesWith(best, a, c, g, t);
            var second := NextBelow(best, a, c, g, t);
            var minors := if second == 0 || (second as real) / (best as real) < minorpct then []
                          else BasesWith(second, a, c, g, t);
            ConsensusMinor(minorpct, a, c, g, t) ==
              if best == 0 then ("N", "")
              else if |top| == 1 then (top, Join(minors))
              else (Join(top), "")
  {
    SortedCalls(a, c, g, t);
    var calls := SortDescending(Pairs(a, c, g, t));
    var best := Best(a, c, g, t);
    if best > 0 {
      ScanCharacterised(calls, a, c, g, t);
      var top := BasesWith(best, a, c, g, t);
      if |top| == 1 { assert [top[0]] == top; }
    }
  }

  lemma {:induction false} JoinShape(bases: seq<char>)
    ensures |Join(bases)| == if bases == [] then 0 else 2 * |bases| - 1
    ensures bases != [] ==> Join(bases)[0] == bases[0]
    ensures forall ch :: ch in Join(bases) ==> ch in bases || ch == '/'
  {
    if |bases| > 1 {
      JoinShape(bases[1..]);
      forall ch | ch in Join(bases) ensures ch in bases || ch == '/' {
        if ch in Join(bases[1..]) && ch != '/' {
          var j :| 0 <= j < |bases[1..]| && bases[1..][j] == ch;
          assert bases[j + 1] == ch;
        }
      }
    }
  }

  /** The call is ("N", "") exactly when all four counts are 0; otherwise the
      consensus is non-empty, starts with a base letter and holds only the
      letters A, C, G, T and the separator '/'. */
  lemma NoCoverageIsN(minorpct: real, a: nat, c: nat, g: nat, t: nat)
    ensures ConsensusMinor(minorpct, a, c, g, t) == ("N", "") <==> a == c == g == t == 0
    ensures Best(a, c, g, t) > 0 ==>
              var cons := ConsensusMinor(minorpct, a, c, g, t).0;
              cons != [] && cons[0] in Letters &&
              forall ch :: ch in cons ==> ch in Letters || ch == '/'
  {
    ConsensusMinorCharacterised(minorpct, a, c, g, t);
    var best := Best(a, c, g, t);
    if best > 0 {
      var top := BasesWith(best, a, c, g, t);
      SelectWithMembers(Letters, best, a, c, g, t);
      assert CountOf('A', a, c, g, t) == best || CountOf('C', a, c, g, t) == best ||
             CountOf('G', a, c, g, t) == best || CountOf('T', a, c, g, t) == best;
      assert top != [] by {
        if CountOf('A', a, c, g, t) == best { assert 'A' in top; }
        else if CountOf('C', a, c, g, t) == best { assert 'C' in top; }
        else if CountOf('G', a, c, g, t) == best { assert 'G' in top; }
        else { assert 'T' in top; }
      }
      JoinShape(top);
      assert top[0] in top;
    }
  }

  /** A tie for the top count leaves no minor call, whatever the threshold. */
  lemma TopTieHasNoMinor(minorpct: real, a: nat, c: nat, g: nat, t: nat)
    requires |BasesWith(Best(a, c, g, t), a, c, g, t)| > 1
    ensures ConsensusMinor(minorpct, a, c, g, t).1 == ""
  {
    ConsensusMinorCharacterised(minorpct, a, c, g, t);
  }

  /** With a single top base, a threshold of 1 or more suppresses every
      minor call, because the minor count is below the top count. */
  lemma FullThresholdSuppressesMinor(minorpct: real, a: nat, c: nat, g: nat, t: nat)
    requires minorpct >= 1.0
    ensures ConsensusMinor(minorpct, a, c, g, t).1 == ""
  {
    ConsensusMinorCharacterised(minorpct, a, c, g, t);
    var best := Best(a, c, g, t);
    var second := NextBelow(best, a, c, g, t);
    if best > 0 && second > 0 {
      assert second < best;
      assert (second as real) / (best as real) < 1.0;
    }
  }

  /** Two bases tied on top are reported in descending letter order. */
  lemma TiedPairExample()
    ensures ConsensusMinor(0.01, 5, 5, 1, 0) == ("C/A", "")
  {
    ConsensusMinorCharacterised(0.01, 5, 5, 1, 0);
    assert Best(5, 5, 1, 0) == 5;
    assert BasesWith(5, 5, 5, 1, 0) == ['C', 'A'];
    assert Join(['C', 'A']) == ['C', '/'] + Join(['A']) == "C/A";
  }

  /** One clear top base with a minor base above the threshold; the third
      count is background. */
  lemma MinorCallExample()
    ensures ConsensusMinor(0.01, 10, 2, 1, 0) == ("A", "C")
  {
    ConsensusMinorCharacterised(0.01, 10, 2, 1, 0);
    assert NextBelow(10, 10, 2, 1, 0) == 2;
    assert BasesWith(10, 10, 2, 1, 0) == ['A'];
    assert BasesWith(2, 10, 2, 1, 0) == ['C'];
  }
}
