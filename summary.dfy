/** The integer part of the per-row loop of `bam_basecall`: which rows are
    printed, the multiplicity and strand sums over a row's reads, and the
    insertion column (sequences by decreasing count, and their total). */
module Summary {
  import opened Alignment
  import opened Aggregate

  // ---------------------------------------------------------------------
  // The row filter.

  /** Matches, deletions and distinct inserted sequences. */
  function BigTotal(bp: BasePosition): nat
  {
    bp.total + bp.deletions + |bp.insertions|
  }

  /** A row is printed unless it is below the coverage threshold, or it
      has no coverage at all and is not a gap shown on request. */
  predicate Shown(bp: BasePosition, minCount: int, showGaps: bool)
  {
    if BigTotal(bp) < minCount then false
    else if BigTotal(bp) == 0 && !(showGaps && bp.gaps > 0) then false
    else true
  }

  /** The records a row keeps are its kept matches, kept insertions,
      deletions and gaps, and nothing else. */
  lemma {:induction false} KeptSize(rs: seq<MappingRecord>, f: Filter)
    ensures |KeptRecords(rs, f)| ==
              Occurrences(rs, f, AnyMatch, false) + Occurrences(rs, f, AnyIns, false) +
              Occurrences(rs, f, DelKey, false) + Occurrences(rs, f, GapKey, false)
  {
    if rs != [] {
      KeptSize(rs[1..], f);
    }
  }

  /** For a row of a released position, `big_total` counts kept matches,
      deletions and distinct kept insertion sequences; the row is printed
      exactly when it reaches the threshold and some kept match, insertion
      or deletion, or (with gaps shown) some gap, lies on the position;
      and a printed row always has reads, so the strand column never
      divides by zero. */
  lemma ShownIffEvidence(slot: MappingPos, start: int, end: int, f: Filter, minCount: int, showGaps: bool)
    requires InRegion(slot.pos, start, end) && Position(slot, start, end, 0, f).Ok?
    ensures var rs := slot.records;
            var bp := Position(slot, start, end, 0, f).value.value;
            var matches, ins, dels, gaps :=
              Occurrences(rs, f, AnyMatch, false), Occurrences(rs, f, AnyIns, false),
              Occurrences(rs, f, DelKey, false), Occurrences(rs, f, GapKey, false);
            BigTotal(bp) == matches + dels + |bp.insertions| &&
            (Shown(bp, minCount, showGaps) <==>
               BigTotal(bp) >= minCount && (matches + ins + dels > 0 || (showGaps && gaps > 0))) &&
            (Shown(bp, minCount, showGaps) ==> |bp.kept| > 0)
  {
    var rs := slot.records;
    PositionCharacterised(slot, start, end, f);
    PositionInsertions(slot, start, end, f);
    KeptSize(rs, f);
    var t := TallyFrom(rs, NoTally, f).value;
    if Occurrences(rs, f, AnyIns, false) > 0 {
      assert MapSum(t.insertions) > 0;
      assert t.insertions != map[];
    }
  }

  // ---------------------------------------------------------------------
  // Multiplicity and strand sums over a row's reads.

  /** What one record adds to `read_ih_acc`: matches, insertions and
      deletions add the read's IH annotation, or 1 without one; gaps add
      nothing. */
  function IhWeight(rec: MappingRecord): int
  {
    if rec.obs.Skip? then 0
    else match rec.read.ih
      case Some(v) => v
      case None => 1
  }

  function IhTotal(rs: seq<MappingRecord>): int
  {
    if rs == [] then 0 else IhTotal(rs[..|rs| - 1]) + IhWeight(rs[|rs| - 1])
  }

  function ForwardReads(rs: seq<MappingRecord>): nat
  {
    if rs == [] then 0 else ForwardReads(rs[..|rs| - 1]) + (if rs[|rs| - 1].read.isReverse then 0 else 1)
  }

  /** A read without an IH annotation maps once. */
  predicate MapsOnce(rec: MappingRecord)
  {
    rec.read.ih.None? || rec.read.ih == Some(1)
  }

  /** The loop over a row's reads: the IH sum, the forward-strand count
      and the number of reads. */
  method ReadSums(records: seq<MappingRecord>) returns (ihAcc: int, plusCount: nat, totalCount: nat)
    ensures ihAcc == IhTotal(records) && plusCount == ForwardReads(records) && totalCount == |records|
    ensures plusCount <= totalCount
  {
    ihAcc, plusCount, totalCount := 0, 0, 0;
    var i := 0;
    while i < |records|
      invariant 0 <= i <= |records| && totalCount == i
      invariant ihAcc == IhTotal(records[..i]) && plusCount == ForwardReads(records[..i])
      invariant plusCount <= totalCount
    {
      var rec := records[i];
      assert records[..i + 1][..i] == records[..i];
      totalCount := totalCount + 1;
      if !rec.read.isReverse {
        plusCount := plusCount + 1;
      }
      if !rec.obs.Skip? {
        match rec.read.ih {
          case Some(v) => ihAcc := ihAcc + v;
          case None => ihAcc := ihAcc + 1;
        }
      }
      i := i + 1;
    }
    assert records[..i] == records;
  }

  lemma {:induction false} IhTotalOfKept(rs: seq<MappingRecord>, f: Filter)
    requires forall i :: 0 <= i < |rs| ==> MapsOnce(rs[i])
    ensures IhTotal(KeptRecords(rs, f)) ==
              Occurrences(rs, f, AnyMatch, false) + Occurrences(rs, f, AnyIns, false) + Occurrences(rs, f, DelKey, false)
  {
    if rs != [] {
      IhTotalOfKept(rs[1..], f);
      var tail := KeptRecords(rs[1..], f);
      IhTotalPrepend(if Kept(rs[0], f) then [rs[0]] else [], tail);
    }
  }

  lemma {:induction false} IhTotalPrepend(x: seq<MappingRecord>, y: seq<MappingRecord>)
    requires |x| <= 1
    ensures IhTotal(x + y) == IhTotal(x) + IhTotal(y)
    decreases |y|
  {
    if y != [] {
      var z := y[..|y| - 1];
      IhTotalPrepend(x, z);
      assert (x + y)[..|x + y| - 1] == x + z;
    } else {
      assert x + y == x;
    }
  }

  /** When every read maps once, the IH sum of a row is its kept matches,
      insertions and deletions: `big_total` plus the repeats of inserted
      sequences, so the average multiplicity is 1 exactly when no inserted
      sequence repeats. */
  lemma IhSumOfUniqueReads(slot: MappingPos, start: int, end: int, f: Filter)
    requires InRegion(slot.pos, start, end) && Position(slot, start, end, 0, f).Ok?
    requires forall i :: 0 <= i < |slot.records| ==> MapsOnce(slot.records[i])
    ensures var bp := Position(slot, start, end, 0, f).value.value;
            IhTotal(bp.kept) == BigTotal(bp) + (MapSum(bp.insertions) - |bp.insertions|) &&
            MapSum(bp.insertions) >= |bp.insertions|
  {
    var rs := slot.records;
    PositionCharacterised(slot, start, end, f);
    PositionInsertions(slot, start, end, f);
    IhTotalOfKept(rs, f);
  }

  // ---------------------------------------------------------------------
  // The insertion column.

  lemma {:induction false} StrLessIrreflexive(x: string)
    ensures !StrLess(x, x)
  {
    if x != [] {
      StrLessIrreflexive(x[1..]);
    }
  }

  lemma {:induction false} StrLessTotal(x: string, y: string)
    ensures x == y || StrLess(x, y) || StrLess(y, x)
  {
    if x != [] && y != [] && x[0] == y[0] {
      StrLessTotal(x[1..], y[1..]);
      if x[1..] == y[1..] {
        assert x == [x[0]] + x[1..] && y == [y[0]] + y[1..];
      }
    }
  }

  lemma {:induction false} StrLessAsymmetric(x: string, y: string)
    requires StrLess(x, y)
    ensures !StrLess(y, x)
  {
    if x != [] && y != [] && x[0] == y[0] {
      StrLessAsymmetric(x[1..], y[1..]);
    }
  }

  lemma {:induction false} StrLessTransitive(x: string, y: string, z: string)
    requires StrLess(x, y) && StrLess(y, z)
    ensures StrLess(x, z)
  {
    if x != [] && x[0] == y[0] && y[0] == z[0] {
      StrLessTransitive(x[1..], y[1..], z[1..]);
    }
  }

  /** The order `sort()` then `reverse()` leaves the (count, sequence)
      pairs in: larger count first, larger sequence first among equal
      counts. */
  predicate Above(x: (nat, string), y: (nat, string))
  {
    x.0 > y.0 || (x.0 == y.0 && StrLess(y.1, x.1))
  }

  ghost predicate Descending(ps: seq<(nat, string)>)
  {
    forall i, j :: 0 <= i < j < |ps| ==> Above(ps[i], ps[j])
  }

  lemma AboveTransitive(x: (nat, string), y: (nat, string), z: (nat, string))
    requires Above(x, y) && Above(y, z)
    ensures Above(x, z)
  {
    if x.0 == y.0 && y.0 == z.0 {
      StrLessTransitive(z.1, y.1, x.1);
    }
  }

  /** Pairs with different sequences are always ordered one way or the
      other. */
  lemma AboveTotal(x: (nat, string), y: (nat, string))
    requires x.1 != y.1
    ensures Above(x, y) || Above(y, x)
  {
    StrLessTotal(x.1, y.1);
  }

  /** Insert a pair into a descending list. */
  function InsertDescending(p: (nat, string), ps: seq<(nat, string)>): seq<(nat, string)>
  {
    if ps == [] || Above(p, ps[0]) then [p] + ps else [ps[0]] + InsertDescending(p, ps[1..])
  }

  function CountSum(ps: seq<(nat, string)>): nat
  {
    if ps == [] then 0 else ps[0].0 + CountSum(ps[1..])
  }

  lemma {:induction false} InsertDescendingKeeps(p: (nat, string), ps: seq<(nat, string)>)
    requires Descending(ps) && forall i :: 0 <= i < |ps| ==> ps[i].1 != p.1
    ensures var r := InsertDescending(p, ps);
            Descending(r) && |r| == |ps| + 1 &&
            (forall x :: x in r <==> x == p || x in ps) &&
            CountSum(r) == p.0 + CountSum(ps)
  {
    if ps != [] && !Above(p, ps[0]) {
      var tail := ps[1..];
      assert Descending(tail) by {
        forall i, j | 0 <= i < j < |tail| ensures Above(tail[i], tail[j]) {
          assert tail[i] == ps[i + 1] && tail[j] == ps[j + 1];
        }
      }
      InsertDescendingKeeps(p, tail);
      var rt := InsertDescending(p, tail);
      var r := [ps[0]] + rt;
      AboveTotal(p, ps[0]);
      forall x | x in rt ensures Above(ps[0], x) {
        if x == p {
        } else {
          var k :| 0 <= k < |tail| && tail[k] == x;
          assert ps[k + 1] == x;
        }
      }
      forall i, j | 0 <= i < j < |r| ensures Above(r[i], r[j]) {
        if i == 0 {
          assert r[j] == rt[j - 1] && r[j] in rt;
        } else {
          assert r[i] == rt[i - 1] && r[j] == rt[j - 1];
        }
      }
      assert ps == [ps[0]] + tail;
    } else if ps != [] {
      var r := [p] + ps;
      forall i, j | 0 <= i < j < |r| ensures Above(r[i], r[j]) {
        if i == 0 {
          if j > 1 {
            AboveTransitive(p, ps[0], ps[j - 1]);
          }
        } else {
          assert r[i] == ps[i - 1] && r[j] == ps[j - 1];
        }
      }
    }
  }

  /** The insertion column: every (count, sequence) pair of the dictionary
      once, by decreasing count and then decreasing sequence, and
      `incount`, the sum of the counts. */
  method InsertionSummary(insertions: map<string, nat>) returns (inserts: seq<(nat, string)>, incount: nat)
    ensures Descending(inserts) && |inserts| == |insertions|
    ensures forall p :: p in inserts <==> p.1 in insertions && insertions[p.1] == p.0
    ensures incount == MapSum(insertions)
  {
    inserts := [];
    var rest := insertions;
    while rest != map[]
      invariant Descending(inserts) && |inserts| + |rest| == |insertions|
      invariant forall k :: k in rest ==> k in insertions && rest[k] == insertions[k]
      invariant forall p :: p in inserts <==> p.1 in insertions && p.1 !in rest && insertions[p.1] == p.0
      invariant CountSum(inserts) + MapSum(rest) == MapSum(insertions)
      decreases |rest|
    {
      var k :| k in rest;
      forall i | 0 <= i < |inserts| ensures inserts[i].1 != k {
        assert inserts[i] in inserts;
      }
      InsertDescendingKeeps((rest[k], k), inserts);
      MapSumRemove(rest, k);
      inserts := InsertDescending((rest[k], k), inserts);
      rest := rest - {k};
    }
    incount := 0;
    var i := 0;
    while i < |inserts|
      invariant 0 <= i <= |inserts|
      invariant incount + CountSum(inserts[i..]) == CountSum(inserts)
    {
      assert inserts[i..][1..] == inserts[i + 1..];
      incount := incount + inserts[i].0;
      i := i + 1;
    }
  }

  /** The total of the insertion column is the number of kept insertions
      on the position; the first of each sequence is not in `counts['ins']`. */
  lemma InsertionColumnTotal(slot: MappingPos, start: int, end: int, f: Filter)
    requires InRegion(slot.pos, start, end) && Position(slot, start, end, 0, f).Ok?
    ensures var bp := Position(slot, start, end, 0, f).value.value;
            MapSum(bp.insertions) == Occurrences(slot.records, f, AnyIns, false) &&
            (forall s :: s in bp.insertions <==> Occurrences(slot.records, f, InsKey(s), false) > 0)
  {
    PositionInsertions(slot, start, end, f);
  }
}
