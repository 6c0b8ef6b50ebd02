/** What `BamBaseCaller._calc_pos` computes for one released position: the
    region check, the filtered tally of the records gathered there, and the
    strand fractions of the row. */
module Aggregate {
  import opened Alignment

  /** The filter applied to match and insertion records. */
  datatype Filter = Filter(minQual: int, mask: bv16)

  /** One dictionary of counters (`counts`, `plus_counts`), keyed by the
      five base letters, `ins` and `del`. */
  datatype Counts = Counts(a: nat, c: nat, g: nat, t: nat, n: nat, ins: nat, del: nat)

  const NoCounts := Counts(0, 0, 0, 0, 0, 0, 0)

  predicate IsBase(b: char)
  {
    b == 'A' || b == 'C' || b == 'G' || b == 'T' || b == 'N'
  }

  /** The counter of one base letter. */
  function CountOf(k: Counts, b: char): nat
  {
    if b == 'A' then k.a
    else if b == 'C' then k.c
    else if b == 'G' then k.g
    else if b == 'T' then k.t
    else if b == 'N' then k.n
    else 0
  }

  /** `counts[base] += 1` for a letter the dictionary has. */
  function Bump(k: Counts, b: char): (r: Counts)
    requires IsBase(b)
    ensures forall x :: IsBase(x) ==> CountOf(r, x) == CountOf(k, x) + (if x == b then 1 else 0)
    ensures r.ins == k.ins && r.del == k.del
  {
    if b == 'A' then k.(a := k.a + 1)
    else if b == 'C' then k.(c := k.c + 1)
    else if b == 'G' then k.(g := k.g + 1)
    else if b == 'T' then k.(t := k.t + 1)
    else k.(n := k.n + 1)
  }

  /** The running state of the loop over a position's records. */
  datatype Tally = Tally(
    total: nat,
    counts: Counts,
    plus: Counts,
    insertions: map<string, nat>,
    gaps: nat,
    kept: seq<MappingRecord>)

  const NoTally := Tally(0, NoCounts, NoCounts, map[], 0, [])

  /** The quality and flag test a match or an insertion must pass. */
  predicate Passes(qual: int, read: Read, f: Filter)
  {
    qual >= f.minQual && read.flag & f.mask == 0
  }

  /** One iteration of the loop. Matches and insertions that fail the
      filter are passed over; deletions and gaps are always counted. The
      first insertion of a sequence creates its entry with count 1 and does
      not add to `counts.ins`; every later one adds to both. */
  function Count(t: Tally, rec: MappingRecord, f: Filter): Result<Tally>
  {
    match rec.obs
    case Match(base, qual) =>
      if !Passes(qual, rec.read, f) then Ok(t)
      else if !IsBase(base) then Err(UnknownBase(base))
      else
        Ok(t.(total := t.total + 1,
              kept := t.kept + [rec],
              counts := Bump(t.counts, base),
              plus := if rec.read.isReverse then t.plus else Bump(t.plus, base)))
    case Ins(inserted, qual) =>
      if !Passes(qual, rec.read, f) then Ok(t)
      else
        var seen := inserted in t.insertions;
        Ok(t.(kept := t.kept + [rec],
              insertions := t.insertions[inserted := if seen then t.insertions[inserted] + 1 else 1],
              counts := if seen then t.counts.(ins := t.counts.ins + 1) else t.counts,
              plus := if rec.read.isReverse then t.plus else t.plus.(ins := t.plus.ins + 1)))
    case Del =>
      Ok(t.(counts := t.counts.(del := t.counts.del + 1),
            kept := t.kept + [rec],
            plus := if rec.read.isReverse then t.plus else t.plus.(del := t.plus.del + 1)))
    case Skip =>
      Ok(t.(gaps := t.gaps + 1, kept := t.kept + [rec]))
  }

  /** The loop over the remaining records, from the running state `t`;
      the first unknown base letter stops it. */
  function TallyFrom(rs: seq<MappingRecord>, t: Tally, f: Filter): Result<Tally>
  {
    if rs == [] then Ok(t)
    else match Count(t, rs[0], f)
      case Err(e) => Err(e)
      case Ok(t') => TallyFrom(rs[1..], t', f)
  }

  // ---------------------------------------------------------------------
  // Reference counts, stated record by record.

  /** What a counter counts. */
  datatype Key =
    | AnyMatch             // `total`
    | BaseKey(b: char)     // `counts[b]`
    | AnyIns               // every kept insertion
    | InsKey(s: string)    // kept insertions of sequence s
    | DelKey               // `counts['del']`
    | GapKey               // `gaps`

  /** Whether a record is one the counter `key` counts; with `plusOnly`, a
      record of a reverse-strand read is not. */
  predicate Hits(rec: MappingRecord, f: Filter, key: Key, plusOnly: bool)
  {
    (!plusOnly || !rec.read.isReverse) &&
    match key
    case AnyMatch => rec.obs.Match? && Passes(rec.obs.qual, rec.read, f)
    case BaseKey(b) => rec.obs.Match? && rec.obs.base == b && Passes(rec.obs.qual, rec.read, f)
    case AnyIns => rec.obs.Ins? && Passes(rec.obs.qual, rec.read, f)
    case InsKey(s) => rec.obs.Ins? && rec.obs.inserted == s && Passes(rec.obs.qual, rec.read, f)
    case DelKey => rec.obs.Del?
    case GapKey => rec.obs.Skip?
  }

  function Occurrences(rs: seq<MappingRecord>, f: Filter, key: Key, plusOnly: bool): nat
  {
    if rs == [] then 0
    else (if Hits(rs[0], f, key, plusOnly) then 1 else 0) + Occurrences(rs[1..], f, key, plusOnly)
  }

  /** Whether a record is kept in the position's list of reads. */
  predicate Kept(rec: MappingRecord, f: Filter)
  {
    match rec.obs
    case Match(_, qual) => Passes(qual, rec.read, f)
    case Ins(_, qual) => Passes(qual, rec.read, f)
    case Del => true
    case Skip => true
  }

  function KeptRecords(rs: seq<MappingRecord>, f: Filter): seq<MappingRecord>
  {
    if rs == [] then []
    else (if Kept(rs[0], f) then [rs[0]] else []) + KeptRecords(rs[1..], f)
  }

  /** A record the tally cannot count: a kept match whose base letter is
      not a key of the dictionary. */
  predicate Uncountable(rec: MappingRecord, f: Filter)
  {
    rec.obs.Match? && Passes(rec.obs.qual, rec.read, f) && !IsBase(rec.obs.base)
  }

  function Get(m: map<string, nat>, s: string): nat
  {
    if s in m then m[s] else 0
  }

  /** A key of a non-empty map, chosen once so that sums over the map can
      be unfolded. */
  ghost function Pick(m: map<string, nat>): (k: string)
    requires m != map[]
    ensures k in m
  {
    var k :| k in m; k
  }

  /** The sum of a map's values. */
  ghost function MapSum(m: map<string, nat>): nat
    decreases |m|
  {
    if m == map[] then 0 else m[Pick(m)] + MapSum(m - {Pick(m)})
  }

  /** Any key can be taken out of the sum first. */
  lemma {:induction false} MapSumRemove(m: map<string, nat>, k: string)
    requires k in m
    ensures MapSum(m) == m[k] + MapSum(m - {k})
    decreases |m|
  {
    var j := Pick(m);
    if j != k {
      MapSumRemove(m - {j}, k);
      MapSumRemove(m - {k}, j);
      assert m - {j} - {k} == m - {k} - {j};
    }
  }

  lemma MapSumUpdate(m: map<string, nat>, k: string, v: nat)
    ensures MapSum(m[k := v]) == MapSum(m) - Get(m, k) + v
  {
    MapSumRemove(m[k := v], k);
    assert m[k := v] - {k} == m - {k};
    if k in m {
      MapSumRemove(m, k);
    } else {
      assert m - {k} == m;
    }
  }

  // ---------------------------------------------------------------------
  // The tally against the reference counts.

  /** The loop fails exactly when some record is uncountable, and then it
      names the first such base letter. */
  lemma {:induction false} TallyFailsOnUnknownBase(rs: seq<MappingRecord>, t: Tally, f: Filter)
    ensures TallyFrom(rs, t, f).Ok? <==> forall i :: 0 <= i < |rs| ==> !Uncountable(rs[i], f)
    ensures TallyFrom(rs, t, f).Err? ==>
              exists i :: 0 <= i < |rs| && Uncountable(rs[i], f) &&
                TallyFrom(rs, t, f).error == UnknownBase(rs[i].obs.base) &&
                forall j :: 0 <= j < i ==> !Uncountable(rs[j], f)
  {
    if rs != [] {
      var r := Count(t, rs[0], f);
      if r.Ok? {
        TallyFailsOnUnknownBase(rs[1..], r.value, f);
        if TallyFrom(rs, t, f).Err? {
          var i :| 0 <= i < |rs[1..]| && Uncountable(rs[1..][i], f) &&
                   TallyFrom(rs[1..], r.value, f).error == UnknownBase(rs[1..][i].obs.base) &&
                   forall j :: 0 <= j < i ==> !Uncountable(rs[1..][j], f);
          assert Uncountable(rs[i + 1], f);
          forall j | 0 <= j < i + 1 ensures !Uncountable(rs[j], f) {
            if j > 0 { assert rs[j] == rs[1..][j - 1]; }
          }
        } else {
          forall i | 0 <= i < |rs| ensures !Uncountable(rs[i], f) {
            if i > 0 { assert rs[i] == rs[1..][i - 1]; }
          }
        }
      } else {
        assert Uncountable(rs[0], f);
      }
    }
  }

  /** Every scalar counter grows by the number of records it counts:
      `total` by the kept matches, `del` and `gaps` by every deletion and
      gap, the forward-strand `ins` and `del` counters by the kept
      forward-strand insertions and all forward-strand deletions. */
  lemma {:induction false} TallyCounts(rs: seq<MappingRecord>, t: Tally, f: Filter)
    requires TallyFrom(rs, t, f).Ok?
    ensures var t' := TallyFrom(rs, t, f).value;
            t'.total == t.total + Occurrences(rs, f, AnyMatch, false) &&
            t'.counts.del == t.counts.del + Occurrences(rs, f, DelKey, false) &&
            t'.plus.del == t.plus.del + Occurrences(rs, f, DelKey, true) &&
            t'.gaps == t.gaps + Occurrences(rs, f, GapKey, false) &&
            t'.plus.ins == t.plus.ins + Occurrences(rs, f, AnyIns, true) &&
            t'.kept == t.kept + KeptRecords(rs, f)
  {
    if rs != [] {
      var t1 := Count(t, rs[0], f).value;
      TallyCounts(rs[1..], t1, f);
    }
  }

  /** Each base letter's counter, on both strands and on the forward
      strand alone, grows by the kept matches of that letter. */
  lemma {:induction false} TallyBaseCounts(rs: seq<MappingRecord>, t: Tally, f: Filter, b: char)
    requires TallyFrom(rs, t, f).Ok? && IsBase(b)
    ensures var t' := TallyFrom(rs, t, f).value;
            CountOf(t'.counts, b) == CountOf(t.counts, b) + Occurrences(rs, f, BaseKey(b), false) &&
            CountOf(t'.plus, b) == CountOf(t.plus, b) + Occurrences(rs, f, BaseKey(b), true)
  {
    if rs != [] {
      var t1 := Count(t, rs[0], f).value;
      TallyBaseCounts(rs[1..], t1, f, b);
    }
  }

  /** Each inserted sequence's entry grows by its kept insertions; an entry
      exists exactly for the sequences seen; and, because the first
      occurrence of a sequence creates its entry without counting it, the
      number of entries plus `counts.ins` grows by the kept insertions. */
  /** One record's effect on the insertion dictionary and the insertion
      counter. */
  lemma CountInsertionStep(t: Tally, rec: MappingRecord, f: Filter)
    requires Count(t, rec, f).Ok?
    ensures var t' := Count(t, rec, f).value;
            (forall s :: Get(t'.insertions, s) == Get(t.insertions, s) + (if Hits(rec, f, InsKey(s), false) then 1 else 0)) &&
            (forall s :: s in t'.insertions <==> s in t.insertions || Hits(rec, f, InsKey(s), false)) &&
            t'.counts.ins + |t'.insertions| == t.counts.ins + |t.insertions| + (if Hits(rec, f, AnyIns, false) then 1 else 0) &&
            MapSum(t'.insertions) == MapSum(t.insertions) + (if Hits(rec, f, AnyIns, false) then 1 else 0)
  {
    if rec.obs.Ins? && Passes(rec.obs.qual, rec.read, f) {
      var s := rec.obs.inserted;
      MapSumUpdate(t.insertions, s, Get(t.insertions, s) + 1);
      if s !in t.insertions {
        assert |t.insertions[s := 1]| == |t.insertions| + 1;
      }
    }
  }

  lemma {:induction false} TallyInsertions(rs: seq<MappingRecord>, t: Tally, f: Filter)
    requires TallyFrom(rs, t, f).Ok?
    ensures var t' := TallyFrom(rs, t, f).value;
            (forall s :: Get(t'.insertions, s) == Get(t.insertions, s) + Occurrences(rs, f, InsKey(s), false)) &&
            (forall s :: s in t'.insertions <==> s in t.insertions || Occurrences(rs, f, InsKey(s), false) > 0) &&
            t'.counts.ins + |t'.insertions| == t.counts.ins + |t.insertions| + Occurrences(rs, f, AnyIns, false) &&
            MapSum(t'.insertions) == MapSum(t.insertions) + Occurrences(rs, f, AnyIns, false)
  {
    if rs != [] {
      var t1 := Count(t, rs[0], f).value;
      CountInsertionStep(t, rs[0], f);
      TallyInsertions(rs[1..], t1, f);
    }
  }

  /** A forward-strand counter never exceeds its two-strand counterpart. */
  lemma {:induction false} PlusAtMostAll(rs: seq<MappingRecord>, f: Filter, key: Key)
    ensures Occurrences(rs, f, key, true) <= Occurrences(rs, f, key, false)
  {
    if rs != [] {
      PlusAtMostAll(rs[1..], f, key);
    }
  }

  // ---------------------------------------------------------------------
  // The row.

  /** The row `_calc_pos` returns. */
  datatype BasePosition = BasePosition(
    tid: int, pos: int, total: nat,
    a: nat, c: nat, g: nat, t: nat, n: nat,
    deletions: nat, gaps: nat,
    insertions: map<string, nat>,
    kept: seq<MappingRecord>,
    aMinor: real, cMinor: real, gMinor: real, tMinor: real, nMinor: real,
    delMinor: real, insMinor: real)

  /** The share of a counter that comes from forward-strand reads, folded
      so that it is the share of the less represented strand: 0 for an
      empty counter. */
  function StrandFraction(plus: nat, count: nat): (r: real)
    ensures count == 0 ==> r == 0.0
    ensures plus <= count ==> 0.0 <= r <= 0.5
    ensures count > 0 ==> r == (plus as real) / (count as real) || r == 1.0 - (plus as real) / (count as real)
  {
    if count == 0 then 0.0
    else
      var share := (plus as real) / (count as real);
      assert plus <= count ==> share <= 1.0 by {
        if plus <= count { assert share * (count as real) == plus as real; }
      }
      if share > 0.5 then 1.0 - share else share
  }

  /** A bound of 0 is no bound, as an unset (None) bound is. The end
      bound includes its own position. */
  predicate InRegion(pos: int, start: int, end: int)
  {
    !(start != 0 && pos < start) && !(end != 0 && end < pos)
  }

  function Row(slot: MappingPos, t: Tally): BasePosition
  {
    BasePosition(
      slot.tid, slot.pos, t.total,
      t.counts.a, t.counts.c, t.counts.g, t.counts.t, t.counts.n,
      t.counts.del, t.gaps, t.insertions, t.kept,
      StrandFraction(t.plus.a, t.counts.a), StrandFraction(t.plus.c, t.counts.c),
      StrandFraction(t.plus.g, t.counts.g), StrandFraction(t.plus.t, t.counts.t),
      StrandFraction(t.plus.n, t.counts.n), StrandFraction(t.plus.del, t.counts.del),
      StrandFraction(t.plus.ins, t.counts.ins))
  }

  /** `_calc_pos`: nothing outside the region, the failure of the tally,
      nothing when the coverage is below `minCount`, or the row. */
  function Position(slot: MappingPos, start: int, end: int, minCount: int, f: Filter): Result<Option<BasePosition>>
  {
    if !InRegion(slot.pos, start, end) then Ok(None)
    else match TallyFrom(slot.records, NoTally, f)
      case Err(e) => Err(e)
      case Ok(t) => if t.total >= minCount then Ok(Some(Row(slot, t))) else Ok(None)
  }

  /** What a released position gives: positions outside the region give
      nothing (even when a record there is uncountable); inside it, the
      run stops exactly when some record is uncountable; otherwise, with a
      coverage threshold of 0, the row is always produced and its counters
      are the reference counts of the slot's records. */
  lemma PositionCharacterised(slot: MappingPos, start: int, end: int, f: Filter)
    ensures !InRegion(slot.pos, start, end) ==> Position(slot, start, end, 0, f) == Ok(None)
    ensures InRegion(slot.pos, start, end) ==>
              (Position(slot, start, end, 0, f).Err? <==> exists i :: 0 <= i < |slot.records| && Uncountable(slot.records[i], f))
    ensures Position(slot, start, end, 0, f).Ok? && InRegion(slot.pos, start, end) ==>
              var rs := slot.records;
              Position(slot, start, end, 0, f).value.Some? &&
              var bp := Position(slot, start, end, 0, f).value.value;
              bp.tid == slot.tid && bp.pos == slot.pos &&
              bp.total == Occurrences(rs, f, AnyMatch, false) &&
              bp.a == Occurrences(rs, f, BaseKey('A'), false) &&
              bp.c == Occurrences(rs, f, BaseKey('C'), false) &&
              bp.g == Occurrences(rs, f, BaseKey('G'), false) &&
              bp.t == Occurrences(rs, f, BaseKey('T'), false) &&
              bp.n == Occurrences(rs, f, BaseKey('N'), false) &&
              bp.total == bp.a + bp.c + bp.g + bp.t + bp.n &&
              bp.deletions == Occurrences(rs, f, DelKey, false) &&
              bp.gaps == Occurrences(rs, f, GapKey, false) &&
              (forall s :: Get(bp.insertions, s) == Occurrences(rs, f, InsKey(s), false)) &&
              bp.kept == KeptRecords(rs, f) &&
              0.0 <= bp.aMinor <= 0.5 && 0.0 <= bp.cMinor <= 0.5 && 0.0 <= bp.gMinor <= 0.5 &&
              0.0 <= bp.tMinor <= 0.5 && 0.0 <= bp.nMinor <= 0.5 && 0.0 <= bp.delMinor <= 0.5
  {
    TallyFailsOnUnknownBase(slot.records, NoTally, f);
    if InRegion(slot.pos, start, end) && TallyFrom(slot.records, NoTally, f).Ok? {
      var rs := slot.records;
      var t := TallyFrom(rs, NoTally, f).value;
      TallyCounts(rs, NoTally, f);
      TallyInsertions(rs, NoTally, f);
      TallyBaseCounts(rs, NoTally, f, 'A');
      TallyBaseCounts(rs, NoTally, f, 'C');
      TallyBaseCounts(rs, NoTally, f, 'G');
      TallyBaseCounts(rs, NoTally, f, 'T');
      TallyBaseCounts(rs, NoTally, f, 'N');
      MatchesByBase(rs, f);
      PlusAtMostAll(rs, f, BaseKey('A'));
      PlusAtMostAll(rs, f, BaseKey('C'));
      PlusAtMostAll(rs, f, BaseKey('G'));
      PlusAtMostAll(rs, f, BaseKey('T'));
      PlusAtMostAll(rs, f, BaseKey('N'));
      PlusAtMostAll(rs, f, DelKey);
    }
  }

  /** The insertion dictionary of a row: a sequence is a key exactly when a
      kept insertion carries it, and its values add up to the number of
      kept insertions, which is `counts['ins']` plus the number of distinct
      sequences. */
  lemma PositionInsertions(slot: MappingPos, start: int, end: int, f: Filter)
    requires InRegion(slot.pos, start, end) && Position(slot, start, end, 0, f).Ok?
    ensures var rs := slot.records;
            var t := TallyFrom(rs, NoTally, f).value;
            Position(slot, start, end, 0, f) == Ok(Some(Row(slot, t))) &&
            (forall s :: s in t.insertions <==> Occurrences(rs, f, InsKey(s), false) > 0) &&
            MapSum(t.insertions) == Occurrences(rs, f, AnyIns, false) &&
            t.counts.ins + |t.insertions| == Occurrences(rs, f, AnyIns, false)
  {
    TallyInsertions(slot.records, NoTally, f);
  }

  /** Among countable records, every kept match is of one of the five
      letters. */
  lemma {:induction false} MatchesByBase(rs: seq<MappingRecord>, f: Filter)
    requires forall i :: 0 <= i < |rs| ==> !Uncountable(rs[i], f)
    ensures Occurrences(rs, f, AnyMatch, false) ==
              Occurrences(rs, f, BaseKey('A'), false) + Occurrences(rs, f, BaseKey('C'), false) +
              Occurrences(rs, f, BaseKey('G'), false) + Occurrences(rs, f, BaseKey('T'), false) +
              Occurrences(rs, f, BaseKey('N'), false)
  {
    if rs != [] {
      assert !Uncountable(rs[0], f);
      MatchesByBase(rs[1..], f);
    }
  }

  /** The insertion fraction is not bounded like the others: two identical
      insertions from forward-strand reads leave `counts.ins` at 1 and the
      forward-strand count at 2, so the folded fraction is -1. */
  lemma InsFractionCanBeNegative(read: Read, slot: MappingPos)
    requires !read.isReverse && read.flag == 0
    requires slot.records == [MappingRecord(1, Ins("A", 30), read), MappingRecord(1, Ins("A", 30), read)]
    requires slot.pos == 0
    ensures Position(slot, 0, 0, 0, Filter(0, 1540)).Ok?
    ensures Position(slot, 0, 0, 0, Filter(0, 1540)).value.value.insMinor == -1.0
  {
    var f := Filter(0, 1540);
    var rs := slot.records;
    var t1 := Count(NoTally, rs[0], f).value;
    assert t1.insertions == map["A" := 1] && t1.counts.ins == 0 && t1.plus.ins == 1;
    var t2 := Count(t1, rs[1], f).value;
    assert t2.counts.ins == 1 && t2.plus.ins == 2;
    assert rs[1..][1..] == [];
    assert TallyFrom(rs[1..][1..], t2, f) == Ok(t2);
    assert TallyFrom(rs[1..], t1, f) == Ok(t2);
    assert TallyFrom(rs, NoTally, f) == Ok(t2);
  }

  /** With the decoded quality, a match below the threshold is passed over:
      appending it to a position's records changes nothing in the tally. */
  lemma {:induction false} LowQualityMatchIgnored(rs: seq<MappingRecord>, rec: MappingRecord, t: Tally, f: Filter)
    requires rec.obs.Match? && rec.obs.qual < f.minQual
    ensures TallyFrom(rs + [rec], t, f) == TallyFrom(rs, t, f)
    decreases |rs|
  {
    if rs == [] {
      assert ([] + [rec])[1..] == [];
    } else {
      assert (rs + [rec])[0] == rs[0];
      assert (rs + [rec])[1..] == rs[1..] + [rec];
      match Count(t, rs[0], f)
      case Err(_) =>
      case Ok(t') => LowQualityMatchIgnored(rs[1..], rec, t', f);
    }
  }

  // ---------------------------------------------------------------------
  // The quality test on match records as written.

  /** A value that Python 2 compares: an int or a str. */
  datatype PyValue = PyInt(i: int) | PyStr(s: string)

  /** `x >= y` under Python 2's ordering: numbers compare numerically,
      strings in character order, and every number is less than every
      string. */
  predicate Py2AtLeast(x: PyValue, y: PyValue)
  {
    match (x, y)
    case (PyInt(i), PyInt(j)) => i >= j
    case (PyStr(s), PyStr(u)) => !StrLess(s, u)
    case (PyStr(_), PyInt(_)) => true
    case (PyInt(_), PyStr(_)) => false
  }

  /** The filter of line 229 for a match record as the code stores it: the
      quality is the raw one-character string from the read, compared with
      the integer threshold. */
  predicate MatchPassesAsWritten(rawQual: char, read: Read, f: Filter)
  {
    Py2AtLeast(PyStr([rawQual]), PyInt(f.minQual)) && read.flag & f.mask == 0
  }

  /** As written, the quality threshold has no effect on match records: a
      base of Phred quality 0 (character '!') passes a threshold of 20,
      which the decoded comparison the model uses rejects. */
  lemma MatchQualityIgnoredAsWritten(read: Read, rawQual: char, f: Filter)
    ensures MatchPassesAsWritten(rawQual, read, f) <==> read.flag & f.mask == 0
    ensures read.flag == 0 ==>
              MatchPassesAsWritten('!', read, Filter(20, 1540)) &&
              !Passes(Phred('!' as int), read, Filter(20, 1540))
  {
  }
}
