/** The streaming engine (`BamBaseCaller`): a buffer of pending positions
    that reads are expanded into and that is released, front first, as the
    sorted input moves past it. */
module Pileup {
  import opened Alignment
  import opened Expand
  import opened Aggregate

  /** One read of the input stream, with the region bounds the stream had
      set when it yielded the read (0 for an unset bound). */
  datatype Item = Item(read: Read, start: int, end: int)

  /** A released position, with the bounds in force when it was released. */
  datatype Release = Release(slot: MappingPos, start: int, end: int)

  function Slots(log: seq<Release>): (r: seq<MappingPos>)
    ensures |r| == |log| && forall i :: 0 <= i < |log| ==> r[i] == log[i].slot
  {
    seq(|log|, i requires 0 <= i < |log| => log[i].slot)
  }

  /** The rows the releases in `log` give, in order, and the failure that
      stopped the run, if any. */
  function Emitted(log: seq<Release>, minCount: int, f: Filter): (seq<BasePosition>, Option<Failure>)
  {
    if log == [] then ([], None)
    else
      var before := Emitted(log[..|log| - 1], minCount, f);
      if before.1.Some? then before
      else
        var last := log[|log| - 1];
        match Position(last.slot, last.start, last.end, minCount, f)
        case Err(e) => (before.0, Some(e))
        case Ok(None) => (before.0, None)
        case Ok(Some(bp)) => (before.0 + [bp], None)
  }

  // ---------------------------------------------------------------------
  // Order of (contig, position) keys.

  predicate Before(x: (int, int), y: (int, int))
  {
    x.0 < y.0 || (x.0 == y.0 && x.1 < y.1)
  }

  ghost predicate StrictlyIncreasing(ks: seq<(int, int)>)
  {
    forall i, j :: 0 <= i < j < |ks| ==> Before(ks[i], ks[j])
  }

  function KeyOf(read: Read): (int, int)
  {
    (read.tid, read.pos)
  }

  /** The input is sorted by contig, then by start position. */
  ghost predicate SortedReads(items: seq<Item>)
  {
    forall i :: 0 < i < |items| ==> !Before(KeyOf(items[i].read), KeyOf(items[i - 1].read))
  }

  function SlotKey(m: MappingPos): (int, int)
  {
    (m.tid, m.pos)
  }

  /** The keys of the released positions that lay inside the region in
      force when they were released, in release order. */
  function InRegionKeys(log: seq<Release>): seq<(int, int)>
  {
    if log == [] then []
    else
      var last := log[|log| - 1];
      InRegionKeys(log[..|log| - 1]) +
        (if InRegion(last.slot.pos, last.start, last.end) then [SlotKey(last.slot)] else [])
  }

  function RowKeys(rows: seq<BasePosition>): (ks: seq<(int, int)>)
    ensures |ks| == |rows| && forall i :: 0 <= i < |rows| ==> ks[i] == (rows[i].tid, rows[i].pos)
  {
    seq(|rows|, i requires 0 <= i < |rows| => (rows[i].tid, rows[i].pos))
  }

  lemma SlotsSnoc(log: seq<Release>, r: Release)
    ensures Slots(log + [r]) == Slots(log) + [r.slot]
  {
  }

  /** The rows of a log with one more release. */
  lemma EmittedSnoc(log: seq<Release>, r: Release, minCount: int, f: Filter)
    ensures Emitted(log + [r], minCount, f) ==
              var before := Emitted(log, minCount, f);
              if before.1.Some? then before
              else match Position(r.slot, r.start, r.end, minCount, f)
                case Err(e) => (before.0, Some(e))
                case Ok(None) => (before.0, None)
                case Ok(Some(bp)) => (before.0 + [bp], None)
  {
    assert (log + [r])[..|log|] == log;
  }

  /** Moving the front pending position to the release log keeps the
      buffer contiguous and the keys released then pending unchanged. */
  lemma ReleaseBookkeeping(log: seq<Release>, b: seq<MappingPos>, appended: seq<(int, int)>, start: int, end: int)
    requires b != [] && Contiguous(b) && Keys(Slots(log)) + Keys(b) == appended
    ensures Contiguous(b[1..]) && (b[1..] != [] ==> b[1..][0].tid == b[0].tid)
    ensures Keys(Slots(log + [Release(b[0], start, end)])) + Keys(b[1..]) == appended
  {
    SlotsSnoc(log, Release(b[0], start, end));
    KeysConcat(Slots(log), [b[0]]);
    KeysConcat([b[0]], b[1..]);
    assert b == [b[0]] + b[1..];
    ConcatAssoc(Keys(Slots(log)), Keys([b[0]]), Keys(b[1..]));
  }

  /** With no coverage threshold, a run that did not stop gives one row
      per released position inside its region, in release order. */
  lemma {:induction false} EmittedRowsAreInRegion(log: seq<Release>, f: Filter)
    requires Emitted(log, 0, f).1.None?
    ensures RowKeys(Emitted(log, 0, f).0) == InRegionKeys(log)
  {
    if log != [] {
      var init := log[..|log| - 1];
      var last := log[|log| - 1];
      EmittedRowsAreInRegion(init, f);
      PositionCharacterised(last.slot, last.start, last.end, f);
      var rows := Emitted(init, 0, f).0;
      if InRegion(last.slot.pos, last.start, last.end) {
        var bp := Position(last.slot, last.start, last.end, 0, f).value.value;
        assert Emitted(log, 0, f).0 == rows + [bp];
        assert RowKeys(rows + [bp]) == RowKeys(rows) + [SlotKey(last.slot)];
      }
    }
  }

  /** Every key kept by `InRegionKeys` is a key of the log, and keeps its
      order. */
  lemma {:induction false} InRegionKeysSubsequence(log: seq<Release>)
    ensures forall x :: x in InRegionKeys(log) ==> exists k :: 0 <= k < |log| && x == SlotKey(log[k].slot)
  {
    if log != [] {
      var init := log[..|log| - 1];
      InRegionKeysSubsequence(init);
      forall x | x in InRegionKeys(log) ensures exists k :: 0 <= k < |log| && x == SlotKey(log[k].slot) {
        if x in InRegionKeys(init) {
          var k :| 0 <= k < |init| && x == SlotKey(init[k].slot);
          assert log[k] == init[k];
        } else {
          assert x == SlotKey(log[|log| - 1].slot);
        }
      }
    }
  }

  ghost predicate ReleasedIncreasing(log: seq<Release>)
  {
    forall i, j :: 0 <= i < j < |log| ==> Before(SlotKey(log[i].slot), SlotKey(log[j].slot))
  }

  /** Dropping the positions outside the region keeps strictly increasing
      keys strictly increasing. */
  lemma {:induction false} InRegionKeysIncreasing(log: seq<Release>)
    requires ReleasedIncreasing(log)
    ensures StrictlyIncreasing(InRegionKeys(log))
  {
    if log != [] {
      var init := log[..|log| - 1];
      var last := log[|log| - 1];
      assert ReleasedIncreasing(init);
      InRegionKeysIncreasing(init);
      InRegionKeysSubsequence(init);
      var ks := InRegionKeys(init);
      if InRegion(last.slot.pos, last.start, last.end) {
        var out := ks + [SlotKey(last.slot)];
        forall i, j | 0 <= i < j < |out| ensures Before(out[i], out[j]) {
          if j == |ks| {
            assert out[i] in ks;
            var k :| 0 <= k < |init| && out[i] == SlotKey(init[k].slot);
            assert log[k] == init[k];
          } else {
            assert out[i] == ks[i] && out[j] == ks[j];
          }
        }
      }
    }
  }

  lemma KeysOfSlots(log: seq<Release>)
    ensures forall k :: 0 <= k < |log| ==> Keys(Slots(log))[k] == SlotKey(log[k].slot)
  {
  }

  /** Releasing a prefix of the pending positions keeps the released keys a
      prefix of the appended ones. */
  lemma ReleasedPrefix(r0: seq<Release>, b0: seq<MappingPos>, r: seq<Release>, d: nat, appended: seq<(int, int)>)
    requires Keys(Slots(r0)) + Keys(b0) == appended
    requires d <= |b0| && Slots(r) == Slots(r0) + b0[..d]
    ensures |r| <= |appended| && forall k :: 0 <= k < |r| ==> SlotKey(r[k].slot) == appended[k]
  {
    forall k | 0 <= k < |r| ensures SlotKey(r[k].slot) == appended[k] {
      assert r[k].slot == Slots(r)[k];
      if k < |r0| {
        assert Keys(Slots(r0))[k] == SlotKey(r0[k].slot);
        assert Slots(r)[k] == r0[k].slot;
      } else {
        assert Slots(r)[k] == b0[k - |r0|];
        assert appended[k] == Keys(b0)[k - |r0|];
      }
    }
  }

  /** When pending positions remain, the last appended key is the last
      pending one, and the first key a push adds comes right after it. */
  lemma PendingBeforeAdded(a0: seq<(int, int)>, r0: seq<Release>, b0: seq<MappingPos>, d: nat, b': seq<MappingPos>)
    requires Keys(Slots(r0)) + Keys(b0) == a0
    requires d < |b0| && |b'| > |b0| - d && Keys(b')[..|b0| - d] == Keys(b0[d..]) && Contiguous(b')
    ensures Before(a0[|a0| - 1], Keys(b')[|b0| - d])
  {
    var m := |b0| - d;
    assert a0[|a0| - 1] == Keys(b0)[|b0| - 1];
    assert Keys(b0)[|b0| - 1] == Keys(b0[d..])[m - 1];
    assert Keys(b0[d..])[m - 1] == Keys(b')[m - 1];
  }

  /** Two strictly increasing runs joined in order stay strictly increasing. */
  lemma IncreasingConcat(x: seq<(int, int)>, y: seq<(int, int)>)
    requires StrictlyIncreasing(x) && StrictlyIncreasing(y)
    requires x != [] && y != [] ==> Before(x[|x| - 1], y[0])
    ensures StrictlyIncreasing(x + y)
  {
    forall i, j | 0 <= i < j < |x + y| ensures Before((x + y)[i], (x + y)[j]) {
      if i < |x| && j >= |x| {
        assert (x + y)[j] == y[j - |x|];
        if i < |x| - 1 {
          assert Before(x[i], x[|x| - 1]);
        }
        if j > |x| {
          assert Before(y[0], y[j - |x|]);
        }
      } else if i >= |x| {
        assert (x + y)[i] == y[i - |x|] && (x + y)[j] == y[j - |x|];
      }
    }
  }

  /** The keys of consecutive positions of one contig increase strictly. */
  lemma ContiguousKeysIncreasing(b: seq<MappingPos>, m: nat)
    requires Contiguous(b) && m <= |b|
    ensures StrictlyIncreasing(Keys(b)[m..])
  {
    var ks := Keys(b)[m..];
    forall i, j | 0 <= i < j < |ks| ensures Before(ks[i], ks[j]) {
      assert ks[i] == Keys(b)[m + i] && ks[j] == Keys(b)[m + j];
    }
  }

  /** Every position released by the step of `fetch` over one read comes
      before that read's start. */
  lemma ReleasedBeforeRead(
      r0: seq<Release>, b0: seq<MappingPos>, prev: (int, int), read: Read, tidChanged: bool, r: seq<Release>, d: nat)
    requires Contiguous(b0)
    requires forall k :: 0 <= k < |r0| ==> Before(SlotKey(r0[k].slot), prev)
    requires b0 != [] ==> b0[0].tid == prev.0
    requires !Before(KeyOf(read), prev)
    requires d <= |b0| && Slots(r) == Slots(r0) + b0[..d]
    requires tidChanged ==> d == |b0| && (b0 != [] ==> b0[0].tid != read.tid)
    requires !tidChanged ==> (b0 != [] ==> b0[0].tid == read.tid) && forall j :: 0 <= j < d ==> b0[j].pos < read.pos
    ensures forall k :: 0 <= k < |r| ==> Before(SlotKey(r[k].slot), KeyOf(read))
  {
    forall k | 0 <= k < |r| ensures Before(SlotKey(r[k].slot), KeyOf(read)) {
      assert r[k].slot == Slots(r)[k];
      if k >= |r0| {
        var j := k - |r0|;
        assert Slots(r)[k] == b0[j];
        assert b0[j].tid == b0[0].tid;
      } else {
        assert Slots(r)[k] == r0[k].slot;
      }
    }
  }

  /** The keys a push appends after the step of `fetch` over one read of a
      sorted input keep the appended keys strictly increasing. */
  lemma AppendedStaysIncreasing(
      a0: seq<(int, int)>, r0: seq<Release>, b0: seq<MappingPos>, read: Read,
      r: seq<Release>, d: nat, b': seq<MappingPos>)
    requires StrictlyIncreasing(a0) && Keys(Slots(r0)) + Keys(b0) == a0
    requires d <= |b0| && Slots(r) == Slots(r0) + b0[..d]
    requires forall k :: 0 <= k < |r| ==> Before(SlotKey(r[k].slot), KeyOf(read))
    requires |b'| >= |b0| - d && Keys(b')[..|b0| - d] == Keys(b0[d..]) && Contiguous(b') && b' != []
    requires b'[0].tid == read.tid && (d == |b0| ==> b'[0].pos == read.pos)
    ensures StrictlyIncreasing(a0 + Keys(b')[|b0| - d..])
  {
    var m := |b0| - d;
    ContiguousKeysIncreasing(b', m);
    var added := Keys(b')[m..];
    if a0 != [] && added != [] {
      if d < |b0| {
        PendingBeforeAdded(a0, r0, b0, d, b');
      } else {
        ReleasedPrefix(r0, b0, r, d, a0);
        assert |r| == |a0|;
        assert added[0] == (b'[0].tid, b'[0].pos);
        assert Before(SlotKey(r[|r| - 1].slot), KeyOf(read));
      }
    }
    IncreasingConcat(a0, added);
  }

  /** The result of one CIGAR operation run on the object's buffer, as a
      walk over that buffer. */
  function Resumed(r: Result<(nat, nat)>, buf: seq<MappingPos>): Result<Walk>
  {
    match r
    case Ok(cursors) => Ok(Walk(buf, cursors.0, cursors.1))
    case Err(e) => Err(e)
  }

  /** When the pending positions only grow at the back, the keys released
      and pending grow by the new keys. */
  lemma GrowKeepsBookkeeping(b: seq<MappingPos>, b': seq<MappingPos>, log: seq<Release>, appended: seq<(int, int)>)
    requires |b'| >= |b| && Keys(b')[..|b|] == Keys(b)
    requires Keys(Slots(log)) + Keys(b) == appended
    ensures Keys(Slots(log)) + Keys(b') == appended + Keys(b')[|b|..]
  {
    var ks := Keys(b');
    assert ks == Keys(b) + ks[|b|..] by {
      assert ks == ks[..|b|] + ks[|b|..];
    }
    ConcatAssoc(Keys(Slots(log)), Keys(b), ks[|b|..]);
  }

  lemma ConcatAssoc<T>(x: seq<T>, y: seq<T>, z: seq<T>)
    ensures x + (y + z) == (x + y) + z
  {
  }

  /** Releasing the next pending slot extends the released prefix by one. */
  lemma ReleaseStep(r0: seq<Release>, b0: seq<MappingPos>, prev: seq<Release>, d: nat, next: Release)
    requires d < |b0| && Slots(prev) == Slots(r0) + b0[..d] && next.slot == b0[d]
    ensures Slots(prev + [next]) == Slots(r0) + b0[..d + 1]
  {
    SlotsSnoc(prev, next);
    assert b0[..d + 1] == b0[..d] + [b0[d]];
  }

  /** Releasing a prefix of strictly increasing appended keys releases
      positions in strictly increasing order. */
  lemma PrefixReleasesIncreasing(r0: seq<Release>, b0: seq<MappingPos>, r: seq<Release>, d: nat, appended: seq<(int, int)>)
    requires StrictlyIncreasing(appended) && Keys(Slots(r0)) + Keys(b0) == appended
    requires d <= |b0| && Slots(r) == Slots(r0) + b0[..d]
    ensures ReleasedIncreasing(r)
  {
    ReleasedPrefix(r0, b0, r, d, appended);
    forall i, j | 0 <= i < j < |r| ensures Before(SlotKey(r[i].slot), SlotKey(r[j].slot)) {
      assert SlotKey(r[i].slot) == appended[i] && SlotKey(r[j].slot) == appended[j];
    }
  }

  /** What a drain of a prefix of the pending positions shows about the
      rows: one per released position inside its region, and, when the
      appended keys increase, in strictly increasing order. */
  lemma DrainedInOrder(r0: seq<Release>, b0: seq<MappingPos>, r: seq<Release>, d: nat, appended: seq<(int, int)>, f: Filter)
    requires Keys(Slots(r0)) + Keys(b0) == appended
    requires d <= |b0| && Slots(r) == Slots(r0) + b0[..d]
    ensures StrictlyIncreasing(appended) ==> ReleasedIncreasing(r)
    ensures Emitted(r, 0, f).1.None? ==> RowKeys(Emitted(r, 0, f).0) == InRegionKeys(r)
    ensures StrictlyIncreasing(appended) && Emitted(r, 0, f).1.None? ==> StrictlyIncreasing(RowKeys(Emitted(r, 0, f).0))
  {
    if StrictlyIncreasing(appended) {
      PrefixReleasesIncreasing(r0, b0, r, d, appended);
      InRegionKeysIncreasing(r);
    }
    if Emitted(r, 0, f).1.None? {
      EmittedRowsAreInRegion(r, f);
    }
  }

  /** Once nothing is pending, the release log alone accounts for every
      appended key. */
  lemma EmptyBufferAccounted(r: seq<Release>, b: seq<MappingPos>, appended: seq<(int, int)>)
    requires Keys(Slots(r)) + Keys(b) == appended
    ensures b == [] ==> Keys(Slots(r)) == appended
  {
    if b == [] {
      assert Keys(b) == [];
      assert Keys(Slots(r)) + [] == Keys(Slots(r));
    }
  }

  /** One read of a sorted stream keeps the order facts: what the step
      released increases, every released position comes before the read,
      and the keys the push appended extend the increasing run. The
      arguments are the state before (`a0`, `r0`, `b0`, `tid0`) and after
      (`r`, `b'`, `a'`) the step, `d` the number of releases and `ok`
      whether the step succeeded. */
  lemma StepKeepsOrder(
      a0: seq<(int, int)>, r0: seq<Release>, b0: seq<MappingPos>, tid0: Option<int>,
      prev: Option<(int, int)>, read: Read,
      r: seq<Release>, d: nat, rest: seq<MappingPos>, b': seq<MappingPos>, a': seq<(int, int)>, ok: bool)
    requires Contiguous(b0) && (b0 != [] ==> tid0 == Some(b0[0].tid)) && Keys(Slots(r0)) + Keys(b0) == a0
    requires StrictlyIncreasing(a0)
    requires prev.None? ==> r0 == [] && b0 == []
    requires prev.Some? ==> tid0 == Some(prev.value.0) && !Before(KeyOf(read), prev.value)
    requires prev.Some? ==> forall k :: 0 <= k < |r0| ==> Before(SlotKey(r0[k].slot), prev.value)
    requires d <= |b0| && Slots(r) == Slots(r0) + b0[..d] && rest == b0[d..]
    requires tid0 == Some(read.tid) ==> forall j :: 0 <= j < d ==> b0[j].pos < read.pos
    requires ok ==> (tid0 != Some(read.tid) ==> d == |b0|)
    requires ok ==> |b'| >= |rest| && Keys(b')[..|rest|] == Keys(rest) && Contiguous(b') && b' != []
    requires ok ==> b'[0].tid == read.tid && (d == |b0| ==> b'[0].pos == read.pos)
    requires ok ==> a' == a0 + Keys(b')[|rest|..]
    ensures ReleasedIncreasing(r)
    ensures ok ==> StrictlyIncreasing(a')
    ensures ok ==> forall k :: 0 <= k < |r| ==> Before(SlotKey(r[k].slot), KeyOf(read))
  {
    PrefixReleasesIncreasing(r0, b0, r, d, a0);
    if ok {
      var p := if prev.Some? then prev.value else KeyOf(read);
      ReleasedBeforeRead(r0, b0, p, read, tid0 != Some(read.tid), r, d);
      assert |rest| == |b0| - d;
      AppendedStaysIncreasing(a0, r0, b0, read, r, d, b');
    }
  }

  // ---------------------------------------------------------------------
  // The whole of `fetch` as a fold over the stream of reads.

  /** The releases of the slots `b`, front first, under one pair of region
      bounds. */
  function Drain(b: seq<MappingPos>, start: int, end: int): (r: seq<Release>)
    ensures |r| == |b| && forall i :: 0 <= i < |b| ==> r[i] == Release(b[i], start, end)
  {
    seq(|b|, i requires 0 <= i < |b| => Release(b[i], start, end))
  }

  /** How many slots at the front of `b` lie before position `p`: those the
      loop of `fetch` over the positions 5' of a read releases. */
  function CountBefore(b: seq<MappingPos>, p: int): (n: nat)
    ensures n <= |b|
    ensures forall j :: 0 <= j < n ==> b[j].pos < p
    ensures n < |b| ==> b[n].pos >= p
  {
    if b != [] && b[0].pos < p then 1 + CountBefore(b[1..], p) else 0
  }

  /** The engine between two reads: the current contig, the pending slots
      and every release so far. */
  datatype Engine = Engine(tid: Option<int>, buffer: seq<MappingPos>, log: seq<Release>)

  /** One read of the stream: drain the buffer on a new contig, otherwise
      release the slots before the read's start, all under the bounds the
      stream set for the read; then push the read onto what is left. The
      failure is that of the push. */
  function Step(e: Engine, item: Item): (Engine, Option<Failure>)
  {
    var read := item.read;
    var d := if e.tid == Some(read.tid) then CountBefore(e.buffer, read.pos) else |e.buffer|;
    var log := e.log + Drain(e.buffer[..d], item.start, item.end);
    match Push(e.buffer[d..], read)
    case Ok(b) => (Engine(Some(read.tid), b, log), None)
    case Err(x) => (Engine(Some(read.tid), e.buffer[d..], log), Some(x))
  }

  /** The engine after the reads of `items`, and the failure of the push
      that stopped it, if any (the reads after it are not taken). */
  function Run(items: seq<Item>): (Engine, Option<Failure>)
  {
    if items == [] then (Engine(None, [], []), None)
    else
      var before := Run(items[..|items| - 1]);
      if before.1.Some? then before else Step(before.0, items[|items| - 1])
  }

  /** Every release of `fetch` over `items`: those of the reads, then, when
      no push failed, the final drain under the bounds left at the end. */
  function RunLog(items: seq<Item>, finalStart: int, finalEnd: int): seq<Release>
  {
    var run := Run(items);
    if run.1.Some? then run.0.log else run.0.log + Drain(run.0.buffer, finalStart, finalEnd)
  }

  /** The rows `fetch` yields over `items` and the failure that ends it:
      the first failing release, else the failing push, else none. */
  function Outcome(items: seq<Item>, finalStart: int, finalEnd: int, f: Filter): (seq<BasePosition>, Option<Failure>)
  {
    var rows := Emitted(RunLog(items, finalStart, finalEnd), 0, f);
    if rows.1.Some? then rows else (rows.0, Run(items).1)
  }

  /** `Step` releases a front part of the pending slots under the read's
      bounds: all of them on a new contig, otherwise exactly those before
      the read's start; and the read's contig becomes the current one. */
  lemma StepReleasesFront(e: Engine, item: Item)
    ensures var s := Step(e, item);
            |e.log| <= |s.0.log| <= |e.log| + |e.buffer| &&
            s.0.log == e.log + Drain(e.buffer[..|s.0.log| - |e.log|], item.start, item.end) &&
            s.0.tid == Some(item.read.tid) &&
            (e.tid != Some(item.read.tid) ==> |s.0.log| == |e.log| + |e.buffer|) &&
            (e.tid == Some(item.read.tid) ==>
               (forall j :: 0 <= j < |s.0.log| - |e.log| ==> e.buffer[j].pos < item.read.pos) &&
               (|s.0.log| - |e.log| < |e.buffer| ==> e.buffer[|s.0.log| - |e.log|].pos >= item.read.pos))
  {
  }

  lemma SlotsOfDrain(b: seq<MappingPos>, start: int, end: int)
    ensures Slots(Drain(b, start, end)) == b
  {
  }

  lemma DrainPrefix(b: seq<MappingPos>, k: nat, start: int, end: int)
    requires k <= |b|
    ensures Drain(b[..k], start, end) == Drain(b, start, end)[..k]
  {
  }

  lemma DrainSnoc(b: seq<MappingPos>, k: nat, start: int, end: int)
    requires k < |b|
    ensures Drain(b[..k + 1], start, end) == Drain(b[..k], start, end) + [Release(b[k], start, end)]
  {
    assert Drain(b[..k + 1], start, end)[..k] == Drain(b[..k], start, end);
  }

  /** A count of front slots all before `p` is at most `CountBefore`, and
      equal to it when the next slot, if any, is not before `p`. */
  lemma CountBeforeBounds(b: seq<MappingPos>, p: int, d: nat)
    requires d <= |b| && forall j :: 0 <= j < d ==> b[j].pos < p
    ensures d <= CountBefore(b, p)
    ensures d == |b| || b[d].pos >= p ==> d == CountBefore(b, p)
  {
  }

  /** Once a run of releases has stopped on a failure, further releases
      change nothing. */
  lemma {:induction false} EmittedPrefixFailure(p: seq<Release>, q: seq<Release>, minCount: int, f: Filter)
    requires p <= q && Emitted(p, minCount, f).1.Some?
    ensures Emitted(q, minCount, f) == Emitted(p, minCount, f)
    decreases |q|
  {
    if |q| > |p| {
      assert p <= q[..|q| - 1];
      EmittedPrefixFailure(p, q[..|q| - 1], minCount, f);
    } else {
      assert p == q;
    }
  }

  lemma RunSnoc(items: seq<Item>, i: nat)
    requires i < |items|
    ensures Run(items[..i + 1]) ==
              if Run(items[..i]).1.Some? then Run(items[..i]) else Step(Run(items[..i]).0, items[i])
  {
    assert items[..i + 1][..i] == items[..i];
  }

  /** A run that stopped on a prefix of the stream is the whole run. */
  lemma {:induction false} RunStops(items: seq<Item>, k: nat)
    requires k <= |items| && Run(items[..k]).1.Some?
    ensures Run(items) == Run(items[..k])
  {
    if k < |items| {
      var init := items[..|items| - 1];
      assert init[..k] == items[..k];
      RunStops(init, k);
    } else {
      assert items[..k] == items;
    }
  }

  /** The releases of a run over a prefix of the stream are a prefix of
      those of the run over the whole stream. */
  lemma {:induction false} RunLogGrows(items: seq<Item>, k: nat)
    requires k <= |items|
    ensures Run(items[..k]).0.log <= Run(items).0.log
  {
    if k < |items| {
      var init := items[..|items| - 1];
      assert init[..k] == items[..k];
      RunLogGrows(init, k);
    } else {
      assert items[..k] == items;
    }
  }

  /** The state after a read of `fetch`, set against `Step`. `log` and `d`
      are the release log and the number of releases after the releases of
      the read, `rest` what is then pending, `failed` whether a release
      failed. */
  lemma ReleasesMatchStep(e: Engine, item: Item, log: seq<Release>, d: nat, rest: seq<MappingPos>, failed: bool)
    requires d <= |e.buffer| && rest == e.buffer[d..]
    requires log == e.log + Drain(e.buffer[..d], item.start, item.end)
    requires e.tid == Some(item.read.tid) ==> forall j :: 0 <= j < d ==> e.buffer[j].pos < item.read.pos
    requires !failed ==> e.tid != Some(item.read.tid) ==> d == |e.buffer|
    requires !failed ==> e.tid == Some(item.read.tid) && rest != [] ==> rest[0].pos >= item.read.pos
    ensures log <= Step(e, item).0.log
    ensures !failed ==>
              log == Step(e, item).0.log &&
              match Push(rest, item.read)
              case Ok(b) => Step(e, item) == (Engine(Some(item.read.tid), b, log), None)
              case Err(x) => Step(e, item).1 == Some(x)
  {
    var sd := if e.tid == Some(item.read.tid) then CountBefore(e.buffer, item.read.pos) else |e.buffer|;
    if e.tid == Some(item.read.tid) {
      CountBeforeBounds(e.buffer, item.read.pos, d);
    }
    DrainPrefix(e.buffer[..sd], d, item.start, item.end);
    assert e.buffer[..sd][..d] == e.buffer[..d];
  }

  /** What a read of `fetch` that left the release log `now.log` and the
      failure `failure` did, set against `Step`: it released a prefix of
      what `Step` releases, all of it unless a release failed, and it ends
      in `Step`'s state, or with `Step`'s failure when the push failed. */
  ghost predicate Follows(s: (Engine, Option<Failure>), now: Engine, failure: Option<Failure>, releaseFailed: bool)
  {
    now.log <= s.0.log &&
    (failure.None? ==> (now, failure) == s) &&
    (failure.Some? && !releaseFailed ==> now.log == s.0.log && failure == s.1)
  }

  /** The state after the releases of a read and the push of the read
      follows `Step`. */
  /** What one read of `fetch` did from the engine `e`, leaving `now`:
      it released the first `d` pending slots, all of them before the
      read's start on the same contig; unless a release failed, it
      released all the slots of another contig and every slot before the
      read's start, then pushed the read onto the `rest`, leaving the
      pushed buffer on the read's contig or the push's failure. */
  ghost predicate Advanced(
      e: Engine, item: Item, d: nat, rest: seq<MappingPos>, failed: bool, failure: Option<Failure>, now: Engine)
  {
    d <= |e.buffer| && rest == e.buffer[d..] &&
    now.log == e.log + Drain(e.buffer[..d], item.start, item.end) &&
    (e.tid == Some(item.read.tid) ==> forall j :: 0 <= j < d ==> e.buffer[j].pos < item.read.pos) &&
    (!failed ==> e.tid != Some(item.read.tid) ==> d == |e.buffer|) &&
    (!failed ==> e.tid == Some(item.read.tid) && rest != [] ==> rest[0].pos >= item.read.pos) &&
    (failed ==> failure.Some?) &&
    (failure.None? ==> now.tid == Some(item.read.tid) && Push(rest, item.read) == Ok(now.buffer)) &&
    (failure.Some? && !failed ==> Push(rest, item.read) == Err(failure.value))
  }

  lemma ReadFollowsStep(
      e: Engine, item: Item, d: nat, rest: seq<MappingPos>, failed: bool, failure: Option<Failure>, now: Engine)
    requires Advanced(e, item, d, rest, failed, failure, now)
    ensures Follows(Step(e, item), now, failure, failed)
  {
    ReleasesMatchStep(e, item, now.log, d, rest, failed);
  }

  /** A read of `fetch` that succeeded extends the run by one read. */
  lemma NextRead(items: seq<Item>, i: nat, now: Engine)
    requires i < |items| && Run(items[..i]).1.None?
    requires (now, None) == Step(Run(items[..i]).0, items[i])
    ensures Run(items[..i + 1]) == (now, None)
  {
    RunSnoc(items, i);
  }

  /** A read of `fetch` that failed ends the run: a release failure ends
      it with that release's failure, a push failure with the push's. */
  lemma FailedRead(items: seq<Item>, i: nat, now: Engine, failure: Option<Failure>, finalStart: int, finalEnd: int, f: Filter)
    requires i < |items| && Run(items[..i]).1.None? && failure.Some?
    requires Follows(Step(Run(items[..i]).0, items[i]), now, failure, Emitted(now.log, 0, f).1.Some?)
    requires Emitted(now.log, 0, f).1.Some? ==> failure == Emitted(now.log, 0, f).1
    ensures now.log <= RunLog(items, finalStart, finalEnd)
    ensures (Emitted(now.log, 0, f).0, failure) == Outcome(items, finalStart, finalEnd, f)
  {
    var log := now.log;
    RunSnoc(items, i);
    RunLogGrows(items, i + 1);
    var whole := RunLog(items, finalStart, finalEnd);
    assert Run(items).0.log <= whole;
    if Emitted(log, 0, f).1.Some? {
      EmittedPrefixFailure(log, whole, 0, f);
    } else {
      RunStops(items, i + 1);
    }
  }

  /** The end of `fetch` after every read was pushed: the final drain
      releases a prefix of the pending slots, all of them unless a release
      failed. */
  lemma FinalDrain(items: seq<Item>, log: seq<Release>, failure: Option<Failure>, finalStart: int, finalEnd: int, f: Filter)
    requires Run(items).1.None?
    requires log <= RunLog(items, finalStart, finalEnd)
    requires failure == Emitted(log, 0, f).1
    requires failure.None? ==> log == RunLog(items, finalStart, finalEnd)
    ensures (Emitted(log, 0, f).0, failure) == Outcome(items, finalStart, finalEnd, f)
  {
    if failure.Some? {
      EmittedPrefixFailure(log, RunLog(items, finalStart, finalEnd), 0, f);
    }
  }

  // ---------------------------------------------------------------------
  // What the fold shows about a sorted stream.

  lemma SlotsConcat(x: seq<Release>, y: seq<Release>)
    ensures Slots(x + y) == Slots(x) + Slots(y)
  {
  }

  lemma ContiguousSuffix(b: seq<MappingPos>, d: nat)
    requires Contiguous(b) && d <= |b|
    ensures Contiguous(b[d..])
    ensures d < |b| ==> b[d].tid == b[0].tid && b[d].pos == b[0].pos + d
  {
  }

  /** An engine whose pending slots are one contiguous run of the current
      contig. */
  ghost predicate WellFormed(e: Engine)
  {
    Contiguous(e.buffer) && (e.buffer != [] ==> e.tid == Some(e.buffer[0].tid))
  }

  /** How the read `read`, with bounds `start` and `end`, splits the
      engine `e`: the first `d` pending slots are released, giving `log`,
      all of them on a new contig and otherwise exactly those before the
      read's start; the `rest` is a contiguous run of the read's contig. */
  ghost predicate Splits(e: Engine, read: Read, start: int, end: int, d: nat, rest: seq<MappingPos>, log: seq<Release>)
  {
    d <= |e.buffer| && rest == e.buffer[d..] &&
    log == e.log + Drain(e.buffer[..d], start, end) &&
    Slots(log) == Slots(e.log) + e.buffer[..d] &&
    Keys(Slots(log)) + Keys(rest) == Keys(Slots(e.log)) + Keys(e.buffer) &&
    Contiguous(rest) && (rest == [] || rest[0].tid == read.tid) &&
    (e.tid != Some(read.tid) ==> d == |e.buffer|) &&
    (e.tid == Some(read.tid) ==>
       (forall j :: 0 <= j < d ==> e.buffer[j].pos < read.pos) &&
       (rest != [] ==> rest[0].pos >= read.pos))
  }

  /** The parts of one `Step` on a well-formed engine: the split above,
      then the push of the read onto the rest; when that push succeeds the
      engine holds its result. */
  lemma StepParts(e: Engine, item: Item) returns (d: nat, rest: seq<MappingPos>, log: seq<Release>)
    requires WellFormed(e)
    ensures Splits(e, item.read, item.start, item.end, d, rest, log)
    ensures log == Step(e, item).0.log
    ensures Step(e, item).1.None? <==> Push(rest, item.read).Ok?
    ensures Push(rest, item.read).Ok? ==>
              Step(e, item).0 == Engine(Some(item.read.tid), Push(rest, item.read).value, log)
  {
    StepReleasesFront(e, item);
    log := Step(e, item).0.log;
    d := |log| - |e.log|;
    rest := e.buffer[d..];
    SplitsFront(e, item.read, item.start, item.end, d, log);
  }

  lemma SplitsFront(e: Engine, read: Read, start: int, end: int, d: nat, log: seq<Release>)
    requires WellFormed(e) && d <= |e.buffer|
    requires log == e.log + Drain(e.buffer[..d], start, end)
    requires e.tid != Some(read.tid) ==> d == |e.buffer|
    requires e.tid == Some(read.tid) ==>
               (forall j :: 0 <= j < d ==> e.buffer[j].pos < read.pos) &&
               (d < |e.buffer| ==> e.buffer[d].pos >= read.pos)
    ensures Splits(e, read, start, end, d, e.buffer[d..], log)
  {
    var rest := e.buffer[d..];
    SlotsConcat(e.log, Drain(e.buffer[..d], start, end));
    SlotsOfDrain(e.buffer[..d], start, end);
    ContiguousSuffix(e.buffer, d);
    KeysConcat(Slots(e.log), e.buffer[..d]);
    KeysConcat(e.buffer[..d], rest);
    assert e.buffer == e.buffer[..d] + rest;
    ConcatAssoc(Keys(Slots(e.log)), Keys(e.buffer[..d]), Keys(rest));
  }

  /** The buffer `b'` a successful push of `read` onto `rest` leaves: the
      old slots first, with the same keys, then new ones; one contiguous
      run of the read's contig from the read's start, when `rest` was
      empty, to at least the read's end. */
  ghost predicate PushedOnto(rest: seq<MappingPos>, read: Read, b': seq<MappingPos>)
  {
    |b'| >= |rest| && Keys(b')[..|rest|] == Keys(rest) &&
    Contiguous(b') && b' != [] && b'[0].tid == read.tid &&
    (rest == [] ==> b'[0].pos == read.pos) &&
    (rest != [] ==> b'[0].pos == rest[0].pos) &&
    b'[|b'| - 1].pos >= read.aend
  }

  lemma Pushed(rest: seq<MappingPos>, read: Read) returns (b': seq<MappingPos>)
    requires Contiguous(rest) && (rest == [] || rest[0].tid == read.tid) && Push(rest, read).Ok?
    ensures b' == Push(rest, read).value && PushedOnto(rest, read, b')
  {
    PushShape(rest, read);
    b' := Push(rest, read).value;
  }

  /** After the reads of a sorted stream whose last read has key `last`:
      the engine is well formed, the keys released then pending increase
      strictly, and every released position comes before `last`. */
  ghost predicate Ordered(e: Engine, last: Option<(int, int)>)
  {
    WellFormed(e) &&
    StrictlyIncreasing(Keys(Slots(e.log)) + Keys(e.buffer)) &&
    (last.None? ==> e == Engine(None, [], [])) &&
    (last.Some? ==>
       e.tid == Some(last.value.0) &&
       forall k :: 0 <= k < |e.log| ==> Before(SlotKey(e.log[k].slot), last.value))
  }

  /** The order facts of one read, on the split and the pushed buffer. */
  lemma SplitOrdered(
      e: Engine, last: Option<(int, int)>, read: Read, start: int, end: int,
      d: nat, rest: seq<MappingPos>, log: seq<Release>, ok: bool, b': seq<MappingPos>)
    requires Ordered(e, last) && (last.Some? ==> !Before(KeyOf(read), last.value))
    requires Splits(e, read, start, end, d, rest, log)
    requires ok ==> PushedOnto(rest, read, b')
    ensures ReleasedIncreasing(log)
    ensures ok ==> Ordered(Engine(Some(read.tid), b', log), Some(KeyOf(read)))
  {
    var a0 := Keys(Slots(e.log)) + Keys(e.buffer);
    var a' := if ok then a0 + Keys(b')[|rest|..] else a0;
    StepKeepsOrder(a0, e.log, e.buffer, e.tid, last, read, log, d, rest, b', a', ok);
    if ok {
      GrowKeepsBookkeeping(rest, b', log, a0);
    }
  }

  /** One read that does not come before the previous one keeps the engine
      ordered and releases positions in strictly increasing order. */
  lemma StepOrdered(e: Engine, item: Item, last: Option<(int, int)>)
    requires Ordered(e, last) && (last.Some? ==> !Before(KeyOf(item.read), last.value))
    ensures ReleasedIncreasing(Step(e, item).0.log)
    ensures Step(e, item).1.None? ==> Ordered(Step(e, item).0, Some(KeyOf(item.read)))
  {
    var d, rest, log := StepParts(e, item);
    if Push(rest, item.read).Ok? {
      var b' := Pushed(rest, item.read);
      SplitOrdered(e, last, item.read, item.start, item.end, d, rest, log, true, b');
    } else {
      SplitOrdered(e, last, item.read, item.start, item.end, d, rest, log, false, []);
    }
  }

  /** The keys of a log increase strictly exactly when its positions were
      released in strictly increasing order. */
  lemma IncreasingKeysReleased(log: seq<Release>)
    requires StrictlyIncreasing(Keys(Slots(log)))
    ensures ReleasedIncreasing(log)
  {
    KeysOfSlots(log);
  }

  /** A sorted stream without its last read is sorted, and that read does
      not come before the one before it. */
  lemma SortedInit(items: seq<Item>)
    requires SortedReads(items) && items != []
    ensures SortedReads(items[..|items| - 1])
    ensures |items| > 1 ==> !Before(KeyOf(items[|items| - 1].read), KeyOf(items[..|items| - 1][|items| - 2].read))
  {
    var init := items[..|items| - 1];
    forall i | 0 < i < |init| ensures !Before(KeyOf(init[i].read), KeyOf(init[i - 1].read)) {
      assert init[i] == items[i] && init[i - 1] == items[i - 1];
    }
  }

  /** A sorted stream keeps the engine ordered read by read, and its
      releases increase strictly. */
  lemma {:induction false} RunOrdered(items: seq<Item>)
    requires SortedReads(items)
    ensures ReleasedIncreasing(Run(items).0.log)
    ensures Run(items).1.None? ==>
              Ordered(Run(items).0, if items == [] then None else Some(KeyOf(items[|items| - 1].read)))
  {
    if items != [] {
      var init := items[..|items| - 1];
      SortedInit(items);
      RunOrdered(init);
      if Run(init).1.None? {
        var last := if init == [] then None else Some(KeyOf(init[|init| - 1].read));
        StepOrdered(Run(init).0, items[|items| - 1], last);
      }
    }
  }

  /** Every position `fetch` releases over a sorted stream, the final drain
      included, comes after the ones released before it. */
  lemma RunLogIncreasing(items: seq<Item>, finalStart: int, finalEnd: int)
    requires SortedReads(items)
    ensures ReleasedIncreasing(RunLog(items, finalStart, finalEnd))
  {
    RunOrdered(items);
    var run := Run(items);
    if run.1.None? {
      var drain := Drain(run.0.buffer, finalStart, finalEnd);
      SlotsConcat(run.0.log, drain);
      SlotsOfDrain(run.0.buffer, finalStart, finalEnd);
      KeysConcat(Slots(run.0.log), run.0.buffer);
      IncreasingKeysReleased(run.0.log + drain);
    }
  }

  /** Over a sorted stream, `fetch` releases, and so reports, positions in
      strictly increasing order, however early it stops. */
  lemma SortedOutcome(items: seq<Item>, finalStart: int, finalEnd: int, log: seq<Release>, f: Filter)
    requires SortedReads(items) && log <= RunLog(items, finalStart, finalEnd)
    ensures ReleasedIncreasing(log)
    ensures Emitted(log, 0, f).1.None? ==> StrictlyIncreasing(RowKeys(Emitted(log, 0, f).0))
  {
    RunLogIncreasing(items, finalStart, finalEnd);
    var whole := RunLog(items, finalStart, finalEnd);
    assert forall k :: 0 <= k < |log| ==> log[k] == whole[k];
    InRegionKeysIncreasing(log);
    if Emitted(log, 0, f).1.None? {
      EmittedRowsAreInRegion(log, f);
    }
  }

  /** The reference positions a read spans: from its start to its end,
      both included, on its contig. */
  predicate Spans(read: Read, key: (int, int))
  {
    key.0 == read.tid && read.pos <= key.1 <= read.aend
  }

  /** After the reads `items` of a sorted stream: the engine is well
      formed, its first pending slot is the last read's start, and every
      position a read spans was released or is pending. */
  ghost predicate Covering(e: Engine, items: seq<Item>)
  {
    WellFormed(e) &&
    (items == [] ==> e == Engine(None, [], [])) &&
    (items != [] ==>
       e.tid == Some(items[|items| - 1].read.tid) && e.buffer != [] &&
       SlotKey(e.buffer[0]) == KeyOf(items[|items| - 1].read)) &&
    forall i, key :: 0 <= i < |items| && Spans(items[i].read, key) ==>
      key in Keys(Slots(e.log)) + Keys(e.buffer)
  }

  /** A successful push leaves every key of a contiguous buffer that starts
      at the read's start and reaches its end pending. */
  lemma PushedSpan(b: seq<MappingPos>, read: Read, key: (int, int))
    requires Contiguous(b) && b != [] && SlotKey(b[0]) == KeyOf(read) && b[|b| - 1].pos >= read.aend
    requires Spans(read, key)
    ensures key in Keys(b)
  {
    var j := key.1 - read.pos;
    assert Keys(b)[j] == key;
  }

  /** Keys kept at the front of a grown buffer stay released or pending,
      and a buffer that runs from the read's start to its end holds the
      read's span. */
  lemma SpansKept(
      init: seq<Item>, item: Item, before: seq<(int, int)>, log: seq<Release>, rest: seq<MappingPos>, b': seq<MappingPos>)
    requires forall i, key :: 0 <= i < |init| && Spans(init[i].read, key) ==> key in before
    requires before == Keys(Slots(log)) + Keys(rest)
    requires |b'| >= |rest| && Keys(b')[..|rest|] == Keys(rest)
    requires Contiguous(b') && b' != [] && SlotKey(b'[0]) == KeyOf(item.read) && b'[|b'| - 1].pos >= item.read.aend
    ensures forall i, key :: 0 <= i < |init + [item]| && Spans((init + [item])[i].read, key) ==>
              key in Keys(Slots(log)) + Keys(b')
  {
    var items := init + [item];
    forall i, key | 0 <= i < |items| && Spans(items[i].read, key)
      ensures key in Keys(Slots(log)) + Keys(b')
    {
      if i == |init| {
        assert items[i] == item;
        PushedSpan(b', item.read, key);
        var j :| 0 <= j < |Keys(b')| && Keys(b')[j] == key;
        assert (Keys(Slots(log)) + Keys(b'))[|Slots(log)| + j] == key;
      } else {
        assert items[i] == init[i] && Spans(init[i].read, key);
        assert key in before;
        var k :| 0 <= k < |before| && before[k] == key;
        if k >= |log| {
          assert Keys(rest)[k - |log|] == Keys(b')[k - |log|];
          assert (Keys(Slots(log)) + Keys(b'))[k] == key;
        } else {
          assert (Keys(Slots(log)) + Keys(b'))[k] == key;
        }
      }
    }
  }

  /** On the same contig, a read of a sorted stream lands where the slots
      it did not release begin: that first kept slot is the read's start. */
  lemma KeptStartsAtRead(b: seq<MappingPos>, d: nat, read: Read, last: Read)
    requires Contiguous(b) && d < |b| && SlotKey(b[0]) == KeyOf(last)
    requires b[0].tid == read.tid && !Before(KeyOf(read), KeyOf(last))
    requires forall j :: 0 <= j < d ==> b[j].pos < read.pos
    requires b[d].pos >= read.pos
    ensures SlotKey(b[d]) == KeyOf(read)
  {
    if d > 0 {
      assert b[d - 1].pos < read.pos;
    }
  }

  /** The coverage facts of one read, on the split and the pushed buffer. */
  lemma SplitCovers(
      e: Engine, init: seq<Item>, item: Item, d: nat, rest: seq<MappingPos>, log: seq<Release>, b': seq<MappingPos>)
    requires Covering(e, init)
    requires init != [] ==> !Before(KeyOf(item.read), KeyOf(init[|init| - 1].read))
    requires Splits(e, item.read, item.start, item.end, d, rest, log)
    requires PushedOnto(rest, item.read, b')
    ensures Covering(Engine(Some(item.read.tid), b', log), init + [item])
  {
    var read := item.read;
    if rest != [] {
      KeptStartsAtRead(e.buffer, d, read, init[|init| - 1].read);
    }
    SpansKept(init, item, Keys(Slots(e.log)) + Keys(e.buffer), log, rest, b');
    assert (init + [item])[|init|] == item;
  }

  /** One read of a sorted stream keeps every spanned position released or
      pending, and pushes the read's own span. */
  lemma StepCovers(e: Engine, init: seq<Item>, item: Item)
    requires Covering(e, init)
    requires init != [] ==> !Before(KeyOf(item.read), KeyOf(init[|init| - 1].read))
    requires Step(e, item).1.None?
    ensures Covering(Step(e, item).0, init + [item])
  {
    var d, rest, log := StepParts(e, item);
    var b' := Pushed(rest, item.read);
    SplitCovers(e, init, item, d, rest, log, b');
  }

  /** The step of the induction below: the last read of a sorted stream
      keeps the spans of all reads released or pending. */
  lemma CoversNext(items: seq<Item>)
    requires items != [] && Run(items).1.None?
    requires var init := items[..|items| - 1];
             Covering(Run(init).0, init) &&
             (init != [] ==> !Before(KeyOf(items[|items| - 1].read), KeyOf(init[|init| - 1].read)))
    ensures Covering(Run(items).0, items)
  {
    var init := items[..|items| - 1];
    var item := items[|items| - 1];
    if Run(init).1.Some? {
      assert false;
    }
    StepCovers(Run(init).0, init, item);
    SnocInit(items);
  }

  lemma SnocInit<T>(s: seq<T>)
    requires s != []
    ensures s[..|s| - 1] + [s[|s| - 1]] == s
  {
  }

  /** Over a sorted stream that no push stopped, every position between a
      read's start and its end, both included, was released or is
      pending. */
  lemma {:induction false} RunCoversSpans(items: seq<Item>)
    requires SortedReads(items) && Run(items).1.None?
    ensures Covering(Run(items).0, items)
  {
    if items != [] {
      var init := items[..|items| - 1];
      SortedInit(items);
      RunCoversSpans(init);
      CoversNext(items);
    }
  }

  /** `fetch` over a sorted stream that no push stopped releases every
      position each read spans, its start through its end. */
  lemma RunReleasesSpans(items: seq<Item>, finalStart: int, finalEnd: int, i: nat, key: (int, int))
    requires SortedReads(items) && Run(items).1.None?
    requires i < |items| && Spans(items[i].read, key)
    ensures key in Keys(Slots(RunLog(items, finalStart, finalEnd)))
  {
    RunCoversSpans(items);
    var run := Run(items).0;
    SlotsConcat(run.log, Drain(run.buffer, finalStart, finalEnd));
    SlotsOfDrain(run.buffer, finalStart, finalEnd);
    KeysConcat(Slots(run.log), run.buffer);
  }

  /** The log `r` and the pending slots `b` are the log `r0` and the
      pending slots `b0` after releasing a prefix of `b0`, front first,
      with the bounds `start` and `end`. */
  ghost predicate Drained(r0: seq<Release>, b0: seq<MappingPos>, r: seq<Release>, b: seq<MappingPos>, start: int, end: int)
  {
    |r0| <= |r| <= |r0| + |b0| &&
    b == b0[|r| - |r0|..] && Slots(r) == Slots(r0) + b0[..|r| - |r0|] &&
    r == r0 + Drain(b0[..|r| - |r0|], start, end)
  }

  /** Releasing the front of the pending slots keeps them drained from
      the same starting point. */
  lemma DrainedNext(r0: seq<Release>, b0: seq<MappingPos>, r: seq<Release>, b: seq<MappingPos>, start: int, end: int)
    requires Drained(r0, b0, r, b, start, end) && b != []
    ensures Drained(r0, b0, r + [Release(b[0], start, end)], b[1..], start, end)
  {
    var d := |r| - |r0|;
    assert b0[d] == b[0];
    ReleaseStep(r0, b0, r, d, Release(b[0], start, end));
    DrainSnoc(b0, d, start, end);
    ConcatAssoc(r0, Drain(b0[..d], start, end), [Release(b0[d], start, end)]);
    assert b0[d + 1..] == b[1..];
  }

  class BaseCaller {
    const minQual: int
    const minCount: int
    const mask: bv16

    var curStart: int
    var curEnd: int
    var buffer: seq<MappingPos>
    var currentTid: Option<int>

    /** Every key ever appended to the buffer, in order. */
    ghost var appended: seq<(int, int)>
    /** Every position released from the buffer, in order. */
    ghost var released: seq<Release>

    /** The buffer is one contiguous run of the current contig, and what
        was released followed by what is pending is what was appended. */
    ghost predicate Valid()
      reads this`buffer, this`currentTid, this`released, this`appended
    {
      Accounted() && (buffer != [] ==> currentTid == Some(buffer[0].tid))
    }

    /** The part of `Valid` that does not involve the current contig. */
    ghost predicate Accounted()
      reads this`buffer, this`released, this`appended
    {
      minCount == 0 &&
      Contiguous(buffer) &&
      Keys(Slots(released)) + Keys(buffer) == appended
    }

    /** Every position ever appended was released, in the order appended. */
    ghost predicate AllReleased()
      reads this`released, this`appended
    {
      Keys(Slots(released)) == appended
    }

    /** The fields the fold over the stream follows. */
    ghost function State(): Engine
      reads this`currentTid, this`buffer, this`released
    {
      Engine(currentTid, buffer, released)
    }

    function Criteria(): Filter
    {
      Filter(minQual, mask)
    }

    twostate predicate OnlyBufferChanged()
      reads this
    {
      currentTid == old(currentTid) && curStart == old(curStart) && curEnd == old(curEnd) &&
      appended == old(appended) && released == old(released)
    }

    /** The coverage threshold passed in is not kept: it is always 0. */
    constructor (minQual: int, minCount: int, mask: bv16)
      ensures Valid()
      ensures this.minQual == minQual && this.mask == mask && this.minCount == 0
      ensures curStart == 0 && curEnd == 0 && buffer == [] && currentTid == None
    {
      this.minQual := minQual;
      this.minCount := 0;
      this.mask := mask;
      curStart, curEnd := 0, 0;
      buffer := [];
      currentTid := None;
      appended, released := [], [];
    }

    // -------------------------------------------------------------------
    // `_push_read`

    /** Seed an empty buffer at the read's start, then append slots until
        the last one reaches the read's end. */
    method Extend(read: Read)
      modifies this
      ensures OnlyBufferChanged() && buffer == Extended(old(buffer), read)
    {
      if buffer == [] {
        buffer := [MappingPos(read.tid, read.pos, [])];
      }
      ghost var s := buffer;
      while buffer[|buffer| - 1].pos < read.aend
        invariant OnlyBufferChanged()
        invariant |buffer| >= |s| && buffer[..|s|] == s
        invariant buffer[|s|..] == FreshSlots(read.tid, s[|s| - 1].pos + 1, |buffer| - |s|)
        invariant buffer[|buffer| - 1].pos == s[|s| - 1].pos + (|buffer| - |s|)
        invariant |buffer| > |s| ==> buffer[|buffer| - 1].pos <= read.aend
        decreases read.aend - buffer[|buffer| - 1].pos
      {
        buffer := buffer + [MappingPos(read.tid, buffer[|buffer| - 1].pos + 1, [])];
        assert buffer[|s|..] == FreshSlots(read.tid, s[|s| - 1].pos + 1, |buffer| - |s|);
      }
      assert buffer == s + buffer[|s|..];
    }

    /** The index of the first slot not before `p`; None when the scan
        runs past the end. */
    method StartIndex(p: int) returns (r: Option<nat>)
      ensures r == FirstAtOrAfter(buffer, p, 0)
    {
      var k := 0;
      while k < |buffer| && buffer[k].pos < p
        invariant 0 <= k <= |buffer|
        invariant FirstAtOrAfter(buffer, p, k) == FirstAtOrAfter(buffer, p, 0)
      {
        k := k + 1;
      }
      if k == |buffer| {
        return None;
      }
      return Some(k);
    }

    /** An M operation. */
    method AppendMatches(read: Read, len: nat, bufIdx: nat, readIdx: nat) returns (r: Result<(nat, nat)>)
      modifies this
      ensures OnlyBufferChanged()
      ensures Resumed(r, buffer) == MatchRun(read, len, Walk(old(buffer), bufIdx, readIdx))
    {
      var b: nat, q: nat, i: nat := bufIdx, readIdx, 0;
      while i < len
        invariant 0 <= i <= len
        invariant OnlyBufferChanged()
        invariant MatchRun(read, len, Walk(old(buffer), bufIdx, readIdx)) == MatchRun(read, len - i, Walk(buffer, b, q))
      {
        if b >= |buffer| {
          return Err(SlotOverrun);
        }
        if q >= |read.bases| || q >= |read.qual| {
          return Err(QueryOverrun);
        }
        var rec := MappingRecord(q, Match(read.bases[q], Phred(read.qual[q])), read);
        buffer := buffer[b := buffer[b].(records := buffer[b].records + [rec])];
        b, q, i := b + 1, q + 1, i + 1;
      }
      return Ok((b, q));
    }

    /** An I operation. The mean quality is a floor division, which for a
        positive divisor is Dafny's `/`. */
    method AppendInsertion(read: Read, len: nat, bufIdx: nat, readIdx: nat) returns (r: Result<(nat, nat)>)
      modifies this
      ensures OnlyBufferChanged()
      ensures Resumed(r, buffer) == Insertion(read, len, Walk(old(buffer), bufIdx, readIdx))
    {
      var inserted: string := [];
      var inqual := 0;
      var q: nat, i: nat := readIdx, 0;
      while i < len
        invariant 0 <= i <= len && q == readIdx + i
        invariant i > 0 ==> q <= |read.bases| && q <= |read.qual|
        invariant i > 0 ==> inserted == read.bases[readIdx..q] && inqual == PhredSum(read.qual[readIdx..q])
        invariant i == 0 ==> inserted == [] && inqual == 0
      {
        if q >= |read.bases| || q >= |read.qual| {
          return Err(QueryOverrun);
        }
        inserted := inserted + [read.bases[q]];
        inqual := inqual + Phred(read.qual[q]);
        assert read.qual[readIdx..q + 1][..q - readIdx] == read.qual[readIdx..q];
        assert read.bases[readIdx..q + 1] == read.bases[readIdx..q] + [read.bases[q]];
        q, i := q + 1, i + 1;
      }
      if |inserted| == 0 {
        return Err(EmptyInsertion);
      }
      inqual := inqual / |inserted|;
      if bufIdx >= |buffer| {
        return Err(SlotOverrun);
      }
      var rec := MappingRecord(q, Ins(inserted, inqual), read);
      buffer := buffer[bufIdx := buffer[bufIdx].(records := buffer[bufIdx].records + [rec])];
      return Ok((bufIdx, q));
    }

    /** A D or N operation: the same record on `len` consecutive slots. */
    method AppendShared(rec: MappingRecord, len: nat, bufIdx: nat, readIdx: nat) returns (r: Result<(nat, nat)>)
      modifies this
      ensures OnlyBufferChanged()
      ensures Resumed(r, buffer) == SharedRun(rec, len, Walk(old(buffer), bufIdx, readIdx))
    {
      var b: nat, i: nat := bufIdx, 0;
      while i < len
        invariant 0 <= i <= len
        invariant OnlyBufferChanged()
        invariant SharedRun(rec, len, Walk(old(buffer), bufIdx, readIdx)) == SharedRun(rec, len - i, Walk(buffer, b, readIdx))
      {
        if b >= |buffer| {
          return Err(SlotOverrun);
        }
        buffer := buffer[b := buffer[b].(records := buffer[b].records + [rec])];
        b, i := b + 1, i + 1;
      }
      return Ok((b, readIdx));
    }

    /** One CIGAR operation; codes other than M, I, D and N are passed
        over. */
    method RunOp(read: Read, op: int, len: nat, bufIdx: nat, readIdx: nat) returns (r: Result<(nat, nat)>)
      modifies this
      ensures OnlyBufferChanged()
      ensures Resumed(r, buffer) == StepOp(read, op, len, Walk(old(buffer), bufIdx, readIdx))
    {
      if op == MatchOp {
        r := AppendMatches(read, len, bufIdx, readIdx);
      } else if op == InsOp {
        r := AppendInsertion(read, len, bufIdx, readIdx);
      } else if op == DelOp {
        r := AppendShared(MappingRecord(readIdx, Del, read), len, bufIdx, readIdx);
      } else if op == SkipOp {
        r := AppendShared(MappingRecord(readIdx, Skip, read), len, bufIdx, readIdx);
      } else {
        r := Ok((bufIdx, readIdx));
      }
    }

    /** `_push_read`: the buffer becomes `Push(old(buffer), read)`, whose
        shape and per-operation effect Expand states, and the new slots'
        keys are recorded as appended. */
    method PushRead(read: Read) returns (failure: Option<Failure>)
      requires Valid() && currentTid == Some(read.tid)
      modifies this
      ensures curStart == old(curStart) && curEnd == old(curEnd)
      ensures currentTid == old(currentTid) && released == old(released)
      ensures failure.Some? ==> Push(old(buffer), read) == Err(failure.value)
      ensures failure.None? ==>
                Push(old(buffer), read) == Ok(buffer) && Valid() && PushedOnto(old(buffer), read, buffer) &&
                appended == old(appended) + Keys(buffer)[|old(buffer)|..]
    {
      ghost var b := buffer;
      Extend(read);
      ghost var e := buffer;
      var start := StartIndex(read.pos);
      if start.None? {
        return Some(SlotOverrun);
      }
      var bufIdx, readIdx := start.value, 0;
      var j := 0;
      while j < |read.cigar|
        invariant 0 <= j <= |read.cigar|
        invariant curStart == old(curStart) && curEnd == old(curEnd)
        invariant currentTid == old(currentTid) && released == old(released) && appended == old(appended)
        invariant ApplyCigar(read, read.cigar, Walk(e, start.value, 0)) ==
                  ApplyCigar(read, read.cigar[j..], Walk(buffer, bufIdx, readIdx))
      {
        var op, len := read.cigar[j].0, read.cigar[j].1;
        ghost var w := Walk(buffer, bufIdx, readIdx);
        var r := RunOp(read, op, len, bufIdx, readIdx);
        assert read.cigar[j..][1..] == read.cigar[j + 1..];
        if r.Err? {
          return Some(r.error);
        }
        bufIdx, readIdx := r.value.0, r.value.1;
        j := j + 1;
      }
      assert read.cigar[|read.cigar|..] == [];
      assert Push(b, read) == Ok(buffer);
      ghost var b' := Pushed(b, read);
      GrowKeepsBookkeeping(b, buffer, released, appended);
      appended := appended + Keys(buffer)[|b|..];
      return None;
    }

    // -------------------------------------------------------------------
    // `_calc_pos`

    /** `_calc_pos` for a released slot, with the bounds in force now. */
    method CalcPos(slot: MappingPos) returns (r: Result<Option<BasePosition>>)
      ensures r == Position(slot, curStart, curEnd, minCount, Criteria())
    {
      if curStart != 0 && slot.pos < curStart {
        return Ok(None);
      }
      if curEnd != 0 && curEnd < slot.pos {
        return Ok(None);
      }
      var rs := slot.records;
      var t := NoTally;
      var i := 0;
      while i < |rs|
        invariant 0 <= i <= |rs|
        invariant TallyFrom(rs, NoTally, Criteria()) == TallyFrom(rs[i..], t, Criteria())
      {
        assert rs[i..][1..] == rs[i + 1..];
        var next := Count(t, rs[i], Criteria());
        if next.Err? {
          return Err(next.error);
        }
        t := next.value;
        i := i + 1;
      }
      assert rs[i..] == [];
      if t.total >= minCount {
        var counts, plus := t.counts, t.plus;
        var row := BasePosition(
          slot.tid, slot.pos, t.total,
          counts.a, counts.c, counts.g, counts.t, counts.n,
          counts.del, t.gaps, t.insertions, t.kept,
          StrandFraction(plus.a, counts.a), StrandFraction(plus.c, counts.c),
          StrandFraction(plus.g, counts.g), StrandFraction(plus.t, counts.t),
          StrandFraction(plus.n, counts.n), StrandFraction(plus.del, counts.del),
          StrandFraction(plus.ins, counts.ins));
        return Ok(Some(row));
      }
      return Ok(None);
    }

    // -------------------------------------------------------------------
    // `fetch`

    /** Pop the front slot, record its release and hand it to `CalcPos`. */
    method ReleaseFront(rows: seq<BasePosition>) returns (rows': seq<BasePosition>, failure: Option<Failure>)
      requires Valid() && buffer != []
      requires Emitted(released, minCount, Criteria()) == (rows, None)
      modifies this
      ensures buffer == old(buffer)[1..]
      ensures released == old(released) + [Release(old(buffer)[0], curStart, curEnd)]
      ensures Valid() && (rows', failure) == Emitted(released, minCount, Criteria())
      ensures appended == old(appended) && currentTid == old(currentTid)
      ensures curStart == old(curStart) && curEnd == old(curEnd)
    {
      var slot := buffer[0];
      ReleaseBookkeeping(released, buffer, appended, curStart, curEnd);
      EmittedSnoc(released, Release(slot, curStart, curEnd), minCount, Criteria());
      buffer := buffer[1..];
      released := released + [Release(slot, curStart, curEnd)];
      var r := CalcPos(slot);
      match r {
        case Err(e) => rows', failure := rows, Some(e);
        case Ok(None) => rows', failure := rows, None;
        case Ok(Some(bp)) => rows', failure := rows + [bp], None;
      }
    }
  
    /** Some prefix of the slots `b0`, pending when the release log was
        `r0`, has been released since, front first; the rest is pending. */
    ghost predicate DrainedFrom(r0: seq<Release>, b0: seq<MappingPos>)
      reads this`buffer, this`currentTid, this`released, this`appended, this`curStart, this`curEnd
    {
      Valid() && Drained(r0, b0, released, buffer, curStart, curEnd)
    }

    /** The bookkeeping after releasing some prefix of the buffer: the
        released slots are the front of the old buffer, in order, and
        nothing but the buffer and the release log changed. */
    twostate predicate PoppedFront()
      reads this
    {
      DrainedFrom(old(released), old(buffer)) &&
      curStart == old(curStart) && curEnd == old(curEnd) &&
      currentTid == old(currentTid) && appended == old(appended)
    }

    /** `ReleaseFront` inside a drain that started from `r0` and `b0`. */
    method ReleaseNext(rows: seq<BasePosition>, ghost r0: seq<Release>, ghost b0: seq<MappingPos>)
      returns (rows': seq<BasePosition>, failure: Option<Failure>)
      requires DrainedFrom(r0, b0) && buffer != []
      requires Emitted(released, minCount, Criteria()) == (rows, None)
      modifies this
      ensures DrainedFrom(r0, b0) && |buffer| == |old(buffer)| - 1
      ensures released == old(released) + [Release(old(buffer)[0], curStart, curEnd)]
      ensures (rows', failure) == Emitted(released, minCount, Criteria())
      ensures appended == old(appended) && currentTid == old(currentTid)
      ensures curStart == old(curStart) && curEnd == old(curEnd)
    {
      DrainedNext(r0, b0, released, buffer, curStart, curEnd);
      rows', failure := ReleaseFront(rows);
    }

    /** Release every pending slot, front first (the drain loops of
        `fetch`); a failure stops the drain. */
    method Flush(rows: seq<BasePosition>) returns (rows': seq<BasePosition>, failure: Option<Failure>)
      requires Valid() && Emitted(released, minCount, Criteria()) == (rows, None)
      modifies this
      ensures PoppedFront()
      ensures (rows', failure) == Emitted(released, minCount, Criteria())
      ensures failure.None? ==> buffer == []
    {
      rows', failure := rows, None;
      while buffer != []
        invariant PoppedFront()
        invariant Emitted(released, minCount, Criteria()) == (rows', None) && failure.None?
        decreases |buffer|
      {
        rows', failure := ReleaseNext(rows', old(released), old(buffer));
        if failure.Some? {
          return;
        }
      }
    }

    /** Release the pending slots before position `p` (the loop of `fetch`
        over the positions 5' of a read); a failure stops it. */
    method ReleaseBefore(p: int, rows: seq<BasePosition>) returns (rows': seq<BasePosition>, failure: Option<Failure>)
      requires Valid() && Emitted(released, minCount, Criteria()) == (rows, None)
      modifies this
      ensures PoppedFront()
      ensures (rows', failure) == Emitted(released, minCount, Criteria())
      ensures forall j :: 0 <= j < |released| - |old(released)| ==> old(buffer)[j].pos < p
      ensures failure.None? ==> buffer == [] || buffer[0].pos >= p
    {
      rows', failure := rows, None;
      while buffer != [] && p > buffer[0].pos
        invariant PoppedFront()
        invariant Emitted(released, minCount, Criteria()) == (rows', None) && failure.None?
        invariant forall j :: 0 <= j < |released| - |old(released)| ==> old(buffer)[j].pos < p
        decreases |buffer|
      {
        assert old(buffer)[|released| - |old(released)|] == buffer[0];
        rows', failure := ReleaseNext(rows', old(released), old(buffer));
        if failure.Some? {
          return;
        }
      }
    }

    /** A read of another contig: drain the whole buffer, then make the
        read's contig the current one. */
    method NewContig(read: Read, rows: seq<BasePosition>) returns (rows': seq<BasePosition>, failure: Option<Failure>)
      requires Valid() && Emitted(released, minCount, Criteria()) == (rows, None)
      modifies this
      ensures curStart == old(curStart) && curEnd == old(curEnd) && appended == old(appended)
      ensures (rows', failure) == Emitted(released, minCount, Criteria())
      ensures DrainedFrom(old(released), old(buffer))
      ensures failure.None? ==> currentTid == Some(read.tid) && buffer == []
    {
      rows', failure := Flush(rows);
      if failure.None? {
        ghost var r, b := released, buffer;
        assert Accounted() && Drained(old(released), old(buffer), r, b, curStart, curEnd);
        currentTid := Some(read.tid);
      }
    }

    /** The releases of one iteration of the read loop of `fetch`: drain
        the buffer on a new contig, otherwise release the slots before the
        read's start. */
    method ReleaseForRead(read: Read, rows: seq<BasePosition>) returns (rows': seq<BasePosition>, failure: Option<Failure>)
      requires Valid() && Emitted(released, minCount, Criteria()) == (rows, None)
      modifies this
      ensures curStart == old(curStart) && curEnd == old(curEnd) && appended == old(appended)
      ensures DrainedFrom(old(released), old(buffer))
      ensures (rows', failure) == Emitted(released, minCount, Criteria())
      ensures old(currentTid) == Some(read.tid) ==>
                forall j :: 0 <= j < |released| - |old(released)| ==> old(buffer)[j].pos < read.pos
      ensures failure.None? ==>
                currentTid == Some(read.tid) &&
                (old(currentTid) != Some(read.tid) ==> buffer == []) &&
                (old(currentTid) == Some(read.tid) && buffer != [] ==> buffer[0].pos >= read.pos)
    {
      if currentTid != Some(read.tid) {
        rows', failure := NewContig(read, rows);
      } else {
        // On a new contig the buffer is empty by now, so this loop of
        // `fetch` releases something only on the same contig.
        rows', failure := ReleaseBefore(read.pos, rows);
      }
    }

    /** One iteration of the read loop of `fetch`: the releases above, then
        `_push_read` on what is left of the buffer. */
    method Advance(read: Read, rows: seq<BasePosition>) returns (rows': seq<BasePosition>, failure: Option<Failure>, ghost d: nat, ghost rest: seq<MappingPos>)
      requires Valid() && Emitted(released, minCount, Criteria()) == (rows, None)
      modifies this
      ensures curStart == old(curStart) && curEnd == old(curEnd)
      ensures rows' == Emitted(released, minCount, Criteria()).0
      ensures Emitted(released, minCount, Criteria()).1.Some? ==> failure == Emitted(released, minCount, Criteria()).1
      ensures Advanced(old(State()), Item(read, curStart, curEnd), d, rest,
                       Emitted(released, minCount, Criteria()).1.Some?, failure, State())
      ensures failure.None? ==>
                Valid() && PushedOnto(rest, read, buffer) && appended == old(appended) + Keys(buffer)[|rest|..]
    {
      rows', failure := ReleaseForRead(read, rows);
      d, rest := |released| - |old(released)|, buffer;
      if failure.Some? {
        return;
      }
      failure := PushRead(read);
    }
  
    /** One read of `fetch` (`Advance`) under the region bounds the stream
        set before yielding it. It does what `Step` does from the engine
        `e` it starts from, up to the first failing release. */
    method FetchStep(item: Item, rows: seq<BasePosition>, ghost e: Engine)
      returns (rows': seq<BasePosition>, failure: Option<Failure>)
      requires Valid() && Emitted(released, minCount, Criteria()) == (rows, None)
      requires e == State()
      modifies this
      ensures curStart == item.start && curEnd == item.end
      ensures rows' == Emitted(released, minCount, Criteria()).0
      ensures Emitted(released, minCount, Criteria()).1.Some? ==> failure == Emitted(released, minCount, Criteria()).1
      ensures failure.None? ==> Valid() && Emitted(released, minCount, Criteria()) == (rows', None)
      ensures Follows(Step(e, item), State(), failure, Emitted(released, minCount, Criteria()).1.Some?)
    {
      curStart, curEnd := item.start, item.end;
      ghost var d, rest;
      rows', failure, d, rest := Advance(item.read, rows);
      ghost var failed := Emitted(released, minCount, Criteria()).1.Some?;
      ReadFollowsStep(e, item, d, rest, failed, failure, State());
    }

    /** `fetch` over a stream of reads (each with the region bounds the
        stream had set when yielding it), then the final drain under the
        bounds left at the end of the stream. It releases what the fold
        `Run` over the stream releases, up to the first failure, and yields
        the rows and the failure `Outcome` gives. On success every position
        ever created was released, and a stream sorted by contig and start
        releases, and so reports, each position at most once and in
        increasing order. */
    method Fetch(items: seq<Item>, finalStart: int, finalEnd: int) returns (rows: seq<BasePosition>, failure: Option<Failure>)
      requires minCount == 0
      modifies this
      ensures (rows, failure) == Outcome(items, finalStart, finalEnd, Criteria())
      ensures released <= RunLog(items, finalStart, finalEnd)
      ensures failure.None? ==> released == RunLog(items, finalStart, finalEnd)
      ensures rows == Emitted(released, minCount, Criteria()).0
      ensures Emitted(released, minCount, Criteria()).1.Some? ==> failure == Emitted(released, minCount, Criteria()).1
      ensures failure.None? ==>
                Emitted(released, minCount, Criteria()).1.None? &&
                Valid() && buffer == [] && AllReleased() &&
                curStart == finalStart && curEnd == finalEnd &&
                RowKeys(rows) == InRegionKeys(released)
      ensures SortedReads(items) ==> ReleasedIncreasing(released)
      ensures SortedReads(items) && failure.None? ==> StrictlyIncreasing(RowKeys(rows))
    {
      currentTid, buffer := None, [];
      released, appended := [], [];
      rows, failure := [], None;
      var i := 0;
      while i < |items|
        invariant 0 <= i <= |items|
        invariant Valid() && Emitted(released, minCount, Criteria()) == (rows, None) && failure.None?
        invariant Run(items[..i]) == (State(), None)
      {
        rows, failure := FetchStep(items[i], rows, State());
        if failure.Some? {
          FailedRead(items, i, State(), failure, finalStart, finalEnd, Criteria());
          if SortedReads(items) {
            SortedOutcome(items, finalStart, finalEnd, released, Criteria());
          }
          return;
        }
        NextRead(items, i, State());
        i := i + 1;
      }
      assert items[..i] == items;
      rows, failure := Finish(finalStart, finalEnd, rows);
      FinalDrain(items, released, failure, finalStart, finalEnd, Criteria());
      if SortedReads(items) {
        SortedOutcome(items, finalStart, finalEnd, released, Criteria());
      }
    }

    /** The final drain of `fetch`, under the bounds left at the end of the
        stream. When the keys appended so far were strictly increasing, so
        are the released ones and the reported ones. */
    method Finish(finalStart: int, finalEnd: int, rows: seq<BasePosition>) returns (rows': seq<BasePosition>, failure: Option<Failure>)
      requires Valid() && Emitted(released, minCount, Criteria()) == (rows, None)
      modifies this
      ensures (rows', failure) == Emitted(released, minCount, Criteria())
      ensures failure.None? ==>
                Valid() && buffer == [] && AllReleased() &&
                curStart == finalStart && curEnd == finalEnd &&
                RowKeys(rows') == InRegionKeys(released)
      ensures StrictlyIncreasing(old(appended)) ==> ReleasedIncreasing(released)
      ensures StrictlyIncreasing(old(appended)) && failure.None? ==> StrictlyIncreasing(RowKeys(rows'))
      ensures appended == old(appended) && currentTid == old(currentTid)
      ensures released <= old(released) + Drain(old(buffer), finalStart, finalEnd)
      ensures failure.None? ==> released == old(released) + Drain(old(buffer), finalStart, finalEnd)
    {
      curStart, curEnd := finalStart, finalEnd;
      ghost var r0, b0, a0 := released, buffer, appended;
      rows', failure := Flush(rows);
      assert minCount == 0;
      DrainedInOrder(r0, b0, released, |released| - |r0|, a0, Criteria());
      EmptyBufferAccounted(released, buffer, appended);
      DrainPrefix(b0, |released| - |r0|, finalStart, finalEnd);
      if failure.None? {
        assert buffer == [];
        assert AllReleased();
        assert b0[..|b0|] == b0;
      }
    }
  }
}
