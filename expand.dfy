/** What pushing one read does to the buffer of pending positions
    (`BamBaseCaller._push_read`), stated as functions: the buffer is seeded
    and grown to the read's end, the walk starts at the first pending
    position at or after the read's start, and each CIGAR operation adds
    records to the slots under the cursor. */
module Expand {
  import opened Alignment

  /** The cursor of the CIGAR walk and the buffer being filled. */
  datatype Walk = Walk(buf: seq<MappingPos>, bufIdx: nat, readIdx: nat)

  /** `buffer[k].records.append(rec)` */
  function AddRecord(buf: seq<MappingPos>, k: nat, rec: MappingRecord): (r: seq<MappingPos>)
    requires k < |buf|
    ensures |r| == |buf| && Keys(r) == Keys(buf)
  {
    buf[k := buf[k].(records := buf[k].records + [rec])]
  }

  // ---------------------------------------------------------------------
  // Seeding and growing the buffer.

  /** An empty buffer gets one slot at the read's start. */
  function Seeded(b: seq<MappingPos>, read: Read): (r: seq<MappingPos>)
    ensures r != []
  {
    if b == [] then [MappingPos(read.tid, read.pos, [])] else b
  }

  /** `n` empty slots at consecutive positions from `from`. */
  function FreshSlots(tid: int, from: int, n: nat): (r: seq<MappingPos>)
    ensures |r| == n
    ensures forall i :: 0 <= i < n ==> r[i] == MappingPos(tid, from + i, [])
  {
    seq(n, i => MappingPos(tid, from + i, []))
  }

  /** The buffer after slots are appended until the last one is at or past
      the read's end. */
  function Extended(b: seq<MappingPos>, read: Read): (r: seq<MappingPos>)
    ensures r != [] && |r| >= |b| && r[..|b|] == b
    ensures r[|r| - 1].pos >= read.aend
  {
    var s := Seeded(b, read);
    var last := s[|s| - 1].pos;
    if last < read.aend then s + FreshSlots(read.tid, last + 1, read.aend - last) else s
  }

  /** The index the walk starts from: the first slot whose position is not
      before `p`, searching from `i`. None when the search runs off the end. */
  function FirstAtOrAfter(b: seq<MappingPos>, p: int, i: nat): (r: Option<nat>)
    ensures r.Some? ==> i <= r.value < |b| && b[r.value].pos >= p
    ensures r.Some? ==> forall j :: i <= j < r.value ==> b[j].pos < p
    ensures r.None? ==> forall j :: i <= j < |b| ==> b[j].pos < p
    decreases |b| - i
  {
    if i >= |b| then None
    else if b[i].pos < p then FirstAtOrAfter(b, p, i + 1)
    else Some(i)
  }

  // ---------------------------------------------------------------------
  // The CIGAR walk.

  /** The match record an M operation puts at query index `q`. */
  function MatchAt(read: Read, q: nat): MappingRecord
    requires q < |read.bases| && q < |read.qual|
  {
    MappingRecord(q, Match(read.bases[q], Phred(read.qual[q])), read)
  }

  /** An M operation: one match record per query base on consecutive
      slots, advancing both cursors. */
  function MatchRun(read: Read, len: nat, w: Walk): Result<Walk>
    decreases len
  {
    if len == 0 then Ok(w)
    else if w.bufIdx >= |w.buf| then Err(SlotOverrun)
    else if w.readIdx >= |read.bases| || w.readIdx >= |read.qual| then Err(QueryOverrun)
    else
      MatchRun(read, len - 1, Walk(AddRecord(w.buf, w.bufIdx, MatchAt(read, w.readIdx)), w.bufIdx + 1, w.readIdx + 1))
  }

  /** The sum of the Phred values of some raw quality codes. */
  function PhredSum(codes: seq<int>): int
  {
    if codes == [] then 0 else PhredSum(codes[..|codes| - 1]) + Phred(codes[|codes| - 1])
  }

  /** An I operation: one record with the inserted bases and the integer
      mean of their Phred values, on the current slot, which does not
      advance; its query index is the one after the insertion. */
  function Insertion(read: Read, len: nat, w: Walk): Result<Walk>
  {
    if len == 0 then Err(EmptyInsertion)
    else if w.readIdx + len > |read.bases| || w.readIdx + len > |read.qual| then Err(QueryOverrun)
    else if w.bufIdx >= |w.buf| then Err(SlotOverrun)
    else
      var inserted := read.bases[w.readIdx..w.readIdx + len];
      var qual := PhredSum(read.qual[w.readIdx..w.readIdx + len]) / len;
      var rec := MappingRecord(w.readIdx + len, Ins(inserted, qual), read);
      Ok(Walk(AddRecord(w.buf, w.bufIdx, rec), w.bufIdx, w.readIdx + len))
  }

  /** An I operation succeeds exactly when it is not empty, the query
      holds its bases and qualities, and the cursor is on a slot; its
      failures are checked in that order. On success it appends to the
      current slot, and nowhere else, one record holding the inserted
      bases, the query index just after them and the floor of the mean of
      their Phred values. */
  lemma InsertionClosedForm(read: Read, len: nat, w: Walk)
    ensures Insertion(read, len, w).Ok? <==>
              0 < len && w.readIdx + len <= |read.bases| && w.readIdx + len <= |read.qual| && w.bufIdx < |w.buf|
    ensures len == 0 ==> Insertion(read, len, w) == Err(EmptyInsertion)
    ensures 0 < len && (w.readIdx + len > |read.bases| || w.readIdx + len > |read.qual|) ==>
              Insertion(read, len, w) == Err(QueryOverrun)
    ensures 0 < len && w.readIdx + len <= |read.bases| && w.readIdx + len <= |read.qual| && w.bufIdx >= |w.buf| ==>
              Insertion(read, len, w) == Err(SlotOverrun)
    ensures Insertion(read, len, w).Ok? ==>
              var w' := Insertion(read, len, w).value;
              var old_ := w.buf[w.bufIdx].records;
              var sum := PhredSum(read.qual[w.readIdx..w.readIdx + len]);
              w'.bufIdx == w.bufIdx && w'.readIdx == w.readIdx + len &&
              |w'.buf| == |w.buf| && Keys(w'.buf) == Keys(w.buf) &&
              (forall k :: 0 <= k < |w.buf| && k != w.bufIdx ==> w'.buf[k] == w.buf[k]) &&
              |w'.buf[w.bufIdx].records| == |old_| + 1 &&
              w'.buf[w.bufIdx].records[..|old_|] == old_ &&
              var rec := w'.buf[w.bufIdx].records[|old_|];
              rec.qpos == w.readIdx + len && rec.read == read && rec.obs.Ins? &&
              rec.obs.inserted == read.bases[w.readIdx..w.readIdx + len] &&
              len * rec.obs.qual <= sum < len * (rec.obs.qual + 1)
  {
  }

  /** A D or N operation: one shared record on `len` consecutive slots; the
      query cursor does not move. */
  function SharedRun(rec: MappingRecord, len: nat, w: Walk): Result<Walk>
    decreases len
  {
    if len == 0 then Ok(w)
    else if w.bufIdx >= |w.buf| then Err(SlotOverrun)
    else SharedRun(rec, len - 1, Walk(AddRecord(w.buf, w.bufIdx, rec), w.bufIdx + 1, w.readIdx))
  }

  /** One CIGAR operation. Codes other than 0-3 are passed over. */
  function StepOp(read: Read, op: int, len: nat, w: Walk): Result<Walk>
  {
    if op == MatchOp then MatchRun(read, len, w)
    else if op == InsOp then Insertion(read, len, w)
    else if op == DelOp then SharedRun(MappingRecord(w.readIdx, Del, read), len, w)
    else if op == SkipOp then SharedRun(MappingRecord(w.readIdx, Skip, read), len, w)
    else Ok(w)
  }

  /** The whole operation list, stopping at the first failure. */
  function ApplyCigar(read: Read, ops: seq<(int, nat)>, w: Walk): Result<Walk>
  {
    if ops == [] then Ok(w)
    else match StepOp(read, ops[0].0, ops[0].1, w)
      case Err(f) => Err(f)
      case Ok(w') => ApplyCigar(read, ops[1..], w')
  }

  /** The buffer after the read is pushed, or why the run stops. */
  function Push(b: seq<MappingPos>, read: Read): (r: Result<seq<MappingPos>>)
    ensures r.Ok? ==> Keys(r.value) == Keys(Extended(b, read))
  {
    var e := Extended(b, read);
    match FirstAtOrAfter(e, read.pos, 0)
    case None => Err(SlotOverrun)
    case Some(k) =>
      ApplyCigarKeepsKeys(read, read.cigar, Walk(e, k, 0));
      match ApplyCigar(read, read.cigar, Walk(e, k, 0))
      case Err(f) => Err(f)
      case Ok(w) => Ok(w.buf)
  }

  // ---------------------------------------------------------------------
  // Properties.

  /** Seeding and growing keep the buffer one contiguous run of the read's
      contig, put a fresh buffer at the read's start, keep the old slots as
      they were, and reach at least the read's end. */
  lemma ExtendedShape(b: seq<MappingPos>, read: Read)
    requires Contiguous(b)
    requires b == [] || b[0].tid == read.tid
    ensures var e := Extended(b, read);
            Contiguous(e) && e[0].tid == read.tid &&
            e[|e| - 1].pos >= read.aend &&
            (b == [] ==> e[0].pos == read.pos) &&
            |e| >= |b| && e[..|b|] == b &&
            (forall i :: |b| <= i < |e| ==> e[i].records == [])
  {
    var s := Seeded(b, read);
    var e := Extended(b, read);
    var last := s[|s| - 1].pos;
    assert Contiguous(s);
    if last < read.aend {
      var f := FreshSlots(read.tid, last + 1, read.aend - last);
      assert e == s + f;
      forall i | 0 <= i < |e| ensures e[i].tid == e[0].tid && e[i].pos == e[0].pos + i {
        if i >= |s| { assert e[i] == f[i - |s|]; }
      }
    }
  }

  lemma {:induction false} MatchRunSucceeds(read: Read, len: nat, w: Walk)
    ensures MatchRun(read, len, w).Ok? <==>
              len == 0 ||
              (w.bufIdx + len <= |w.buf| && w.readIdx + len <= |read.bases| && w.readIdx + len <= |read.qual|)
    decreases len
  {
    if len > 0 && w.bufIdx < |w.buf| && w.readIdx < |read.bases| && w.readIdx < |read.qual| {
      var next := Walk(AddRecord(w.buf, w.bufIdx, MatchAt(read, w.readIdx)), w.bufIdx + 1, w.readIdx + 1);
      MatchRunSucceeds(read, len - 1, next);
    }
  }

  /** What an M operation leaves in one slot. */
  lemma {:induction false} MatchRunSlot(read: Read, len: nat, w: Walk, k: nat)
    requires len > 0 && w.bufIdx + len <= |w.buf| && w.readIdx + len <= |read.bases| && w.readIdx + len <= |read.qual|
    requires k < |w.buf|
    ensures MatchRun(read, len, w).Ok? && |MatchRun(read, len, w).value.buf| == |w.buf|
    ensures MatchRun(read, len, w).value.buf[k].records ==
              if w.bufIdx <= k < w.bufIdx + len then
                w.buf[k].records + [MatchAt(read, w.readIdx + (k - w.bufIdx))]
              else w.buf[k].records
    decreases len
  {
    MatchRunSucceeds(read, len, w);
    MatchRunCursors(read, len, w);
    var next := Walk(AddRecord(w.buf, w.bufIdx, MatchAt(read, w.readIdx)), w.bufIdx + 1, w.readIdx + 1);
    assert MatchRun(read, len, w) == MatchRun(read, len - 1, next);
    if len == 1 {
      assert MatchRun(read, 0, next) == Ok(next);
      if k != w.bufIdx { assert next.buf[k] == w.buf[k]; }
    } else {
      MatchRunSlot(read, len - 1, next, k);
      if k != w.bufIdx { assert next.buf[k] == w.buf[k]; }
    }
  }

  lemma {:induction false} MatchRunCursors(read: Read, len: nat, w: Walk)
    requires MatchRun(read, len, w).Ok?
    ensures var w' := MatchRun(read, len, w).value;
            w'.bufIdx == w.bufIdx + len && w'.readIdx == w.readIdx + len &&
            |w'.buf| == |w.buf| && Keys(w'.buf) == Keys(w.buf)
    decreases len
  {
    if len > 0 {
      var next := Walk(AddRecord(w.buf, w.bufIdx, MatchAt(read, w.readIdx)), w.bufIdx + 1, w.readIdx + 1);
      MatchRunCursors(read, len - 1, next);
    }
  }

  /** An M operation of length `len` succeeds exactly when both cursors
      have `len` positions left, and then adds to each of the next `len`
      slots the match record of the corresponding query base. */
  lemma MatchRunClosedForm(read: Read, len: nat, w: Walk)
    requires MatchRun(read, len, w).Ok?
    ensures var w' := MatchRun(read, len, w).value;
            w'.bufIdx == w.bufIdx + len && w'.readIdx == w.readIdx + len &&
            |w'.buf| == |w.buf| && Keys(w'.buf) == Keys(w.buf) &&
            (len == 0 || (w.bufIdx + len <= |w.buf| && w.readIdx + len <= |read.bases| && w.readIdx + len <= |read.qual|)) &&
            forall k :: 0 <= k < |w.buf| ==>
              w'.buf[k].records ==
                if w.bufIdx <= k < w.bufIdx + len then
                  w.buf[k].records + [MatchAt(read, w.readIdx + (k - w.bufIdx))]
                else w.buf[k].records
  {
    MatchRunSucceeds(read, len, w);
    MatchRunCursors(read, len, w);
    if len > 0 {
      forall k | 0 <= k < |w.buf|
        ensures MatchRun(read, len, w).value.buf[k].records ==
                  if w.bufIdx <= k < w.bufIdx + len then
                    w.buf[k].records + [MatchAt(read, w.readIdx + (k - w.bufIdx))]
                  else w.buf[k].records
      {
        MatchRunSlot(read, len, w, k);
      }
    }
  }

  lemma {:induction false} SharedRunClosedForm(rec: MappingRecord, len: nat, w: Walk)
    ensures SharedRun(rec, len, w).Ok? <==> len == 0 || w.bufIdx + len <= |w.buf|
    ensures SharedRun(rec, len, w).Ok? ==>
              var w' := SharedRun(rec, len, w).value;
              w'.bufIdx == w.bufIdx + len && w'.readIdx == w.readIdx &&
              |w'.buf| == |w.buf| && Keys(w'.buf) == Keys(w.buf) &&
              forall k :: 0 <= k < |w.buf| ==>
                w'.buf[k].records ==
                  if w.bufIdx <= k < w.bufIdx + len then w.buf[k].records + [rec]
                  else w.buf[k].records
    decreases len
  {
    if len > 0 && w.bufIdx < |w.buf| {
      SharedRunClosedForm(rec, len - 1, Walk(AddRecord(w.buf, w.bufIdx, rec), w.bufIdx + 1, w.readIdx));
    }
  }

  /** What one operation does: M, D and N fill `len` consecutive slots
      (D and N with one shared record and without moving the query
      cursor), I adds one record to the current slot without moving it,
      and any other code changes nothing. */
  lemma StepOpEffect(read: Read, op: int, len: nat, w: Walk)
    ensures StepOp(read, op, len, w).Ok? ==>
              var w' := StepOp(read, op, len, w).value;
              Keys(w'.buf) == Keys(w.buf) &&
              (op == MatchOp ==> w'.bufIdx == w.bufIdx + len && w'.readIdx == w.readIdx + len) &&
              (op == InsOp ==>
                 (w'.bufIdx == w.bufIdx && w'.readIdx == w.readIdx + len &&
                  len > 0 && w.bufIdx < |w.buf| &&
                  w'.buf == w.buf[w.bufIdx := w.buf[w.bufIdx].(records := w'.buf[w.bufIdx].records)] &&
                  |w'.buf[w.bufIdx].records| == |w.buf[w.bufIdx].records| + 1)) &&
              ((op == DelOp || op == SkipOp) ==>
                 w'.bufIdx == w.bufIdx + len && w'.readIdx == w.readIdx &&
                 (forall k :: w.bufIdx <= k < w.bufIdx + len && k < |w.buf| ==>
                    w'.buf[k].records == w.buf[k].records +
                      [MappingRecord(w.readIdx, if op == DelOp then Del else Skip, read)])) &&
              (!(MatchOp <= op <= SkipOp) ==> w' == w)
  {
    if op == MatchOp {
      if MatchRun(read, len, w).Ok? { MatchRunClosedForm(read, len, w); }
    } else if op == DelOp {
      SharedRunClosedForm(MappingRecord(w.readIdx, Del, read), len, w);
    } else if op == SkipOp {
      SharedRunClosedForm(MappingRecord(w.readIdx, Skip, read), len, w);
    }
  }

  lemma {:induction false} ApplyCigarKeepsKeys(read: Read, ops: seq<(int, nat)>, w: Walk)
    ensures ApplyCigar(read, ops, w).Ok? ==> Keys(ApplyCigar(read, ops, w).value.buf) == Keys(w.buf)
  {
    if ops != [] {
      StepOpEffect(read, ops[0].0, ops[0].1, w);
      var r := StepOp(read, ops[0].0, ops[0].1, w);
      if r.Ok? {
        if ops[0].0 == InsOp {
          assert Keys(r.value.buf) == Keys(w.buf) by {
            assert r.value.buf == AddRecord(w.buf, w.bufIdx, r.value.buf[w.bufIdx].records[|r.value.buf[w.bufIdx].records| - 1]);
          }
        }
        ApplyCigarKeepsKeys(read, ops[1..], r.value);
      }
    }
  }

  lemma SameKeysContiguous(x: seq<MappingPos>, y: seq<MappingPos>)
    requires Keys(x) == Keys(y) && Contiguous(x)
    ensures Contiguous(y) && |x| == |y|
    ensures forall i :: 0 <= i < |x| ==> y[i].tid == x[i].tid && y[i].pos == x[i].pos
  {
    forall i | 0 <= i < |x| ensures y[i].tid == x[i].tid && y[i].pos == x[i].pos {
      assert Keys(x)[i] == Keys(y)[i];
    }
  }

  /** The shape of the buffer after a successful push: still contiguous on
      the read's contig, the old positions first and unchanged in order,
      seeded at the read's start when it was empty, and reaching at least
      the read's end. */
  lemma PushShape(b: seq<MappingPos>, read: Read)
    requires Contiguous(b)
    requires b == [] || b[0].tid == read.tid
    requires Push(b, read).Ok?
    ensures var b' := Push(b, read).value;
            Keys(b') == Keys(Extended(b, read)) &&
            Contiguous(b') && b'[0].tid == read.tid &&
            b'[|b'| - 1].pos >= read.aend &&
            (b == [] ==> b'[0].pos == read.pos) &&
            (b != [] ==> b'[0].pos == b[0].pos) &&
            Keys(b')[..|b|] == Keys(b)
  {
    var e := Extended(b, read);
    ExtendedShape(b, read);
    var k := FirstAtOrAfter(e, read.pos, 0).value;
    ApplyCigarKeepsKeys(read, read.cigar, Walk(e, k, 0));
    var b' := Push(b, read).value;
    SameKeysContiguous(e, b');
    assert Keys(e)[..|b|] == Keys(b) by {
      forall i | 0 <= i < |b| ensures Keys(e)[i] == Keys(b)[i] { assert e[i] == b[i]; }
    }
  }

  /** On a contiguous run that covers `p` from the cursor on, the walk
      stops at the slot of `p`, its offset from the first position. */
  lemma {:induction false} FirstAtOrAfterContiguous(b: seq<MappingPos>, p: int, i: nat)
    requires Contiguous(b) && i < |b| && b[i].pos <= p <= b[|b| - 1].pos
    ensures FirstAtOrAfter(b, p, i) == Some(p - b[0].pos)
    decreases |b| - i
  {
    if b[i].pos < p {
      FirstAtOrAfterContiguous(b, p, i + 1);
    }
  }
}
