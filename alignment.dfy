/** Values shared by the pileup engine: decoded alignment records, the
    per-position observations the read expander produces, the pending
    positions of the buffer, and the ways a run can abort. */
module Alignment {

  datatype Option<+T> = None | Some(value: T)

  /** Why a run stops early. Every one of these ends the whole pass. */
  datatype Failure =
    | SlotOverrun      // a buffer index past the last pending position
    | QueryOverrun     // a query index past the read's bases or qualities
    | EmptyInsertion   // an insertion of length 0 (integer division by zero)
    | UnknownBase(base: char)  // a counted base that is not A, C, G, T or N

  datatype Result<+T> = Ok(value: T) | Err(error: Failure)

  /** CIGAR operation codes as the alignment format numbers them. */
  const MatchOp: int := 0
  const InsOp: int := 1
  const DelOp: int := 2
  const SkipOp: int := 3

  /** One decoded alignment record. `qual` holds the raw Phred+33 character
      codes; `ih` is the optional multiplicity annotation. */
  datatype Read = Read(
    tid: int,
    pos: int,
    aend: int,
    cigar: seq<(int, nat)>,
    bases: string,
    qual: seq<int>,
    flag: bv16,
    isReverse: bool,
    ih: Option<int>)

  /** The Phred value of a raw quality character code. */
  function Phred(code: int): int { code - 33 }

  /** What one read contributes at one reference position. A match carries
      its decoded Phred quality, an insertion the integer mean of its bases'
      Phred qualities. */
  datatype Obs =
    | Match(base: char, qual: int)
    | Ins(inserted: string, qual: int)
    | Del
    | Skip

  /** An observation together with the query index and its read. */
  datatype MappingRecord = MappingRecord(qpos: int, obs: Obs, read: Read)

  /** A pending reference position and the records gathered for it. */
  datatype MappingPos = MappingPos(tid: int, pos: int, records: seq<MappingRecord>)

  /** The buffer holds consecutive positions of one contig. */
  ghost predicate Contiguous(b: seq<MappingPos>)
  {
    forall i :: 0 <= i < |b| ==> b[i].tid == b[0].tid && b[i].pos == b[0].pos + i
  }

  /** The (contig, position) keys of a run of pending positions. */
  function Keys(b: seq<MappingPos>): (ks: seq<(int, int)>)
    ensures |ks| == |b|
    ensures forall i {:trigger ks[i]} :: 0 <= i < |b| ==> ks[i] == (b[i].tid, b[i].pos)
  {
    seq(|b|, i requires 0 <= i < |b| => (b[i].tid, b[i].pos))
  }

  /** Python's ordering of strings: character by character, a proper
      prefix first. */
  predicate StrLess(x: string, y: string)
  {
    if y == [] then false
    else if x == [] then true
    else if x[0] != y[0] then x[0] < y[0]
    else StrLess(x[1..], y[1..])
  }

  lemma KeysConcat(a: seq<MappingPos>, b: seq<MappingPos>)
    ensures Keys(a + b) == Keys(a) + Keys(b)
  {
    forall i | 0 <= i < |a + b| ensures Keys(a + b)[i] == (Keys(a) + Keys(b))[i] {
      if i >= |a| { assert (a + b)[i] == b[i - |a|]; }
    }
  }
}
