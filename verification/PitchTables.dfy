/**
 * The pitch tables of src/voip/media/mlow/pitch.go and what is assumed of them.  The encoder uses
 * them as they stand; the decoder reads the same tables through the byte window of SmplMem.
 */
module PitchTables {
  import opened RangeEncoding

  const NUM_CONTOURS := 217
  const NUM_BLOCKS := 9
  const BLOCK_SIZE := 64
  const NUM_SUBFRAMES := 8

  /** A lag contour: consecutive segments of the frame, each with the lag block it stays in. */
  datatype Blockseg = Blockseg(blocks: seq<int>, seglens: seq<int>)
  {
    predicate Valid() {
      && 1 <= |blocks| <= NUM_SUBFRAMES && |seglens| == |blocks|
      && (forall k :: 0 <= k < |blocks| ==> 0 <= blocks[k] < NUM_BLOCKS)
      && (forall k :: 0 <= k < |blocks| ==> 1 <= seglens[k])
      && SegStart(seglens, |seglens|) == NUM_SUBFRAMES
      && (forall k :: 0 < k < |blocks| ==> Near(blocks[k - 1], blocks[k]))
    }
  }

  /** Block changes small enough for the delta tables. */
  predicate Near(prev: int, next: int) {
    -1 <= next - prev <= 2
  }

  /** Where segment k starts. */
  function SegStart(seglens: seq<int>, k: nat): int
    requires k <= |seglens|
  {
    if k == 0 then 0 else SegStart(seglens, k - 1) + seglens[k - 1]
  }

  lemma SegInside(bs: Blockseg, k: nat)
    requires bs.Valid() && k < |bs.blocks|
    ensures 0 <= SegStart(bs.seglens, k) < SegStart(bs.seglens, k + 1) <= NUM_SUBFRAMES
    ensures k + 1 == |bs.blocks| <==> SegStart(bs.seglens, k + 1) == NUM_SUBFRAMES
  {
    SegBound(bs.seglens, k, |bs.seglens|);
    if k + 1 < |bs.blocks| {
      SegBound(bs.seglens, k + 1, |bs.seglens|);
    }
  }

  lemma {:induction false} SegBound(seglens: seq<int>, k: nat, n: nat)
    requires k < n <= |seglens| && forall i :: 0 <= i < |seglens| ==> 1 <= seglens[i]
    ensures 0 <= SegStart(seglens, k) && SegStart(seglens, k) + seglens[k] <= SegStart(seglens, n)
    decreases n
  {
    if k < n - 1 {
      SegBound(seglens, k, n - 1);
    } else if k > 0 {
      SegBound(seglens, k - 1, k);
    }
  }

  datatype PitchTables = PitchTables(
    blocksegs: seq<Blockseg>,
    blocksegs2idx: seq<int>,
    blocksegIdxCmf: seq<int>,
    deltaLagCmfs: seq<seq<int>>,
    firstblockRange: seq<(int, int)>,
    blockTransitionCmf: seq<seq<int>>)
  {
    predicate Valid() {
      && ValidShape()
      && ValidCdf(blocksegIdxCmf) && blocksegIdxCmf[0] == 0
      && (forall m :: 0 <= m < 3 ==> ValidCdf(deltaLagCmfs[m]))
      && (forall b :: 0 <= b < NUM_BLOCKS ==> ValidCdf(blockTransitionCmf[b]) && blockTransitionCmf[b][0] == 0)
      && ValidContours()
    }

    predicate ValidShape() {
      && |blocksegs| == |blocksegs2idx| == NUM_CONTOURS && |blocksegIdxCmf| == NUM_CONTOURS + 1
      && |deltaLagCmfs| == 3 && (forall m :: 0 <= m < 3 ==> |deltaLagCmfs[m]| == 5 * BLOCK_SIZE)
      && |firstblockRange| == |blockTransitionCmf| == NUM_BLOCKS
      && (forall b :: 0 <= b < NUM_BLOCKS ==> |blockTransitionCmf[b]| == NUM_BLOCKS + 1)
    }

    /** Contours are numbered from 1 without repetition, and those that start in a block are consecutive. */
    predicate ValidContours()
      requires ValidShape()
    {
      && (forall c :: 0 <= c < NUM_CONTOURS ==> blocksegs[c].Valid())
      && (forall c :: 0 <= c < NUM_CONTOURS ==> 1 <= blocksegs2idx[c] <= NUM_CONTOURS)
      && (forall c, d :: 0 <= c < d < NUM_CONTOURS ==> blocksegs2idx[c] != blocksegs2idx[d])
      && (forall b :: 0 <= b < NUM_BLOCKS ==> 0 <= firstblockRange[b].0 <= firstblockRange[b].1 < NUM_CONTOURS)
      && (forall c :: 0 <= c < NUM_CONTOURS ==> InFirstRange(blocksegs[c].blocks[0], blocksegs2idx[c] - 1))
    }

    predicate InFirstRange(b: int, n: int) {
      0 <= b < |firstblockRange| && firstblockRange[b].0 <= n <= firstblockRange[b].1
    }
  }
}
