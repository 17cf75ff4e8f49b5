/**
 * How the run splits the sheet into groups of rows: a group size of at least `MIN_CHUNK_SIZE`
 * rows, aiming at about `CHUNK_DIVISOR` groups, and the half-open row range of every group.
 */
module Chunks {
  const MIN_CHUNK_SIZE: nat := 50
  const CHUNK_DIVISOR: nat := 10

  /**
   * `max(MIN_CHUNK_SIZE, total // CHUNK_DIVISOR or MIN_CHUNK_SIZE)`: a tenth of the rows, rounded
   * down, but never fewer than the minimum (a zero tenth falls back to the minimum by `or`).
   */
  function ChunkSize(total: nat): (size: nat)
    ensures size >= MIN_CHUNK_SIZE && size >= total / CHUNK_DIVISOR
    ensures size == MIN_CHUNK_SIZE || size == total / CHUNK_DIVISOR
  {
    var tenth := total / CHUNK_DIVISOR;
    var fallback := if tenth != 0 then tenth else MIN_CHUNK_SIZE;
    if MIN_CHUNK_SIZE >= fallback then MIN_CHUNK_SIZE else fallback
  }

  /** `math.ceil(total / chunk_size)`: the least group count whose groups reach the last row. */
  function NumChunks(total: nat): (n: nat)
    ensures n * ChunkSize(total) >= total
    ensures n > 0 ==> (n - 1) * ChunkSize(total) < total
  {
    var s := ChunkSize(total);
    var q := (total + s - 1) / s;
    assert total + s - 1 == q * s + (total + s - 1) % s;
    if q > 0 then MulSucc(q - 1, s); q else q
  }

  /** `start = chunk_id * chunk_size`: group `cid` starts inside the sheet exactly when it is one
      of the `NumChunks` groups. */
  function ChunkStart(total: nat, cid: nat): (start: nat)
    ensures start < total <==> cid < NumChunks(total)
  {
    var s, n := ChunkSize(total), NumChunks(total);
    if cid < n then MulMonotone(cid, n - 1, s); cid * s
    else MulMonotone(n, cid, s); cid * s
  }

  /** `end = min(start + chunk_size, total)`: a group of the sheet ends after it starts, inside
      the sheet, at most `ChunkSize` rows later. */
  function ChunkEnd(total: nat, cid: nat): (end: nat)
    ensures end <= total
    ensures cid < NumChunks(total) ==> ChunkStart(total, cid) < end <= ChunkStart(total, cid) + ChunkSize(total)
  {
    var s := ChunkSize(total);
    MulSucc(cid, s);
    var e := (cid + 1) * s;
    if e <= total then e else total
  }

  /** `df.iloc[start:end]` for group `cid` of a sheet of `|xs|` rows; like Python slicing, a range
      whose start lies past its end is empty. The group holds rows exactly when `cid` is one of
      the `NumChunks` groups, and then its rows are the sheet's rows from `ChunkStart` on. */
  function Group<T>(xs: seq<T>, cid: nat): (g: seq<T>)
    ensures |g| <= |xs| && |g| <= ChunkSize(|xs|)
    ensures g != [] <==> cid < NumChunks(|xs|)
    ensures forall k :: 0 <= k < |g| ==> ChunkStart(|xs|, cid) + k < |xs| && g[k] == xs[ChunkStart(|xs|, cid) + k]
  {
    var start, end := ChunkStart(|xs|, cid), ChunkEnd(|xs|, cid);
    if start <= end then xs[start..end] else []
  }

  /** The group that row `row` falls into. */
  function ChunkOf(total: nat, row: nat): nat {
    row / ChunkSize(total)
  }

  /** Sum of the lengths of the first `k` groups. */
  function CoveredBy(total: nat, k: nat): int {
    if k == 0 then 0
    else CoveredBy(total, k - 1) + (ChunkEnd(total, k - 1) - ChunkStart(total, k - 1))
  }

  /** Products by a fixed positive size keep the order of their factors. */
  lemma MulMonotone(a: nat, b: nat, s: nat)
    requires a <= b
    ensures a * s <= b * s
  {
    var d := b - a;
    assert b * s == a * s + d * s;
  }

  lemma MulSucc(a: nat, s: nat)
    ensures (a + 1) * s == a * s + s
  {
  }


  /** A non-empty sheet has between one and eleven groups. */
  lemma NumChunksBounds(total: nat)
    requires total >= 1
    ensures 1 <= NumChunks(total) <= 11
  {

  }


  /** Groups follow each other without gap or overlap, start at row 0 and end at the last row. */
  lemma ChunksContiguous(total: nat, cid: nat)
    requires total >= 1 && cid < NumChunks(total)
    ensures ChunkStart(total, 0) == 0
    ensures cid + 1 < NumChunks(total) ==> ChunkEnd(total, cid) == ChunkStart(total, cid + 1)
    ensures cid + 1 == NumChunks(total) ==> ChunkEnd(total, cid) == total
  {

  }

  /** The lengths of the first `k` groups add up to where group `k - 1` ends. */
  lemma {:induction false} CoveredByIsEnd(total: nat, k: nat)
    requires total >= 1 && 1 <= k <= NumChunks(total)
    ensures CoveredBy(total, k) == ChunkEnd(total, k - 1)
  {
    if k == 1 {
      ChunksContiguous(total, 0);
    } else {
      CoveredByIsEnd(total, k - 1);
      ChunksContiguous(total, k - 2);
    }
  }

  /** The lengths of all groups add up to the number of rows. */
  lemma ChunkLengthsSum(total: nat)
    requires total >= 1
    ensures CoveredBy(total, NumChunks(total)) == total
  {
    NumChunksBounds(total);
    CoveredByIsEnd(total, NumChunks(total));
    ChunksContiguous(total, NumChunks(total) - 1);
  }

  /** Every row lies in exactly one group: the one `ChunkOf` names. */
  lemma RowInExactlyOneChunk(total: nat, row: nat, cid: nat)
    requires row < total
    ensures ChunkOf(total, row) < NumChunks(total)
    ensures ChunkStart(total, ChunkOf(total, row)) <= row < ChunkEnd(total, ChunkOf(total, row))
    ensures ChunkStart(total, cid) <= row < ChunkEnd(total, cid) ==> cid == ChunkOf(total, row)
  {
    var s, c := ChunkSize(total), ChunkOf(total, row);
    assert c * s <= row < c * s + s by {
      assert row == c * s + row % s;
    }
    assert ChunkStart(total, c) < total;
    MulSucc(c, s);
    if ChunkStart(total, cid) <= row < ChunkEnd(total, cid) && cid != c {
      if cid < c {
        MulSucc(cid, s);
        MulMonotone(cid + 1, c, s);
      } else {
        MulMonotone(c + 1, cid, s);
      }
      assert false;
    }
  }
}
