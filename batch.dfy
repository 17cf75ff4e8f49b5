/**
 * The batch run (main.py:207-314): every group of rows submits one fetch per row whose account
 * normalises, collects the fetched amounts in whatever order the fetches complete, writes each
 * result at its row's own position, and counts completed fetches in a counter shared by all
 * groups; the run cuts the sheet into groups and concatenates their results.
 *
 * The thread pool is not modelled: the order in which fetches complete is an input (`order`, a
 * permutation of the dispatched row positions), and each row's fetch attempts are an oracle.
 */
module Batch {
  import opened Wrappers
  import opened Normalize
  import opened Classify
  import opened Fetch
  import opened Chunks
  import opened Columns
  import opened Completion

  /** A row as `to_dict("records")` gives it: header to cell. */
  type Record = map<string, Cell>

  /** `rec.get(col)`: a missing key reads as `None`. */
  function Get(rec: Record, col: string): Cell {
    if col in rec then rec[col] else Missing
  }

  /** `processed_counter`, the dictionary whose "done" entry all groups increment. */
  class ProgressCounter {
    var done: nat

    constructor ()
      ensures done == 0
    {
      done := 0;
    }
  }

  /** What the first loop of `process_chunk` stores with each future. */
  datatype Submission = Submission(pos: nat, account: Option<string>, expected: real)

  /** The key a row is stored under: the future of its submitted fetch, or `None` for a row
      whose account does not normalise (all such rows share that one key). */
  datatype FutureKey = NoFuture | FutureOf(pos: nat)

  predicate Dispatched(rec: Record, accountCol: string) {
    NormalizeAccount(Get(rec, accountCol)).Some?
  }

  /** Which rows of a group get a fetch. */
  function DispatchFlags(rows: seq<Record>, accountCol: string): (flags: seq<bool>)
    ensures |flags| == |rows|
    ensures forall p :: 0 <= p < |rows| ==> flags[p] == Dispatched(rows[p], accountCol)
  {
    seq(|rows|, p requires 0 <= p < |rows| => Dispatched(rows[p], accountCol))
  }

  /** How many rows get a fetch. */
  function DispatchedCount(rows: seq<Record>, accountCol: string): nat {
    CountTrue(DispatchFlags(rows, accountCol))
  }

  /** Each row has an oracle for at least the attempts its fetch can make. */
  predicate FetchOracles(fetches: seq<seq<Attempt>>, rows: seq<Record>) {
    |fetches| == |rows| && forall p :: 0 <= p < |fetches| ==> |fetches[p]| >= RETRIES_PER_ACCOUNT
  }

  /** What a completed fetch writes: the amount the retried fetch returns and the label comparing
      it with the amount the sheet expects. */
  function FetchOutcome(expected: real, attempts: seq<Attempt>): (Option<real>, string)
    requires |attempts| >= RETRIES_PER_ACCOUNT
  {
    var fetched := RetryAmount(attempts[..RETRIES_PER_ACCOUNT], 0);
    (fetched, LabelText(CompareAmounts(expected, fetched)))
  }

  /**
   * What a row ends with, as a (fetched amount, result text) pair: a row whose account normalises
   * gets the outcome of its fetch, compared with the row's own amount; any other row keeps the
   * `None` and "" it was created with.
   */
  function RowOutcome(rec: Record, accountCol: string, amountCol: string, attempts: seq<Attempt>): (Option<real>, string)
    requires |attempts| >= RETRIES_PER_ACCOUNT
  {
    if !Dispatched(rec, accountCol) then (None, "")
    else FetchOutcome(AmountOf(Get(rec, amountCol)), attempts)
  }

  /**
   * A row's result cell holds a label exactly when the row was dispatched, and then it is the
   * verdict on the row's own amount; an undispatched row also has no fetched amount, so it never
   * passes for a failed fetch.
   */
  lemma RowLabelReadsBack(rec: Record, accountCol: string, amountCol: string, attempts: seq<Attempt>)
    requires |attempts| >= RETRIES_PER_ACCOUNT
    ensures LabelOf(RowOutcome(rec, accountCol, amountCol, attempts).1).Some? <==> Dispatched(rec, accountCol)
    ensures Dispatched(rec, accountCol) ==>
      var (fetched, text) := RowOutcome(rec, accountCol, amountCol, attempts);
      LabelOf(text) == Some(CompareAmounts(AmountOf(Get(rec, amountCol)), fetched))
    ensures !Dispatched(rec, accountCol) ==> RowOutcome(rec, accountCol, amountCol, attempts).0.None?
  {
    if Dispatched(rec, accountCol) {
      var fetched := RetryAmount(attempts[..RETRIES_PER_ACCOUNT], 0);
      LabelTextRoundTrip(CompareAmounts(AmountOf(Get(rec, amountCol)), fetched));
    } else {
      EmptyCellIsNoLabel();
    }
  }

  lemma DispatchFlagsAppend(a: seq<Record>, b: seq<Record>, accountCol: string)
    ensures DispatchFlags(a + b, accountCol) == DispatchFlags(a, accountCol) + DispatchFlags(b, accountCol)
  {
    var l, r := DispatchFlags(a + b, accountCol), DispatchFlags(a, accountCol) + DispatchFlags(b, accountCol);
    forall p | 0 <= p < |l| ensures l[p] == r[p] {
      if p < |a| {
        assert (a + b)[p] == a[p];
      } else {
        assert (a + b)[p] == b[p - |a|];
      }
    }
  }

  lemma DispatchedCountAppend(a: seq<Record>, b: seq<Record>, accountCol: string)
    ensures DispatchedCount(a + b, accountCol) == DispatchedCount(a, accountCol) + DispatchedCount(b, accountCol)
  {
    DispatchFlagsAppend(a, b, accountCol);
    CountTrueAppend(DispatchFlags(a, accountCol), DispatchFlags(b, accountCol));
  }

  /** The rows up to `end` are those up to `start` followed by the group between the two. */
  lemma DispatchedCountSplit(rows: seq<Record>, start: nat, end: nat, accountCol: string)
    requires start <= end <= |rows|
    ensures DispatchedCount(rows[..end], accountCol) ==
      DispatchedCount(rows[..start], accountCol) + DispatchedCount(rows[start..end], accountCol)
  {
    assert rows[..start] + rows[start..end] == rows[..end];
    DispatchedCountAppend(rows[..start], rows[start..end], accountCol);
  }

  // ---------------------------------------------------------------------------------------
  // process_chunk
  // ---------------------------------------------------------------------------------------

  /** The submission a row whose account normalises is stored with. */
  function SubmissionFor(rows: seq<Record>, p: nat, accountCol: string, amountCol: string): Submission
    requires p < |rows|
  {
    Submission(p, NormalizeAccount(Get(rows[p], accountCol)), AmountOf(Get(rows[p], amountCol)))
  }

  /**
   * The first loop of `process_chunk` (main.py:224-230): every row's account and amount are
   * normalised; a row whose account normalises is submitted under its own future, and every
   * other row is stored under the one `None` key, each overwriting the one before.
   */
  method SubmitFetches(rows: seq<Record>, accountCol: string, amountCol: string)
    returns (futures: map<FutureKey, Submission>)
    ensures forall p :: 0 <= p < |rows| && Dispatched(rows[p], accountCol) ==>
      FutureOf(p) in futures && futures[FutureOf(p)] == SubmissionFor(rows, p, accountCol, amountCol)
    ensures forall k :: k in futures && k.FutureOf? ==> k.pos < |rows| && Dispatched(rows[k.pos], accountCol)
    ensures NoFuture in futures <==> exists p :: 0 <= p < |rows| && !Dispatched(rows[p], accountCol)
    ensures NoFuture in futures ==> futures[NoFuture].account.None?
  {
    futures := map[];
    for pos := 0 to |rows|
      invariant SubmittedUpTo(futures, rows, pos, accountCol, amountCol)
    {
      var rec := rows[pos];
      var acc := NormalizeAccount(Get(rec, accountCol));
      var excelAmount := ToFloatSafe(Get(rec, amountCol));
      var fut := if acc.Some? then FutureOf(pos) else NoFuture;
      SubmitStep(futures, rows, pos, accountCol, amountCol);
      futures := futures[fut := Submission(pos, acc, excelAmount)];
    }
  }

  /** What the first loop has stored once it has seen the rows before `pos`. */
  ghost predicate SubmittedUpTo(futures: map<FutureKey, Submission>, rows: seq<Record>, pos: nat,
                                accountCol: string, amountCol: string)
    requires pos <= |rows|
  {
    && (forall p :: 0 <= p < pos && Dispatched(rows[p], accountCol) ==>
          FutureOf(p) in futures && futures[FutureOf(p)] == SubmissionFor(rows, p, accountCol, amountCol))
    && (forall k :: k in futures && k.FutureOf? ==> k.pos < pos && Dispatched(rows[k.pos], accountCol))
    && (NoFuture in futures <==> exists p :: 0 <= p < pos && !Dispatched(rows[p], accountCol))
    && (NoFuture in futures ==> futures[NoFuture].account.None?)
  }

  /** Storing row `pos` under its key extends what the loop has stored to that row. */
  lemma SubmitStep(futures: map<FutureKey, Submission>, rows: seq<Record>, pos: nat,
                   accountCol: string, amountCol: string)
    requires pos < |rows| && SubmittedUpTo(futures, rows, pos, accountCol, amountCol)
    ensures var sub := SubmissionFor(rows, pos, accountCol, amountCol);
      SubmittedUpTo(futures[(if sub.account.Some? then FutureOf(pos) else NoFuture) := sub],
                    rows, pos + 1, accountCol, amountCol)
  {
    var sub := SubmissionFor(rows, pos, accountCol, amountCol);
    var fut := if sub.account.Some? then FutureOf(pos) else NoFuture;
    var next := futures[fut := sub];
    assert sub.account.Some? <==> Dispatched(rows[pos], accountCol);
    forall p | 0 <= p < pos + 1 && Dispatched(rows[p], accountCol)
      ensures FutureOf(p) in next && next[FutureOf(p)] == SubmissionFor(rows, p, accountCol, amountCol)
    {
    }
    forall k | k in next && k.FutureOf? ensures k.pos < pos + 1 && Dispatched(rows[k.pos], accountCol) {
      if k != fut {
        assert k in futures;
      }
    }
    if !Dispatched(rows[pos], accountCol) {
      assert 0 <= pos < pos + 1 && !Dispatched(rows[pos], accountCol);
    } else if NoFuture in next {
      var p :| 0 <= p < pos && !Dispatched(rows[p], accountCol);
    }
  }

  /** After the first loop, the futures `as_completed` waits for are exactly the dispatched rows,
      each stored with its own position and its normalised account. */
  lemma FuturesAreDispatchedRows(rows: seq<Record>, futures: map<FutureKey, Submission>,
                                 accountCol: string, amountCol: string)
    requires forall p :: 0 <= p < |rows| && Dispatched(rows[p], accountCol) ==>
      FutureOf(p) in futures && futures[FutureOf(p)] == SubmissionFor(rows, p, accountCol, amountCol)
    requires forall k :: k in futures && k.FutureOf? ==> k.pos < |rows| && Dispatched(rows[k.pos], accountCol)
    ensures SubmittedFlags(futures, |rows|) == DispatchFlags(rows, accountCol)
    ensures forall k :: k in futures && k.FutureOf? ==>
      k.pos < |rows| && futures[k].pos == k.pos && futures[k].account.Some?
  {
    forall k | k in futures && k.FutureOf?
      ensures k.pos < |rows| && futures[k].pos == k.pos && futures[k].account.Some?
    {
      assert k == FutureOf(k.pos);
    }
  }

  /** The positions whose future `as_completed` waits for: the keys of `futures` other than the
      `None` key (main.py:233). */
  function SubmittedFlags(futures: map<FutureKey, Submission>, n: nat): (flags: seq<bool>)
    ensures |flags| == n
    ensures forall p :: 0 <= p < n ==> flags[p] == (FutureOf(p) in futures)
  {
    seq(n, p requires 0 <= p < n => FutureOf(p) in futures)
  }

  /**
   * The second loop of `process_chunk` (main.py:233-246): the futures other than the `None` key
   * complete in the order `order`; each completion writes the fetched amount and its label at
   * the row's own position and increments the shared counter.
   */
  method CollectResults(futures: map<FutureKey, Submission>, fetches: seq<seq<Attempt>>, order: seq<int>,
                        zainAmounts: array<Option<real>>, results: array<string>, counter: ProgressCounter)
    requires |fetches| == zainAmounts.Length == results.Length
    requires forall p :: 0 <= p < |fetches| ==> |fetches[p]| >= RETRIES_PER_ACCOUNT
    requires forall k :: k in futures && k.FutureOf? ==>
      k.pos < |fetches| && futures[k].pos == k.pos && futures[k].account.Some?
    requires IsCompletionOrder(order, SubmittedFlags(futures, |fetches|))
    requires forall p :: 0 <= p < |fetches| ==> zainAmounts[p] == None && results[p] == ""
    modifies zainAmounts, results, counter
    ensures counter.done == old(counter.done) + CountTrue(SubmittedFlags(futures, |fetches|))
    ensures forall p :: 0 <= p < |fetches| && FutureOf(p) in futures ==>
      (zainAmounts[p], results[p]) == FetchOutcome(futures[FutureOf(p)].expected, fetches[p])
    ensures forall p :: 0 <= p < |fetches| && FutureOf(p) !in futures ==>
      zainAmounts[p] == None && results[p] == ""
  {
    var n := |fetches|;
    ghost var flags := SubmittedFlags(futures, n);
    ghost var slot := CompletionOrderFacts(order, flags);
    // which rows have their fetch completed
    ghost var completed := seq(n, _ => false);
    for k := 0 to |order|
      invariant counter.done == old(counter.done) + k
      invariant |completed| == n
      invariant forall p :: 0 <= p < n ==> (completed[p] <==> flags[p] && slot[p] < k)
      invariant forall p :: 0 <= p < n && completed[p] ==>
        (zainAmounts[p], results[p]) == FetchOutcome(futures[FutureOf(p)].expected, fetches[p])
      invariant forall p :: 0 <= p < n && !completed[p] ==> zainAmounts[p] == None && results[p] == ""
    {
      assert flags[order[k]] && slot[order[k]] == k;
      var Submission(pos, acc, excelAmount) := futures[FutureOf(order[k])];
      assert pos == order[k];
      var zainAmount, _ := GetAmountWithRetry(acc.value, fetches[pos]);
      zainAmounts[pos] := zainAmount;
      results[pos] := LabelText(CompareAmounts(excelAmount, zainAmount));
      counter.done := counter.done + 1;
      completed := completed[pos := true];
      forall p | 0 <= p < n ensures completed[p] <==> flags[p] && slot[p] < k + 1 {
        if p == pos {
          assert flags[p] && slot[p] == k;
        } else if flags[p] {
          assert order[slot[p]] == p;
        }
      }
    }
    forall p | 0 <= p < n && flags[p] ensures completed[p] {
      assert slot[p] < |order|;
    }
  }

  /**
   * `process_chunk` (main.py:207-267) on the rows of one group. The first loop submits a fetch
   * for the rows whose account normalises; the second takes the fetches in completion order
   * `order`, writes each amount and label at the row's own position, and increments the shared
   * counter once per completed fetch. Rows without a fetch keep `None` and "".
   */
  method ProcessChunk(rows: seq<Record>, accountCol: string, amountCol: string,
                      fetches: seq<seq<Attempt>>, order: seq<int>, counter: ProgressCounter)
    returns (zainAmounts: array<Option<real>>, results: array<string>)
    requires FetchOracles(fetches, rows)
    requires IsCompletionOrder(order, DispatchFlags(rows, accountCol))
    modifies counter
    ensures fresh(zainAmounts) && fresh(results)
    ensures zainAmounts.Length == |rows| == results.Length
    ensures forall p :: 0 <= p < |rows| ==>
      (zainAmounts[p], results[p]) == RowOutcome(rows[p], accountCol, amountCol, fetches[p])
    ensures counter.done == old(counter.done) + DispatchedCount(rows, accountCol)
  {
    var n := |rows|;
    zainAmounts := new Option<real>[n](_ => None);
    results := new string[n](_ => "");
    if n == 0 {
      return;
    }
    var futures := SubmitFetches(rows, accountCol, amountCol);
    FuturesAreDispatchedRows(rows, futures, accountCol, amountCol);
    CollectResults(futures, fetches, order, zainAmounts, results, counter);
  }

  // ---------------------------------------------------------------------------------------
  // process_excel_parallel
  // ---------------------------------------------------------------------------------------

  /** How a run ends: `detect_columns` raised, the sheet had no rows, or the merged table with
      the two new columns, row by row. */
  datatype RunOutcome =
    | ColumnsNotFound(available: seq<string>)
    | EmptySheet
    | Report(fetched: seq<Option<real>>, labels: seq<string>)

  /** Every group has a completion order for its own dispatched rows. */
  predicate GroupOrders(orders: seq<seq<int>>, rows: seq<Record>, accountCol: string) {
    |orders| == NumChunks(|rows|)
      && forall cid :: 0 <= cid < |orders| ==> IsCompletionOrder(orders[cid], DispatchFlags(Group(rows, cid), accountCol))
  }

  /**
   * The group loop of `process_excel_parallel` (main.py:288-314) on a non-empty sheet: cut the
   * rows into groups, run `process_chunk` on each in turn with one shared counter, and
   * concatenate the groups' new columns. Every row ends with its own outcome, and the counter
   * ends at the number of rows that got a fetch.
   */
  method RunGroups(rows: seq<Record>, accountCol: string, amountCol: string, fetches: seq<seq<Attempt>>,
                   orders: seq<seq<int>>)
    returns (fetched: seq<Option<real>>, labels: seq<string>, done: nat)
    requires rows != []
    requires FetchOracles(fetches, rows)
    requires GroupOrders(orders, rows, accountCol)
    ensures |fetched| == |rows| == |labels|
    ensures forall r :: 0 <= r < |rows| ==>
      (fetched[r], labels[r]) == RowOutcome(rows[r], accountCol, amountCol, fetches[r])
    ensures done == DispatchedCount(rows, accountCol)
  {
    var total := |rows|;
    var numChunks := NumChunks(total);
    var counter := new ProgressCounter();
    fetched, labels := [], [];
    ChunksContiguous(total, 0);
    for cid := 0 to numChunks
      invariant |fetched| == |labels| <= total
      invariant |fetched| == (if cid < numChunks then ChunkStart(total, cid) else total)
      invariant forall r :: 0 <= r < |fetched| ==>
        (fetched[r], labels[r]) == RowOutcome(rows[r], accountCol, amountCol, fetches[r])
      invariant counter.done == DispatchedCount(rows[..|fetched|], accountCol)
    {
      ChunksContiguous(total, cid);
      fetched, labels := RunGroup(rows, accountCol, amountCol, fetches, orders, cid, fetched, labels, counter);
    }
    assert rows[..|fetched|] == rows;
    done := counter.done;
  }

  /**
   * One pass of the group loop (main.py:300-314): slice out group `cid`, run `process_chunk` on
   * it and append its new columns to those of the groups before it.
   */
  method RunGroup(rows: seq<Record>, accountCol: string, amountCol: string, fetches: seq<seq<Attempt>>,
                  orders: seq<seq<int>>, cid: nat, fetched: seq<Option<real>>, labels: seq<string>,
                  counter: ProgressCounter)
    returns (fetched': seq<Option<real>>, labels': seq<string>)
    requires rows != [] && cid < NumChunks(|rows|)
    requires FetchOracles(fetches, rows)
    requires GroupOrders(orders, rows, accountCol)
    requires |fetched| == |labels| == ChunkStart(|rows|, cid) < |rows|
    requires forall r :: 0 <= r < |fetched| ==>
      (fetched[r], labels[r]) == RowOutcome(rows[r], accountCol, amountCol, fetches[r])
    requires counter.done == DispatchedCount(rows[..|fetched|], accountCol)
    modifies counter
    ensures |fetched'| == |labels'| == ChunkEnd(|rows|, cid) <= |rows|
    ensures forall r :: 0 <= r < |fetched'| ==>
      (fetched'[r], labels'[r]) == RowOutcome(rows[r], accountCol, amountCol, fetches[r])
    ensures counter.done == DispatchedCount(rows[..|fetched'|], accountCol)
  {
    var start, end := ChunkStart(|rows|, cid), ChunkEnd(|rows|, cid);
    GroupBounds(rows, fetches, cid);
    var group, groupFetches := rows[start..end], fetches[start..end];
    var zain, results := ProcessGroup(group, accountCol, amountCol, groupFetches, orders[cid], counter);
    GroupAppended(rows, fetches, accountCol, amountCol, fetched, labels, start, end, zain, results);
    DispatchedCountSplit(rows, start, end, accountCol);
    fetched', labels' := fetched + zain, labels + results;
  }

  /** Group `cid` of the sheet is the slice between its bounds, and holds at least one row. */
  lemma GroupBounds(rows: seq<Record>, fetches: seq<seq<Attempt>>, cid: nat)
    requires |fetches| == |rows| && cid < NumChunks(|rows|)
    ensures ChunkStart(|rows|, cid) < ChunkEnd(|rows|, cid) <= |rows|
    ensures Group(rows, cid) == rows[ChunkStart(|rows|, cid)..ChunkEnd(|rows|, cid)]
    ensures Group(fetches, cid) == fetches[ChunkStart(|rows|, cid)..ChunkEnd(|rows|, cid)]
  {
  }

  /** `process_chunk` on one group, with its two new columns read out as sequences. */
  method ProcessGroup(group: seq<Record>, accountCol: string, amountCol: string,
                      fetches: seq<seq<Attempt>>, order: seq<int>, counter: ProgressCounter)
    returns (zain: seq<Option<real>>, results: seq<string>)
    requires FetchOracles(fetches, group)
    requires IsCompletionOrder(order, DispatchFlags(group, accountCol))
    modifies counter
    ensures |zain| == |group| == |results|
    ensures forall p :: 0 <= p < |group| ==>
      (zain[p], results[p]) == RowOutcome(group[p], accountCol, amountCol, fetches[p])
    ensures counter.done == old(counter.done) + DispatchedCount(group, accountCol)
  {
    var zainAmounts, labels := ProcessChunk(group, accountCol, amountCol, fetches, order, counter);
    zain, results := zainAmounts[..], labels[..];
  }

  /**
   * `process_excel_parallel` (main.py:270-314) once the sheet is read: detect the two columns
   * (an error when either is missing), stop on an empty sheet, otherwise run the groups. `done`
   * is the shared counter's final value.
   */
  method ProcessExcelParallel(headers: seq<string>, rows: seq<Record>, fetches: seq<seq<Attempt>>,
                              orders: seq<seq<int>>)
    returns (outcome: RunOutcome, done: nat)
    requires FetchOracles(fetches, rows)
    requires DetectColumns(headers).Detected? ==> GroupOrders(orders, rows, DetectColumns(headers).account)
    ensures outcome.ColumnsNotFound? <==> DetectColumns(headers).ColumnsMissing?
    ensures outcome.ColumnsNotFound? ==> outcome.available == headers
    ensures outcome.EmptySheet? <==> DetectColumns(headers).Detected? && rows == []
    ensures outcome.Report? ==>
      var columns := DetectColumns(headers);
      && |outcome.fetched| == |rows| == |outcome.labels|
      && (forall r :: 0 <= r < |rows| ==>
            (outcome.fetched[r], outcome.labels[r]) == RowOutcome(rows[r], columns.account, columns.amount, fetches[r]))
      && done == DispatchedCount(rows, columns.account)
    ensures !outcome.Report? ==> done == 0
  {
    var columns := DetectColumns(headers);
    if columns.ColumnsMissing? {
      return ColumnsNotFound(columns.available), 0;
    }
    if |rows| == 0 {
      return EmptySheet, 0;
    }
    var fetched, labels;
    fetched, labels, done := RunGroups(rows, columns.account, columns.amount, fetches, orders);
    outcome := Report(fetched, labels);
  }

  /** Appending a group's new columns extends the row-by-row agreement to the group's rows. */
  lemma GroupAppended(rows: seq<Record>, fetches: seq<seq<Attempt>>, accountCol: string, amountCol: string,
                      fetched: seq<Option<real>>, labels: seq<string>, start: nat, end: nat,
                      zain: seq<Option<real>>, results: seq<string>)
    requires FetchOracles(fetches, rows)
    requires |fetched| == |labels| == start <= end <= |rows|
    requires forall r :: 0 <= r < start ==>
      (fetched[r], labels[r]) == RowOutcome(rows[r], accountCol, amountCol, fetches[r])
    requires |zain| == |results| == end - start
    requires forall p :: 0 <= p < end - start ==>
      (zain[p], results[p]) == RowOutcome(rows[start..end][p], accountCol, amountCol, fetches[start..end][p])
    ensures forall r :: 0 <= r < end ==>
      ((fetched + zain)[r], (labels + results)[r]) == RowOutcome(rows[r], accountCol, amountCol, fetches[r])
  {
    forall r | 0 <= r < end
      ensures ((fetched + zain)[r], (labels + results)[r]) == RowOutcome(rows[r], accountCol, amountCol, fetches[r])
    {
      if r >= start {
        assert rows[start..end][r - start] == rows[r] && fetches[start..end][r - start] == fetches[r];
      }
    }
  }
}
