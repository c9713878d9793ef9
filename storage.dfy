/**
 * The external collaborators of the pipeline, reduced to what the pipeline
 * can observe of them: tables that accept or refuse an insert, the
 * `reward_transfers` table with its filtered select and keyed updates, and the
 * asset transfer client. Which insert, select or transfer fails is not under
 * the pipeline's control, so each of those answers is chosen arbitrarily
 * (`:= *`) and every contract below holds for every choice.
 */
module Storage {
  import opened Records

  /** Rows per bulk insert in both calculators. */
  const ChunkSize: nat := 1000

  function Min(a: int, b: int): int {
    if a <= b then a else b
  }

  /**
   * An append-only table; one `Insert` call adds all of its batch or none of
   * it. `batches` records every batch sent to the store, in order.
   */
  class Table<T> {
    var rows: seq<T>
    ghost var batches: seq<seq<T>>

    constructor (initial: seq<T>)
      ensures rows == initial && batches == []
    {
      rows := initial;
      batches := [];
    }

    method Insert(batch: seq<T>) returns (ok: bool)
      modifies this
      ensures batches == old(batches) + [batch]
      ensures ok ==> rows == old(rows) + batch
      ensures !ok ==> rows == old(rows)
    {
      batches := batches + [batch];
      ok := *;
      if ok {
        rows := rows + batch;
      }
    }
  }

  /** `rows` cut into consecutive chunks of `ChunkSize`, the last one possibly shorter. */
  function Chunks<T>(rows: seq<T>): seq<seq<T>>
    decreases |rows|
  {
    if rows == [] then []
    else if |rows| <= ChunkSize then [rows]
    else [rows[..ChunkSize]] + Chunks(rows[ChunkSize..])
  }

  /** The chunks joined back together. */
  function Concat<T>(xss: seq<seq<T>>): seq<T> {
    if xss == [] then [] else xss[0] + Concat(xss[1..])
  }

  /**
   * The chunks partition the rows in order: joined they give the rows back,
   * none is empty or longer than `ChunkSize`, and all but the last are full.
   */
  lemma {:induction false} ChunksPartition<T>(rows: seq<T>)
    ensures Concat(Chunks(rows)) == rows
    ensures forall k :: 0 <= k < |Chunks(rows)| ==> 0 < |Chunks(rows)[k]| <= ChunkSize
    ensures forall k :: 0 <= k < |Chunks(rows)| - 1 ==> |Chunks(rows)[k]| == ChunkSize
    decreases |rows|
  {
    if rows == [] {
    } else if |rows| <= ChunkSize {
      assert Chunks(rows) == [rows];
      assert Concat([rows]) == rows + Concat([]);
    } else {
      var rest := rows[ChunkSize..];
      ChunksPartition(rest);
      var cs := Chunks(rows);
      assert cs == [rows[..ChunkSize]] + Chunks(rest);
      assert cs[1..] == Chunks(rest);
      assert Concat(cs) == rows[..ChunkSize] + Concat(Chunks(rest));
      assert rows[..ChunkSize] + rest == rows;
    }
  }

  /** Rows that fill whole chunks, followed by one more chunk's worth, add that chunk at the end. */
  lemma {:induction false} ChunksSnoc<T>(xs: seq<T>, ys: seq<T>)
    requires |xs| % ChunkSize == 0 && 0 < |ys| <= ChunkSize
    ensures Chunks(xs + ys) == Chunks(xs) + [ys]
    decreases |xs|
  {
    if xs == [] {
      assert xs + ys == ys;
    } else {
      assert |xs| >= ChunkSize;
      var zs := xs + ys;
      assert zs[..ChunkSize] == xs[..ChunkSize];
      assert zs[ChunkSize..] == xs[ChunkSize..] + ys;
      assert (|xs| - ChunkSize) % ChunkSize == 0;
      ChunksSnoc(xs[ChunkSize..], ys);
      if |xs| == ChunkSize {
        assert xs[ChunkSize..] == [];
        assert xs[..ChunkSize] == xs;
      }
    }
  }

  /** How a chunked insert ended: every chunk stored, or the start index of the refused chunk. */
  datatype ChunkOutcome = AllInserted | StoppedAt(insertedUntil: nat)

  /**
   * Inserts `rows` in chunks of `ChunkSize`, in order, and stops at the first
   * refused chunk. On a refusal exactly the rows before the reported index
   * are stored, and that index is the start of a chunk inside `rows`.
   */
  method InsertInChunks<T>(table: Table<T>, rows: seq<T>) returns (r: ChunkOutcome)
    modifies table
    ensures r.AllInserted? ==> table.rows == old(table.rows) + rows
    ensures r.AllInserted? ==> table.batches == old(table.batches) + Chunks(rows)
    ensures r.StoppedAt? ==>
      && r.insertedUntil % ChunkSize == 0
      && r.insertedUntil < |rows|
      && table.rows == old(table.rows) + rows[..r.insertedUntil]
      && table.batches == old(table.batches) + Chunks(rows[..r.insertedUntil])
                          + [rows[r.insertedUntil..Min(r.insertedUntil + ChunkSize, |rows|)]]
  {
    var i := 0;
    while i < |rows|
      invariant i % ChunkSize == 0
      invariant table.rows == old(table.rows) + rows[..Min(i, |rows|)]
      invariant table.batches == old(table.batches) + Chunks(rows[..Min(i, |rows|)])
    {
      var end := Min(i + ChunkSize, |rows|);
      var ok := table.Insert(rows[i..end]);
      if !ok {
        return StoppedAt(i);
      }
      assert rows[..i] + rows[i..end] == rows[..end];
      ChunksSnoc(rows[..i], rows[i..end]);
      i := i + ChunkSize;
    }
    assert rows[..Min(i, |rows|)] == rows;
    return AllInserted;
  }

  /** What one call of the asset transfer client came back with. */
  datatype TransferOutcome =
    | Sent(txHash: Option<string>)     // resolved, with or without a transaction hash
    | Threw(message: Option<string>)   // rejected, with or without an error message

  /** One call of the asset transfer client, as the client's log keeps it. */
  datatype Attempt = Attempt(wallet: Option<string>, amount: real, outcome: TransferOutcome)

  /** The stable-coin transfer primitive; every call is logged with its outcome. */
  class TransferClient {
    var attempts: seq<Attempt>

    constructor ()
      ensures attempts == []
    {
      attempts := [];
    }

    method Transfer(wallet: Option<string>, amount: real) returns (o: TransferOutcome)
      modifies this
      ensures attempts == old(attempts) + [Attempt(wallet, amount, o)]
    {
      o := *;
      attempts := attempts + [Attempt(wallet, amount, o)];
    }
  }

  /** The outcomes of a run of attempts, in order. */
  function Outcomes(log: seq<Attempt>): (os: seq<TransferOutcome>)
    ensures |os| == |log|
    ensures forall k :: 0 <= k < |log| ==> os[k] == log[k].outcome
  {
    seq(|log|, k requires 0 <= k < |log| => log[k].outcome)
  }

  /** The calls a run makes for `targets`, in order: each target's wallet and total, with the outcome it got. */
  function Calls(targets: seq<TransferRecord>, os: seq<TransferOutcome>): (log: seq<Attempt>)
    requires |os| == |targets|
    ensures |log| == |targets|
    ensures forall k :: 0 <= k < |targets| ==>
      log[k].wallet == targets[k].wallet && log[k].amount == targets[k].totalAmount && log[k].outcome == os[k]
  {
    seq(|targets|, k requires 0 <= k < |targets| => Attempt(targets[k].wallet, targets[k].totalAmount, os[k]))
  }

  /** The outcomes recorded in a run's calls are the outcomes it was given. */
  lemma OutcomesOfCalls(targets: seq<TransferRecord>, os: seq<TransferOutcome>)
    requires |os| == |targets|
    ensures Outcomes(Calls(targets, os)) == os
  {
    assert forall k :: 0 <= k < |os| ==> Outcomes(Calls(targets, os))[k] == os[k];
  }

  /** The first `i + 1` elements are the first `i` followed by element `i`. */
  lemma TakeSnoc<T>(xs: seq<T>, i: nat)
    requires i < |xs|
    ensures xs[..i + 1] == xs[..i] + [xs[i]]
  {
  }

  lemma CallsSnoc(targets: seq<TransferRecord>, os: seq<TransferOutcome>, t: TransferRecord, o: TransferOutcome)
    requires |os| == |targets|
    ensures Calls(targets + [t], os + [o]) == Calls(targets, os) + [Attempt(t.wallet, t.totalAmount, o)]
  {
    assert Calls(targets + [t], os + [o]) == Calls(targets, os) + [Attempt(t.wallet, t.totalAmount, o)];
  }

  /**
   * One text column of an update: `Omit` when the value is `undefined` (the
   * key is dropped from the JSON body and the column keeps its value),
   * `Write(v)` otherwise, with `None` standing for `null`.
   */
  datatype Column = Omit | Write(v: Option<string>)

  function Written(c: Column, current: Option<string>): Option<string> {
    if c.Write? then c.v else current
  }

  /** The column updates the disbursement engines issue against `reward_transfers`. */
  datatype Patch =
    | MarkCompleted(hash: string, at: string)
    | MarkFailed(memo: string, at: string)
    | RecordOutcome(txHash: Column, status: Status, errorMessage: Column, at: string)

  /** The row after a patch; the patch sets only the columns it names. */
  function Apply(r: TransferRecord, p: Patch): (r': TransferRecord)
    ensures r'.id == r.id && r'.refCode == r.refCode && r'.rewardDate == r.rewardDate
    ensures r'.wallet == r.wallet && r'.totalAmount == r.totalAmount
  {
    match p
    case MarkCompleted(h, at) => r.(status := Completed, txHash := Some(h), updatedAt := Some(at))
    case MarkFailed(m, at) => r.(status := Failed, memo := Some(m), updatedAt := Some(at))
    case RecordOutcome(h, s, e, at) => r.(txHash := Written(h, r.txHash), status := s, errorMessage := Written(e, r.errorMessage), executedAt := Some(at))
  }

  /** `.select(...).eq("reward_date", day).in("status", statuses)`. */
  function Selected(rows: seq<TransferRecord>, day: string, statuses: set<Status>): (s: seq<TransferRecord>)
    ensures |s| <= |rows|
    ensures forall r :: r in s <==> r in rows && r.rewardDate == day && r.status in statuses
  {
    if rows == [] then []
    else
      var last := rows[|rows| - 1];
      Selected(rows[..|rows| - 1], day, statuses)
        + (if last.rewardDate == day && last.status in statuses then [last] else [])
  }

  /** The positions of the rows `Selected` picks, in table order. */
  function SelectedIndices(rows: seq<TransferRecord>, day: string, statuses: set<Status>): seq<nat> {
    if rows == [] then []
    else
      var n := |rows| - 1;
      SelectedIndices(rows[..n], day, statuses)
        + (if rows[n].rewardDate == day && rows[n].status in statuses then [n] else [])
  }

  /** The select keeps table order: its rows are the table's rows at strictly increasing positions. */
  lemma {:induction false} SelectedInTableOrder(rows: seq<TransferRecord>, day: string, statuses: set<Status>)
    ensures |SelectedIndices(rows, day, statuses)| == |Selected(rows, day, statuses)|
    ensures forall k :: 0 <= k < |SelectedIndices(rows, day, statuses)| ==>
      && SelectedIndices(rows, day, statuses)[k] < |rows|
      && Selected(rows, day, statuses)[k] == rows[SelectedIndices(rows, day, statuses)[k]]
    ensures forall a, b :: 0 <= a < b < |SelectedIndices(rows, day, statuses)| ==>
      SelectedIndices(rows, day, statuses)[a] < SelectedIndices(rows, day, statuses)[b]
  {
    if rows != [] {
      var n := |rows| - 1;
      var init := rows[..n];
      SelectedInTableOrder(init, day, statuses);
      var idx0 := SelectedIndices(init, day, statuses);
      var sel0 := Selected(init, day, statuses);
      var idx := SelectedIndices(rows, day, statuses);
      var sel := Selected(rows, day, statuses);
      var picked := rows[n].rewardDate == day && rows[n].status in statuses;
      assert idx == idx0 + (if picked then [n] else []);
      assert sel == sel0 + (if picked then [rows[n]] else []);
      forall k | 0 <= k < |idx|
        ensures idx[k] < |rows| && sel[k] == rows[idx[k]]
      {
        if k < |idx0| {
          assert idx[k] == idx0[k] && sel[k] == sel0[k];
          assert init[idx0[k]] == rows[idx0[k]];
        }
      }
    }
  }

  /**
   * Every position holding a row of the day with one of the statuses is among
   * the selected positions; with the order above, each is selected exactly once.
   */
  lemma {:induction false} SelectedIndicesComplete(rows: seq<TransferRecord>, day: string, statuses: set<Status>)
    ensures forall p :: 0 <= p < |rows| && rows[p].rewardDate == day && rows[p].status in statuses ==>
      p in SelectedIndices(rows, day, statuses)
  {
    if rows != [] {
      var n := |rows| - 1;
      var init := rows[..n];
      SelectedIndicesComplete(init, day, statuses);
      var idx0 := SelectedIndices(init, day, statuses);
      var idx := SelectedIndices(rows, day, statuses);
      var picked := rows[n].rewardDate == day && rows[n].status in statuses;
      assert idx == idx0 + (if picked then [n] else []);
      forall p | 0 <= p < |rows| && rows[p].rewardDate == day && rows[p].status in statuses
        ensures p in idx
      {
        if p < n {
          assert init[p] == rows[p];
          assert p in idx0;
        }
      }
    }
  }

  /** The rows after `.update(patch).eq("id", id)`. */
  function PatchById(rows: seq<TransferRecord>, id: nat, p: Patch): (rows': seq<TransferRecord>)
    ensures |rows'| == |rows|
    ensures forall k :: 0 <= k < |rows| ==> rows'[k] == if rows[k].id == id then Apply(rows[k], p) else rows[k]
  {
    seq(|rows|, k requires 0 <= k < |rows| => if rows[k].id == id then Apply(rows[k], p) else rows[k])
  }

  /** The rows after `.update(patch).eq("ref_code", ref).eq("reward_date", day)`. */
  function PatchByRefDate(rows: seq<TransferRecord>, ref: string, day: string, p: Patch): (rows': seq<TransferRecord>)
    ensures |rows'| == |rows|
    ensures forall k :: 0 <= k < |rows| ==>
      rows'[k] == if rows[k].refCode == ref && rows[k].rewardDate == day then Apply(rows[k], p) else rows[k]
  {
    seq(|rows|, k requires 0 <= k < |rows| =>
      if rows[k].refCode == ref && rows[k].rewardDate == day then Apply(rows[k], p) else rows[k])
  }

  /** No two rows share an id (the table's primary key). */
  ghost predicate UniqueIds(rows: seq<TransferRecord>) {
    forall a, b :: 0 <= a < b < |rows| ==> rows[a].id != rows[b].id
  }

  /** A select keeps the rows' ids apart: it only drops rows. */
  lemma {:induction false} SelectedUnique(rows: seq<TransferRecord>, day: string, statuses: set<Status>)
    requires UniqueIds(rows)
    ensures UniqueIds(Selected(rows, day, statuses))
  {
    if rows != [] {
      var init, last := rows[..|rows| - 1], rows[|rows| - 1];
      SelectedUnique(init, day, statuses);
      var sel := Selected(init, day, statuses);
      forall a | 0 <= a < |sel|
        ensures sel[a].id != last.id
      {
        assert sel[a] in sel;
        var q :| 0 <= q < |init| && init[q] == sel[a];
        assert rows[q] == init[q];
      }
    }
  }

  /** The `reward_transfers` table as the disbursement engines see it. */
  class TransferTable {
    var rows: seq<TransferRecord>
    /** The answer of every select made so far, in order (`None` for an error). */
    ghost var selects: seq<Option<seq<TransferRecord>>>

    ghost predicate Valid()
      reads this
    {
      UniqueIds(rows)
    }

    constructor (initial: seq<TransferRecord>)
      requires UniqueIds(initial)
      ensures Valid() && rows == initial && selects == []
    {
      rows := initial;
      selects := [];
    }

    /** A select filtered by day and status; the store may answer with an error (None). */
    method Select(day: string, statuses: set<Status>) returns (r: Option<seq<TransferRecord>>)
      modifies this
      ensures rows == old(rows) && selects == old(selects) + [r]
      ensures r.Some? ==> r.value == Selected(rows, day, statuses)
    {
      var failed: bool := *;
      r := if failed then None else Some(Selected(rows, day, statuses));
      selects := selects + [r];
    }

    method UpdateById(id: nat, p: Patch)
      requires Valid()
      modifies this
      ensures Valid()
      ensures rows == PatchById(old(rows), id, p) && selects == old(selects)
    {
      rows := PatchById(rows, id, p);
    }

    method UpdateByRefDate(ref: string, day: string, p: Patch)
      requires Valid()
      modifies this
      ensures Valid()
      ensures rows == PatchByRefDate(old(rows), ref, day, p) && selects == old(selects)
    {
      rows := PatchByRefDate(rows, ref, day, p);
    }
  }
}
