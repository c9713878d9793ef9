/**
 * The `/api/send-rewards` handler: every `reward_transfers` row of the run
 * day that is pending or failed, has a positive total and a wallet gets one
 * transfer; the outcome (success with its hash, or failed with the error's
 * message) is written to every row of that ref code and day, and the handler
 * answers with the list of attempted entries and their statuses.
 */
module SendRewardsRoute {
  import opened Records
  import opened Storage

  /** The statuses the handler picks up: rows not yet paid, and rows whose last attempt failed. */
  const Retryable: set<Status> := {Pending, Failed}

  /** An entry is attempted unless its total is not positive or its wallet is missing or empty. */
  predicate Eligible(t: TransferRecord) {
    t.totalAmount > 0.0 && Present(t.wallet)
  }

  /** The entries the loop attempts, in their order. */
  function Attempted(entries: seq<TransferRecord>): seq<TransferRecord> {
    if entries == [] then []
    else
      var last := entries[|entries| - 1];
      Attempted(entries[..|entries| - 1]) + (if Eligible(last) then [last] else [])
  }

  /** The attempted entries are exactly the eligible ones, and never more than the entries given. */
  lemma {:induction false} AttemptedSpec(entries: seq<TransferRecord>)
    ensures |Attempted(entries)| <= |entries|
    ensures forall t :: t in Attempted(entries) <==> t in entries && Eligible(t)
  {
    if entries != [] {
      var init, last := entries[..|entries| - 1], entries[|entries| - 1];
      AttemptedSpec(init);
      assert entries == init + [last];
    }
  }

  lemma AttemptedSnoc(entries: seq<TransferRecord>, i: nat)
    requires i < |entries|
    ensures Attempted(entries[..i + 1]) == Attempted(entries[..i]) + (if Eligible(entries[i]) then [entries[i]] else [])
  {
    assert entries[..i + 1][..i] == entries[..i];
  }

  /** A value that may be `undefined`: its key is then left out of the update. */
  function Sets(v: Option<string>): Column {
    if v.Some? then Write(v) else Omit
  }

  /**
   * The update written for a transfer's outcome: success with its hash and an
   * empty error message, or failed with a `null` hash and the error's message.
   */
  function Recording(o: TransferOutcome, nowIso: string): Patch {
    match o
    case Sent(h) => RecordOutcome(Sets(h), Success, Write(Some("")), nowIso)
    case Threw(m) => RecordOutcome(Write(None), Failed, Sets(m), nowIso)
  }

  /** One element of `results`: the entry, with the hash and status it ended with. */
  datatype EntryResult = EntryResult(entry: TransferRecord, txHash: Option<string>, status: Status)

  function ResultOf(t: TransferRecord, o: TransferOutcome): EntryResult {
    match o
    case Sent(h) => EntryResult(t, h, Success)
    case Threw(_) => EntryResult(t, None, Failed)
  }

  /** `results` after attempting `attempted` with outcomes `os`. */
  function Results(attempted: seq<TransferRecord>, os: seq<TransferOutcome>): (rs: seq<EntryResult>)
    requires |os| == |attempted|
    ensures |rs| == |attempted|
    ensures forall k :: 0 <= k < |attempted| ==> rs[k] == ResultOf(attempted[k], os[k])
  {
    seq(|attempted|, k requires 0 <= k < |attempted| => ResultOf(attempted[k], os[k]))
  }

  lemma ResultsSnoc(attempted: seq<TransferRecord>, os: seq<TransferOutcome>, t: TransferRecord, o: TransferOutcome)
    requires |os| == |attempted|
    ensures Results(attempted + [t], os + [o]) == Results(attempted, os) + [ResultOf(t, o)]
  {
    assert Results(attempted + [t], os + [o]) == Results(attempted, os) + [ResultOf(t, o)];
  }

  /**
   * What one result says and what its rows get: a resolved transfer is a
   * success with its hash and an empty error message, a rejected one is
   * failed with no hash and the error's message. A hash or message that is
   * missing leaves the row's column as it was, and the result then has no hash.
   */
  lemma RecordingEffect(r: TransferRecord, t: TransferRecord, o: TransferOutcome, nowIso: string)
    ensures var r' := Apply(r, Recording(o, nowIso));
      var res := ResultOf(t, o);
      && r'.status == res.status && r'.executedAt == Some(nowIso)
      && r'.memo == r.memo && r'.updatedAt == r.updatedAt
      && (res.status == Success <==> o.Sent?)
      && (o.Sent? ==> r'.errorMessage == Some("") && res.txHash == o.txHash)
      && (o.Sent? && o.txHash.Some? ==> r'.txHash == o.txHash)
      && (o.Sent? && o.txHash.None? ==> r'.txHash == r.txHash)
      && (o.Threw? ==> r'.txHash == None && res.txHash == None)
      && (o.Threw? && o.message.Some? ==> r'.errorMessage == o.message)
      && (o.Threw? && o.message.None? ==> r'.errorMessage == r.errorMessage)
  {
  }

  /** The table after recording `os[k]` on the rows of `attempted[k]`'s ref code and day `today`, in order. */
  function RecordAll(rows: seq<TransferRecord>, attempted: seq<TransferRecord>, os: seq<TransferOutcome>,
                     today: string, nowIso: string): seq<TransferRecord>
    requires |os| == |attempted|
  {
    if attempted == [] then rows
    else
      var n := |attempted| - 1;
      PatchByRefDate(RecordAll(rows, attempted[..n], os[..n], today, nowIso), attempted[n].refCode, today,
                     Recording(os[n], nowIso))
  }

  lemma RecordAllSnoc(rows: seq<TransferRecord>, attempted: seq<TransferRecord>, os: seq<TransferOutcome>,
                      t: TransferRecord, o: TransferOutcome, today: string, nowIso: string)
    requires |os| == |attempted|
    ensures RecordAll(rows, attempted + [t], os + [o], today, nowIso) ==
      PatchByRefDate(RecordAll(rows, attempted, os, today, nowIso), t.refCode, today, Recording(o, nowIso))
  {
    assert (attempted + [t])[..|attempted|] == attempted;
    assert (os + [o])[..|os|] == os;
  }

  /** No two rows are for the same ref code and day. */
  ghost predicate UniqueRefDates(rows: seq<TransferRecord>) {
    forall a, b :: 0 <= a < b < |rows| ==> rows[a].refCode != rows[b].refCode || rows[a].rewardDate != rows[b].rewardDate
  }

  lemma {:induction false} SelectedUniqueRefDates(rows: seq<TransferRecord>, day: string, statuses: set<Status>)
    requires UniqueRefDates(rows)
    ensures UniqueRefDates(Selected(rows, day, statuses))
  {
    if rows != [] {
      var init, last := rows[..|rows| - 1], rows[|rows| - 1];
      SelectedUniqueRefDates(init, day, statuses);
      var sel := Selected(init, day, statuses);
      forall a | 0 <= a < |sel|
        ensures sel[a].refCode != last.refCode || sel[a].rewardDate != last.rewardDate
      {
        assert sel[a] in sel;
        var q :| 0 <= q < |init| && init[q] == sel[a];
        assert rows[q] == init[q];
      }
    }
  }

  lemma {:induction false} AttemptedUniqueRefDates(entries: seq<TransferRecord>)
    requires UniqueRefDates(entries)
    ensures UniqueRefDates(Attempted(entries))
  {
    if entries != [] {
      var init, last := entries[..|entries| - 1], entries[|entries| - 1];
      AttemptedUniqueRefDates(init);
      AttemptedSpec(init);
      var att := Attempted(init);
      forall a | 0 <= a < |att|
        ensures att[a].refCode != last.refCode || att[a].rewardDate != last.rewardDate
      {
        assert att[a] in att;
        var q :| 0 <= q < |init| && init[q] == att[a];
        assert entries[q] == init[q];
      }
    }
  }

  /**
   * Recording for entries of distinct ref codes: a row of day `today` whose
   * ref code is `attempted[k]`'s ends up with outcome `os[k]` applied, and any
   * other row is left as it was.
   */
  lemma {:induction false} RecordAllEffect(rows: seq<TransferRecord>, attempted: seq<TransferRecord>,
                                           os: seq<TransferOutcome>, today: string, nowIso: string)
    requires |os| == |attempted|
    requires forall a, b :: 0 <= a < b < |attempted| ==> attempted[a].refCode != attempted[b].refCode
    ensures |RecordAll(rows, attempted, os, today, nowIso)| == |rows|
    ensures forall p, k ::
      (0 <= p < |rows| && 0 <= k < |attempted| && rows[p].refCode == attempted[k].refCode && rows[p].rewardDate == today) ==>
      RecordAll(rows, attempted, os, today, nowIso)[p] == Apply(rows[p], Recording(os[k], nowIso))
    ensures forall p ::
      (0 <= p < |rows| &&
       (rows[p].rewardDate != today || forall k :: 0 <= k < |attempted| ==> attempted[k].refCode != rows[p].refCode)) ==>
      RecordAll(rows, attempted, os, today, nowIso)[p] == rows[p]
  {
    if attempted != [] {
      var n := |attempted| - 1;
      var ts, init := attempted[..n], os[..n];
      RecordAllEffect(rows, ts, init, today, nowIso);
      var after := RecordAll(rows, attempted, os, today, nowIso);
      forall p, k | 0 <= p < |rows| && 0 <= k < |attempted| &&
        rows[p].refCode == attempted[k].refCode && rows[p].rewardDate == today
        ensures after[p] == Apply(rows[p], Recording(os[k], nowIso))
      {
        if k == n {
          assert forall q :: 0 <= q < n ==> ts[q].refCode != rows[p].refCode;
        } else {
          assert ts[k] == attempted[k];
        }
      }
      forall p | 0 <= p < |rows| &&
        (rows[p].rewardDate != today || forall k :: 0 <= k < |attempted| ==> attempted[k].refCode != rows[p].refCode)
        ensures after[p] == rows[p]
      {
        assert forall q :: 0 <= q < n ==> ts[q] == attempted[q];
      }
    }
  }

  /**
   * What a run does to a table with one row per ref code and day: each row of
   * the run day that is pending or failed and has a positive total and a
   * wallet gets the outcome of its own transfer, and every other row — paid,
   * skipped or of another day — is left untouched.
   */
  lemma RouteEffect(rows: seq<TransferRecord>, today: string, os: seq<TransferOutcome>, nowIso: string)
    requires UniqueRefDates(rows)
    requires |os| == |Attempted(Selected(rows, today, Retryable))|
    ensures var attempted := Attempted(Selected(rows, today, Retryable));
      var rows' := RecordAll(rows, attempted, os, today, nowIso);
      && |rows'| == |rows|
      && (forall p ::
            (0 <= p < |rows| && (rows[p].rewardDate != today || rows[p].status !in Retryable || !Eligible(rows[p]))) ==>
            rows'[p] == rows[p])
      && (forall p :: 0 <= p < |rows| && rows[p].rewardDate == today && rows[p].status in Retryable && Eligible(rows[p]) ==>
            exists k :: 0 <= k < |attempted| && attempted[k] == rows[p] && rows'[p] == Apply(rows[p], Recording(os[k], nowIso)))
  {
    var selected := Selected(rows, today, Retryable);
    var attempted := Attempted(selected);
    SelectedUniqueRefDates(rows, today, Retryable);
    AttemptedUniqueRefDates(selected);
    AttemptedSpec(selected);
    forall a, b | 0 <= a < b < |attempted|
      ensures attempted[a].refCode != attempted[b].refCode
    {
      assert attempted[a] in attempted && attempted[b] in attempted;
    }
    RecordAllEffect(rows, attempted, os, today, nowIso);
    forall p | 0 <= p < |rows| && rows[p].rewardDate == today && (rows[p].status !in Retryable || !Eligible(rows[p]))
      ensures forall k :: 0 <= k < |attempted| ==> attempted[k].refCode != rows[p].refCode
    {
      forall k | 0 <= k < |attempted|
        ensures attempted[k].refCode != rows[p].refCode
      {
        assert attempted[k] in attempted;
        var q :| 0 <= q < |rows| && rows[q] == attempted[k];
      }
    }
    forall p | 0 <= p < |rows| && rows[p].rewardDate == today && rows[p].status in Retryable && Eligible(rows[p])
      ensures exists k :: 0 <= k < |attempted| && attempted[k] == rows[p]
    {
      assert rows[p] in rows;
      assert rows[p] in attempted;
    }
  }

  /**
   * The update is keyed by ref code and day, not by row: when an already
   * paid row shares its ref code and day with a failed row, a failed retry
   * marks the paid row failed and clears its hash.
   */
  lemma SharedKeyOverwritesPaid(paid: TransferRecord, retried: TransferRecord, message: Option<string>, nowIso: string)
    requires paid.status == Success && paid.txHash.Some?
    requires retried.status == Failed && Eligible(retried)
    requires paid.refCode == retried.refCode && paid.rewardDate == retried.rewardDate
    ensures var rows := [paid, retried];
      var today := paid.rewardDate;
      var attempted := Attempted(Selected(rows, today, Retryable));
      && attempted == [retried]
      && var rows' := RecordAll(rows, attempted, [Threw(message)], today, nowIso);
      && |rows'| == 2 && rows'[0].status == Failed && rows'[0].txHash.None?
  {
    var rows := [paid, retried];
    var today := paid.rewardDate;
    assert rows[..1] == [paid];
    assert Selected([paid], today, Retryable) == [];
    assert Selected(rows, today, Retryable) == [retried];
    assert Attempted([retried]) == [retried];
  }

  /**
   * One pass of the loop for an entry that is attempted: the transfer, the
   * update of the entry's ref code and day, and the entry's result.
   */
  method Dispatch(table: TransferTable, client: TransferClient, entry: TransferRecord, today: string, nowIso: string)
    returns (res: EntryResult, o: TransferOutcome)
    requires table.Valid()
    modifies table, client
    ensures table.Valid()
    ensures client.attempts == old(client.attempts) + [Attempt(entry.wallet, entry.totalAmount, o)]
    ensures table.rows == PatchByRefDate(old(table.rows), entry.refCode, today, Recording(o, nowIso))
    ensures res == ResultOf(entry, o)
    ensures table.selects == old(table.selects)
  {
    var status := Pending;
    var txHash: Column := Write(None);
    var errorMessage: Column := Write(Some(""));
    o := client.Transfer(entry.wallet, entry.totalAmount);
    match o {
      case Sent(h) =>
        txHash := Sets(h);
        status := Success;
      case Threw(m) =>
        status := Failed;
        errorMessage := Sets(m);
    }
    table.UpdateByRefDate(entry.refCode, today, RecordOutcome(txHash, status, errorMessage, nowIso));
    res := EntryResult(entry, Written(txHash, None), status);
  }

  /**
   * The loop of the handler: skips each entry that is not eligible and
   * dispatches the others in order. `done` are the dispatched entries and
   * `os` their outcomes.
   */
  method DispatchAll(table: TransferTable, client: TransferClient, transfers: seq<TransferRecord>,
                     today: string, nowIso: string)
    returns (results: seq<EntryResult>, ghost done: seq<TransferRecord>, ghost os: seq<TransferOutcome>)
    requires table.Valid()
    modifies table, client
    ensures table.Valid()
    ensures done == Attempted(transfers) && |os| == |done|
    ensures client.attempts == old(client.attempts) + Calls(done, os)
    ensures table.rows == RecordAll(old(table.rows), done, os, today, nowIso)
    ensures results == Results(done, os)
    ensures table.selects == old(table.selects)
  {
    ghost var rows0, log0, selects0 := table.rows, client.attempts, table.selects;
    done, os := [], [];
    results := [];
    for i := 0 to |transfers|
      invariant table.Valid()
      invariant done == Attempted(transfers[..i])
      invariant |os| == |done|
      invariant client.attempts == log0 + Calls(done, os)
      invariant table.rows == RecordAll(rows0, done, os, today, nowIso)
      invariant results == Results(done, os)
      invariant table.selects == selects0
    {
      var entry := transfers[i];
      AttemptedSnoc(transfers, i);
      var total := entry.totalAmount;
      if total <= 0.0 || !Present(entry.wallet) {
        assert done + [] == done;
        continue;
      }
      var res;
      var o;
      res, o := Dispatch(table, client, entry, today, nowIso);
      results := results + [res];
      CallsSnoc(done, os, entry, o);
      RecordAllSnoc(rows0, done, os, entry, o, today, nowIso);
      ResultsSnoc(done, os, entry, o);
      assert client.attempts == log0 + (Calls(done, os) + [Attempt(entry.wallet, entry.totalAmount, o)]);
      done, os := done + [entry], os + [o];
    }
    assert transfers[..|transfers|] == transfers;
  }

  /** What the handler answers: the select failed (HTTP 500), or the attempted entries with their outcomes. */
  datatype Response = LoadFailed500 | Ok(results: seq<EntryResult>)

  /**
   * `POST /api/send-rewards`: `table` is `reward_transfers`, `client` the
   * transfer client, `today` the run day and `nowIso` the execution time.
   */
  method Post(table: TransferTable, client: TransferClient, today: string, nowIso: string) returns (resp: Response)
    requires table.Valid()
    modifies table, client
    ensures table.Valid()
    ensures |table.selects| == |old(table.selects)| + 1
    ensures var answer := table.selects[|old(table.selects)|];
      && (answer.Some? ==> answer.value == Selected(old(table.rows), today, Retryable))
      && (resp.LoadFailed500? <==> answer.None?)
    ensures resp.LoadFailed500? ==> table.rows == old(table.rows) && client.attempts == old(client.attempts)
    ensures resp.Ok? ==>
      var attempted := Attempted(Selected(old(table.rows), today, Retryable));
      var n0 := |old(client.attempts)|;
      && |client.attempts| == n0 + |attempted|
      && var os := Outcomes(client.attempts[n0..]);
      && client.attempts == old(client.attempts) + Calls(attempted, os)
      && table.rows == RecordAll(old(table.rows), attempted, os, today, nowIso)
      && resp.results == Results(attempted, os)
  {
    var selected := table.Select(today, Retryable);
    if selected.None? {
      return LoadFailed500;
    }
    var transfers := selected.value;
    ghost var log0 := client.attempts;
    var results, done, os := DispatchAll(table, client, transfers, today, nowIso);
    assert client.attempts[|log0|..] == Calls(done, os);
    OutcomesOfCalls(done, os);
    return Ok(results);
  }
}
