/**
 * The pending-row disbursement engine: every `reward_transfers` row of the
 * run day that is still pending gets one transfer of its total to its wallet;
 * the row is then marked completed with the transaction hash, or failed with a
 * memo saying why. A failure never stops the loop, and the run reports how
 * many transfers succeeded and how many failed.
 */
module RewardPayout {
  import opened Records
  import opened Storage

  /** The message of the error raised for a transfer that resolved without a hash. */
  const NoHashMessage: string := "트랜잭션 해시 없음"
  /** The memo of a failure whose error carries no message. */
  const FallbackMemo: string := "송금 실패"
  /** The longest memo stored. */
  const MemoLimit: nat := 100

  /** `s.slice(0, n)`: the first `n` characters, or all of `s` when it is shorter. */
  function Truncate(s: string, n: nat): (t: string)
    ensures |t| <= n && t <= s
    ensures |s| <= n ==> t == s
    ensures |s| > n ==> |t| == n
  {
    if |s| <= n then s else s[..n]
  }

  /** A transfer is paid when it resolved with a non-empty transaction hash. */
  predicate Paid(o: TransferOutcome) {
    o.Sent? && Present(o.txHash)
  }

  /** The memo of a failed row: the error's message, or the fallback when it has none, cut to `MemoLimit`. */
  function FailureMemo(message: Option<string>): (memo: string)
    ensures |memo| <= MemoLimit
    ensures Present(message) ==> memo <= message.value
    ensures Present(message) && |message.value| <= MemoLimit ==> memo == message.value
    ensures Present(message) ==> memo == Truncate(message.value, MemoLimit)
    ensures !Present(message) ==> memo == FallbackMemo
  {
    Truncate(if Present(message) then message.value else FallbackMemo, MemoLimit)
  }

  /**
   * The message of the error a transfer ends with when it is not paid: a
   * missing hash raises `NoHashMessage`, a rejection carries its own.
   */
  function ErrorMessage(o: TransferOutcome): Option<string> {
    if o.Sent? then Some(NoHashMessage) else o.message
  }

  /** The update a row gets for the outcome of its transfer. */
  function Settlement(o: TransferOutcome, nowIso: string): Patch {
    if Paid(o) then MarkCompleted(o.txHash.value, nowIso) else MarkFailed(FailureMemo(ErrorMessage(o)), nowIso)
  }

  /**
   * What a settled row looks like: completed with the transaction hash when
   * paid, otherwise failed with a memo of at most `MemoLimit` characters: the
   * missing-hash message when the transfer resolved without a hash, the
   * rejection's message cut to `MemoLimit` when it has one, and the fallback
   * when it has none. Every other column but the update time is kept.
   */
  lemma SettlementEffect(r: TransferRecord, o: TransferOutcome, nowIso: string)
    ensures var r' := Apply(r, Settlement(o, nowIso));
      && r'.updatedAt == Some(nowIso)
      && r'.errorMessage == r.errorMessage && r'.executedAt == r.executedAt
      && (r'.status == Completed <==> Paid(o))
      && (Paid(o) ==> r'.txHash == o.txHash && r'.memo == r.memo)
      && (!Paid(o) ==>
            && r'.status == Failed && r'.txHash == r.txHash
            && r'.memo.Some? && |r'.memo.value| <= MemoLimit
            && (o.Sent? ==> r'.memo == Some(NoHashMessage))
            && (o.Threw? && Present(o.message) ==> r'.memo == Some(Truncate(o.message.value, MemoLimit)))
            && (o.Threw? && !Present(o.message) ==> r'.memo == Some(FallbackMemo)))
  {
    assert |NoHashMessage| <= MemoLimit;
  }

  /** The table after settling `targets[k]` with outcome `os[k]`, in order, each by its id. */
  function SettleAll(rows: seq<TransferRecord>, targets: seq<TransferRecord>, os: seq<TransferOutcome>, nowIso: string)
    : seq<TransferRecord>
    requires |os| == |targets|
  {
    if targets == [] then rows
    else
      var n := |targets| - 1;
      PatchById(SettleAll(rows, targets[..n], os[..n], nowIso), targets[n].id, Settlement(os[n], nowIso))
  }

  lemma SettleAllSnoc(rows: seq<TransferRecord>, targets: seq<TransferRecord>, os: seq<TransferOutcome>, i: nat,
                      o: TransferOutcome, nowIso: string)
    requires |os| == i < |targets|
    ensures SettleAll(rows, targets[..i + 1], os + [o], nowIso) ==
      PatchById(SettleAll(rows, targets[..i], os, nowIso), targets[i].id, Settlement(o, nowIso))
  {
    assert targets[..i + 1][..i] == targets[..i];
    assert (os + [o])[..i] == os;
  }

  /** The number of paid outcomes: `successCount`. */
  function SuccessCount(os: seq<TransferOutcome>): nat {
    if os == [] then 0 else SuccessCount(os[..|os| - 1]) + (if Paid(os[|os| - 1]) then 1 else 0)
  }

  lemma SuccessCountSnoc(os: seq<TransferOutcome>, o: TransferOutcome)
    ensures SuccessCount(os + [o]) == SuccessCount(os) + (if Paid(o) then 1 else 0)
  {
    assert (os + [o])[..|os|] == os;
  }

  /** Every outcome counts once: none beyond the attempts, all of them exactly when every transfer was paid. */
  lemma {:induction false} SuccessCountBounds(os: seq<TransferOutcome>)
    ensures SuccessCount(os) <= |os|
    ensures SuccessCount(os) == |os| <==> forall k :: 0 <= k < |os| ==> Paid(os[k])
    ensures SuccessCount(os) == 0 <==> forall k :: 0 <= k < |os| ==> !Paid(os[k])
  {
    if os != [] {
      var init := os[..|os| - 1];
      SuccessCountBounds(init);
      assert forall k :: 0 <= k < |init| ==> init[k] == os[k];
    }
  }

  /**
   * Settling rows of distinct ids: a row whose id is `targets[k]`'s ends up
   * as that row with outcome `os[k]` applied, and a row whose id is no
   * target's is left as it was.
   */
  lemma {:induction false} SettleAllEffect(rows: seq<TransferRecord>, targets: seq<TransferRecord>,
                                           os: seq<TransferOutcome>, nowIso: string)
    requires |os| == |targets|
    requires UniqueIds(targets)
    ensures |SettleAll(rows, targets, os, nowIso)| == |rows|
    ensures forall p, k :: 0 <= p < |rows| && 0 <= k < |targets| && rows[p].id == targets[k].id ==>
      SettleAll(rows, targets, os, nowIso)[p] == Apply(rows[p], Settlement(os[k], nowIso))
    ensures forall p :: 0 <= p < |rows| && (forall k :: 0 <= k < |targets| ==> targets[k].id != rows[p].id) ==>
      SettleAll(rows, targets, os, nowIso)[p] == rows[p]
  {
    if targets != [] {
      var n := |targets| - 1;
      var ts, init := targets[..n], os[..n];
      SettleAllEffect(rows, ts, init, nowIso);
      var before := SettleAll(rows, ts, init, nowIso);
      var after := SettleAll(rows, targets, os, nowIso);
      forall p, k | 0 <= p < |rows| && 0 <= k < |targets| && rows[p].id == targets[k].id
        ensures after[p] == Apply(rows[p], Settlement(os[k], nowIso))
      {
        if k == n {
          assert forall q :: 0 <= q < n ==> ts[q].id != rows[p].id;
        } else {
          assert ts[k] == targets[k];
        }
      }
      forall p | 0 <= p < |rows| && (forall k :: 0 <= k < |targets| ==> targets[k].id != rows[p].id)
        ensures after[p] == rows[p]
      {
        assert forall q :: 0 <= q < n ==> ts[q] == targets[q];
      }
    }
  }

  /**
   * What a run does to the table: each row of the run day that was pending
   * is settled with the outcome of its own transfer, and every other row —
   * completed, successful, failed or of another day — is left untouched.
   */
  lemma PayoutEffect(rows: seq<TransferRecord>, today: string, os: seq<TransferOutcome>, nowIso: string)
    requires UniqueIds(rows)
    requires |os| == |Selected(rows, today, {Pending})|
    ensures var targets := Selected(rows, today, {Pending});
      var rows' := SettleAll(rows, targets, os, nowIso);
      && |rows'| == |rows|
      && (forall p :: 0 <= p < |rows| && (rows[p].rewardDate != today || rows[p].status != Pending) ==>
            rows'[p] == rows[p])
      && (forall p :: 0 <= p < |rows| && rows[p].rewardDate == today && rows[p].status == Pending ==>
            exists k :: 0 <= k < |targets| && targets[k] == rows[p] && rows'[p] == Apply(rows[p], Settlement(os[k], nowIso)))
  {
    var targets := Selected(rows, today, {Pending});
    SelectedUnique(rows, today, {Pending});
    SettleAllEffect(rows, targets, os, nowIso);
    forall p | 0 <= p < |rows| && (rows[p].rewardDate != today || rows[p].status != Pending)
      ensures forall k :: 0 <= k < |targets| ==> targets[k].id != rows[p].id
    {
      forall k | 0 <= k < |targets|
        ensures targets[k].id != rows[p].id
      {
        assert targets[k] in targets;
        var q :| 0 <= q < |rows| && rows[q] == targets[k];
      }
    }
    forall p | 0 <= p < |rows| && rows[p].rewardDate == today && rows[p].status == Pending
      ensures exists k :: 0 <= k < |targets| && targets[k] == rows[p]
    {
      assert rows[p] in rows;
      assert rows[p] in targets;
    }
  }

  /** How a run ended: the select failed, nothing was pending, or every target was attempted. */
  datatype PayoutResult = TargetsLoadFailed | NoTargets | Done(succeeded: nat, failed: nat)

  /** One pass of the payout loop: transfers `t`'s total to its wallet and settles its row by id. */
  method Settle(table: TransferTable, client: TransferClient, t: TransferRecord, nowIso: string)
    returns (o: TransferOutcome, paid: bool)
    requires table.Valid()
    modifies table, client
    ensures table.Valid()
    ensures client.attempts == old(client.attempts) + [Attempt(t.wallet, t.totalAmount, o)]
    ensures table.rows == PatchById(old(table.rows), t.id, Settlement(o, nowIso))
    ensures paid == Paid(o)
    ensures table.selects == old(table.selects)
  {
    o := client.Transfer(t.wallet, t.totalAmount);
    if o.Sent? && Present(o.txHash) {
      table.UpdateById(t.id, MarkCompleted(o.txHash.value, nowIso));
      paid := true;
    } else {
      var message := if o.Sent? then Some(NoHashMessage) else o.message;
      table.UpdateById(t.id, MarkFailed(FailureMemo(message), nowIso));
      paid := false;
    }
  }

  /**
   * The loop of `sendRewardUSDT`: transfers to each target in order, settling
   * its row before the next one, whatever the outcome. `os` are the outcomes.
   */
  method PayAll(table: TransferTable, client: TransferClient, targets: seq<TransferRecord>, nowIso: string)
    returns (successCount: nat, failCount: nat, ghost os: seq<TransferOutcome>)
    requires table.Valid()
    modifies table, client
    ensures table.Valid()
    ensures |os| == |targets|
    ensures client.attempts == old(client.attempts) + Calls(targets, os)
    ensures table.rows == SettleAll(old(table.rows), targets, os, nowIso)
    ensures successCount == SuccessCount(os) && successCount + failCount == |targets|
    ensures table.selects == old(table.selects)
  {
    ghost var rows0, log0, selects0 := table.rows, client.attempts, table.selects;
    os := [];
    successCount, failCount := 0, 0;
    for i := 0 to |targets|
      invariant table.Valid()
      invariant |os| == i
      invariant client.attempts == log0 + Calls(targets[..i], os)
      invariant table.rows == SettleAll(rows0, targets[..i], os, nowIso)
      invariant successCount == SuccessCount(os) && successCount + failCount == i
      invariant table.selects == selects0
    {
      var t := targets[i];
      var o, paid := Settle(table, client, t, nowIso);
      if paid {
        successCount := successCount + 1;
      } else {
        failCount := failCount + 1;
      }
      TakeSnoc(targets, i);
      CallsSnoc(targets[..i], os, t, o);
      assert client.attempts == log0 + (Calls(targets[..i], os) + [Attempt(t.wallet, t.totalAmount, o)]);
      SettleAllSnoc(rows0, targets, os, i, o, nowIso);
      SuccessCountSnoc(os, o);
      os := os + [o];
    }
    assert targets[..|targets|] == targets;
  }

  /**
   * `sendRewardUSDT`: `table` is `reward_transfers`, `client` the transfer
   * client, `today` the run day and `nowIso` the update time.
   */
  method SendRewardUSDT(table: TransferTable, client: TransferClient, today: string, nowIso: string)
    returns (r: PayoutResult)
    requires table.Valid()
    modifies table, client
    ensures table.Valid()
    ensures |table.selects| == |old(table.selects)| + 1
    ensures var answer := table.selects[|old(table.selects)|];
      && (answer.Some? ==> answer.value == Selected(old(table.rows), today, {Pending}))
      && (r == TargetsLoadFailed <==> answer.None?)
      && (r == NoTargets <==> answer == Some([]))
    ensures !r.Done? ==> table.rows == old(table.rows) && client.attempts == old(client.attempts)
    ensures r == NoTargets ==> Selected(old(table.rows), today, {Pending}) == []
    ensures r.Done? ==>
      var targets := Selected(old(table.rows), today, {Pending});
      var n0 := |old(client.attempts)|;
      && targets != []
      && |client.attempts| == n0 + |targets|
      && var os := Outcomes(client.attempts[n0..]);
      && client.attempts == old(client.attempts) + Calls(targets, os)
      && table.rows == SettleAll(old(table.rows), targets, os, nowIso)
      && r.succeeded == SuccessCount(os)
      && r.succeeded + r.failed == |targets|
  {
    var selected := table.Select(today, {Pending});
    if selected.None? {
      return TargetsLoadFailed;
    }
    var targets := selected.value;
    if |targets| == 0 {
      return NoTargets;
    }
    ghost var log0 := client.attempts;
    var successCount, failCount, os := PayAll(table, client, targets, nowIso);
    assert client.attempts[|log0|..] == Calls(targets, os);
    OutcomesOfCalls(targets, os);
    return Done(successCount, failCount);
  }
}
