/**
 * The commission reward calculator: every fee record with a positive
 * commission credits its payer (level 0), its referrer `ref_by` (level 1) and
 * that referrer's referrer `ref_by2` (level 2) with a percentage of the
 * commission, and the rows are stored in chunks of `ChunkSize`.
 */
module FeeRewards {
  import opened Records
  import opened Storage

  const SelfMemo: string := "수수료 본인 리워드"
  const Ref1Memo: string := "수수료 초대1 리워드"
  const Ref2Memo: string := "수수료 초대2 리워드"

  /** The commission a fee record is paid on (`Number(fee_commission) || 0`). */
  function Base(f: FeeRecord): real {
    NumOrZero(f.commission)
  }

  /** The rate of a reward level: self, first referrer, second referrer. */
  function RateOf(s: RewardSetting, level: nat): real {
    if level == 0 then s.selfRate else if level == 1 then s.ref1Rate else s.ref2Rate
  }

  /** Who a reward level credits: the payer, the referrer, the referrer's referrer. */
  function Beneficiary(f: FeeRecord, level: nat): Option<string> {
    if level == 0 then Some(f.refCode) else if level == 1 then f.refBy else f.refBy2
  }

  /** Some row of `rows` is of the given level. */
  predicate HasLevel(rows: seq<InviteRow>, level: nat) {
    exists k :: 0 <= k < |rows| && rows[k].level == level
  }

  /**
   * The ledger rows one fee record contributes: at most one per level, in
   * level order, each `Base(f) * rate / 100` and dated with the fee's own
   * reward date. A level is credited exactly when the commission is positive,
   * its rate is non-zero and (for levels 1 and 2) its referrer is present.
   */
  function FeeRows(f: FeeRecord, s: RewardSetting, nowIso: string): (rows: seq<InviteRow>)
    ensures Base(f) <= 0.0 ==> rows == []
  {
    if Base(f) <= 0.0 then []
    else LevelRow(f, s, nowIso, 0) + LevelRow(f, s, nowIso, 1) + LevelRow(f, s, nowIso, 2)
  }

  /** The row of one level, when that level is credited (for a positive commission). */
  function LevelRow(f: FeeRecord, s: RewardSetting, nowIso: string, level: nat): seq<InviteRow>
    requires level <= 2
  {
    var base := Base(f);
    if level == 0 then
      if s.selfRate != 0.0
      then [InviteRow(f.refCode, f.name, f.wallet, f.rewardDate, nowIso, Share(base, s.selfRate), 0, SelfMemo)]
      else []
    else if level == 1 then
      if Present(f.refBy) && s.ref1Rate != 0.0
      then [InviteRow(f.refBy.value, None, None, f.rewardDate, nowIso, Share(base, s.ref1Rate), 1, Ref1Memo)]
      else []
    else
      if Present(f.refBy2) && s.ref2Rate != 0.0
      then [InviteRow(f.refBy2.value, None, None, f.rewardDate, nowIso, Share(base, s.ref2Rate), 2, Ref2Memo)]
      else []
  }

  /**
   * Every row of a fee credits the beneficiary of its level with that level's
   * share of the fee's commission, and carries the fee's own reward date. The
   * self row copies the payer's name and wallet; referrer rows carry neither.
   * Each level has its own memo.
   */
  lemma FeeRowsShape(f: FeeRecord, s: RewardSetting, nowIso: string)
    ensures |FeeRows(f, s, nowIso)| <= 3
    ensures forall r :: r in FeeRows(f, s, nowIso) ==>
      && r.level <= 2
      && Some(r.refCode) == Beneficiary(f, r.level)
      && r.rewardDate == f.rewardDate
      && r.createdAt == nowIso
      && r.amount == Share(Base(f), RateOf(s, r.level))
      && (r.level == 0 ==> r.name == f.name && r.wallet == f.wallet && r.memo == SelfMemo)
      && (r.level == 1 ==> r.name.None? && r.wallet.None? && r.memo == Ref1Memo)
      && (r.level == 2 ==> r.name.None? && r.wallet.None? && r.memo == Ref2Memo)
  {
  }

  /**
   * A level is credited exactly when the commission is positive, its rate is
   * non-zero and, for levels 1 and 2, its referrer is present.
   */
  lemma FeeRowsLevels(f: FeeRecord, s: RewardSetting, nowIso: string)
    ensures var rows := FeeRows(f, s, nowIso);
      forall a, b :: 0 <= a < b < |rows| ==> rows[a].level < rows[b].level
    ensures HasLevel(FeeRows(f, s, nowIso), 0) <==> Base(f) > 0.0 && s.selfRate != 0.0
    ensures HasLevel(FeeRows(f, s, nowIso), 1) <==> Base(f) > 0.0 && Present(f.refBy) && s.ref1Rate != 0.0
    ensures HasLevel(FeeRows(f, s, nowIso), 2) <==> Base(f) > 0.0 && Present(f.refBy2) && s.ref2Rate != 0.0
  {
    var rows := FeeRows(f, s, nowIso);
    if Base(f) > 0.0 {
      var n0 := |LevelRow(f, s, nowIso, 0)|;
      var n1 := |LevelRow(f, s, nowIso, 1)|;
      if s.selfRate != 0.0 {
        assert rows[0].level == 0;
      }
      if Present(f.refBy) && s.ref1Rate != 0.0 {
        assert rows[n0].level == 1;
      }
      if Present(f.refBy2) && s.ref2Rate != 0.0 {
        assert rows[n0 + n1].level == 2;
      }
    }
  }

  /** The rows of a whole run: each fee's rows, in fee order. */
  function ExpandFees(fees: seq<FeeRecord>, s: RewardSetting, nowIso: string): seq<InviteRow> {
    if fees == [] then []
    else ExpandFees(fees[..|fees| - 1], s, nowIso) + FeeRows(fees[|fees| - 1], s, nowIso)
  }

  /** A run yields at most three rows per fee record. */
  lemma {:induction false} ExpandFeesBound(fees: seq<FeeRecord>, s: RewardSetting, nowIso: string)
    ensures |ExpandFees(fees, s, nowIso)| <= 3 * |fees|
  {
    if fees != [] {
      ExpandFeesBound(fees[..|fees| - 1], s, nowIso);
      FeeRowsShape(fees[|fees| - 1], s, nowIso);
    }
  }

  /**
   * Every row of a run comes from one of its fee records, so it carries that
   * fee's reward date and is a percentage of that fee's positive commission.
   */
  lemma {:induction false} ExpandFeesOrigin(fees: seq<FeeRecord>, s: RewardSetting, nowIso: string)
    ensures forall k :: 0 <= k < |ExpandFees(fees, s, nowIso)| ==>
      exists j :: 0 <= j < |fees| && ExpandFees(fees, s, nowIso)[k] in FeeRows(fees[j], s, nowIso)
  {
    if fees != [] {
      var init := fees[..|fees| - 1];
      ExpandFeesOrigin(init, s, nowIso);
      var rows := ExpandFees(fees, s, nowIso);
      var head := ExpandFees(init, s, nowIso);
      var tail := FeeRows(fees[|fees| - 1], s, nowIso);
      forall k | 0 <= k < |rows|
        ensures exists j :: 0 <= j < |fees| && rows[k] in FeeRows(fees[j], s, nowIso)
      {
        if k < |head| {
          assert rows[k] == head[k];
          var j :| 0 <= j < |init| && head[k] in FeeRows(init[j], s, nowIso);
          assert init[j] == fees[j];
          assert rows[k] in FeeRows(fees[j], s, nowIso);
        } else {
          assert rows[k] == tail[k - |head|];
          assert rows[k] in FeeRows(fees[|fees| - 1], s, nowIso);
        }
      }
    } else {
      assert ExpandFees(fees, s, nowIso) == [];
    }
  }

  /** A run computes no rows exactly when no fee record yields one. */
  lemma {:induction false} ExpandFeesEmpty(fees: seq<FeeRecord>, s: RewardSetting, nowIso: string)
    ensures ExpandFees(fees, s, nowIso) == [] <==> forall j :: 0 <= j < |fees| ==> FeeRows(fees[j], s, nowIso) == []
  {
    if fees != [] {
      var init := fees[..|fees| - 1];
      ExpandFeesEmpty(init, s, nowIso);
      var last := FeeRows(fees[|fees| - 1], s, nowIso);
      assert |ExpandFees(fees, s, nowIso)| == |ExpandFees(init, s, nowIso)| + |last|;
      assert forall j :: 0 <= j < |init| ==> init[j] == fees[j];
    }
  }

  /** One pass of the calculation loop: pushes the rows of fee `f` onto `rows`. */
  method PushFeeRows(rows: seq<InviteRow>, f: FeeRecord, s: RewardSetting, nowIso: string) returns (rows': seq<InviteRow>)
    ensures rows' == rows + FeeRows(f, s, nowIso)
  {
    rows' := rows;
    var base := NumOrZero(f.commission);
    if base <= 0.0 {
      return;
    }
    if s.selfRate != 0.0 {
      rows' := rows' + [InviteRow(f.refCode, f.name, f.wallet, f.rewardDate, nowIso, Share(base, s.selfRate), 0, SelfMemo)];
    }
    assert rows' == rows + LevelRow(f, s, nowIso, 0);
    if Present(f.refBy) && s.ref1Rate != 0.0 {
      rows' := rows' + [InviteRow(f.refBy.value, None, None, f.rewardDate, nowIso, Share(base, s.ref1Rate), 1, Ref1Memo)];
    }
    assert rows' == rows + LevelRow(f, s, nowIso, 0) + LevelRow(f, s, nowIso, 1);
    if Present(f.refBy2) && s.ref2Rate != 0.0 {
      rows' := rows' + [InviteRow(f.refBy2.value, None, None, f.rewardDate, nowIso, Share(base, s.ref2Rate), 2, Ref2Memo)];
    }
  }

  /** The calculation loop of `calculateFeeRewards`: pushes each fee's rows in turn. */
  method ComputeFeeRows(fees: seq<FeeRecord>, s: RewardSetting, nowIso: string) returns (rows: seq<InviteRow>)
    ensures rows == ExpandFees(fees, s, nowIso)
  {
    rows := [];
    var i := 0;
    while i < |fees|
      invariant 0 <= i <= |fees|
      invariant rows == ExpandFees(fees[..i], s, nowIso)
    {
      rows := PushFeeRows(rows, fees[i], s, nowIso);
      assert fees[..i + 1][..i] == fees[..i];
      i := i + 1;
    }
    assert fees[..i] == fees;
  }

  /**
   * `calculateFeeRewards`: settings and the fee list are the loaded values
   * (None when the load failed); `reward_invites` is `table`.
   */
  method CalculateFeeRewards(settings: Option<RewardSetting>, fees: Option<seq<FeeRecord>>, nowIso: string, table: Table<InviteRow>)
    returns (r: CalcResult)
    modifies table
    ensures r == Failure(SettingsMissing) <==> settings.None?
    ensures r == Failure(FeeLoadFailed) <==> settings.Some? && fees.None?
    ensures r == Failure(NoFees) <==> settings.Some? && fees == Some([])
    ensures r == Failure(NothingComputed) <==>
      settings.Some? && fees.Some? && fees.value != [] && ExpandFees(fees.value, settings.value, nowIso) == []
    ensures settings.Some? && fees.Some? && ExpandFees(fees.value, settings.value, nowIso) != [] ==>
      r.Inserted? || r.error.InsertFailed?
    ensures r.Failure? && !r.error.InsertFailed? ==> table.rows == old(table.rows) && table.batches == old(table.batches)
    ensures r.Inserted? ==>
      && settings.Some? && fees.Some?
      && var rows := ExpandFees(fees.value, settings.value, nowIso);
      && r.count == |rows| && rows != []
      && table.rows == old(table.rows) + rows
      && table.batches == old(table.batches) + Chunks(rows)
    ensures r.Failure? && r.error.InsertFailed? ==>
      && settings.Some? && fees.Some?
      && var rows := ExpandFees(fees.value, settings.value, nowIso);
      && var until := r.error.insertedUntil;
      && until % ChunkSize == 0
      && until < |rows|
      && table.rows == old(table.rows) + rows[..until]
      && table.batches == old(table.batches) + Chunks(rows[..until]) + [rows[until..Min(until + ChunkSize, |rows|)]]
  {
    if settings.None? {
      return Failure(SettingsMissing);
    }
    if fees.None? {
      return Failure(FeeLoadFailed);
    }
    if |fees.value| == 0 {
      return Failure(NoFees);
    }
    var rows := ComputeFeeRows(fees.value, settings.value, nowIso);
    if |rows| == 0 {
      return Failure(NothingComputed);
    }
    var stored := InsertInChunks(table, rows);
    if stored.StoppedAt? {
      return Failure(InsertFailed(stored.insertedUntil));
    }
    return Inserted(|rows|);
  }
}
