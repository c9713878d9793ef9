/**
 * The rows of the reward pipeline's tables, and the few JavaScript value
 * conventions the pipeline relies on (nullable strings, `Number(x) || 0`).
 *
 * Amounts and rates are exact `real`s: the source's `toFixed(6)` rounding is
 * not modelled, so every sum below is the sum before rounding.
 */
module Records {

  datatype Option<+T> = None | Some(value: T) {
    function GetOr(default: T): T {
      match this
      case Some(v) => v
      case None => default
    }
  }

  /** JavaScript truthiness of a nullable string: present and not empty. */
  predicate Present(s: Option<string>) {
    s.Some? && s.value != ""
  }

  /** `Number(x) || 0`: a missing or non-numeric value (None) reads as 0. */
  function NumOrZero(x: Option<real>): real {
    x.GetOr(0.0)
  }

  /** `base * (rate / 100)`: a percentage share of an amount. */
  function Share(base: real, rate: real): real {
    base * (rate / 100.0)
  }

  /**
   * The active reward rates, in percent. A rate the settings row leaves null
   * is written 0 here: every use in the source (`if (rate)`, `rate || 0`)
   * treats null and 0 alike.
   */
  datatype RewardSetting = RewardSetting(
    selfRate: real,
    ref1Rate: real,
    ref2Rate: real,
    centerRate: real,
    masterCenterRate: real,
    grandCenterRate: real,
    tuitionCenterRate: real)

  /** One row of `fee_records`, with the columns the calculators read. */
  datatype FeeRecord = FeeRecord(
    refCode: string,
    name: Option<string>,
    wallet: Option<string>,
    commission: Option<real>,
    tuition: Option<real>,
    centerCode: Option<string>,
    refBy: Option<string>,
    refBy2: Option<string>,
    rewardDate: Option<string>)

  /** One row of `centers`: a node of the center / master / grand hierarchy. */
  datatype Center = Center(
    id: string,
    refCode: string,
    name: Option<string>,
    wallet: Option<string>,
    parentMaster: Option<string>,
    parentGrand: Option<string>)

  /** One row of `reward_invites`, written by the commission calculator. */
  datatype InviteRow = InviteRow(
    refCode: string,
    name: Option<string>,
    wallet: Option<string>,
    rewardDate: Option<string>,
    createdAt: string,
    amount: real,
    level: nat,
    memo: string)

  /** One row of `reward_centers`, written by the center calculator. */
  datatype CenterRow = CenterRow(
    refCode: string,
    centerId: string,
    name: Option<string>,
    wallet: Option<string>,
    rewardDate: string,
    createdAt: string,
    amountFee: real,
    amountTuition: real,
    memo: string)

  /** The `status` column of `reward_transfers`. */
  datatype Status = Pending | Completed | Success | Failed

  /** One row of `reward_transfers` as the transfer aggregator inserts it. */
  datatype PayableRow = PayableRow(
    refCode: string,
    name: Option<string>,
    wallet: Option<string>,
    amountInvite: real,
    amountCenterFee: real,
    amountCenterTuition: real,
    totalAmount: real,
    rewardDate: string,
    createdAt: string,
    status: Status,
    memo: string)

  /** One stored row of `reward_transfers`, as the disbursement engines read and update it. */
  datatype TransferRecord = TransferRecord(
    id: nat,
    refCode: string,
    wallet: Option<string>,
    totalAmount: real,
    rewardDate: string,
    status: Status,
    txHash: Option<string>,
    memo: Option<string>,
    errorMessage: Option<string>,
    updatedAt: Option<string>,
    executedAt: Option<string>)

  /** Why a calculator run reports `success: false`. */
  datatype CalcError =
    | SettingsMissing
    | FeeLoadFailed
    | NoFees
    | CenterLoadFailed
    | NoCenters
    | NothingComputed
    | InsertFailed(insertedUntil: nat)

  /** What a calculator run returns: `{success: true, inserted}` or a failure. */
  datatype CalcResult = Inserted(count: nat) | Failure(error: CalcError)
}
