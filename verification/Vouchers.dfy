/** The rows the voucher gatekeepers read (backend/src/db/models.py). None is SQL NULL;
    instants are seconds on one clock. */
module Vouchers {
  import opened Options

  datatype Status = Unused | Active | Exhausted | Expired | Disabled

  datatype Voucher = Voucher(
    id: nat,
    operator: nat,
    plan: nat,
    code: string,
    username: string,
    password: string,
    status: Status,
    expiresAt: Option<int>,
    dataUsedMb: Option<int>,
    redeemBy: Option<int>)

  datatype DataPlan = DataPlan(operator: nat, isActive: Option<bool>, dataLimitMb: Option<int>)
}
