/**
 * The cleaned transaction table that every analysis reads.
 *
 * The cleaning step guarantees that `merchant_name` and `category` are never
 * null (a missing name is replaced by the merchant id, a missing category by
 * "Unknown category"), so both are plain strings here; `city_id`, `state_id`
 * and `installments` may still be null. The timestamp is taken already
 * decomposed into its year, month and hour, whose ranges are part of the
 * field types.
 */
module Transactions {
  import opened Wrappers

  /** Years a Spark timestamp can hold. */
  type Year = y: int | 1 <= y <= 9999 witness 2000

  /** Calendar month, as returned by `month(purchase_date)`. */
  type Month = m: int | 1 <= m <= 12 witness 1

  /** Hour of the day, as returned by `hour(purchase_date)`. */
  type Hour = h: int | 0 <= h <= 23

  datatype Transaction = Transaction(
    merchantId: string,
    merchantName: string,
    cityId: Option<int>,
    stateId: Option<int>,
    category: string,
    year: Year,
    month: Month,
    hour: Hour,
    amount: real,
    installments: Option<int>)
}
