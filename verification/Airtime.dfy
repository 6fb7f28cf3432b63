/** Transmissions with their times, and the airtime of an interval. */
module Airtime {

  datatype TxRecord = TxRecord(userId: int, timestamp: real, duration: real)

  function SumIf(records: seq<TxRecord>, p: TxRecord -> bool): real {
    if records == [] then 0.0 else (if p(records[0]) then records[0].duration else 0.0) + SumIf(records[1..], p)
  }

  /** Airtime in the closed interval [from, to]. */
  function Between(records: seq<TxRecord>, from: real, to: real): real {
    SumIf(records, (r: TxRecord) => from <= r.timestamp <= to)
  }

  /** Airtime from an instant on. */
  function Since(records: seq<TxRecord>, from: real): real {
    SumIf(records, (r: TxRecord) => r.timestamp >= from)
  }

  predicate NoNegative(records: seq<TxRecord>) {
    forall i | 0 <= i < |records| :: records[i].duration >= 0.0
  }

  lemma {:induction false} SumIfAppend(records: seq<TxRecord>, r: TxRecord, p: TxRecord -> bool)
    ensures SumIf(records + [r], p) == SumIf(records, p) + (if p(r) then r.duration else 0.0)
    decreases records
  {
    if records == [] {
      assert [] + [r] == [r] && [r][1..] == [];
    } else {
      assert (records + [r])[1..] == records[1..] + [r];
      SumIfAppend(records[1..], r, p);
    }
  }

  lemma {:induction false} SumIfMonotone(records: seq<TxRecord>, p: TxRecord -> bool, q: TxRecord -> bool)
    requires NoNegative(records) && forall i | 0 <= i < |records| :: p(records[i]) ==> q(records[i])
    ensures 0.0 <= SumIf(records, p) <= SumIf(records, q)
    decreases records
  {
    if records != [] {
      assert forall i | 0 <= i < |records[1..]| :: records[1..][i] == records[i + 1];
      SumIfMonotone(records[1..], p, q);
    }
  }

  /** Two disjoint conditions covering a third. */
  lemma {:induction false} SumIfSplit(records: seq<TxRecord>, p: TxRecord -> bool, q: TxRecord -> bool, s: TxRecord -> bool)
    requires NoNegative(records) && forall i | 0 <= i < |records| :: s(records[i]) ==> p(records[i]) || q(records[i])
    ensures SumIf(records, s) <= SumIf(records, p) + SumIf(records, q)
    decreases records
  {
    if records != [] {
      assert forall i | 0 <= i < |records[1..]| :: records[1..][i] == records[i + 1];
      SumIfSplit(records[1..], p, q, s);
    }
  }
}
