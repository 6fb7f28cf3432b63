/** Store-and-forward over satellite windows (protocol/dtn.py), and what every run of it keeps. */
module DtnEngine {
  import opened Bytes
  import opened DtnStore
  import opened Sorting
  import Packet

  // ----- One window -----

  datatype Answer = Accepted | Refused | Raised

  /** One round: the clock at its start, what the transmitter said, the clock when a failure is noted. */
  datatype Slot = Slot(checkedAt: real, answer: Answer, notedAt: real)

  /** Everything a window depends on besides the store. */
  datatype Plan = Plan(start: real, cleanupAt: real, duration: real, hasTransmitter: bool, slots: seq<Slot>)

  predicate Succeeds(plan: Plan, k: nat)
    requires k < |plan.slots|
  {
    !plan.hasTransmitter || plan.slots[k].answer == Accepted
  }

  /** How many rounds a window makes: until the time is up or the list is through. */
  function Rounds(plan: Plan, listed: nat, k: nat): (n: nat)
    requires k <= listed <= |plan.slots|
    ensures k <= n <= listed
    ensures n < listed ==> plan.slots[n].checkedAt - plan.start >= plan.duration
    ensures forall i | k <= i < n :: plan.slots[i].checkedAt - plan.start < plan.duration
    decreases listed - k
  {
    if k == listed || plan.slots[k].checkedAt - plan.start >= plan.duration then k else Rounds(plan, listed, k + 1)
  }

  /** What a round makes of a bundle's row. */
  function Tried(r: Row, plan: Plan, k: nat): Row
    requires k < |plan.slots|
  {
    if Succeeds(plan, k) then WithState(r, AWAITING_ACK) else Retried(r, QUEUED, plan.slots[k].notedAt)
  }

  /** The rows after the first k rounds. */
  function Swept(rows: map<BundleId, Row>, ids: seq<BundleId>, plan: Plan, k: nat): map<BundleId, Row>
    requires k <= |ids| && k <= |plan.slots|
  {
    if k == 0 then rows
    else
      var before := Swept(rows, ids, plan, k - 1);
      if ids[k - 1] in before then before[ids[k - 1] := Tried(before[ids[k - 1]], plan, k - 1)] else before
  }

  function Successes(plan: Plan, k: nat): nat
    requires k <= |plan.slots|
  {
    if k == 0 then 0 else Successes(plan, k - 1) + if Succeeds(plan, k - 1) then 1 else 0
  }

  /** The packet as it is queued: on the band given, if one is. */
  function OnBand(packet: Packet.Packet, band: Option<Packet.Band>): Packet.Packet {
    if band.Some? then packet.(band := band.value) else packet
  }

  class DTNEngine {
    const store: BundleStore
    var bundleCounter: nat

    constructor ()
      ensures fresh(store) && store.rows == map[] && bundleCounter == 0
    {
      store := new BundleStore();
      bundleCounter := 0;
    }

    /** Refused by policy before anything changes; a packet that cannot be serialized still uses up a number. */
    method QueueMessage(packet: Packet.Packet, destination: string, band: Option<Packet.Band>, seconds: int, createdAt: real)
      returns (r: Result<BundleId, Packet.PacketError>)
      modifies this, store
      ensures var p := OnBand(packet, band);
        && bundleCounter == old(bundleCounter) + (if p.PolicyAllows() then 1 else 0)
        && (!p.PolicyAllows() ==> r == Failure(Packet.PolicyViolation))
        && (p.PolicyAllows() && Packet.Serialize(p).Failure? ==> r == Failure(Packet.Serialize(p).error))
        && (p.PolicyAllows() && Packet.Serialize(p).Success? ==> r == Success(BundleId(seconds, bundleCounter)))
        && store.rows == if r.Success? then old(store.rows)[r.value := NewRow(p, Packet.Serialize(p).value, destination, createdAt)]
                         else old(store.rows)
    {
      var p := OnBand(packet, band);
      if !p.PolicyAllows() {
        return Failure(Packet.PolicyViolation);
      }
      bundleCounter := bundleCounter + 1;
      var id := BundleId(seconds, bundleCounter);
      var data := Packet.Serialize(p);
      if data.Failure? {
        return Failure(data.error);
      }
      store.Store(id, NewRow(p, data.value, destination, createdAt));
      return Success(id);
    }

    method TransmissionWindow(plan: Plan) returns (transmitted: nat, pending: seq<BundleId>)
      requires |plan.slots| >= PENDING_LIMIT
      modifies store
      ensures MostUrgent(Cleaned(old(store.rows), plan.cleanupAt), PENDING_LIMIT, pending)
      ensures var n := Rounds(plan, |pending|, 0);
              store.rows == Swept(Cleaned(old(store.rows), plan.cleanupAt), pending, plan, n) && transmitted == Successes(plan, n)
    {
      hide MostUrgent, Cleaned, Tried, Succeeds;
      transmitted := 0;
      var _ := store.CleanupExpired(plan.cleanupAt);
      ghost var cleaned := store.rows;
      pending := store.GetPending(PENDING_LIMIT);
      assert |pending| <= PENDING_LIMIT by { AtMostLimit(cleaned, pending); }
      var k := 0;
      while k < |pending|
        invariant 0 <= k <= |pending|
        invariant Rounds(plan, |pending|, 0) == Rounds(plan, |pending|, k)
        invariant store.rows == Swept(cleaned, pending, plan, k) && transmitted == Successes(plan, k)
      {
        if plan.slots[k].checkedAt - plan.start >= plan.duration {
          break;
        }
        var success := Transmit(pending[k], plan, k);
        if success {
          transmitted := transmitted + 1;
        }
        k := k + 1;
      }
    }

    /** One round: marked as transmitting, handed to the transmitter if there is one, and marked by its answer. */
    method Transmit(id: BundleId, plan: Plan, k: nat) returns (success: bool)
      requires k < |plan.slots|
      modifies store
      ensures success == Succeeds(plan, k)
      ensures store.rows == if id in old(store.rows) then old(store.rows)[id := Tried(old(store.rows)[id], plan, k)] else old(store.rows)
    {
      store.UpdateState(id, TRANSMITTING, None);
      if plan.hasTransmitter && plan.slots[k].answer != Accepted {
        store.UpdateState(id, QUEUED, Some(plan.slots[k].notedAt));
        return false;
      }
      store.UpdateState(id, AWAITING_ACK, None);
      return true;
    }

    method ReceiveAck(id: BundleId)
      modifies store
      ensures store.rows == Updated(old(store.rows), id, DELIVERED, None)
    {
      store.UpdateState(id, DELIVERED, None);
    }
  }

  lemma AtMostLimit(rows: map<BundleId, Row>, ids: seq<BundleId>)
    requires MostUrgent(rows, PENDING_LIMIT, ids)
    ensures |ids| <= PENDING_LIMIT
  {}

  /** Each bundle tried changes by its own round, the others not at all. */
  lemma {:induction false} SweptAt(rows: map<BundleId, Row>, ids: seq<BundleId>, plan: Plan, k: nat, id: BundleId)
    requires k <= |ids| && k <= |plan.slots| && Distinct(ids)
    ensures id in Swept(rows, ids, plan, k) <==> id in rows
    ensures id in rows && id !in ids[..k] ==> Swept(rows, ids, plan, k)[id] == rows[id]
    ensures forall i | 0 <= i < k && ids[i] == id && id in rows :: Swept(rows, ids, plan, k)[id] == Tried(rows[id], plan, i)
    decreases k
  {
    hide Tried;
    if k > 0 {
      SweptAt(rows, ids, plan, k - 1, id);
      assert ids[..k] == ids[..k - 1] + [ids[k - 1]];
      assert forall i | 0 <= i < k - 1 :: ids[..k - 1][i] == ids[i] && ids[i] != ids[k - 1];
    }
  }

  /**
   * Priority is respected: a pending bundle that comes before one that was tried, in the order of
   * priority and age, was tried as well.
   */
  lemma MostUrgentFirst(rows: map<BundleId, Row>, pending: seq<BundleId>, n: nat, tried: BundleId, waiting: BundleId)
    requires MostUrgent(rows, PENDING_LIMIT, pending) && n <= |pending|
    requires tried in pending[..n] && waiting in rows && Pending(rows[waiting])
    requires tried in rows && !NotLater(rows, tried, waiting)
    ensures waiting in pending[..n]
  {
    var i :| 0 <= i < n && pending[..n][i] == tried;
    assert pending[i] == tried;
    assert waiting in pending;
    var j :| 0 <= j < |pending| && pending[j] == waiting;
    assert j < i;
    assert pending[..n][j] == waiting;
  }
}
