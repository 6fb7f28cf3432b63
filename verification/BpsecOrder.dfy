/** The order in which a node processes security blocks (security/bpsec.py). */
module BpsecOrder {
  import opened BandPolicy
  import opened Bytes
  import opened Bpsec
  import opened BpsecRules
  import opened Sorting

  /** BCBs first, then by block number. */
  predicate NotAfter(b: Block, c: Block) {
    (b.typeCode == BCB && c.typeCode != BCB) || ((b.typeCode == BCB <==> c.typeCode == BCB) && b.number <= c.number)
  }

  function Order(blocks: seq<Block>): seq<Block> { Sorted(SecurityBlocks(blocks), NotAfter) }

  method SecurityProcessingOrder(bundle: Bundle, band: Option<BandType>) returns (r: Result<seq<Block>, Violation>)
    ensures r.Success? <==> Accepted(bundle, band)
    ensures r.Success? ==> r.value == Order(bundle.Blocks())
    ensures r.Failure? ==> Breaks(bundle, band, r.error)
  {
    var v := ValidateSecurityBlocks(bundle, band);
    if v.Some? {
      return Failure(v.value);
    }
    return Success(Sorted(SecurityBlocks(bundle.Blocks()), NotAfter));
  }

  lemma OrderFacts(blocks: seq<Block>)
    ensures multiset(Order(blocks)) == multiset(SecurityBlocks(blocks))
    ensures Ordered(Order(blocks), NotAfter)
    ensures forall b :: b in Order(blocks) <==> b in blocks && b.IsSecurity()
    ensures forall i, j | 0 <= i < j < |Order(blocks)| ::
      var b, c := Order(blocks)[i], Order(blocks)[j];
      (c.typeCode == BCB ==> b.typeCode == BCB) && (b.typeCode == c.typeCode ==> b.number <= c.number)
  {
    SortedIsPermutation(SecurityBlocks(blocks), NotAfter);
    SortedIsOrdered(SecurityBlocks(blocks), NotAfter);
    SecurityMembers(blocks);
    assert forall b :: b in Order(blocks) <==> b in multiset(Order(blocks));
    assert forall b :: b in SecurityBlocks(blocks) <==> b in multiset(SecurityBlocks(blocks));
    hide SecurityBlocks, Order;
    forall i, j | 0 <= i < j < |Order(blocks)|
      ensures NotAfter(Order(blocks)[i], Order(blocks)[j])
    {}
  }

  /** Block n is still encrypted when the blocks from position k on have not been processed. */
  predicate EncryptedAt(order: seq<Block>, k: nat, n: int) {
    exists j :: k <= j < |order| && order[j].typeCode == BCB && n in order[j].Targets()
  }

  /** The two rules that matter here, taken out of the whole. */
  lemma AcceptedBcb(bundle: Bundle, band: Option<BandType>, bcb: Block)
    requires DistinctNumbers(bundle.Blocks()) && Accepted(bundle, band)
    requires bcb in bundle.Blocks() && bcb.typeCode == BCB
    ensures forall c | c in bundle.Blocks() && c.number in bcb.Targets() :: c.typeCode != BCB
    ensures forall b | b in bundle.Blocks() && b.typeCode == BIB :: GoodOverlap(bcb.Targets(), b.number, b.Targets())
  {
    AcceptedIffChecked(bundle, band);
    hide DistinctNumbers, Accepted, Bundle.Blocks, Block.Targets, GoodOverlap, ValidAsb, Exists, CheckStructure;
    assert BcbCompliant(bcb, bundle.Blocks());
  }

  /**
   * In an accepted bundle no security block is reached while it is still encrypted, and no BIB while
   * one of its targets is.
   */
  lemma ReadableInTurn(bundle: Bundle, band: Option<BandType>, k: nat)
    requires DistinctNumbers(bundle.Blocks()) && Accepted(bundle, band)
    requires k < |Order(bundle.Blocks())|
    ensures var order := Order(bundle.Blocks());
            && !EncryptedAt(order, k, order[k].number)
            && (order[k].typeCode == BIB ==> forall t | t in order[k].Targets() :: !EncryptedAt(order, k, t))
  {
    var blocks := bundle.Blocks();
    var order := Order(blocks);
    OrderFacts(blocks);
    hide DistinctNumbers, Accepted, Order, Bundle.Blocks, Block.Targets, GoodOverlap;
    assert order[k] in order;
    forall j | k <= j < |order| && order[j].typeCode == BCB
      ensures order[k].typeCode == BCB && order[k].number !in order[j].Targets()
    {
      assert j > k ==> NotAfter(order[k], order[j]);
      assert order[j] in order;
      AcceptedBcb(bundle, band, order[j]);
    }
  }

  /**
   * Nor is a BIB ever half encrypted: whichever BCBs are still pending, if one target of a BIB is
   * encrypted then so are all of them, and the BIB itself.
   */
  lemma NeverHalfEncrypted(bundle: Bundle, band: Option<BandType>, pending: seq<Block>, bib: Block)
    requires DistinctNumbers(bundle.Blocks()) && Accepted(bundle, band)
    requires (forall b | b in pending :: b in bundle.Blocks()) && bib in bundle.Blocks() && bib.typeCode == BIB
    ensures (exists t :: t in bib.Targets() && EncryptedAt(pending, 0, t)) ==>
              EncryptedAt(pending, 0, bib.number) && forall t | t in bib.Targets() :: EncryptedAt(pending, 0, t)
  {
    hide DistinctNumbers, Accepted, Bundle.Blocks, Block.Targets;
    if t :| t in bib.Targets() && EncryptedAt(pending, 0, t) {
      var j :| 0 <= j < |pending| && pending[j].typeCode == BCB && t in pending[j].Targets();
      assert pending[j] in pending;
      AcceptedBcb(bundle, band, pending[j]);
      assert t in pending[j].Targets() * bib.Targets();
    }
  }

  /** Every node gets the same order, in whatever order the blocks came. */
  lemma SameOrderEverywhere(here: seq<Block>, there: seq<Block>)
    requires DistinctNumbers(here) && multiset(here) == multiset(there)
    ensures Order(here) == Order(there)
  {
    OrderFacts(here);
    OrderFacts(there);
    SecuritySame(here, there);
    hide SecurityBlocks, Order;
    var order := Order(here);
    forall m, n | 0 <= m < |order| && 0 <= n < |order| && NotAfter(order[m], order[n]) && NotAfter(order[n], order[m])
      ensures order[m] == order[n]
    {
      assert order[m] in order && order[n] in order;
      var i :| 0 <= i < |here| && here[i] == order[m];
      var j :| 0 <= j < |here| && here[j] == order[n];
    }
    OrderIsUnique(Order(here), Order(there), NotAfter);
  }

  lemma SecuritySame(here: seq<Block>, there: seq<Block>)
    requires multiset(here) == multiset(there)
    ensures multiset(SecurityBlocks(here)) == multiset(SecurityBlocks(there))
  {
    SecurityCounts(here);
    SecurityCounts(there);
  }

  lemma {:induction false} SecurityCounts(blocks: seq<Block>)
    ensures forall b :: multiset(SecurityBlocks(blocks))[b] == if b.IsSecurity() then multiset(blocks)[b] else 0
    decreases blocks
  {
    if blocks != [] {
      var n := |blocks| - 1;
      SecurityCounts(blocks[..n]);
      assert blocks == blocks[..n] + [blocks[n]];
    }
  }
}
