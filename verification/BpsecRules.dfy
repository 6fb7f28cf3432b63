/** What the validator decides, stated without its dictionaries, and how that compares with RFC 9172. */
module BpsecRules {
  import opened Arithmetic
  import opened BandPolicy
  import opened Bytes
  import opened Bpsec

  // ----- The rules themselves -----

  /**
   * What sections 3.2 and 3.7 to 3.9 of RFC 9172 ask of a bundle's security blocks, and the band policy. Section 3.8
   * lets a BCB target a BIB only where the two share a target; where they do, section 3.9 demands that some BCB target
   * the BIB, and that a BCB that does so take all the targets of the BIB.
   */
  predicate Compliant(bundle: Bundle, band: Option<BandType>) {
    BlockRules(bundle, band) && SharedTargetRules(bundle.Blocks())
  }

  /** What is asked of the blocks of each kind. */
  predicate BlockRules(bundle: Bundle, band: Option<BandType>) {
    var blocks := bundle.Blocks();
    && CheckStructure(bundle) == None
    && ((exists b :: b in blocks && b.IsSecurity()) ==> !bundle.IsFragment())
    && ((exists b :: b in blocks && b.typeCode == BCB) ==> band.None? || EncryptionAllowed(band.value))
    && (forall b | b in blocks && b.IsSecurity() :: b.parsed.Some? && ValidAsb(b.parsed.value))
    && (forall b, t | b in blocks && b.IsSecurity() && t in b.Targets() :: Exists(blocks, t))
    && (forall b, c | b in blocks && c in blocks && b.IsSecurity() && b.typeCode == c.typeCode && b.number != c.number ::
          b.Targets() !! c.Targets())
    && (forall b, c | b in blocks && c in blocks && b.typeCode == BIB && c.number in b.Targets() :: !c.IsSecurity())
    && (forall b | b in blocks && b.typeCode == BCB :: BcbCompliant(b, blocks))
  }

  /** What is asked of a BIB and a BCB, in sections 3.8 and 3.9. */
  predicate SharedTargetRules(blocks: seq<Block>) {
    forall b, c | b in blocks && c in blocks && b.typeCode == BIB && c.typeCode == BCB ::
      && (b.number in c.Targets() ==> c.Targets() * b.Targets() != {})
      && (c.Targets() * b.Targets() != {} ==> Encrypted(b, blocks))
      && (b.number in c.Targets() ==> b.Targets() <= c.Targets())
  }

  /** Some BCB targets the block. */
  predicate Encrypted(b: Block, blocks: seq<Block>) {
    exists d :: d in blocks && d.typeCode == BCB && b.number in d.Targets()
  }

  /** What the code does not check: a BCB that targets a BIB shares another target with it. */
  predicate BcbsShare(blocks: seq<Block>) {
    forall b, c | b in blocks && c in blocks && b.typeCode == BIB && c.typeCode == BCB && b.number in c.Targets() ::
      c.Targets() * b.Targets() != {}
  }

  /** The rules that the code has, block by block, with no dictionaries. */
  predicate Checked(bundle: Bundle, band: Option<BandType>) {
    BlockRules(bundle, band) && SharedChecked(bundle.Blocks())
  }

  predicate SharedChecked(blocks: seq<Block>) {
    forall b, c | b in blocks && c in blocks && b.typeCode == BIB && c.typeCode == BCB ::
      GoodOverlap(c.Targets(), b.number, b.Targets())
  }

  /** The primary block, or one of the others. */
  predicate Exists(blocks: seq<Block>, number: int) {
    number == PRIMARY_BLOCK_NUMBER || exists b :: b in blocks && b.number == number
  }

  predicate BcbCompliant(b: Block, blocks: seq<Block>) {
    && PRIMARY_BLOCK_NUMBER !in b.Targets()
    && (forall c | c in blocks && c.number in b.Targets() :: c.typeCode != BCB)
    && (PAYLOAD_BLOCK_NUMBER in b.Targets() ==> b.Replicated())
    && !b.Discardable()
  }

  /** Block numbers are unique in the bundle, and none is the primary block's. */
  predicate DistinctNumbers(blocks: seq<Block>) {
    && (forall i, j | 0 <= i < j < |blocks| :: blocks[i].number != blocks[j].number)
    && forall i | 0 <= i < |blocks| :: blocks[i].number != PRIMARY_BLOCK_NUMBER
  }

  // ----- The flags, by their bits -----

  predicate Bit(flags: int, k: nat) {
    PowerIsPositive(k);
    flags / PowerOfTwo(k) % 2 == 1
  }

  /**
   * Bit 0 of the bundle's flags makes it a fragment; version 7 is demanded, and of anonymous bundles that they ask for none of the
   * reports of bits 14 and 16 to 18 (sections 4.2.3 and 4.3.1 of RFC 9171).
   */
  lemma BundleFlags(bundle: Bundle)
    ensures bundle.IsFragment() <==> Bit(bundle.flags, 0)
    ensures CheckStructure(bundle) == None <==>
      && bundle.version == 7
      && (bundle.source == "//none" || bundle.source == "" ==>
            !Bit(bundle.flags, 14) && !Bit(bundle.flags, 16) && !Bit(bundle.flags, 17) && !Bit(bundle.flags, 18))
  {
    Powers();
    FirstPower();
    hide PowerOfTwo;
  }

  lemma FirstPower()
    ensures PowerOfTwo(0) == 1
  {}

  /** Bit 0 of a block's flags replicates it, bit 4 lets a node discard it (section 4.2.4 of RFC 9171). */
  lemma BlockFlags(b: Block)
    ensures b.Replicated() <==> Bit(b.controlFlags, 0)
    ensures b.Discardable() <==> Bit(b.controlFlags, 4)
  {
    Powers();
    FirstPower();
    hide PowerOfTwo;
  }

  /** Only amateur bands and those that must not be sent on at all forbid encryption. */
  lemma BandsForEncryption(band: BandType)
    ensures EncryptionAllowed(band) <==> !band.AMATEUR? && !band.UNKNOWN? && !band.RECEIVE_ONLY?
    ensures TxAllowed(band) <==> !band.UNKNOWN? && !band.RECEIVE_ONLY?
  {}

  // ----- What the dictionaries hold where block numbers are distinct -----

  lemma {:induction false} TypeMapIs(blocks: seq<Block>)
    requires DistinctNumbers(blocks)
    ensures forall n: int :: n in TypeMap(blocks) <==> Exists(blocks, n)
    ensures forall b | b in blocks :: b.number in TypeMap(blocks) && TypeMap(blocks)[b.number] == b.typeCode
    ensures PRIMARY_BLOCK_NUMBER in TypeMap(blocks) && TypeMap(blocks)[PRIMARY_BLOCK_NUMBER] == PRIMARY
    decreases blocks
  {
    if blocks != [] {
      var n := |blocks| - 1;
      OthersDiffer(blocks);
      hide DistinctNumbers;
      TypeMapIs(blocks[..n]);
      ExistsNext(blocks);
      hide Exists;
      assert blocks[n].number != PRIMARY_BLOCK_NUMBER;
      assert forall b :: b in blocks <==> b in blocks[..n] || b == blocks[n];
    }
  }

  lemma ExistsNext(blocks: seq<Block>)
    requires blocks != []
    ensures var n := |blocks| - 1;
      forall k: int :: Exists(blocks, k) <==> k == blocks[n].number || Exists(blocks[..n], k)
  {
    var n := |blocks| - 1;
    assert blocks == blocks[..n] + [blocks[n]];
  }

  lemma OthersDiffer(blocks: seq<Block>)
    requires DistinctNumbers(blocks) && blocks != []
    ensures forall b | b in blocks[..|blocks| - 1] :: b.number != blocks[|blocks| - 1].number
    ensures DistinctNumbers(blocks[..|blocks| - 1])
  {
    var n := |blocks| - 1;
    forall b | b in blocks[..n]
      ensures b.number != blocks[n].number
    {
      var i :| 0 <= i < n && blocks[..n][i] == b;
      assert blocks[i] == b;
    }
  }

  lemma {:induction false} SecurityDistinct(blocks: seq<Block>)
    requires DistinctNumbers(blocks)
    ensures DistinctNumbers(SecurityBlocks(blocks))
    decreases blocks
  {
    if blocks != [] {
      var n := |blocks| - 1;
      SecurityDistinct(blocks[..n]);
      SecurityMembers(blocks[..n]);
      var earlier := SecurityBlocks(blocks[..n]);
      forall i | 0 <= i < |earlier|
        ensures earlier[i].number != blocks[n].number
      {
        assert earlier[i] in earlier;
        var j :| 0 <= j < n && blocks[..n][j] == earlier[i];
        assert blocks[j] == earlier[i];
      }
    }
  }

  lemma {:induction false} TargetMapIs(blocks: seq<Block>, code: int)
    requires DistinctNumbers(blocks)
    ensures forall b | b in blocks && b.typeCode == code :: b.number in TargetMap(blocks, code) && TargetMap(blocks, code)[b.number] == b.Targets()
    decreases blocks
  {
    hide Block.Targets;
    if blocks != [] {
      var n := |blocks| - 1;
      OthersDiffer(blocks);
      TargetMapIs(blocks[..n], code);
      assert blocks == blocks[..n] + [blocks[n]];
    }
  }

  lemma {:induction false} OperationsAre(blocks: seq<Block>, code: int, t: int)
    ensures (code, t) in Operations(blocks) <==> exists i :: 0 <= i < |blocks| && blocks[i].typeCode == code && t in blocks[i].Targets()
    decreases blocks
  {
    hide Block.Targets;
    if blocks != [] {
      var earlier := blocks[..|blocks| - 1];
      OperationsAre(earlier, code, t);
      assert forall i | 0 <= i < |earlier| :: earlier[i] == blocks[i];
    }
  }

  lemma NewOperationsIff(blocks: seq<Block>, i: nat)
    requires i < |blocks|
    ensures NewOperations(blocks[..i], blocks[i]) <==>
            forall j | 0 <= j < i && blocks[j].typeCode == blocks[i].typeCode :: blocks[j].Targets() !! blocks[i].Targets()
  {
    hide Block.Targets, Operations;
    forall t | t in blocks[i].Targets()
      ensures (blocks[i].typeCode, t) in Operations(blocks[..i]) <==>
              exists j :: 0 <= j < i && blocks[j].typeCode == blocks[i].typeCode && t in blocks[j].Targets()
    {
      OperationsAre(blocks[..i], blocks[i].typeCode, t);
      assert forall j | 0 <= j < i :: blocks[..i][j] == blocks[j];
    }
    if forall j | 0 <= j < i && blocks[j].typeCode == blocks[i].typeCode :: blocks[j].Targets() !! blocks[i].Targets() {
      assert NewOperations(blocks[..i], blocks[i]);
    }
    if NewOperations(blocks[..i], blocks[i]) {
      forall j | 0 <= j < i && blocks[j].typeCode == blocks[i].typeCode
        ensures blocks[j].Targets() !! blocks[i].Targets()
      {
        assert forall t | t in blocks[i].Targets() :: t !in blocks[j].Targets();
      }
    }
  }

  /** The rules on each security block by itself. */
  predicate Sound(secs: seq<Block>, blocks: seq<Block>) {
    && (forall b | b in secs :: b.parsed.Some? && ValidAsb(b.parsed.value))
    && (forall b, t | b in secs && t in b.Targets() :: Exists(blocks, t))
    && (forall b, c | b in secs && c in secs && b.typeCode == c.typeCode && b.number != c.number :: b.Targets() !! c.Targets())
  }

  lemma GoodBlocksAreSound(secs: seq<Block>, blocks: seq<Block>)
    requires DistinctNumbers(secs) && DistinctNumbers(blocks)
    ensures GoodBlocks(secs, TypeMap(blocks)) <==> Sound(secs, blocks)
  {
    hide Block.Targets, TypeMap, Exists, ValidAsb, CheckAsb, NewOperations;
    var types := TypeMap(blocks);
    TypeMapIs(blocks);
    forall i | 0 <= i < |secs|
      ensures GoodBlock(secs[i], types) <==>
              secs[i].parsed.Some? && ValidAsb(secs[i].parsed.value) && forall t | t in secs[i].Targets() :: Exists(blocks, t)
      ensures NewOperations(secs[..i], secs[i]) <==>
              forall j | 0 <= j < i && secs[j].typeCode == secs[i].typeCode :: secs[j].Targets() !! secs[i].Targets()
    {
      if secs[i].parsed.Some? {
        AsbAcceptedIffValid(secs[i].parsed.value);
      }
      NewOperationsIff(secs, i);
    }
    if Sound(secs, blocks) {
      forall i, j | 0 <= j < i < |secs| && secs[j].typeCode == secs[i].typeCode
        ensures secs[j].Targets() !! secs[i].Targets()
      {
        assert secs[j].number != secs[i].number;
      }
    }
    if GoodBlocks(secs, types) {
      forall b, c | b in secs && c in secs && b.typeCode == c.typeCode && b.number != c.number
        ensures b.Targets() !! c.Targets()
      {
        var i :| 0 <= i < |secs| && secs[i] == b;
        var j :| 0 <= j < |secs| && secs[j] == c;
        assert NewOperations(secs[..i], secs[i]) && NewOperations(secs[..j], secs[j]);
      }
    }
  }

  /** The rules on what the security blocks target. */
  predicate Aimed(secs: seq<Block>, blocks: seq<Block>) {
    && (forall b, c | b in secs && c in blocks && b.typeCode == BIB && c.number in b.Targets() :: !c.IsSecurity())
    && (forall b | b in secs && b.typeCode == BCB :: BcbCompliant(b, blocks))
  }

  /** The rules on targets that a BCB and a BIB share. */
  predicate Shared(secs: seq<Block>) {
    forall b, c | b in secs && c in secs && b.typeCode == BIB && c.typeCode == BCB :: GoodOverlap(c.Targets(), b.number, b.Targets())
  }

  lemma GoodBibIff(b: Block, blocks: seq<Block>)
    requires DistinctNumbers(blocks) && Known(b.Targets(), TypeMap(blocks))
    ensures GoodBib(b.Targets(), TypeMap(blocks)) <==> forall c | c in blocks && c.number in b.Targets() :: !c.IsSecurity()
  {
    hide Block.Targets, TypeMap, DistinctNumbers;
    TypeMapIs(blocks);
  }

  lemma GoodBcbIff(b: Block, blocks: seq<Block>)
    requires DistinctNumbers(blocks) && Known(b.Targets(), TypeMap(blocks))
    ensures GoodBcb(b, b.Targets(), TypeMap(blocks)) <==> BcbCompliant(b, blocks)
  {
    hide Block.Targets, TypeMap, DistinctNumbers, Block.Replicated, Block.Discardable;
    TypeMapIs(blocks);
  }

  lemma GoodTargetsAreAimed(secs: seq<Block>, blocks: seq<Block>)
    requires DistinctNumbers(secs) && DistinctNumbers(blocks) && GoodBlocks(secs, TypeMap(blocks))
    ensures GoodTargets(secs, TypeMap(blocks), TargetMap(secs, BIB), TargetMap(secs, BCB)) <==> Aimed(secs, blocks)
  {
    var types := TypeMap(blocks);
    TargetMapKnown(secs, BIB, types);
    TargetMapKnown(secs, BCB, types);
    TargetMapIs(secs, BIB);
    TargetMapIs(secs, BCB);
    hide Block.Targets, TypeMap, TargetMap, DistinctNumbers, GoodBib, GoodBcb, BcbCompliant, GoodBlocks, Known;
    forall b | b in secs
      ensures b.typeCode == BIB || b.typeCode == BCB ==> Known(b.Targets(), types)
      ensures b.typeCode == BIB ==>
                (GoodBib(b.Targets(), types) <==> forall c | c in blocks && c.number in b.Targets() :: !c.IsSecurity())
      ensures b.typeCode == BCB ==> (GoodBcb(b, b.Targets(), types) <==> BcbCompliant(b, blocks))
    {
      if b.typeCode == BIB {
        assert TargetMap(secs, BIB)[b.number] == b.Targets();
        GoodBibIff(b, blocks);
      } else if b.typeCode == BCB {
        assert TargetMap(secs, BCB)[b.number] == b.Targets();
        GoodBcbIff(b, blocks);
      }
    }
  }

  lemma GoodOverlapsAreShared(secs: seq<Block>)
    requires DistinctNumbers(secs)
    ensures GoodOverlaps(TargetMap(secs, BCB), TargetMap(secs, BIB)) <==> Shared(secs)
  {
    var bcbs, bibs := TargetMap(secs, BCB), TargetMap(secs, BIB);
    TargetMapIs(secs, BIB);
    TargetMapIs(secs, BCB);
    hide Block.Targets, TargetMap, DistinctNumbers, GoodOverlap;
    if Shared(secs) {
      forall c, b | c in bcbs && b in bibs
        ensures GoodOverlap(bcbs[c], b, bibs[b])
      {
        TargetMapKeys(secs, BCB, c);
        TargetMapKeys(secs, BIB, b);
        var i :| 0 <= i < |secs| && secs[i].typeCode == BCB && secs[i].number == c;
        var j :| 0 <= j < |secs| && secs[j].typeCode == BIB && secs[j].number == b;
        assert secs[i] in secs && secs[j] in secs;
      }
    }
  }

  lemma CheckedParts(bundle: Bundle, band: Option<BandType>, secs: seq<Block>)
    requires forall b :: b in secs <==> b in bundle.Blocks() && b.IsSecurity()
    ensures Checked(bundle, band) <==>
            && CheckStructure(bundle) == None
            && (secs != [] ==>
                  && BandAllows(secs, band) && !bundle.IsFragment()
                  && Sound(secs, bundle.Blocks()) && Aimed(secs, bundle.Blocks()) && Shared(secs))
  {
    hide Block.Targets, GoodOverlap, BcbCompliant, ValidAsb, Exists, CheckStructure, Bundle.Blocks, Bundle.IsFragment;
    if secs == [] {
      assert forall b | b in bundle.Blocks() :: !b.IsSecurity();
    } else {
      assert secs[0] in secs;
    }
  }

  /** For bundles whose block numbers are distinct, acceptance is these rules. */
  lemma AcceptedIffChecked(bundle: Bundle, band: Option<BandType>)
    requires DistinctNumbers(bundle.Blocks())
    ensures Accepted(bundle, band) <==> Checked(bundle, band)
  {
    var blocks := bundle.Blocks();
    var secs := SecurityBlocks(blocks);
    SecurityMembers(blocks);
    SecurityDistinct(blocks);
    CheckedParts(bundle, band, secs);
    hide TargetMap, TypeMap, DistinctNumbers, GoodBlocks, GoodTargets, GoodOverlaps, Sound, Aimed, Shared, Checked, BandAllows,
         CheckStructure, SecurityBlocks, Bundle.Blocks, Bundle.IsFragment;
    GoodBlocksAreSound(secs, blocks);
    if GoodBlocks(secs, TypeMap(blocks)) {
      GoodTargetsAreAimed(secs, blocks);
    }
    GoodOverlapsAreShared(secs);
  }

  /** The BCB that section 3.9 asks for is the one that shares the target, since no two BCBs share one. */
  lemma SameBcb(bundle: Bundle, band: Option<BandType>)
    requires DistinctNumbers(bundle.Blocks()) && Compliant(bundle, band)
    ensures forall b, c | b in bundle.Blocks() && c in bundle.Blocks() && b.typeCode == BIB && c.typeCode == BCB ::
              c.Targets() * b.Targets() != {} ==> b.number in c.Targets()
  {
    var blocks := bundle.Blocks();
    hide Bundle.Blocks, Block.Targets, BcbCompliant, ValidAsb, Exists, CheckStructure, Bundle.IsFragment;
    forall b, c | b in blocks && c in blocks && b.typeCode == BIB && c.typeCode == BCB && c.Targets() * b.Targets() != {}
      ensures b.number in c.Targets()
    {
      var d :| d in blocks && d.typeCode == BCB && b.number in d.Targets();
      assert c.Targets() * b.Targets() <= c.Targets() * d.Targets();
      SameNumberSameBlock(blocks, c, d);
    }
  }

  lemma SameNumberSameBlock(blocks: seq<Block>, c: Block, d: Block)
    requires DistinctNumbers(blocks) && c in blocks && d in blocks && c.number == d.number
    ensures c == d
  {
    var i :| 0 <= i < |blocks| && blocks[i] == c;
    var j :| 0 <= j < |blocks| && blocks[j] == d;
  }

  /** And compliance is acceptance where every BCB that targets a BIB shares a target with it. */
  lemma CompliantIffAccepted(bundle: Bundle, band: Option<BandType>)
    requires DistinctNumbers(bundle.Blocks())
    ensures Compliant(bundle, band) <==> Accepted(bundle, band) && BcbsShare(bundle.Blocks())
  {
    AcceptedIffChecked(bundle, band);
    if Compliant(bundle, band) {
      SameBcb(bundle, band);
    }
    hide Accepted, DistinctNumbers, Block.Targets, BlockRules, Bundle.Blocks;
  }

  lemma OneMore(blocks: seq<Block>, b: Block)
    ensures SecurityBlocks(blocks + [b]) == SecurityBlocks(blocks) + if b.IsSecurity() then [b] else []
    ensures TypeMap(blocks + [b]) == TypeMap(blocks)[b.number := b.typeCode]
    ensures forall code :: TargetMap(blocks + [b], code) ==
              if b.typeCode == code then TargetMap(blocks, code)[b.number := b.Targets()] else TargetMap(blocks, code)
  {
    assert (blocks + [b])[..|blocks|] == blocks;
  }

  function OneTarget(typeCode: int, number: int, controlFlags: int, target: int): Block {
    Block(typeCode, number, controlFlags, Some(Asb([target], 1, 1, 0, 0, 1)))
  }

  lemma OneTargetFacts(typeCode: int, number: int, controlFlags: int, target: int)
    requires target >= 0
    ensures OneTarget(typeCode, number, controlFlags, target).Targets() == {target}
    ensures CheckAsb(OneTarget(typeCode, number, controlFlags, target).parsed.value) == None
  {
    AsbAcceptedIffValid(OneTarget(typeCode, number, controlFlags, target).parsed.value);
  }

  /** Two BIBs with one number, on the payload and on the primary block; a BCB on the payload only. */
  const FIRST := OneTarget(BIB, 2, 0, 1)
  const SECOND := OneTarget(BIB, 2, 0, 0)
  const CIPHER := OneTarget(BCB, 3, 1, 1)
  const CLEAR := Block(PAYLOAD, PAYLOAD_BLOCK_NUMBER, 0, None)
  const TYPES: map<int, int> := map[0 := PRIMARY, 1 := PAYLOAD, 2 := BIB, 3 := BCB]

  lemma NoBlocks()
    ensures SecurityBlocks([]) == [] && TypeMap([]) == map[0 := 0] && Operations([]) == {} && forall code :: TargetMap([], code) == map[]
  {}

  lemma SharedNumberTypes()
    ensures SecurityBlocks([CLEAR, FIRST, SECOND, CIPHER]) == [FIRST, SECOND, CIPHER]
    ensures TypeMap([CLEAR, FIRST, SECOND, CIPHER]) == TYPES
  {
    hide Block.Targets, TargetMap, TypeMap, SecurityBlocks;
    NoBlocks();
    OneMore([], CLEAR);
    OneMore([CLEAR], FIRST);
    OneMore([CLEAR, FIRST], SECOND);
    OneMore([CLEAR, FIRST, SECOND], CIPHER);
    assert [] + [CLEAR] == [CLEAR] && [CLEAR] + [FIRST] == [CLEAR, FIRST] && [CLEAR, FIRST] + [SECOND] == [CLEAR, FIRST, SECOND];
    assert [CLEAR, FIRST, SECOND] + [CIPHER] == [CLEAR, FIRST, SECOND, CIPHER];
  }

  lemma SharedNumberTargets()
    ensures TargetMap([FIRST, SECOND, CIPHER], BIB) == map[2 := {0}]
    ensures TargetMap([FIRST, SECOND, CIPHER], BCB) == map[3 := {1}]
  {
    OneTargetFacts(BIB, 2, 0, 1);
    OneTargetFacts(BIB, 2, 0, 0);
    OneTargetFacts(BCB, 3, 1, 1);
    hide Block.Targets, TargetMap, TypeMap, SecurityBlocks;
    NoBlocks();
    OneMore([], FIRST);
    OneMore([FIRST], SECOND);
    OneMore([FIRST, SECOND], CIPHER);
    assert [] + [FIRST] == [FIRST] && [FIRST] + [SECOND] == [FIRST, SECOND] && [FIRST, SECOND] + [CIPHER] == [FIRST, SECOND, CIPHER];
  }

  lemma SharedNumberGood()
    ensures GoodBlocks([FIRST, SECOND, CIPHER], TYPES)
  {
    OneTargetFacts(BIB, 2, 0, 1);
    OneTargetFacts(BIB, 2, 0, 0);
    OneTargetFacts(BCB, 3, 1, 1);
    hide Block.Targets, CheckAsb, NewOperations;
    NewOperationsIff([FIRST, SECOND, CIPHER], 0);
    NewOperationsIff([FIRST, SECOND, CIPHER], 1);
    NewOperationsIff([FIRST, SECOND, CIPHER], 2);
  }

  const SHARED_NUMBER := Bundle(7, 0, "//ool-a/inbox", [FIRST, SECOND, CIPHER])

  lemma SharedNumberShape()
    ensures SHARED_NUMBER.Blocks() == [CLEAR, FIRST, SECOND, CIPHER]
    ensures CheckStructure(SHARED_NUMBER) == None && !SHARED_NUMBER.IsFragment()
    ensures BandAllows([FIRST, SECOND, CIPHER], Some(ISM))
  {}

  lemma SharedNumberAccepted()
    ensures Accepted(SHARED_NUMBER, Some(ISM))
  {
    hide Block.Targets, TargetMap, TypeMap, SecurityBlocks, GoodBlocks, Bundle.Blocks, GoodTargets, GoodOverlaps, CheckStructure, BandAllows, Bundle.IsFragment;
    SharedNumberShape();
    SharedNumberTypes();
    SharedNumberTargets();
    SharedNumberGood();
    SharedNumberAimed();
  }

  lemma SharedNumberAimed()
    ensures GoodTargets([FIRST, SECOND, CIPHER], TYPES, map[2 := {0}], map[3 := {1}])
    ensures GoodOverlaps(map[3 := {1}], map[2 := {0}])
  {
    assert GoodOverlap({1}, 2, {0}) by {
      assert {1} * {0} == {};
    }
  }

  lemma SharedNumberNotCompliant()
    ensures !Compliant(SHARED_NUMBER, Some(ISM))
  {
    var blocks := SHARED_NUMBER.Blocks();
    assert blocks[1] == FIRST && blocks[3] == CIPHER;
    OneTargetFacts(BIB, 2, 0, 1);
    OneTargetFacts(BCB, 3, 1, 1);
    hide Block.Targets, ValidAsb, BcbCompliant, Exists, CheckStructure;
    assert FIRST in blocks && CIPHER in blocks;
    assert !GoodOverlap(CIPHER.Targets(), FIRST.number, FIRST.Targets()) by {
      assert 1 in CIPHER.Targets() * FIRST.Targets();
    }
  }

  /**
   * Distinct numbers are needed: the second of two BIBs with one number hides the targets of the first,
   * and a BCB that encrypts what the first protects, but not the BIB itself, is let through.
   */
  lemma SharedNumberHides()
    ensures Accepted(SHARED_NUMBER, Some(ISM)) && !Compliant(SHARED_NUMBER, Some(ISM)) && !DistinctNumbers(SHARED_NUMBER.Blocks())
  {
    SharedNumberAccepted();
    SharedNumberNotCompliant();
    hide Accepted, Compliant;
    assert SHARED_NUMBER.Blocks()[1].number == SHARED_NUMBER.Blocks()[2].number;
  }

  /** A BIB on the payload, and a BCB on the BIB alone. */
  const ALONE := OneTarget(BIB, 2, 0, 1)
  const COVER := OneTarget(BCB, 3, 0, 2)
  const LONE_BIB := Bundle(7, 0, "//ool-a/inbox", [ALONE, COVER])

  lemma LoneBibSound()
    ensures Sound([ALONE, COVER], [CLEAR, ALONE, COVER]) && Shared([ALONE, COVER])
  {
    OneTargetFacts(BIB, 2, 0, 1);
    OneTargetFacts(BCB, 3, 0, 2);
    AsbAcceptedIffValid(ALONE.parsed.value);
    AsbAcceptedIffValid(COVER.parsed.value);
    hide CheckAsb, ValidAsb, Block.Targets;
    assert CLEAR in [CLEAR, ALONE, COVER] && ALONE in [CLEAR, ALONE, COVER];
    assert {2} * {1} == {};
  }

  lemma LoneBibAimed()
    ensures Aimed([ALONE, COVER], [CLEAR, ALONE, COVER])
  {
    OneTargetFacts(BIB, 2, 0, 1);
    OneTargetFacts(BCB, 3, 0, 2);
    hide Block.Targets;
  }

  /** The condition fails for real: section 3.8 forbids this bundle, and it is accepted. */
  lemma LoneBibAccepted()
    ensures DistinctNumbers(LONE_BIB.Blocks()) && Accepted(LONE_BIB, Some(ISM)) && !Compliant(LONE_BIB, Some(ISM))
  {
    var blocks := [CLEAR, ALONE, COVER];
    assert LONE_BIB.Blocks() == blocks;
    LoneBibSound();
    LoneBibAimed();
    CheckedParts(LONE_BIB, Some(ISM), [ALONE, COVER]);
    AcceptedIffChecked(LONE_BIB, Some(ISM));
    CompliantIffAccepted(LONE_BIB, Some(ISM));
    OneTargetFacts(BIB, 2, 0, 1);
    OneTargetFacts(BCB, 3, 0, 2);
    hide Accepted, Compliant, Checked, Sound, Aimed, Shared, Bundle.Blocks, Block.Targets;
    assert ALONE in blocks && COVER in blocks && {2} * {1} == {};
  }
}
