/** BPSec blocks and the rules of RFC 9172 on them (security/bpsec.py, protocol/bpv7.py). */
module Bpsec {
  import opened BandPolicy
  import opened Bytes
  import opened Sorting

  const PRIMARY_BLOCK_NUMBER := 0
  const PAYLOAD_BLOCK_NUMBER := 1
  const PRIMARY := 0
  const PAYLOAD := 1
  const BIB := 11
  const BCB := 12

  /** An abstract security block; only how many parameters and result lists there are matters here. */
  datatype Asb = Asb(targets: seq<int>, contextId: int, sourceScheme: int, contextFlags: int, parameters: nat, results: nat)

  datatype Block = Block(typeCode: int, number: int, controlFlags: int, parsed: Option<Asb>)
  {
    predicate IsSecurity() { typeCode == BIB || typeCode == BCB }

    predicate Replicated() { controlFlags % 2 == 1 }

    predicate Discardable() { controlFlags / 0x10 % 2 == 1 }

    function Targets(): set<int> {
      if parsed.None? then {} else set t | t in parsed.value.targets
    }
  }

  datatype Bundle = Bundle(version: int, flags: int, source: string, extensions: seq<Block>)
  {
    predicate IsFragment() { flags % 2 == 1 }

    predicate IsAnonymous() { source == "//none" || source == "" }

    predicate RequestsReports() {
      flags / 0x4000 % 2 == 1 || flags / 0x1_0000 % 2 == 1 || flags / 0x2_0000 % 2 == 1 || flags / 0x4_0000 % 2 == 1
    }

    function Blocks(): seq<Block> { [Block(PAYLOAD, PAYLOAD_BLOCK_NUMBER, 0, None)] + extensions }
  }

  datatype AsbViolation =
    | NoTargets | DuplicateTargets | NegativeTarget | NegativeContext | UnknownScheme | ReservedFlags | ParameterMismatch | ResultMismatch

  datatype Violation =
    | UnsupportedVersion | AnonymousReports | BandForbids | Fragmentary | NotParsed | BadAsb(why: AsbViolation) | MissingTarget
    | DuplicateOperation | BibTargetsSecurity | BcbTargetsPrimary | BcbTargetsBcb | PayloadNotReplicated | BcbDiscardable
    | PartialOverlap | BibNotEncrypted

  // ----- One abstract security block -----

  /** The checks in the order made. */
  function CheckAsb(asb: Asb): Option<AsbViolation> {
    if asb.targets == [] then Some(NoTargets)
    else if |asb.targets| != |set t | t in asb.targets| then Some(DuplicateTargets)
    else if exists i :: 0 <= i < |asb.targets| && asb.targets[i] < 0 then Some(NegativeTarget)
    else if asb.contextId < 0 then Some(NegativeContext)
    else if asb.sourceScheme != 1 && asb.sourceScheme != 2 then Some(UnknownScheme)
    else if asb.contextFlags != 0 && asb.contextFlags != 1 then Some(ReservedFlags)
    else if (asb.contextFlags == 1) != (asb.parameters > 0) then Some(ParameterMismatch)
    else if asb.results != |asb.targets| then Some(ResultMismatch)
    else None
  }

  /** Some distinct block numbers; a context identifier; parameters announced exactly if present; a result list for each target. */
  predicate ValidAsb(asb: Asb) {
    && asb.targets != []
    && Distinct(asb.targets)
    && (forall i | 0 <= i < |asb.targets| :: asb.targets[i] >= 0)
    && asb.contextId >= 0
    && asb.sourceScheme in {1, 2}
    && asb.contextFlags == (if asb.parameters > 0 then 1 else 0)
    && asb.results == |asb.targets|
  }

  lemma {:induction false} CountsDistinct(s: seq<int>)
    ensures |set t | t in s| <= |s|
    ensures |set t | t in s| == |s| <==> Distinct(s)
    decreases s
  {
    if s != [] {
      var n := |s| - 1;
      CountsDistinct(s[..n]);
      DistinctLast(s);
      hide Distinct;
      var before := set t | t in s[..n];
      assert (set t | t in s) == before + {s[n]};
      assert s[n] in before <==> s[n] in s[..n];
    }
  }

  lemma AsbAcceptedIffValid(asb: Asb)
    ensures CheckAsb(asb) == None <==> ValidAsb(asb)
  {
    hide Distinct;
    CountsDistinct(asb.targets);
  }

  /** Each error of the checks names what is wrong, and what was checked before it is right. */
  lemma AsbErrorMeans(asb: Asb)
    ensures match CheckAsb(asb)
      case None => true
      case Some(why) =>
        match why
        case NoTargets => |asb.targets| == 0
        case DuplicateTargets => exists i, j :: 0 <= i < j < |asb.targets| && asb.targets[i] == asb.targets[j]
        case NegativeTarget => Distinct(asb.targets) && exists i :: 0 <= i < |asb.targets| && asb.targets[i] < 0
        case NegativeContext => asb.contextId < 0
        case UnknownScheme => asb.contextId >= 0 && asb.sourceScheme !in {1, 2}
        case ReservedFlags => asb.sourceScheme in {1, 2} && asb.contextFlags !in {0, 1}
        case ParameterMismatch => asb.contextFlags == (if asb.parameters > 0 then 0 else 1)
        case ResultMismatch => asb.results != |asb.targets|
  {
    CountsDistinct(asb.targets);
  }

  // ----- What the dictionaries hold -----

  function SecurityBlocks(blocks: seq<Block>): seq<Block> {
    if blocks == [] then []
    else
      var last := blocks[|blocks| - 1];
      SecurityBlocks(blocks[..|blocks| - 1]) + if last.IsSecurity() then [last] else []
  }

  lemma {:induction false} SecurityMembers(blocks: seq<Block>)
    ensures forall b :: b in SecurityBlocks(blocks) <==> b in blocks && b.IsSecurity()
    decreases blocks
  {
    if blocks != [] {
      SecurityMembers(blocks[..|blocks| - 1]);
      assert blocks == blocks[..|blocks| - 1] + [blocks[|blocks| - 1]];
    }
  }

  /** The type code of the last block with each number. */
  function TypeMap(blocks: seq<Block>): map<int, int> {
    if blocks == [] then map[PRIMARY_BLOCK_NUMBER := PRIMARY]
    else
      var last := blocks[|blocks| - 1];
      TypeMap(blocks[..|blocks| - 1])[last.number := last.typeCode]
  }

  /** The targets of the last block of a type with each number. */
  function TargetMap(blocks: seq<Block>, code: int): map<int, set<int>> {
    if blocks == [] then map[]
    else
      var last := blocks[|blocks| - 1];
      var earlier := TargetMap(blocks[..|blocks| - 1], code);
      if last.typeCode == code then earlier[last.number := last.Targets()] else earlier
  }

  /** (type, target) of every security operation. */
  function Operations(blocks: seq<Block>): set<(int, int)> {
    if blocks == [] then {}
    else
      var last := blocks[|blocks| - 1];
      Operations(blocks[..|blocks| - 1]) + set t | t in last.Targets() :: (last.typeCode, t)
  }

  predicate NewOperations(blocks: seq<Block>, b: Block) {
    forall t | t in b.Targets() :: (b.typeCode, t) !in Operations(blocks)
  }

  // ----- The rules, as the code applies them to its dictionaries -----

  function CheckStructure(bundle: Bundle): Option<Violation> {
    if bundle.version != 7 then Some(UnsupportedVersion)
    else if bundle.IsAnonymous() && bundle.RequestsReports() then Some(AnonymousReports)
    else None
  }

  predicate BandAllows(blocks: seq<Block>, band: Option<BandType>) {
    band.None? || EncryptionAllowed(band.value) || forall b | b in blocks :: b.typeCode != BCB
  }

  predicate Known(targets: set<int>, types: map<int, int>) {
    forall t | t in targets :: t in types
  }

  predicate GoodBlock(b: Block, types: map<int, int>) {
    b.parsed.Some? && CheckAsb(b.parsed.value) == None && Known(b.Targets(), types)
  }

  predicate GoodBlocks(blocks: seq<Block>, types: map<int, int>) {
    forall i | 0 <= i < |blocks| :: GoodBlock(blocks[i], types) && NewOperations(blocks[..i], blocks[i])
  }

  predicate GoodBib(targets: set<int>, types: map<int, int>)
    requires Known(targets, types)
  {
    forall t | t in targets :: types[t] != BIB && types[t] != BCB
  }

  predicate GoodBcb(b: Block, targets: set<int>, types: map<int, int>)
    requires Known(targets, types)
  {
    && PRIMARY_BLOCK_NUMBER !in targets
    && (forall t | t in targets :: types[t] != BCB)
    && (PAYLOAD_BLOCK_NUMBER in targets ==> b.Replicated())
    && !b.Discardable()
  }

  /** A BCB that shares a target with a BIB has all its targets, and the BIB too. */
  predicate GoodOverlap(bcbTargets: set<int>, bibNumber: int, bibTargets: set<int>) {
    bcbTargets * bibTargets != {} ==> bibTargets <= bcbTargets && bibNumber in bcbTargets
  }

  predicate GoodOverlaps(bcbs: map<int, set<int>>, bibs: map<int, set<int>>) {
    forall c, b | c in bcbs && b in bibs :: GoodOverlap(bcbs[c], b, bibs[b])
  }

  predicate KnownTargets(targets: map<int, set<int>>, types: map<int, int>) {
    forall n | n in targets :: Known(targets[n], types)
  }

  predicate GoodTargets(blocks: seq<Block>, types: map<int, int>, bibs: map<int, set<int>>, bcbs: map<int, set<int>>) {
    && KnownTargets(bibs, types) && KnownTargets(bcbs, types)
    && (forall b | b in blocks && b.typeCode == BIB :: b.number in bibs && GoodBib(bibs[b.number], types))
    && (forall b | b in blocks && b.typeCode == BCB :: b.number in bcbs && GoodBcb(b, bcbs[b.number], types))
  }

  /** Everything the code checks, through its dictionaries. */
  predicate Accepted(bundle: Bundle, band: Option<BandType>) {
    && CheckStructure(bundle) == None
    && var blocks := SecurityBlocks(bundle.Blocks());
       blocks != [] ==>
         var types, bibs, bcbs := TypeMap(bundle.Blocks()), TargetMap(blocks, BIB), TargetMap(blocks, BCB);
         && BandAllows(blocks, band) && !bundle.IsFragment()
         && GoodBlocks(blocks, types) && GoodTargets(blocks, types, bibs, bcbs) && GoodOverlaps(bcbs, bibs)
  }

  lemma {:induction false} TargetMapKnown(blocks: seq<Block>, code: int, types: map<int, int>)
    requires GoodBlocks(blocks, types)
    ensures KnownTargets(TargetMap(blocks, code), types)
    ensures forall b | b in blocks && b.typeCode == code :: b.number in TargetMap(blocks, code)
    decreases blocks
  {
    hide CheckAsb, NewOperations;
    if blocks != [] {
      var n := |blocks| - 1;
      assert GoodBlocks(blocks[..n], types) by {
        assert forall i | 0 <= i < n :: blocks[..n][..i] == blocks[..i];
      }
      TargetMapKnown(blocks[..n], code, types);
      assert GoodBlock(blocks[n], types);
      assert blocks == blocks[..n] + [blocks[n]];
    }
  }

  /** What each error of the first loop says is so. */
  predicate BreaksBlocks(blocks: seq<Block>, types: map<int, int>, v: Violation) {
    exists i :: 0 <= i < |blocks| && BreaksBlock(blocks, i, types, v)
  }

  predicate BreaksBlock(blocks: seq<Block>, i: nat, types: map<int, int>, v: Violation)
    requires i < |blocks|
  {
    match v
    case NotParsed => blocks[i].parsed.None?
    case BadAsb(why) => blocks[i].parsed.Some? && CheckAsb(blocks[i].parsed.value) == Some(why)
    case MissingTarget => !Known(blocks[i].Targets(), types)
    case DuplicateOperation => !NewOperations(blocks[..i], blocks[i])
    case _ => false
  }

  /** What each error of the second and third loop says is so. */
  predicate BreaksTargets(blocks: seq<Block>, types: map<int, int>, bibs: map<int, set<int>>, bcbs: map<int, set<int>>, v: Violation) {
    exists i :: 0 <= i < |blocks| && BreaksTarget(blocks[i], types, bibs, bcbs, v)
  }

  predicate BreaksTarget(b: Block, types: map<int, int>, bibs: map<int, set<int>>, bcbs: map<int, set<int>>, v: Violation) {
    if b.typeCode == BIB then
      v == BibTargetsSecurity && b.number in bibs && exists t :: t in bibs[b.number] && t in types && (types[t] == BIB || types[t] == BCB)
    else if b.typeCode == BCB && b.number in bcbs then
      match v
      case BcbTargetsPrimary => PRIMARY_BLOCK_NUMBER in bcbs[b.number]
      case BcbTargetsBcb => exists t :: t in bcbs[b.number] && t in types && types[t] == BCB
      case PayloadNotReplicated => PAYLOAD_BLOCK_NUMBER in bcbs[b.number] && !b.Replicated()
      case BcbDiscardable => b.Discardable()
      case _ => false
    else false
  }

  /** What each error of the last loop says is so. */
  predicate BreaksOverlaps(bcbs: map<int, set<int>>, bibs: map<int, set<int>>, v: Violation) {
    exists c :: c in bcbs && BreaksOverlap(bcbs[c], bibs, v)
  }

  predicate BreaksOverlap(targets: set<int>, bibs: map<int, set<int>>, v: Violation) {
    exists b :: b in bibs && targets * bibs[b] != {} &&
      ((v == PartialOverlap && !(bibs[b] <= targets)) || (v == BibNotEncrypted && bibs[b] <= targets && b !in targets))
  }

  /** What an error says is so. */
  predicate Breaks(bundle: Bundle, band: Option<BandType>, v: Violation) {
    var blocks := SecurityBlocks(bundle.Blocks());
    var types, bibs, bcbs := TypeMap(bundle.Blocks()), TargetMap(blocks, BIB), TargetMap(blocks, BCB);
    || (v == UnsupportedVersion && bundle.version != 7)
    || (v == AnonymousReports && bundle.IsAnonymous() && bundle.RequestsReports())
    || (v == BandForbids && !BandAllows(blocks, band))
    || (v == Fragmentary && blocks != [] && bundle.IsFragment())
    || BreaksBlocks(blocks, types, v)
    || BreaksTargets(blocks, types, bibs, bcbs, v)
    || BreaksOverlaps(bcbs, bibs, v)
  }

  lemma StructureError(bundle: Bundle)
    ensures CheckStructure(bundle) == Some(UnsupportedVersion) ==> bundle.version != 7
    ensures CheckStructure(bundle) == Some(AnonymousReports) ==> bundle.IsAnonymous() && bundle.RequestsReports()
    ensures CheckStructure(bundle) in {None, Some(UnsupportedVersion), Some(AnonymousReports)}
  {}

  // ----- The validator -----

  method ValidateSecurityBlocks(bundle: Bundle, band: Option<BandType>) returns (r: Option<Violation>)
    ensures r == None <==> Accepted(bundle, band)
    ensures r.Some? ==> Breaks(bundle, band, r.value)
  {
    hide CheckStructure, CheckAsb, GoodBlocks, GoodTargets, GoodOverlaps, BreaksBlocks, BreaksTargets, BreaksOverlaps;
    r := CheckStructure(bundle);
    if r != None {
      StructureError(bundle);
      return;
    }
    var blocks := SecurityBlocks(bundle.Blocks());
    if blocks == [] {
      return None;
    }
    if !BandAllows(blocks, band) {
      return Some(BandForbids);
    }
    if bundle.IsFragment() {
      return Some(Fragmentary);
    }
    var types := TypeMap(bundle.Blocks());
    SecurityMembers(bundle.Blocks());
    var bibs, bcbs;
    r, bibs, bcbs := CollectTargets(blocks, types);
    if r != None {
      return;
    }
    r := CheckTargets(blocks, types, bibs, bcbs);
    if r != None {
      return;
    }
    r := CheckOverlaps(blocks, bcbs, bibs);
  }

  /** The first loop: each block by itself, its operations, and what it targets. */
  method CollectTargets(blocks: seq<Block>, types: map<int, int>)
    returns (r: Option<Violation>, bibs: map<int, set<int>>, bcbs: map<int, set<int>>)
    requires forall b | b in blocks :: b.IsSecurity()
    ensures r == None <==> GoodBlocks(blocks, types)
    ensures r.Some? ==> BreaksBlocks(blocks, types, r.value)
    ensures r == None ==> bibs == TargetMap(blocks, BIB) && bcbs == TargetMap(blocks, BCB)
  {
    hide Block.Targets, GoodBlock, NewOperations, BreaksBlock;
    var operations: set<(int, int)> := {};
    bibs, bcbs := map[], map[];
    for i := 0 to |blocks|
      invariant operations == Operations(blocks[..i])
      invariant bibs == TargetMap(blocks[..i], BIB) && bcbs == TargetMap(blocks[..i], BCB)
      invariant forall k | 0 <= k < i :: GoodBlock(blocks[k], types) && NewOperations(blocks[..k], blocks[k])
    {
      var b := blocks[i];
      assert b in blocks && blocks[..i + 1][..i] == blocks[..i];
      r, operations := CheckBlock(blocks, i, types, operations);
      if r != None {
        return;
      }
      if b.typeCode == BIB {
        bibs := bibs[b.number := b.Targets()];
      } else if b.typeCode == BCB {
        bcbs := bcbs[b.number := b.Targets()];
      }
    }
    assert blocks[..|blocks|] == blocks;
    return None, bibs, bcbs;
  }

  /** One turn of the first loop. */
  method CheckBlock(blocks: seq<Block>, i: nat, types: map<int, int>, operations: set<(int, int)>)
    returns (r: Option<Violation>, after: set<(int, int)>)
    requires i < |blocks| && operations == Operations(blocks[..i])
    ensures r == None <==> GoodBlock(blocks[i], types) && NewOperations(blocks[..i], blocks[i])
    ensures r == None ==> after == operations + set t | t in blocks[i].Targets() :: (blocks[i].typeCode, t)
    ensures r.Some? ==> BreaksBlock(blocks, i, types, r.value)
  {
    hide CheckAsb, Operations, Block.Targets;
    var b := blocks[i];
    if b.parsed.None? {
      return Some(NotParsed), operations;
    }
    var why := CheckAsb(b.parsed.value);
    if why.Some? {
      return Some(BadAsb(why.value)), operations;
    }
    if exists t | t in b.Targets() :: t !in types {
      return Some(MissingTarget), operations;
    }
    var isNew;
    isNew, after := AddOperations(operations, b);
    if !isNew {
      return Some(DuplicateOperation), operations;
    }
    return None, after;
  }

  /** The loop over one block's targets, which stops at the first operation seen before. */
  method AddOperations(operations: set<(int, int)>, b: Block) returns (ok: bool, after: set<(int, int)>)
    requires b.parsed.Some? && CheckAsb(b.parsed.value) == None
    ensures ok <==> forall t | t in b.Targets() :: (b.typeCode, t) !in operations
    ensures ok ==> after == operations + set t | t in b.Targets() :: (b.typeCode, t)
  {
    var targets := b.parsed.value.targets;
    AsbAcceptedIffValid(b.parsed.value);
    hide CheckAsb;
    after := operations;
    for j := 0 to |targets|
      invariant after == operations + set t | t in targets[..j] :: (b.typeCode, t)
      invariant forall k | 0 <= k < j :: (b.typeCode, targets[k]) !in operations
    {
      var op := (b.typeCode, targets[j]);
      if op in after {
        assert targets[j] in b.Targets();
        return false, after;
      }
      after := after + {op};
    }
    assert targets[..|targets|] == targets;
    return true, after;
  }

  /** The second and third loop. */
  method CheckTargets(blocks: seq<Block>, types: map<int, int>, bibs: map<int, set<int>>, bcbs: map<int, set<int>>) returns (r: Option<Violation>)
    requires GoodBlocks(blocks, types) && bibs == TargetMap(blocks, BIB) && bcbs == TargetMap(blocks, BCB)
    ensures r == None <==> GoodTargets(blocks, types, bibs, bcbs)
    ensures r.Some? ==> BreaksTargets(blocks, types, bibs, bcbs, r.value)
  {
    hide GoodBlocks, TargetMap;
    TargetMapKnown(blocks, BIB, types);
    TargetMapKnown(blocks, BCB, types);
    for i := 0 to |blocks|
      invariant forall k | 0 <= k < i && blocks[k].typeCode == BIB :: GoodBib(bibs[blocks[k].number], types)
    {
      if blocks[i].typeCode == BIB {
        assert blocks[i] in blocks;
        if !GoodBib(bibs[blocks[i].number], types) {
          assert BreaksTarget(blocks[i], types, bibs, bcbs, BibTargetsSecurity);
          return Some(BibTargetsSecurity);
        }
      }
    }
    for i := 0 to |blocks|
      invariant forall k | 0 <= k < i && blocks[k].typeCode == BCB :: GoodBcb(blocks[k], bcbs[blocks[k].number], types)
    {
      if blocks[i].typeCode == BCB {
        assert blocks[i] in blocks;
        var targets := bcbs[blocks[i].number];
        if PRIMARY_BLOCK_NUMBER in targets {
          assert BreaksTarget(blocks[i], types, bibs, bcbs, BcbTargetsPrimary);
          return Some(BcbTargetsPrimary);
        }
        if exists t | t in targets :: types[t] == BCB {
          assert BreaksTarget(blocks[i], types, bibs, bcbs, BcbTargetsBcb);
          return Some(BcbTargetsBcb);
        }
        if PAYLOAD_BLOCK_NUMBER in targets && !blocks[i].Replicated() {
          assert BreaksTarget(blocks[i], types, bibs, bcbs, PayloadNotReplicated);
          return Some(PayloadNotReplicated);
        }
        if blocks[i].Discardable() {
          assert BreaksTarget(blocks[i], types, bibs, bcbs, BcbDiscardable);
          return Some(BcbDiscardable);
        }
      }
    }
    return None;
  }

  lemma {:induction false} TargetMapKeys(blocks: seq<Block>, code: int, n: int)
    ensures n in TargetMap(blocks, code) <==> exists i :: 0 <= i < |blocks| && blocks[i].typeCode == code && blocks[i].number == n
    decreases blocks
  {
    if blocks != [] {
      var earlier := blocks[..|blocks| - 1];
      TargetMapKeys(earlier, code, n);
      assert forall i | 0 <= i < |earlier| :: earlier[i] == blocks[i];
    }
  }

  /** The two nested loops over the dictionaries' items, which are in the order of the blocks. */
  method CheckOverlaps(blocks: seq<Block>, bcbs: map<int, set<int>>, bibs: map<int, set<int>>) returns (r: Option<Violation>)
    requires bibs == TargetMap(blocks, BIB) && bcbs == TargetMap(blocks, BCB)
    ensures r == None <==> GoodOverlaps(bcbs, bibs)
    ensures r.Some? ==> BreaksOverlaps(bcbs, bibs, r.value)
  {
    hide TargetMap, GoodOverlap, BreaksOverlap;
    for i := 0 to |blocks|
      invariant forall k, b | 0 <= k < i && blocks[k].typeCode == BCB && b in bibs ::
                  blocks[k].number in bcbs && GoodOverlap(bcbs[blocks[k].number], b, bibs[b])
    {
      if blocks[i].typeCode == BCB {
        TargetMapKeys(blocks, BCB, blocks[i].number);
        r := CheckOverlapsOf(blocks, bcbs[blocks[i].number], bibs);
        if r != None {
          return;
        }
      }
    }
    forall c, b | c in bcbs && b in bibs
      ensures GoodOverlap(bcbs[c], b, bibs[b])
    {
      TargetMapKeys(blocks, BCB, c);
    }
    return None;
  }

  /** One BCB against every BIB. */
  method CheckOverlapsOf(blocks: seq<Block>, targets: set<int>, bibs: map<int, set<int>>) returns (r: Option<Violation>)
    requires bibs == TargetMap(blocks, BIB)
    ensures r == None <==> forall b | b in bibs :: GoodOverlap(targets, b, bibs[b])
    ensures r.Some? ==> BreaksOverlap(targets, bibs, r.value)
  {
    hide TargetMap;
    for i := 0 to |blocks|
      invariant forall k | 0 <= k < i && blocks[k].typeCode == BIB ::
                  blocks[k].number in bibs && GoodOverlap(targets, blocks[k].number, bibs[blocks[k].number])
    {
      if blocks[i].typeCode == BIB {
        var b := blocks[i].number;
        TargetMapKeys(blocks, BIB, b);
        var overlap := targets * bibs[b];
        if overlap != {} {
          if overlap != bibs[b] {
            assert !GoodOverlap(targets, b, bibs[b]);
            return Some(PartialOverlap);
          }
          if b !in targets {
            assert !GoodOverlap(targets, b, bibs[b]);
            return Some(BibNotEncrypted);
          }
          assert bibs[b] <= targets;
        }
      }
    }
    forall b | b in bibs
      ensures GoodOverlap(targets, b, bibs[b])
    {
      TargetMapKeys(blocks, BIB, b);
    }
    return None;
  }
}
