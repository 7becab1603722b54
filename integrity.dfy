/** The two checks of src/components/SmartContracts.tsx that read the
    ledger: the full integrity walk `verifyBlockchainIntegrity` and the
    single-block `verifyBlock`. */
module Integrity {
  import opened Text
  import opened Blocks
  import opened JsParse
  import opened Digest
  import opened LedgerStore

  /** One entry of the per-block report. */
  datatype BlockResult = BlockResult(index: nat, hashValid: bool, prevHashValid: bool, valid: bool)

  /** What `verifyBlockchainIntegrity` ends with: `false` on an empty
      ledger (`NoData`), an exception out of `btoa` (`EncodeError`), or the
      object `{ isValid, results }`. */
  datatype IntegrityOutcome = NoData | EncodeError | Report(isValid: bool, results: seq<BlockResult>)

  /** The linkage test for position `i`. */
  predicate LinkOk(chain: seq<Block>, i: nat)
    requires i < |chain|
  {
    if i == 0 then chain[0].prevHash == "0" else chain[i].prevHash == chain[i - 1].hash
  }

  /** The content test for position `i` with the digest recomputed by
      `recompute`: the recomputation succeeds and equals the stored hash. */
  predicate HashMatches(chain: seq<Block>, i: nat, recompute: Block -> Option<string>)
    requires i < |chain|
  {
    recompute(chain[i]) == Some(chain[i].hash)
  }

  /** The recomputation does not throw on block `i`. */
  predicate RecomputesAt(chain: seq<Block>, i: nat, recompute: Block -> Option<string>)
    requires i < |chain|
  {
    recompute(chain[i]).Some?
  }

  /** The report entry the loop builds for position `i`. */
  function Verdict(chain: seq<Block>, i: nat, recompute: Block -> Option<string>): BlockResult
    requires i < |chain|
  {
    var h := HashMatches(chain, i, recompute);
    BlockResult(i, h, LinkOk(chain, i), h && LinkOk(chain, i))
  }

  /** The loop of `verifyBlockchainIntegrity`, with the digest
      recomputation `recompute` (`None` where `btoa` throws, which ends the
      loop with the exception): a throw exactly when some block's
      recomputation throws; otherwise one entry per block, in order, and
      `isValid` exactly when every block passes both tests. */
  method Scan(chain: seq<Block>, recompute: Block -> Option<string>) returns (outcome: IntegrityOutcome)
    ensures !outcome.NoData?
    ensures outcome.EncodeError? <==> exists i :: 0 <= i < |chain| && !RecomputesAt(chain, i, recompute)
    ensures outcome.Report? ==> |outcome.results| == |chain|
    ensures outcome.Report? ==> forall i :: 0 <= i < |outcome.results| ==> outcome.results[i] == Verdict(chain, i, recompute)
    ensures outcome.Report? ==>
      (outcome.isValid <==> forall i :: 0 <= i < |chain| ==> HashMatches(chain, i, recompute) && LinkOk(chain, i))
  {
    var isValid := true;
    var results: seq<BlockResult> := [];
    var i := 0;
    while i < |chain|
      invariant 0 <= i <= |chain|
      invariant |results| == i
      invariant forall k :: 0 <= k < i ==> RecomputesAt(chain, k, recompute)
      invariant forall k :: 0 <= k < i ==> results[k] == Verdict(chain, k, recompute)
      invariant isValid <==> forall k :: 0 <= k < i ==> HashMatches(chain, k, recompute) && LinkOk(chain, k)
    {
      var block := chain[i];
      var calculated := recompute(block);
      if calculated.None? {
        assert !RecomputesAt(chain, i, recompute);
        return EncodeError;
      }
      assert RecomputesAt(chain, i, recompute);
      var hashValid := block.hash == calculated.value;
      var prevHashValid := if i == 0 then block.prevHash == "0" else block.prevHash == chain[i - 1].hash;
      assert hashValid == HashMatches(chain, i, recompute) && prevHashValid == LinkOk(chain, i);
      results := results + [BlockResult(i, hashValid, prevHashValid, hashValid && prevHashValid)];
      if !hashValid || !prevHashValid {
        isValid := false;
      }
      i := i + 1;
    }
    return Report(isValid, results);
  }

  /** The content test with the verifier's recomputation: the digest of
      the block serialised without its hash is the stored hash. */
  predicate HashOk(chain: seq<Block>, i: nat)
    requires i < |chain|
  {
    VerifyDigest(chain[i]) == Some(chain[i].hash)
  }

  /** `btoa` accepts the serialisation of block `i`: every text field is
      Latin-1. */
  predicate EncodableAt(chain: seq<Block>, i: nat)
    requires i < |chain|
  {
    FieldsLatin1(chain[i])
  }

  /** Every block can be serialised and fed to `btoa` without a throw. */
  predicate AllEncodable(chain: seq<Block>) {
    forall i :: 0 <= i < |chain| ==> EncodableAt(chain, i)
  }

  /** Every block passes both tests of the walk. */
  predicate Intact(chain: seq<Block>) {
    forall i :: 0 <= i < |chain| ==> HashOk(chain, i) && LinkOk(chain, i)
  }

  /** With the verifier's recomputation, the loop throws exactly on a
      block with a text field outside Latin-1, and its content test is
      `HashOk`. */
  lemma {:induction false} VerifierRecompute(chain: seq<Block>)
    ensures forall i :: 0 <= i < |chain| ==> (RecomputesAt(chain, i, VerifyDigest) <==> EncodableAt(chain, i))
    ensures forall i :: 0 <= i < |chain| ==> (HashMatches(chain, i, VerifyDigest) <==> HashOk(chain, i))
  {
    forall i | 0 <= i < |chain| ensures RecomputesAt(chain, i, VerifyDigest) <==> EncodableAt(chain, i) {
      VerifyEncodes(chain[i]);
    }
  }

  /** `verifyBlockchainIntegrity()` over `chain`: `false` on an empty list;
      a throw exactly when some block has a text field outside Latin-1;
      otherwise one entry per block, in order, with its two tests, and
      `isValid` exactly when every block passes both. */
  method VerifyIntegrity(chain: seq<Block>) returns (outcome: IntegrityOutcome)
    ensures outcome.NoData? <==> chain == []
    ensures outcome.EncodeError? <==> chain != [] && !AllEncodable(chain)
    ensures outcome.Report? ==> |outcome.results| == |chain|
    ensures outcome.Report? ==> forall i :: 0 <= i < |outcome.results| ==>
      outcome.results[i] == BlockResult(i, HashOk(chain, i), LinkOk(chain, i), HashOk(chain, i) && LinkOk(chain, i))
    ensures outcome.Report? ==> (outcome.isValid <==> Intact(chain))
  {
    if |chain| == 0 {
      return NoData;
    }
    VerifierRecompute(chain);
    outcome := Scan(chain, VerifyDigest);
  }

  /** A block sealed by `addBlock` passes the verifier's hash check. */
  lemma {:induction false} SealedBlockVerifies(b: Block)
    requires AppendDigest(b.(hash := "")) == Some(b.hash)
    ensures FieldsLatin1(b) && VerifyDigest(b) == Some(b.hash)
  {
    var c := b.(hash := "");
    DigestsAgree(c);
    VerifyIgnoresHash(b, "");
    assert c.(hash := b.hash) == b;
  }

  /** A list that passes the hash test everywhere can be encoded: the walk
      reaches its report. */
  lemma {:induction false} IntactEncodable(chain: seq<Block>)
    requires Intact(chain)
    ensures AllEncodable(chain)
  {
    forall i | 0 <= i < |chain| ensures EncodableAt(chain, i) {
      assert HashOk(chain, i);
      VerifyEncodes(chain[i]);
    }
  }

  /** A list built by `addBlock` alone passes the walk: it can be encoded
      and every block passes both tests. */
  lemma {:induction false} AddedChainsVerify(chain: seq<Block>)
    requires Linked(chain) && Sealed(chain)
    ensures AllEncodable(chain) && Intact(chain)
  {
    LinkedMeans(chain);
    forall i | 0 <= i < |chain| ensures HashOk(chain, i) && LinkOk(chain, i) {
      SealedBlockVerifies(chain[i]);
    }
    IntactEncodable(chain);
  }

  /** Editing the previous hash of block `i` can break the linkage of
      block `i` alone: every other block's linkage verdict is unchanged,
      and a block that linked before no longer does. */
  lemma {:induction false} PrevHashEditIsLocal(chain: seq<Block>, i: nat, p: string)
    requires i < |chain| && p != chain[i].prevHash
    ensures forall j :: 0 <= j < |chain| && j != i ==>
      LinkOk(chain[i := chain[i].(prevHash := p)], j) == LinkOk(chain, j)
    ensures LinkOk(chain, i) ==> !LinkOk(chain[i := chain[i].(prevHash := p)], i)
  {
  }

  /** Rewriting the hash of block `i` of a list built by `addBlock` is
      caught: block `i` fails the hash test, so the list is not intact. */
  lemma {:induction false} HashEditDetected(chain: seq<Block>, i: nat, h: string)
    requires Linked(chain) && Sealed(chain)
    requires i < |chain| && h != chain[i].hash
    ensures !HashOk(chain[i := chain[i].(hash := h)], i)
    ensures !Intact(chain[i := chain[i].(hash := h)])
  {
    var t := chain[i := chain[i].(hash := h)];
    SealedBlockVerifies(chain[i]);
    VerifyIgnoresHash(chain[i], h);
    assert t[i] == chain[i].(hash := h);
  }

  /** The hash check looks at the farmer name alone: blocks with the same
      farmer get the same recomputed digest whatever their crop, quantity,
      price, notes, index, timestamp or previous hash. */
  lemma {:induction false} HashCheckIgnoresOtherFields(b: Block, c: Block)
    requires FieldsLatin1(b) && FieldsLatin1(c) && b.farmer == c.farmer
    ensures VerifyDigest(b) == VerifyDigest(c)
  {
    DigestIgnoresAllButFarmer(b, c);
  }

  /** Rewriting the notes of a block built by `addBlock` goes unnoticed by
      the full walk, however the notes change. */
  lemma {:induction false} NotesTamperUndetected(chain: seq<Block>, i: nat, notes: string)
    requires Linked(chain) && Sealed(chain)
    requires i < |chain| && Latin1(notes)
    ensures AllEncodable(chain[i := chain[i].(notes := notes)])
    ensures Intact(chain[i := chain[i].(notes := notes)])
  {
    var t := chain[i := chain[i].(notes := notes)];
    LinkedMeans(chain);
    forall j | 0 <= j < |t| ensures HashOk(t, j) && LinkOk(t, j) {
      NotesEditKeepsBlock(chain, i, notes, j);
    }
    IntactEncodable(t);
  }

  /** Block `j` still passes both tests after the notes of block `i`
      change. */
  lemma {:induction false} NotesEditKeepsBlock(chain: seq<Block>, i: nat, notes: string, j: nat)
    requires Linked(chain) && Sealed(chain)
    requires i < |chain| && j < |chain| && Latin1(notes)
    requires |chain| > 0 ==> chain[0].prevHash == "0"
    requires forall k :: 0 < k < |chain| ==> chain[k].prevHash == chain[k - 1].hash
    ensures HashOk(chain[i := chain[i].(notes := notes)], j)
    ensures LinkOk(chain[i := chain[i].(notes := notes)], j)
  {
    var t := chain[i := chain[i].(notes := notes)];
    SealedBlockVerifies(chain[j]);
    if j == i {
      HashCheckIgnoresOtherFields(chain[i], t[i]);
    }
    assert LinkOk(chain, j);
  }

  // ------------------------------------------------------------ verifyBlock

  /** What `verifyBlock` reports: an index rejected by the bounds check,
      an exception out of `btoa`, or the verdict with the two tests it
      combines. */
  datatype BlockCheck = InvalidIndex | EncodeFailure | Checked(index: nat, isValid: bool, expectedMatch: bool)

  /** The bounds check of `verifyBlock`: the parsed index when it is a
      number within the ledger, `None` for NaN, negative or too large. */
  function SelectIndex(chain: seq<Block>, indexText: string): (r: Option<nat>)
    ensures r.Some? <==> ParseInt(indexText).Some? && 0 <= ParseInt(indexText).value < |chain|
    ensures r.Some? ==> r.value == ParseInt(indexText).value
  {
    match ParseInt(indexText)
    case None => None
    case Some(n) => if 0 <= n < |chain| then Some(n) else None
  }

  /** An index typed in decimal selects that block when it is in range. */
  lemma {:induction false} SelectDecimal(chain: seq<Block>, m: nat)
    ensures SelectIndex(chain, NatToString(m)) == if m < |chain| then Some(m) else None
  {
    ParseNatToString(m);
  }

  /** The two tests on a block in range: content hash, and the expected
      hash only when one was typed. */
  function CheckBlock(b: Block, n: nat, expectedHash: string): (r: BlockCheck)
    ensures r.EncodeFailure? <==> !FieldsLatin1(b)
    ensures !r.InvalidIndex?
    ensures r.Checked? ==> r.index == n
    ensures r.Checked? ==> (r.isValid <==> VerifyDigest(b) == Some(b.hash))
    ensures r.Checked? ==> (r.expectedMatch <==> expectedHash == "" || b.hash == expectedHash)
  {
    VerifyEncodes(b);
    match VerifyDigest(b)
    case None => EncodeFailure
    case Some(h) => Checked(n, b.hash == h, if expectedHash != "" then b.hash == expectedHash else true)
  }

  /** `verifyBlock()` with the two text fields of the form. */
  function VerifyBlock(chain: seq<Block>, indexText: string, expectedHash: string): (r: BlockCheck)
    ensures r.InvalidIndex? <==> SelectIndex(chain, indexText).None?
    ensures !r.InvalidIndex? ==> r == CheckBlock(chain[SelectIndex(chain, indexText).value],
                                                 SelectIndex(chain, indexText).value, expectedHash)
  {
    match SelectIndex(chain, indexText)
    case None => InvalidIndex
    case Some(n) => CheckBlock(chain[n], n, expectedHash)
  }

  /** For an index typed in decimal, `verifyBlock`'s content verdict is
      the full walk's `hashValid` for that block. */
  lemma {:induction false} VerifyBlockAgreesWithWalk(chain: seq<Block>, i: nat, expectedHash: string)
    requires i < |chain| && FieldsLatin1(chain[i])
    ensures VerifyBlock(chain, NatToString(i), expectedHash).Checked?
    ensures VerifyBlock(chain, NatToString(i), expectedHash).index == i
    ensures VerifyBlock(chain, NatToString(i), expectedHash).isValid == (VerifyDigest(chain[i]) == Some(chain[i].hash))
  {
    SelectDecimal(chain, i);
  }

  /** `verifyBlock` never looks at linkage: a block that fails the walk's
      linkage test still gets `isValid` when its hash matches. */
  lemma {:induction false} VerifyBlockIgnoresLinkage(chain: seq<Block>, i: nat, p: string)
    requires i < |chain| && FieldsLatin1(chain[i]) && Latin1(p)
    ensures VerifyBlock(chain[i := chain[i].(prevHash := p)], NatToString(i), "")
         == VerifyBlock(chain, NatToString(i), "")
  {
    var t := chain[i := chain[i].(prevHash := p)];
    SelectDecimal(chain, i);
    SelectDecimal(t, i);
    DigestIgnoresAllButFarmer(chain[i], t[i]);
    CheckBlockSame(chain[i], t[i], i, "");
  }

  /** `verifyBlock`'s verdict on a block depends on its recomputed digest
      and its stored hash alone. */
  lemma {:induction false} CheckBlockSame(b: Block, c: Block, n: nat, expectedHash: string)
    requires VerifyDigest(b) == VerifyDigest(c) && b.hash == c.hash
    ensures CheckBlock(b, n, expectedHash) == CheckBlock(c, n, expectedHash)
  {
  }

  /** A sealed block passes `verifyBlock`, and with its own hash typed as
      the expected one it matches too. */
  lemma {:induction false} VerifyBlockOfSealed(chain: seq<Block>, i: nat)
    requires Sealed(chain) && i < |chain|
    ensures VerifyBlock(chain, NatToString(i), chain[i].hash) == Checked(i, true, true)
  {
    SelectDecimal(chain, i);
    SealedBlockVerifies(chain[i]);
  }

  /** Lenient parsing: "1x" selects block 1, like "1". */
  lemma {:induction false} VerifyBlockTrailingLetter(chain: seq<Block>, expectedHash: string)
    ensures VerifyBlock(chain, "1x", expectedHash) == VerifyBlock(chain, "1", expectedHash)
  {
    ParseTrailingLetter();
    SelectDecimal(chain, 1);
    assert NatToString(1) == "1";
  }

  /** A negative index is rejected. */
  lemma {:induction false} VerifyBlockNegative(chain: seq<Block>, n: nat, expectedHash: string)
    ensures VerifyBlock(chain, "-" + NatToString(n + 1), expectedHash) == InvalidIndex
  {
    var digits := NatToString(n + 1);
    var neg := "-" + digits;
    MagnitudeDecimal(n + 1, "");
    assert digits + "" == digits;
    assert neg[0] == '-' && !IsJsSpace('-');
    ParseMinus(neg, digits, n + 1);
  }

  /** An index at or past the length is rejected. */
  lemma {:induction false} VerifyBlockTooLarge(chain: seq<Block>, n: nat, expectedHash: string)
    ensures VerifyBlock(chain, NatToString(|chain| + n), expectedHash) == InvalidIndex
  {
    SelectDecimal(chain, |chain| + n);
  }
}
