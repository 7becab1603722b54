/** The ledger store of src/hooks/useBlockchain.ts: the in-memory block
    list, its copy in browser storage, and `addBlock`, `clearLedger` and
    the load-on-mount effect. */
module LedgerStore {
  import opened Blocks
  import opened JsParse
  import opened Digest

  /** What the storage key holds. `Absent` is also the empty string (a
      falsy value the load skips); `Unparseable` is text `JSON.parse`
      rejects; `Saved` is a stored block list. */
  datatype Storage = Absent | Unparseable | Saved(chain: seq<Block>)

  /** The previous hash a new block links to: the last block's hash, or
      the sentinel "0" on an empty ledger. */
  function PrevHashFor(chain: seq<Block>): (p: string)
    ensures |chain| == 0 ==> p == "0"
    ensures |chain| > 0 ==> p == chain[|chain| - 1].hash
  {
    if |chain| > 0 then chain[|chain| - 1].hash else "0"
  }

  /** The block `addBlock` builds before hashing: index = current length,
      hash still empty. */
  function Candidate(chain: seq<Block>, d: BlockData, timestamp: string): (b: Block)
    ensures b.index == |chain| && b.prevHash == PrevHashFor(chain)
    ensures b.hash == "" && DataOf(b) == d && b.timestamp == timestamp
  {
    Assemble(d, |chain|, timestamp, PrevHashFor(chain), "")
  }

  /** The list after `addBlock`: the candidate with its digest appended,
      or `None` when `btoa` throws on the serialisation. */
  function Append(chain: seq<Block>, d: BlockData, timestamp: string): (r: Option<seq<Block>>)
    ensures r.Some? <==> FieldsLatin1(Candidate(chain, d, timestamp))
    ensures r.Some? ==> |r.value| == |chain| + 1 && r.value[..|chain|] == chain
    ensures r.Some? ==> r.value[|chain|].index == |chain|
    ensures r.Some? ==> r.value[|chain|].prevHash == PrevHashFor(chain)
    ensures r.Some? ==> DataOf(r.value[|chain|]) == d && r.value[|chain|].timestamp == timestamp
    ensures r.Some? ==> |r.value[|chain|].hash| == 20
    ensures r.Some? ==> VerifyDigest(r.value[|chain|]) == Some(r.value[|chain|].hash)
  {
    var c := Candidate(chain, d, timestamp);
    DigestsAgree(c);
    match AppendDigest(c)
    case None => None
    case Some(h) =>
      VerifyIgnoresHash(c, h);
      Some(chain + [c.(hash := h)])
  }

  /** The shape `addBlock` gives a list: every block's index is its
      position and its previous hash links to its predecessor. */
  predicate Linked(chain: seq<Block>) {
    forall i :: 0 <= i < |chain| ==>
      chain[i].index == i && chain[i].prevHash == PrevHashFor(chain[..i])
  }

  /** Every block carries the digest of itself serialised with an empty
      hash. */
  predicate Sealed(chain: seq<Block>) {
    forall i :: 0 <= i < |chain| ==> AppendDigest(chain[i].(hash := "")) == Some(chain[i].hash)
  }

  /** An append keeps a linked, sealed list linked and sealed. */
  lemma {:induction false} AppendKeeps(chain: seq<Block>, d: BlockData, timestamp: string)
    requires Linked(chain) && Sealed(chain)
    requires Append(chain, d, timestamp).Some?
    ensures Linked(Append(chain, d, timestamp).value)
    ensures Sealed(Append(chain, d, timestamp).value)
  {
    var c := Candidate(chain, d, timestamp);
    var h := AppendDigest(c).value;
    var next := Append(chain, d, timestamp).value;
    assert next == chain + [c.(hash := h)];
    AppendKeepsLinked(chain, c.(hash := h));
    AppendKeepsSealed(chain, c, h);
  }

  lemma {:induction false} AppendKeepsLinked(chain: seq<Block>, b: Block)
    requires Linked(chain)
    requires b.index == |chain| && b.prevHash == PrevHashFor(chain)
    ensures Linked(chain + [b])
  {
    var next := chain + [b];
    forall i | 0 <= i < |next|
      ensures next[i].index == i && next[i].prevHash == PrevHashFor(next[..i])
    {
      if i < |chain| {
        assert next[..i] == chain[..i];
      } else {
        assert next[..i] == chain;
      }
    }
  }

  lemma {:induction false} AppendKeepsSealed(chain: seq<Block>, c: Block, h: string)
    requires Sealed(chain)
    requires c.hash == "" && AppendDigest(c) == Some(h)
    ensures Sealed(chain + [c.(hash := h)])
  {
    var next := chain + [c.(hash := h)];
    assert next[|chain|].(hash := "") == c;
  }

  /** One call of `addBlock(data)` at the clock reading `timestamp`. */
  datatype Entry = Entry(data: BlockData, timestamp: string)

  /** The list after adding `entries` in order to an empty ledger; an
      entry whose encode throws adds nothing. */
  function Replay(entries: seq<Entry>): (chain: seq<Block>)
    ensures |chain| <= |entries|
  {
    if entries == [] then []
    else
      var prev := Replay(entries[..|entries| - 1]);
      var e := entries[|entries| - 1];
      match Append(prev, e.data, e.timestamp)
      case None => prev
      case Some(next) => next
  }

  /** Whatever the entries, the replayed list is linked from index 0 with
      the "0" sentinel and every block is sealed. */
  lemma {:induction false} ReplayKeeps(entries: seq<Entry>)
    ensures Linked(Replay(entries)) && Sealed(Replay(entries))
  {
    if entries != [] {
      var prev := Replay(entries[..|entries| - 1]);
      var e := entries[|entries| - 1];
      ReplayKeeps(entries[..|entries| - 1]);
      if Append(prev, e.data, e.timestamp).Some? {
        AppendKeeps(prev, e.data, e.timestamp);
      }
    }
  }

  /** Every sealed hash is twenty characters long. */
  lemma {:induction false} SealedHashes(chain: seq<Block>)
    requires Sealed(chain)
    ensures forall i :: 0 <= i < |chain| ==> |chain[i].hash| == 20
  {
    forall i | 0 <= i < |chain| ensures |chain[i].hash| == 20 {
      DigestsAgree(chain[i].(hash := ""));
    }
  }

  /** Linkage spelled out: the first block points at "0", every later
      block at the hash of the block before it. */
  lemma {:induction false} LinkedMeans(chain: seq<Block>)
    requires Linked(chain)
    ensures |chain| > 0 ==> chain[0].prevHash == "0"
    ensures forall i :: 0 < i < |chain| ==> chain[i].prevHash == chain[i - 1].hash
    ensures forall i :: 0 <= i < |chain| ==> chain[i].index == i
  {
    forall i | 0 < i < |chain| ensures chain[i].prevHash == chain[i - 1].hash {
      assert chain[..i][i - 1] == chain[i - 1];
    }
  }

  /** The ledger hook: the list React renders and the storage entry. */
  class Ledger {
    var blocks: seq<Block>
    var stored: Storage

    /** First render: an empty list; storage as the browser has it. */
    constructor (storage: Storage)
      ensures blocks == [] && stored == storage
    {
      blocks := [];
      stored := storage;
    }

    /** The mount effect: a stored list replaces the current one; absent,
        empty or unparseable storage leaves it as it is. */
    method Load()
      modifies this
      ensures stored == old(stored)
      ensures stored.Saved? ==> blocks == stored.chain
      ensures !stored.Saved? ==> blocks == old(blocks)
    {
      match stored
      case Saved(chain) => blocks := chain;
      case _ =>
    }

    /** `addBlock(d)` at clock reading `timestamp`. The digest is
        computed before any state is touched, so when `btoa` throws
        (`ok` false) neither the list nor storage changes; otherwise the
        built block is appended and storage holds the new list. */
    method AddBlock(d: BlockData, timestamp: string) returns (ok: bool)
      modifies this
      ensures ok <==> FieldsLatin1(Candidate(old(blocks), d, timestamp))
      ensures ok ==> blocks == Append(old(blocks), d, timestamp).value && stored == Saved(blocks)
      ensures !ok ==> blocks == old(blocks) && stored == old(stored)
      ensures Linked(old(blocks)) && Sealed(old(blocks)) ==> Linked(blocks) && Sealed(blocks)
    {
      var next := Append(blocks, d, timestamp);
      match next
      case None =>
        ok := false;
      case Some(chain) =>
        if Linked(blocks) && Sealed(blocks) {
          AppendKeeps(blocks, d, timestamp);
        }
        blocks := chain;
        stored := Saved(chain);
        ok := true;
    }

    /** `clearLedger`: an empty list and no storage entry. */
    method Clear()
      modifies this
      ensures blocks == [] && stored == Absent
    {
      blocks := [];
      stored := Absent;
    }
  }
}
