/** The ledger's data model (blocks, transactions, the chain with its pending
    buffer) and the ledger transitions as functions on values. The class that
    updates a ledger in place is Ledger.Blockchain; these functions are its
    specification. */
module Chain {

  /** Rust's u64, used for proofs and amounts. */
  newtype u64 = x: int | 0 <= x < 0x1_0000_0000_0000_0000

  newtype byte = x: int | 0 <= x < 256

  /** A SHA-256 digest is 32 bytes long. */
  type Digest = s: seq<byte> | |s| == 32 witness seq(32, _ => 0)

  /** The block hash: SHA-256 over the JSON serialisation of every field of
      the block, hex-encoded. Serialisation and hashing are foreign code, so
      the model takes the hash as a parameter of this type. */
  type BlockHasher = Block -> string

  /** The proof-of-work digest: SHA-256 over the text formed by the tip's
      proof, the tip's hash and the candidate proof, in that order. */
  type PowHasher = (u64, string, u64) -> Digest

  datatype Option<T> = None | Some(value: T)

  datatype Transaction = Transaction(sender: string, receiver: string, amount: u64)

  datatype Block = Block(
    index: nat,
    timestamp: string,
    proof: u64,
    previousHash: string,
    transactions: seq<Transaction>)

  /** The value of a whole ledger: what `Clone` copies, what a peer sends in
      a SendChain message and what replaces the local ledger on adoption. */
  datatype LedgerState = LedgerState(chain: seq<Block>, pending: seq<Transaction>)

  /** The genesis proof and the sentinel previous hash of the first block. */
  const GenesisProof: u64 := 0
  const GenesisPreviousHash: string := "0"

  /** Every block sits at the position its index names. */
  ghost predicate Indexed(chain: seq<Block>)
  {
    forall i :: 0 <= i < |chain| ==> chain[i].index == i
  }

  /** Every block after the first names the hash of its predecessor. */
  ghost predicate Linked(chain: seq<Block>, hash: BlockHasher)
  {
    forall i :: 0 < i < |chain| ==> chain[i].previousHash == hash(chain[i - 1])
  }

  ghost predicate WellFormed(chain: seq<Block>, hash: BlockHasher)
  {
    Indexed(chain) && Linked(chain, hash)
  }

  /** `chain.last()`. */
  function LastBlock(chain: seq<Block>): (r: Option<Block>)
    ensures r.None? <==> chain == []
    ensures r.Some? ==> r.value in chain && r.value == chain[|chain| - 1]
  {
    if chain == [] then None else Some(chain[|chain| - 1])
  }

  /** Sealing: a new block at index `|chain|` carrying the whole pending
      buffer, appended to the chain; the buffer is left empty. */
  function Seal(l: LedgerState, proof: u64, previousHash: string, timestamp: string): (r: LedgerState)
    ensures |r.chain| == |l.chain| + 1
    ensures r.chain[..|l.chain|] == l.chain
    ensures r.chain[|l.chain|].index == |l.chain|
    ensures r.chain[|l.chain|].transactions == l.pending
    ensures r.chain[|l.chain|].proof == proof && r.chain[|l.chain|].previousHash == previousHash
    ensures r.chain[|l.chain|].timestamp == timestamp
    ensures r.pending == []
    ensures Indexed(l.chain) ==> Indexed(r.chain)
  {
    LedgerState(l.chain + [Block(|l.chain|, timestamp, proof, previousHash, l.pending)], [])
  }

  /** A fresh ledger: the empty ledger with the genesis block sealed into it. */
  function Genesis(timestamp: string): (r: LedgerState)
    ensures |r.chain| == 1 && r.pending == []
    ensures r.chain[0] == Block(0, timestamp, 0, "0", [])
    ensures forall hash: BlockHasher :: WellFormed(r.chain, hash)
  {
    Seal(LedgerState([], []), GenesisProof, GenesisPreviousHash, timestamp)
  }

  /** Submitting a transaction adds it to the end of the pending buffer. */
  function Submit(l: LedgerState, t: Transaction): (r: LedgerState)
    ensures r.chain == l.chain
    ensures |r.pending| == |l.pending| + 1 && r.pending[..|l.pending|] == l.pending
    ensures r.pending[|l.pending|] == t
  {
    LedgerState(l.chain, l.pending + [t])
  }

  /** Submitting several transactions, one after another. */
  function SubmitAll(l: LedgerState, ts: seq<Transaction>): (r: LedgerState)
    decreases |ts|
  {
    if ts == [] then l else SubmitAll(Submit(l, ts[0]), ts[1..])
  }

  /** Submissions never touch the chain and queue up in submission order. */
  lemma {:induction false} SubmitAllQueues(l: LedgerState, ts: seq<Transaction>)
    ensures SubmitAll(l, ts).chain == l.chain
    ensures SubmitAll(l, ts).pending == l.pending + ts
    decreases |ts|
  {
    if ts != [] {
      SubmitAllQueues(Submit(l, ts[0]), ts[1..]);
      assert l.pending + [ts[0]] + ts[1..] == l.pending + ts;
    }
  }

  /** Transactions submitted to an empty buffer and then sealed end up in the
      new block, in submission order, and the buffer is empty again. */
  lemma SubmitThenSeal(l: LedgerState, ts: seq<Transaction>, proof: u64, previousHash: string, timestamp: string)
    requires l.pending == []
    ensures SubmitAll(l, ts).chain == l.chain
    ensures Seal(SubmitAll(l, ts), proof, previousHash, timestamp).chain[|l.chain|].transactions == ts
    ensures Seal(SubmitAll(l, ts), proof, previousHash, timestamp).pending == []
    ensures |Seal(SubmitAll(l, ts), proof, previousHash, timestamp).chain| == |l.chain| + 1
  {
    SubmitAllQueues(l, ts);
  }

  /** A block whose previous hash names the tip keeps the chain linked when
      sealed on. */
  lemma SealKeepsLinked(l: LedgerState, proof: u64, timestamp: string, hash: BlockHasher)
    requires |l.chain| > 0
    ensures WellFormed(l.chain, hash) ==> WellFormed(Seal(l, proof, hash(l.chain[|l.chain| - 1]), timestamp).chain, hash)
  {
  }
}
