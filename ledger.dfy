/** The node's ledger, updated in place: the chain, the pending-transaction
    buffer, and mining on top of the tip. */
module Ledger {
  import opened Chain
  import opened Pow

  /** `mine_block` on values: search a proof against the tip, then seal a
      block linked to the tip's hash. */
  function Mine(l: LedgerState, difficulty: nat, timedOut: nat -> bool, timestamp: string,
                hash: BlockHasher, digest: PowHasher): (r: LedgerState)
    requires |l.chain| > 0 && difficulty <= DigestLength
    ensures |r.chain| == |l.chain| + 1 && r.chain[..|l.chain|] == l.chain
    ensures r.pending == [] && r.chain[|l.chain|].transactions == l.pending
    ensures r.chain[|l.chain|].index == |l.chain|
    ensures r.chain[|l.chain|].previousHash == hash(l.chain[|l.chain| - 1])
    ensures r.chain[|l.chain|].proof as nat == Search(l.chain[|l.chain| - 1], difficulty, hash, digest, timedOut, 0)
    ensures r.chain[|l.chain|].proof as nat <= MaxAttempts
    ensures WellFormed(l.chain, hash) ==> WellFormed(r.chain, hash)
  {
    var tip := l.chain[|l.chain| - 1];
    var proof := Search(tip, difficulty, hash, digest, timedOut, 0) as u64;
    SealKeepsLinked(l, proof, timestamp, hash);
    Seal(l, proof, hash(tip), timestamp)
  }

  /** Transactions submitted to an empty buffer and then mined (with no
      timeout and a proof found under the cap) land in the new block in
      submission order, the buffer is empty again, the chain grew by one,
      and the new block's proof solves the puzzle for the old tip. */
  lemma SubmitThenMine(l: LedgerState, ts: seq<Transaction>, difficulty: nat, timedOut: nat -> bool,
                       timestamp: string, hash: BlockHasher, digest: PowHasher)
    requires |l.chain| > 0 && l.pending == [] && difficulty <= DigestLength
    requires forall n :: !timedOut(n)
    requires Search(l.chain[|l.chain| - 1], difficulty, hash, digest, timedOut, 0) < MaxAttempts
    ensures SubmitAll(l, ts).chain == l.chain
    ensures var r := Mine(SubmitAll(l, ts), difficulty, timedOut, timestamp, hash, digest);
      |r.chain| == |l.chain| + 1 && r.pending == [] && r.chain[|l.chain|].transactions == ts &&
      ValidProof(l.chain[|l.chain| - 1], r.chain[|l.chain|].proof, difficulty, hash, digest)
  {
    SubmitAllQueues(l, ts);
    SearchSucceedsBelowCap(l.chain[|l.chain| - 1], difficulty, hash, digest, timedOut);
  }

  /** `Blockchain`: a chain of blocks and a buffer of pending transactions,
      with the two hash functions it is computed under. */
  class Blockchain {
    const hash: BlockHasher
    const digest: PowHasher
    var chain: seq<Block>
    var pending: seq<Transaction>

    /** The ledger's value, as `Clone` would copy it. */
    function State(): LedgerState
      reads this
    {
      LedgerState(chain, pending)
    }

    /** `Blockchain::new`: an empty ledger with the genesis block sealed in. */
    constructor (hash: BlockHasher, digest: PowHasher, timestamp: string)
      ensures this.hash == hash && this.digest == digest
      ensures State() == Genesis(timestamp)
    {
      this.hash := hash;
      this.digest := digest;
      chain := [];
      pending := [];
      new;
      AddBlock(GenesisProof, GenesisPreviousHash, timestamp);
    }

    /** `add_block`: seal the whole pending buffer into a block at index
        `|chain|` and append it. */
    method AddBlock(proof: u64, previousHash: string, timestamp: string)
      modifies this
      ensures State() == Seal(old(State()), proof, previousHash, timestamp)
    {
      var block := Block(|chain|, timestamp, proof, previousHash, pending);
      pending := [];
      chain := chain + [block];
    }

    /** `add_transaction`: queue one transaction. */
    method AddTransaction(sender: string, receiver: string, amount: u64)
      modifies this
      ensures State() == Submit(old(State()), Transaction(sender, receiver, amount))
    {
      pending := pending + [Transaction(sender, receiver, amount)];
    }

    /** `mine_block`: the tip must exist (the source unwraps it). */
    method MineBlock(difficulty: nat, timedOut: nat -> bool, timestamp: string)
      requires |chain| > 0 && difficulty <= DigestLength
      modifies this
      ensures State() == Mine(old(State()), difficulty, timedOut, timestamp, hash, digest)
    {
      var lastBlock := LastBlock(chain).value;
      var proof := ProofOfWork(lastBlock, difficulty, hash, digest, timedOut);
      var previousHash := hash(lastBlock);
      AddBlock(proof, previousHash, timestamp);
    }
  }
}
