# A verified model of a small proof-of-work blockchain node

This project models the core of a small Rust blockchain node. The node keeps a
ledger: a chain of blocks plus a buffer of pending transactions. It seals
blocks under a proof-of-work puzzle. It replicates its ledger to peers by
gossiping new blocks and transactions, and it reconciles replicas with a
longest-chain-wins rule.

- `chain.dfy`, module `Chain`: the data model (`Transaction`, `Block`, the
  ledger value `LedgerState`). It also holds the ledger transitions as
  functions on values: genesis, sealing, submitting, and the tip. The chain
  invariants are defined here too: `Indexed`, where block i has index i, and
  `Linked`, where every block names the hash of the block before it.
- `pow.dfy`, module `Pow`: `valid_proof` and `proof_of_work`.
  - `ValidProof` checks that a digest starts with `difficulty` zero bytes.
  - `Search` is a pure definition of what the search loop returns.
  - `ProofOfWork` is the loop itself, proved equal to `Search`.
- `ledger.dfy`, module `Ledger`: the `Blockchain` class, which updates the
  chain and the pending buffer in place (`new`, `add_block`,
  `add_transaction`, `mine_block`). It also defines `Mine`, the value that
  `mine_block` produces.
- `p2p.dfy`, module `P2P`: the `Message` type and the replication rules.
  - `React` is `handle_message` as a transition on ledger values.
  - `Replay` is what a receive loop does to the ledger over a sequence of
    reads.
  - The `P2PNetwork` class holds the shared ledger and the `peers` set. Its
    outbox `sent` records every message a broadcast writes to a peer. Its
    `HandleMessage`, `HandleConnection`, `ConnectToPeer` and `Broadcast`
    change that state in place.

The two SHA-256 computations cannot be modelled here, and neither can the
JSON serialisation of a block that one of them hashes. They become
function-valued parameters:
- `BlockHasher` (`Block -> string`) stands for `Block::hash`.
- `PowHasher` (`(u64, string, u64) -> Digest`, where a `Digest` is 32 bytes)
  stands for the digest of the text built from the tip's proof, the tip's
  hash and the candidate proof.

A `Blockchain` object keeps both as constants. Every property is proved for
every choice of these functions. Three more things are parameters:
- Block timestamps, which the source reads from the clock.
- The 30-second mining timeout, an oracle `timedOut(n)`: did the clock pass
  the limit after attempt `n` failed?
- The decoded contents of each socket read, as a `ReadEvent`.

Two behaviours of the code are easy to misread, and the model keeps them as
written:
- When the search stops at the attempt cap or on a timeout, the code returns
  the candidate after the last one it tried, and that candidate was never
  tested. Every candidate below the returned value has been tried and is
  invalid.
- `proof_of_work` returns only the proof, not an attempt count or elapsed time.

## Model

| member | source | states |
|---|---|---|
| `Chain.Genesis` | src/blockchain.rs:39-46 | a fresh ledger has exactly one block. That block has index 0, proof 0, previous hash "0" and no transactions. The pending buffer is empty, and the chain is well-formed under every hash function |
| `Chain.Seal` | src/blockchain.rs:48-57 | sealing grows the chain by exactly one and leaves the earlier blocks unchanged. The new block has index equal to the old length and carries exactly the old pending buffer, in order, with the given proof, previous hash and timestamp. The buffer is left empty, and an indexed chain stays indexed |
| `Chain.Submit` | src/blockchain.rs:61-62 | a submission appends one transaction at the end of the pending buffer. The existing entries and the chain are unchanged |
| `Chain.LastBlock` | src/blockchain.rs:111-113 | the tip is absent exactly when the chain is empty; otherwise it is the last block |
| `Chain.SubmitAllQueues` | src/blockchain.rs:61-62 | any number of submissions leave the chain unchanged and queue the transactions in submission order |
| `Chain.SubmitThenSeal` | src/blockchain.rs:48-62 | transactions submitted to an empty buffer and then sealed form the new block's transaction list, in order. The buffer is empty again and the chain grew by one |
| `Chain.SealKeepsLinked` | src/blockchain.rs:66-74 | sealing on a previous hash equal to the tip's hash keeps a chain that is both indexed and linked that way |
| `Pow.ValidProof` | src/blockchain.rs:105-109 | a proof is valid exactly when every one of the first `difficulty` digest bytes is zero. It requires `difficulty <= 32`, because the slice panics beyond that |
| `Pow.DifficultyZeroAcceptsAll` | src/blockchain.rs:105-109 | at difficulty 0 every proof is valid |
| `Pow.ValidAtLowerDifficulty` | src/blockchain.rs:108 | a proof valid at one difficulty is valid at every lower difficulty |
| `Pow.Search` | src/blockchain.rs:76-103 | the search result from a start candidate is at most 1,000,000. Every candidate between the start and the result is invalid. The result is valid, or is the cap, or follows an attempt after which the time ran out |
| `Pow.ProofOfWork` | src/blockchain.rs:76-103 | the loop returns the search result, a value in [0, 1,000,000] below which no candidate is valid. So a valid result is the least valid proof |
| `Pow.SearchFindsFirst` | src/blockchain.rs:83-88 | with no timeout before it, the least valid candidate under the cap is exactly the result |
| `Pow.SearchExhausts` | src/blockchain.rs:83-102 | with no valid candidate under the cap and no timeout, the result is the cap, 1,000,000 |
| `Pow.SearchSucceedsBelowCap` | src/blockchain.rs:83-88 | without a timeout, a result below the cap is a valid proof |
| `Pow.SearchAtDifficultyZero` | src/blockchain.rs:83-88 | at difficulty 0 the search returns 0 |
| `Pow.CapResultMayBeInvalid` | src/blockchain.rs:99-102 | the cap path can return an invalid proof: with a digest that is never zero, difficulty 1 and no timeout, the result is 1,000,000 and it is invalid |
| `Pow.TimeoutResultMayBeInvalid` | src/blockchain.rs:89-98 | the timeout path returns the next, untried candidate, which can be invalid: a timeout after attempt 0 returns 1 and it is invalid |
| `Ledger.Mine` | src/blockchain.rs:66-74 | mining appends one block at the next index and leaves the earlier blocks unchanged. The new block carries the old buffer, names the hash of the old tip, and has as its proof the search result against the old tip, which is at most 1,000,000. A well-formed chain stays well-formed |
| `Ledger.SubmitThenMine` | src/blockchain.rs:61-74 | transactions submitted to an empty buffer and then mined land in the new block in order, and the buffer is empty again. The chain grows by one. When the search ends below the cap without a timeout, the new proof is valid for the old tip |
| `Ledger.Blockchain.constructor` | src/blockchain.rs:39-46 | `new` yields the genesis ledger |
| `Ledger.Blockchain.AddBlock` | src/blockchain.rs:48-57 | the new state is the old state with the pending buffer sealed into a new last block |
| `Ledger.Blockchain.AddTransaction` | src/blockchain.rs:61-62 | the new state is the old state with the transaction appended to the pending buffer |
| `Ledger.Blockchain.MineBlock` | src/blockchain.rs:66-74 | requires a non-empty chain, because of the `unwrap` of the tip, and a difficulty of at most 32, because `valid_proof` panics beyond that (see Left out). The new state is the mined ledger |
| `P2P.React` | src/p2p.rs:92-122 | the chain never shrinks. `NewBlock` is appended, and re-broadcast, exactly when its index is the chain length and its previous hash is the tip's hash. Otherwise nothing changes and nothing is sent. `NewTransaction` is always queued, with no deduplication, and always re-broadcast, and the chain is unchanged. `RequestChain` changes nothing and sends `SendChain` with a copy of the ledger. `SendChain` replaces the ledger wholesale exactly when the pushed chain is strictly longer, so the new length is the larger of the two; it is never re-broadcast. A well-formed chain stays well-formed unless a malformed chain is adopted |
| `P2P.AppendKeepsWellFormed` | src/p2p.rs:96-97 | appending an accepted block keeps the index and hash-linkage invariants |
| `P2P.Replay` | src/p2p.rs:67-90 | over any sequence of reads, the receive loop never shortens the chain |
| `P2P.ReplayStopsAtEnd` | src/p2p.rs:72-87 | once a zero-length read or a read error ends the loop, later reads have no effect on the ledger or on what is re-broadcast, and the connection counts as closed |
| `P2P.ReplaySkipsUndecodable` | src/p2p.rs:78-81 | an undecodable read changes neither the final ledger, nor the messages re-broadcast, nor whether the connection ends |
| `P2P.ClosesSkipsUndecodable` | src/p2p.rs:78-81 | an undecodable read does not end the connection |
| `P2P.ReplayKeepsWellFormed` | src/p2p.rs:114-119 | a well-formed ledger stays well-formed through a receive loop unless a malformed chain is pushed to it |
| `P2P.P2PNetwork.constructor` | src/p2p.rs:28-33 | given a seeded (non-empty) ledger, a new network node shares that ledger, has no peers, has sent nothing and satisfies its invariant |
| `P2P.P2PNetwork.ConnectToPeer` | src/p2p.rs:52-65 | the address joins the peer set when the connection succeeds. A failed connection changes nothing |
| `P2P.P2PNetwork.Broadcast` | src/p2p.rs:124-132 | the message is written exactly once to each known peer and to nothing else. Earlier output is unchanged |
| `P2P.P2PNetwork.BroadcastTransaction` | src/p2p.rs:134-136 | the transaction goes to every peer |
| `P2P.P2PNetwork.BroadcastBlock` | src/p2p.rs:138-140 | the block goes to every peer |
| `P2P.P2PNetwork.HandleMessage` | src/p2p.rs:92-122 | the ledger changes in place exactly as `React` says. The re-broadcast, if any, goes out once to each peer. The ledger stays non-empty |
| `P2P.ReadReaction` | src/p2p.rs:78-82 | a read that is not an end never shortens the chain. An undecodable read changes nothing and sends nothing |
| `P2P.ReplayEnds` | src/p2p.rs:73-77 | a zero-length read or a read error ends the loop: whatever follows leaves the ledger as it is and re-broadcasts nothing |
| `P2P.ReplayContinues` | src/p2p.rs:78-82 | any other read applies its reaction, adds that reaction's re-broadcast to those made so far, and the loop goes on with the next read |
| `P2P.ClosesStep` | src/p2p.rs:70-89 | after reads without an end, the next read either closes the connection or leaves it open one read further |
| `P2P.BroadcastsAppend` | src/p2p.rs:124-132 | a run of broadcasts to a fixed peer set, followed by one more broadcast to the same set, is a run of broadcasts of the messages in that order |
| `P2P.EmittedExtendsRun` | src/p2p.rs:92-132 | what one `handle_message` writes extends the outbox, leaves what was there, and extends the run of re-broadcasts by the message it sends, if any |
| `P2P.P2PNetwork.Receive` | src/p2p.rs:72-87 | one read: a zero-length read or a read error removes the peer and stops the loop; a decoded message is handled as `React` says, with its re-broadcast going once to each peer; an undecodable read changes nothing |
| `P2P.P2PNetwork.HandleConnection` | src/p2p.rs:67-90 | the ledger ends as `Replay` of the reads. The peer is in the set while the connection is open: it is removed on a zero-length read or a read error and kept otherwise. Earlier output is unchanged. The new output is exactly the re-broadcasts `ReplayBroadcasts` names, in order, each written once to every peer of the set that includes this peer. Undecodable reads change nothing and send nothing |

## Left out

- TCP and tokio plumbing: `start`, `accept`, `connect`, `read`, `write_all` and the 1024-byte read buffer. A socket read becomes a `ReadEvent`. JSON decoding becomes the `Option<Message>` inside it. A connection attempt becomes a boolean outcome.
- Broadcast delivery: an `Envelope` in `sent` stands for one attempted connect-and-write to a peer. Whether that write reaches the peer, which the source ignores, is not modelled.
- Concurrency: the mutexes, lock-release ordering, spawned tasks, and peers joining or leaving during a broadcast. Each `HandleMessage` is one atomic step, and each receive loop runs as one call.
- SHA-256, hex encoding and serde serialisation: function parameters, as described above.
- Clock reads: timestamps are parameters. The 30-second timeout is the `timedOut` oracle.
- Logging, including the progress message every 100,000 attempts.
- `src/network.rs` (the HTTP routes), `src/main.rs` (CLI and start-up) and `src/storage.rs` (saving and loading the JSON snapshot) are not part of this model.
- Loading a snapshot could yield an empty chain. `P2PNetwork.Valid()` assumes the ledger is non-empty, which `new` guarantees and every transition keeps. The panic of a `NewBlock` at index 0 reaching an empty chain is ruled out by the requires of `React`, not modelled.
- Ledger.Blockchain.MineBlock: requires a difficulty of at most 32. The HTTP route `/mine/<n>` (src/network.rs:37) passes any `n` to `mine_block`, and for `n` above 32 the slice of the 32-byte digest in `valid_proof` (src/blockchain.rs:108) panics. That panic is not modelled.
- Block indices (`usize`) are unbounded `nat`s. Overflow of the chain length is not modelled. Proofs and amounts are 64-bit, and the search never comes near overflow.
