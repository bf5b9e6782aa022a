/** The proof-of-work puzzle: a candidate proof is valid when the digest of
    (tip proof, tip hash, candidate) starts with `difficulty` zero bytes, and
    the search tries 0, 1, 2, ... under an attempt cap and a timeout. */
module Pow {
  import opened Chain

  /** The cap on attempts of one search. */
  const MaxAttempts: nat := 1_000_000

  /** The number of bytes in a digest; a larger difficulty would slice past
      the end of it. */
  const DigestLength: nat := 32

  /** `valid_proof`: the first `difficulty` bytes of the digest are all zero. */
  function ValidProof(tip: Block, proof: u64, difficulty: nat, hash: BlockHasher, digest: PowHasher): (ok: bool)
    requires difficulty <= DigestLength
    ensures ok <==> forall i :: 0 <= i < difficulty ==> digest(tip.proof, hash(tip), proof)[i] == 0
  {
    digest(tip.proof, hash(tip), proof)[..difficulty] == seq(difficulty, _ => 0)
  }

  /** Difficulty 0 asks for nothing: every proof is valid. */
  lemma DifficultyZeroAcceptsAll(tip: Block, proof: u64, hash: BlockHasher, digest: PowHasher)
    ensures ValidProof(tip, proof, 0, hash, digest)
  {
  }

  /** A proof valid at some difficulty is valid at every lower one. */
  lemma ValidAtLowerDifficulty(tip: Block, proof: u64, d: nat, e: nat, hash: BlockHasher, digest: PowHasher)
    requires e <= d <= DigestLength
    requires ValidProof(tip, proof, d, hash, digest)
    ensures ValidProof(tip, proof, e, hash, digest)
  {
  }

  /** What the search loop returns when it starts at candidate `attempt`
      (the candidate tried at attempt n is n). `timedOut(n)` is whether the
      clock reads more than 30 seconds after attempt n failed; the loop then
      returns the next, untried, candidate. When every attempt has failed the
      loop returns `MaxAttempts`, again untried. Every candidate below the
      result has been tried and found invalid. */
  function Search(tip: Block, difficulty: nat, hash: BlockHasher, digest: PowHasher,
                  timedOut: nat -> bool, attempt: nat): (r: nat)
    requires difficulty <= DigestLength && attempt <= MaxAttempts
    ensures attempt <= r <= MaxAttempts
    ensures forall p: u64 :: attempt <= p as nat < r ==> !ValidProof(tip, p, difficulty, hash, digest)
    ensures r == MaxAttempts || ValidProof(tip, r as u64, difficulty, hash, digest) || (attempt < r && timedOut(r - 1))
    decreases MaxAttempts - attempt
  {
    if attempt == MaxAttempts then MaxAttempts
    else if ValidProof(tip, attempt as u64, difficulty, hash, digest) then attempt
    else if timedOut(attempt) then attempt + 1
    else Search(tip, difficulty, hash, digest, timedOut, attempt + 1)
  }

  /** `proof_of_work`: the linear search over candidates. */
  method ProofOfWork(tip: Block, difficulty: nat, hash: BlockHasher, digest: PowHasher, timedOut: nat -> bool)
    returns (proof: u64)
    requires difficulty <= DigestLength
    ensures proof as nat == Search(tip, difficulty, hash, digest, timedOut, 0)
    ensures proof as nat <= MaxAttempts
    ensures forall p: u64 :: p < proof ==> !ValidProof(tip, p, difficulty, hash, digest)
  {
    proof := 0;
    for attempt := 0 to MaxAttempts
      invariant proof as nat == attempt
      invariant Search(tip, difficulty, hash, digest, timedOut, attempt) == Search(tip, difficulty, hash, digest, timedOut, 0)
    {
      if ValidProof(tip, proof, difficulty, hash, digest) {
        return;
      }
      proof := proof + 1;
      if timedOut(attempt) {
        return;
      }
    }
  }

  /** Without a timeout before it, the first valid candidate under the cap is
      exactly what the search returns. */
  lemma SearchFindsFirst(tip: Block, difficulty: nat, hash: BlockHasher, digest: PowHasher,
                         timedOut: nat -> bool, attempt: nat, p: nat)
    requires difficulty <= DigestLength && attempt <= p < MaxAttempts
    requires ValidProof(tip, p as u64, difficulty, hash, digest)
    requires forall q: u64 :: attempt <= q as nat < p ==> !ValidProof(tip, q, difficulty, hash, digest)
    requires forall n :: attempt <= n < p ==> !timedOut(n)
    ensures Search(tip, difficulty, hash, digest, timedOut, attempt) == p
  {
  }

  /** Without a timeout and without a valid candidate under the cap, the
      search gives up and returns the cap. */
  lemma SearchExhausts(tip: Block, difficulty: nat, hash: BlockHasher, digest: PowHasher,
                       timedOut: nat -> bool, attempt: nat)
    requires difficulty <= DigestLength && attempt <= MaxAttempts
    requires forall q: u64 :: attempt <= q as nat < MaxAttempts ==> !ValidProof(tip, q, difficulty, hash, digest)
    requires forall n :: attempt <= n < MaxAttempts ==> !timedOut(n)
    ensures Search(tip, difficulty, hash, digest, timedOut, attempt) == MaxAttempts
  {
  }

  /** Without a timeout, a result below the cap is a valid proof, and so the
      least valid one. */
  lemma SearchSucceedsBelowCap(tip: Block, difficulty: nat, hash: BlockHasher, digest: PowHasher, timedOut: nat -> bool)
    requires difficulty <= DigestLength
    requires forall n :: !timedOut(n)
    ensures var r := Search(tip, difficulty, hash, digest, timedOut, 0);
      r < MaxAttempts ==> ValidProof(tip, r as u64, difficulty, hash, digest)
  {
  }

  /** At difficulty 0 the search stops at candidate 0. */
  lemma SearchAtDifficultyZero(tip: Block, hash: BlockHasher, digest: PowHasher, timedOut: nat -> bool)
    ensures Search(tip, 0, hash, digest, timedOut, 0) == 0
  {
    DifficultyZeroAcceptsAll(tip, 0, hash, digest);
  }

  /** The capped result need not be valid: with a digest that is never zero,
      no timeout and difficulty 1 the search returns the cap, which fails the
      puzzle. */
  lemma CapResultMayBeInvalid(tip: Block, hash: BlockHasher)
    ensures var digest: PowHasher := (_, _, _) => seq(32, _ => 1);
      var r := Search(tip, 1, hash, digest, _ => false, 0);
      r == MaxAttempts && !ValidProof(tip, r as u64, 1, hash, digest)
  {
    var digest: PowHasher := (_, _, _) => seq(32, _ => 1);
    forall q: u64 | 0 <= q as nat < MaxAttempts
      ensures !ValidProof(tip, q, 1, hash, digest)
    {
      assert digest(tip.proof, hash(tip), q)[0] == 1;
    }
    SearchExhausts(tip, 1, hash, digest, _ => false, 0);
    assert digest(tip.proof, hash(tip), MaxAttempts as u64)[0] == 1;
  }

  /** A timeout can also hand back an untried, invalid candidate: with a
      digest that is never zero and a clock that runs out after the first
      attempt, the result is 1. */
  lemma TimeoutResultMayBeInvalid(tip: Block, hash: BlockHasher)
    ensures var digest: PowHasher := (_, _, _) => seq(32, _ => 1);
      var r := Search(tip, 1, hash, digest, _ => true, 0);
      r == 1 && !ValidProof(tip, r as u64, 1, hash, digest)
  {
    var digest: PowHasher := (_, _, _) => seq(32, _ => 1);
    assert digest(tip.proof, hash(tip), 0)[0] == 1;
    assert digest(tip.proof, hash(tip), 1)[0] == 1;
  }
}
