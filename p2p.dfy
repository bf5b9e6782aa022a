/** Replication between peers: the message protocol as a transition on the
    ledger's value, and the network node that applies inbound messages,
    keeps the peer set and emits broadcasts. */
module P2P {
  import opened Chain
  import opened Ledger

  newtype u16 = x: int | 0 <= x < 0x1_0000

  /** A socket address: IP octets and a port. */
  datatype Addr = Addr(ip: seq<byte>, port: u16)

  /** The four messages peers exchange. */
  datatype Message =
    | NewBlock(block: Block)
    | NewTransaction(transaction: Transaction)
    | RequestChain
    | SendChain(ledger: LedgerState)

  /** One message written to one peer by a broadcast. */
  datatype Envelope = Envelope(to: Addr, message: Message)

  /** What one read from a peer's socket yields: `n > 0` bytes, decoded to a
      message or not decodable (`None`); zero bytes (the peer hung up); or
      a read error. */
  datatype ReadEvent = Data(parsed: Option<Message>) | Eof | ReadError

  /** The effect of one inbound message: the new ledger value and the
      message re-broadcast to every peer, if any. */
  datatype Reaction = Reaction(ledger: LedgerState, broadcast: Option<Message>)

  /** A received block extends the local chain: it has the next index and
      names the hash of the tip. The tip is read only when the index
      matches, as the short-circuit test in the source does. */
  predicate Extends(chain: seq<Block>, b: Block, hash: BlockHasher)
    requires b.index == |chain| ==> |chain| > 0
  {
    b.index == |chain| && b.previousHash == hash(LastBlock(chain).value)
  }

  /** `handle_message` on values. The requires is the one input on which the
      source's `unwrap` of the tip panics: a `NewBlock` at index 0 reaching an
      empty chain. */
  function React(l: LedgerState, m: Message, hash: BlockHasher): (r: Reaction)
    requires m.NewBlock? && m.block.index == |l.chain| ==> |l.chain| > 0
    // the chain never gets shorter
    ensures |r.ledger.chain| >= |l.chain|
    // NewBlock: appended exactly when it extends the tip, re-broadcast exactly then
    ensures m.NewBlock? ==> r.ledger.pending == l.pending
    ensures m.NewBlock? && Extends(l.chain, m.block, hash) ==>
      r.ledger.chain == l.chain + [m.block] && r.broadcast == Some(m)
    ensures m.NewBlock? && !Extends(l.chain, m.block, hash) ==> r == Reaction(l, None)
    // NewTransaction: always queued, never deduplicated, always re-broadcast
    ensures m.NewTransaction? ==>
      r.ledger == Submit(l, m.transaction) && r.broadcast == Some(m)
    // RequestChain: nothing changes, a copy of the ledger goes out
    ensures m.RequestChain? ==> r == Reaction(l, Some(SendChain(l)))
    // SendChain: adopted wholesale exactly when strictly longer, never re-broadcast
    ensures m.SendChain? ==> r.broadcast == None
    ensures m.SendChain? ==> (r.ledger == m.ledger <== |m.ledger.chain| > |l.chain|)
    ensures m.SendChain? ==> (r.ledger == l <== |m.ledger.chain| <= |l.chain|)
    ensures m.SendChain? ==>
      |r.ledger.chain| == if |m.ledger.chain| > |l.chain| then |m.ledger.chain| else |l.chain|
    // a well-formed chain stays well-formed, unless a malformed one is adopted
    ensures WellFormed(l.chain, hash) && (m.SendChain? ==> WellFormed(m.ledger.chain, hash)) ==>
      WellFormed(r.ledger.chain, hash)
  {
    match m
    case NewBlock(b) =>
      if Extends(l.chain, b, hash) then
        AppendKeepsWellFormed(l.chain, b, hash);
        Reaction(LedgerState(l.chain + [b], l.pending), Some(NewBlock(b)))
      else
        Reaction(l, None)
    case NewTransaction(t) => Reaction(Submit(l, t), Some(NewTransaction(t)))
    case RequestChain => Reaction(l, Some(SendChain(l)))
    case SendChain(remote) =>
      if |remote.chain| > |l.chain| then Reaction(remote, None) else Reaction(l, None)
  }

  /** Appending a block that extends the tip keeps index and linkage. */
  lemma AppendKeepsWellFormed(chain: seq<Block>, b: Block, hash: BlockHasher)
    requires |chain| > 0 && Extends(chain, b, hash)
    ensures WellFormed(chain, hash) ==> WellFormed(chain + [b], hash)
  {
  }

  /** A read that ends the receive loop. */
  predicate Ends(e: ReadEvent)
  {
    e.Eof? || e.ReadError?
  }

  predicate Closes(events: seq<ReadEvent>)
  {
    exists i :: 0 <= i < |events| && Ends(events[i])
  }

  /** The effect of one read that does not end the loop: a decoded message
      reacts as `React` says, an undecodable read changes nothing. */
  function ReadReaction(l: LedgerState, e: ReadEvent, hash: BlockHasher): (r: Reaction)
    requires |l.chain| > 0
    ensures |r.ledger.chain| >= |l.chain|
    ensures !(e.Data? && e.parsed.Some?) ==> r == Reaction(l, None)
  {
    if e.Data? && e.parsed.Some? then React(l, e.parsed.value, hash) else Reaction(l, None)
  }

  /** The ledger after a receive loop has processed `events`: decoded
      messages are applied in order, undecodable reads are skipped, and the
      first zero-length read or read error ends the loop. */
  function Replay(l: LedgerState, events: seq<ReadEvent>, hash: BlockHasher): (r: LedgerState)
    requires |l.chain| > 0
    ensures |r.chain| >= |l.chain|
    decreases |events|
  {
    if events == [] || Ends(events[0]) then l
    else Replay(ReadReaction(l, events[0], hash).ledger, events[1..], hash)
  }

  /** The messages an optional broadcast contributes to a run. */
  function Sends(b: Option<Message>): (ms: seq<Message>)
    ensures |ms| <= 1
  {
    if b.Some? then [b.value] else []
  }

  /** The messages a receive loop re-broadcasts while it processes
      `events`, in order: one per applied message whose reaction broadcasts,
      none for undecodable reads, and none after the loop ends. */
  function ReplayBroadcasts(l: LedgerState, events: seq<ReadEvent>, hash: BlockHasher): (ms: seq<Message>)
    requires |l.chain| > 0
    decreases |events|
  {
    if events == [] || Ends(events[0]) then []
    else
      var r := ReadReaction(l, events[0], hash);
      Sends(r.broadcast) + ReplayBroadcasts(r.ledger, events[1..], hash)
  }

  /** A read that ends the receive loop leaves the ledger as it is and
      re-broadcasts nothing more, whatever follows it: what the loop has
      done before read `i` is all it does. */
  lemma ReplayEnds(l: LedgerState, events: seq<ReadEvent>, i: nat, emitted: seq<Message>, hash: BlockHasher)
    requires |l.chain| > 0 && i < |events| && Ends(events[i])
    ensures Replay(l, events[i..], hash) == l
    ensures emitted + ReplayBroadcasts(l, events[i..], hash) == emitted
  {
    assert events[i..][0] == events[i];
    assert emitted + [] == emitted;
  }

  /** Any other read reacts as `ReadReaction` says, and the loop goes on
      with the reads after it, having re-broadcast what that reaction
      sends. */
  lemma ReplayContinues(l: LedgerState, events: seq<ReadEvent>, i: nat, emitted: seq<Message>, hash: BlockHasher)
    requires |l.chain| > 0 && i < |events| && !Ends(events[i])
    ensures var r := ReadReaction(l, events[i], hash);
      Replay(l, events[i..], hash) == Replay(r.ledger, events[i + 1..], hash) &&
      emitted + ReplayBroadcasts(l, events[i..], hash)
        == (emitted + Sends(r.broadcast)) + ReplayBroadcasts(r.ledger, events[i + 1..], hash)
  {
    var rest := events[i..];
    assert rest[0] == events[i] && rest[1..] == events[i + 1..];
    ReplayUnfolds(l, rest, hash);
    var r := ReadReaction(l, events[i], hash);
    var tail := ReplayBroadcasts(r.ledger, rest[1..], hash);
    assert emitted + (Sends(r.broadcast) + tail) == (emitted + Sends(r.broadcast)) + tail;
  }

  /** One step of `Replay` and `ReplayBroadcasts` on a read that does not end
      the loop. */
  lemma ReplayUnfolds(l: LedgerState, rest: seq<ReadEvent>, hash: BlockHasher)
    requires |l.chain| > 0 && rest != [] && !Ends(rest[0])
    ensures var r := ReadReaction(l, rest[0], hash);
      Replay(l, rest, hash) == Replay(r.ledger, rest[1..], hash) &&
      ReplayBroadcasts(l, rest, hash) == Sends(r.broadcast) + ReplayBroadcasts(r.ledger, rest[1..], hash)
  {
  }

  /** The loop has read `events[..i]` without an end; reading `events[i]`
      either ends the connection or leaves it open one read further. */
  lemma ClosesStep(events: seq<ReadEvent>, i: nat)
    requires i < |events| && !Closes(events[..i])
    ensures Ends(events[i]) ==> Closes(events)
    ensures !Ends(events[i]) ==> !Closes(events[..i + 1])
  {
    assert events[..i + 1] == events[..i] + [events[i]];
  }

  /** Whatever arrives after the connection ends has no effect. */
  lemma {:induction false} ReplayStopsAtEnd(l: LedgerState, pre: seq<ReadEvent>, e: ReadEvent,
                                            post: seq<ReadEvent>, hash: BlockHasher)
    requires |l.chain| > 0 && Ends(e)
    ensures Replay(l, pre + [e] + post, hash) == Replay(l, pre, hash)
    ensures ReplayBroadcasts(l, pre + [e] + post, hash) == ReplayBroadcasts(l, pre, hash)
    ensures Closes(pre + [e] + post)
    decreases |pre|
  {
    assert (pre + [e] + post)[|pre|] == e;
    if pre == [] {
      assert pre + [e] + post == [e] + post;
    } else {
      assert (pre + [e] + post)[1..] == pre[1..] + [e] + post;
      match pre[0]
      case Eof =>
      case ReadError =>
      case Data(None) => ReplayStopsAtEnd(l, pre[1..], e, post, hash);
      case Data(Some(m)) => ReplayStopsAtEnd(React(l, m, hash).ledger, pre[1..], e, post, hash);
    }
  }

  /** An undecodable read changes neither the ledger, nor what is
      re-broadcast, nor whether the connection ends. */
  lemma {:induction false} ReplaySkipsUndecodable(l: LedgerState, pre: seq<ReadEvent>,
                                                  post: seq<ReadEvent>, hash: BlockHasher)
    requires |l.chain| > 0
    ensures Replay(l, pre + [Data(None)] + post, hash) == Replay(l, pre + post, hash)
    ensures ReplayBroadcasts(l, pre + [Data(None)] + post, hash) == ReplayBroadcasts(l, pre + post, hash)
    ensures Closes(pre + [Data(None)] + post) == Closes(pre + post)
    decreases |pre|
  {
    var with, without := pre + [Data(None)] + post, pre + post;
    ClosesSkipsUndecodable(pre, post);
    if pre == [] {
      assert with[1..] == without;
    } else {
      assert with[0] == without[0] == pre[0];
      assert with[1..] == pre[1..] + [Data(None)] + post;
      assert without[1..] == pre[1..] + post;
      match pre[0]
      case Eof =>
      case ReadError =>
      case Data(None) => ReplaySkipsUndecodable(l, pre[1..], post, hash);
      case Data(Some(m)) => ReplaySkipsUndecodable(React(l, m, hash).ledger, pre[1..], post, hash);
    }
  }

  lemma ClosesSkipsUndecodable(pre: seq<ReadEvent>, post: seq<ReadEvent>)
    ensures Closes(pre + [Data(None)] + post) == Closes(pre + post)
  {
    var with, without := pre + [Data(None)] + post, pre + post;
    if Closes(with) {
      var i :| 0 <= i < |with| && Ends(with[i]);
      if i < |pre| { assert without[i] == with[i]; }
      else { assert without[i - 1] == with[i]; }
    }
    if Closes(without) {
      var i :| 0 <= i < |without| && Ends(without[i]);
      if i < |pre| { assert with[i] == without[i]; }
      else { assert with[i + 1] == without[i]; }
    }
  }

  /** Whether every chain a peer pushes in `events` is well-formed. */
  ghost predicate PushesWellFormed(events: seq<ReadEvent>, hash: BlockHasher)
  {
    forall i :: 0 <= i < |events| && events[i].Data? && events[i].parsed.Some? && events[i].parsed.value.SendChain? ==>
      WellFormed(events[i].parsed.value.ledger.chain, hash)
  }

  /** A well-formed ledger stays well-formed through a receive loop as long
      as no malformed chain is pushed to it: longest-chain adoption is the
      only way in for a broken chain. */
  lemma {:induction false} ReplayKeepsWellFormed(l: LedgerState, events: seq<ReadEvent>, hash: BlockHasher)
    requires |l.chain| > 0 && WellFormed(l.chain, hash) && PushesWellFormed(events, hash)
    ensures WellFormed(Replay(l, events, hash).chain, hash)
    decreases |events|
  {
    if events != [] {
      assert PushesWellFormed(events[1..], hash) by {
        forall i | 0 <= i < |events[1..]| ensures events[1..][i] == events[i + 1] { }
      }
      match events[0]
      case Eof =>
      case ReadError =>
      case Data(None) => ReplayKeepsWellFormed(l, events[1..], hash);
      case Data(Some(m)) => ReplayKeepsWellFormed(React(l, m, hash).ledger, events[1..], hash);
    }
  }

  /** The addresses a sequence of envelopes was written to. */
  function Recipients(es: seq<Envelope>): set<Addr>
    decreases |es|
  {
    if es == [] then {} else Recipients(es[..|es| - 1]) + {es[|es| - 1].to}
  }

  /** `es` writes `m` once to each address in `peers`, and to nothing else. */
  ghost predicate IsBroadcast(es: seq<Envelope>, m: Message, peers: set<Addr>)
  {
    |es| == |peers| && Recipients(es) == peers && forall i :: 0 <= i < |es| ==> es[i].message == m
  }

  /** The outbox went from `before` to `after` by broadcasting `m` to
      `peers`, or stayed as it was when nothing is broadcast. */
  ghost predicate Emitted(before: seq<Envelope>, after: seq<Envelope>, m: Option<Message>, peers: set<Addr>)
  {
    match m
    case None => after == before
    case Some(msg) => |after| >= |before| && after[..|before|] == before && IsBroadcast(after[|before|..], msg, peers)
  }

  /** `es` is a run of broadcasts of `ms` to `peers`, one after another:
      consecutive blocks of `|peers|` envelopes, the k-th block writing
      `ms[k]` once to each peer. */
  ghost predicate Broadcasts(es: seq<Envelope>, ms: seq<Message>, peers: set<Addr>)
    decreases |ms|
  {
    if ms == [] then es == []
    else |es| >= |peers| && IsBroadcast(es[..|peers|], ms[0], peers) && Broadcasts(es[|peers|..], ms[1..], peers)
  }

  /** One more broadcast extends a run of broadcasts. */
  lemma {:induction false} BroadcastsAppend(es: seq<Envelope>, ms: seq<Message>, chunk: seq<Envelope>,
                                            m: Message, peers: set<Addr>)
    requires Broadcasts(es, ms, peers) && IsBroadcast(chunk, m, peers)
    ensures Broadcasts(es + chunk, ms + [m], peers)
    decreases |ms|
  {
    if ms == [] {
      assert es + chunk == chunk && chunk[..|peers|] == chunk && chunk[|peers|..] == [];
      assert (ms + [m])[1..] == [];
    } else {
      BroadcastsAppend(es[|peers|..], ms[1..], chunk, m, peers);
      assert (es + chunk)[..|peers|] == es[..|peers|];
      assert (es + chunk)[|peers|..] == es[|peers|..] + chunk;
      assert (ms + [m])[1..] == ms[1..] + [m];
    }
  }

  /** What one `handle_message` emits extends the run of broadcasts seen so
      far since position `start` of the outbox. */
  lemma EmittedExtendsRun(before: seq<Envelope>, after: seq<Envelope>, start: nat, emitted: seq<Message>,
                          b: Option<Message>, peers: set<Addr>)
    requires start <= |before| && Broadcasts(before[start..], emitted, peers)
    requires Emitted(before, after, b, peers)
    ensures |after| >= |before| && after[..|before|] == before && after[..start] == before[..start]
    ensures Broadcasts(after[start..], emitted + Sends(b), peers)
  {
    if b.Some? {
      assert after[start..] == before[start..] + after[|before|..];
      BroadcastsAppend(before[start..], emitted, after[|before|..], b.value, peers);
    } else {
      assert emitted + Sends(b) == emitted;
    }
  }

  /** `P2PNetwork`: the shared ledger, the set of known peers and, standing
      for the network writes, the record of every envelope sent. */
  class P2PNetwork {
    const blockchain: Blockchain
    var peers: set<Addr>
    var sent: seq<Envelope>

    /** The ledger is seeded with genesis before the network starts, and no
        transition empties it. */
    ghost predicate Valid()
      reads this, blockchain
    {
      |blockchain.chain| > 0
    }

    /** `P2PNetwork::new`: no peers yet. */
    constructor (blockchain: Blockchain)
      requires |blockchain.chain| > 0
      ensures Valid()
      ensures this.blockchain == blockchain && peers == {} && sent == []
    {
      this.blockchain := blockchain;
      peers := {};
      sent := [];
    }

    /** `connect_to_peer`: a peer that accepts the connection is recorded;
        its receive loop is `HandleConnection`. A refused connection changes
        nothing. */
    method ConnectToPeer(addr: Addr, connected: bool)
      modifies this`peers
      ensures peers == if connected then old(peers) + {addr} else old(peers)
    {
      if connected {
        peers := peers + {addr};
      }
    }

    /** `broadcast_message`: write `m` to every known peer, in the set's
        (unspecified) order. */
    method Broadcast(m: Message)
      modifies this`sent
      ensures Emitted(old(sent), sent, Some(m), peers)
    {
      var remaining := peers;
      var out: seq<Envelope> := [];
      ghost var done: set<Addr> := {};
      while remaining != {}
        invariant remaining + done == peers && remaining !! done
        invariant |out| == |done| && Recipients(out) == done
        invariant forall i :: 0 <= i < |out| ==> out[i].message == m
        decreases |remaining|
      {
        var peer :| peer in remaining;
        assert (out + [Envelope(peer, m)])[..|out|] == out;
        out := out + [Envelope(peer, m)];
        remaining := remaining - {peer};
        done := done + {peer};
      }
      sent := sent + out;
      assert sent[|old(sent)|..] == out;
    }

    /** `broadcast_transaction`, called after a local submission. */
    method BroadcastTransaction(t: Transaction)
      modifies this`sent
      ensures Emitted(old(sent), sent, Some(NewTransaction(t)), peers)
    {
      Broadcast(NewTransaction(t));
    }

    /** `broadcast_block`, called after local mining. */
    method BroadcastBlock(b: Block)
      modifies this`sent
      ensures Emitted(old(sent), sent, Some(NewBlock(b)), peers)
    {
      Broadcast(NewBlock(b));
    }

    /** `handle_message`: apply one inbound message to the ledger in place,
        as one atomic step, and re-broadcast where the protocol says so. */
    method HandleMessage(m: Message)
      requires Valid()
      modifies this`sent, blockchain
      ensures Valid()
      ensures blockchain.State() == React(old(blockchain.State()), m, blockchain.hash).ledger
      ensures Emitted(old(sent), sent, React(old(blockchain.State()), m, blockchain.hash).broadcast, peers)
    {
      match m
      case NewBlock(block) =>
        if block.index == |blockchain.chain| && block.previousHash == blockchain.hash(LastBlock(blockchain.chain).value) {
          blockchain.chain := blockchain.chain + [block];
          Broadcast(NewBlock(block));
        }
      case NewTransaction(transaction) =>
        blockchain.AddTransaction(transaction.sender, transaction.receiver, transaction.amount);
        Broadcast(NewTransaction(transaction));
      case RequestChain =>
        Broadcast(SendChain(blockchain.State()));
      case SendChain(newChain) =>
        if |newChain.chain| > |blockchain.chain| {
          blockchain.chain, blockchain.pending := newChain.chain, newChain.pending;
        }
    }

    /** One read of `handle_connection`'s loop: on a zero-length read or a
        read error the peer leaves the set and the loop stops; a decoded
        message is handled; an undecodable read is ignored. */
    method Receive(addr: Addr, e: ReadEvent) returns (keepReading: bool)
      requires Valid()
      modifies this, blockchain
      ensures Valid()
      ensures keepReading == !Ends(e)
      ensures peers == if Ends(e) then old(peers) - {addr} else old(peers)
      ensures blockchain.State() == ReadReaction(old(blockchain.State()), e, blockchain.hash).ledger
      ensures Emitted(old(sent), sent, ReadReaction(old(blockchain.State()), e, blockchain.hash).broadcast, old(peers))
    {
      keepReading := true;
      match e
      case Eof =>
        peers := peers - {addr};
        keepReading := false;
      case ReadError =>
        peers := peers - {addr};
        keepReading := false;
      case Data(parsed) =>
        if parsed.Some? {
          HandleMessage(parsed.value);
        }
    }

    /** `handle_connection`: register the peer, then process reads until the
        peer hangs up or a read fails, which removes it again. `events` is
        what the socket yields, in order; when it runs out without an end,
        the connection is still open. Every re-broadcast made while the
        connection is open goes to the peer set with this peer in it. */
    method HandleConnection(addr: Addr, events: seq<ReadEvent>)
      requires Valid()
      modifies this, blockchain
      ensures Valid()
      ensures blockchain.State() == Replay(old(blockchain.State()), events, blockchain.hash)
      ensures peers == if Closes(events) then old(peers) - {addr} else old(peers) + {addr}
      ensures |sent| >= |old(sent)| && sent[..|old(sent)|] == old(sent)
      ensures Broadcasts(sent[|old(sent)|..], ReplayBroadcasts(old(blockchain.State()), events, blockchain.hash), old(peers) + {addr})
    {
      peers := peers + {addr};
      ghost var open, start, hash := peers, |sent|, blockchain.hash;
      ghost var ledger := Replay(old(blockchain.State()), events, hash);
      ghost var rebroadcast := ReplayBroadcasts(old(blockchain.State()), events, hash);
      ghost var emitted: seq<Message> := [];
      assert sent[start..] == [];
      var i := 0;
      while i < |events|
        invariant 0 <= i <= |events|
        invariant Valid()
        invariant !Closes(events[..i])
        invariant peers == open
        invariant Replay(blockchain.State(), events[i..], hash) == ledger
        invariant emitted + ReplayBroadcasts(blockchain.State(), events[i..], hash) == rebroadcast
        invariant |sent| >= start && sent[..start] == old(sent)
        invariant Broadcasts(sent[start..], emitted, open)
      {
        ghost var l, before := blockchain.State(), sent;
        var keepReading := Receive(addr, events[i]);
        if !keepReading {
          ReplayEnds(l, events, i, emitted, hash);
          ClosesStep(events, i);
          return;
        }
        ReplayContinues(l, events, i, emitted, hash);
        ghost var b := ReadReaction(l, events[i], hash).broadcast;
        EmittedExtendsRun(before, sent, start, emitted, b, open);
        emitted := emitted + Sends(b);
        ClosesStep(events, i);
        i := i + 1;
      }
      assert events[..i] == events && events[i..] == [] && emitted + [] == emitted;
    }
  }
}
