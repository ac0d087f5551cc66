/**
 High-bandwidth compact-block slots (BIP 152): fillers pick candidates from a stale
 snapshot, re-check under the lock, send outside it and roll back on failure, while
 peers are revoked and leave at any moment.
 */
module HighBandwidth {
  import opened Prelude
  import opened Sorting

  const MAX_HIGH_BANDWIDTH_PEERS := 3

  type Peer = nat

  datatype PeerState = PeerState(handshakeComplete: bool, highBandwidth: bool)

  type Peers = map<Peer, PeerState>

  function Holders(peers: Peers): set<Peer> {
    set p | p in peers && peers[p].highBandwidth
  }

  function Open(peers: Peers): set<Peer> {
    set p | p in peers && peers[p].handshakeComplete && !peers[p].highBandwidth
  }

  predicate ByAddress(a: Peer, b: Peer) {
    a <= b
  }

  function SortedOpen(peers: Peers, order: seq<Peer>): seq<Peer> {
    Sort(ByAddress, Filter(p => p in Open(peers), order))
  }

  /** The open peers with the least addresses, up to the free slots, whatever order the map iterates in. */
  function Candidates(peers: Peers, order: seq<Peer>): (c: seq<Peer>) {
    var room := SatSub(MAX_HIGH_BANDWIDTH_PEERS, |Holders(peers)|);
    var open := SortedOpen(peers, order);
    if |open| <= room then open else open[..room]
  }

  lemma SortedOpenIsOpen(peers: Peers, order: seq<Peer>)
    requires Enumerates(order, peers.Keys)
    ensures Enumerates(SortedOpen(peers, order), Open(peers)) && Sorted(ByAddress, SortedOpen(peers, order))
  {
    var picked := Filter(p => p in Open(peers), order);
    FilterKeepsDistinct(p => p in Open(peers), order);
    SortKeepsDistinct(ByAddress, picked);
    SortKeepsElements(ByAddress, picked);
    SortSorted(ByAddress, picked);
  }

  /** Exactly as many candidates as there are free slots or open peers, each open, least addresses first. */
  lemma CandidatesAreLeastOpen(peers: Peers, order: seq<Peer>)
    requires Enumerates(order, peers.Keys)
    ensures var c := Candidates(peers, order);
            && |c| == Min(SatSub(MAX_HIGH_BANDWIDTH_PEERS, |Holders(peers)|), |Open(peers)|)
            && Distinct(c) && (forall i :: 0 <= i < |c| ==> c[i] in Open(peers))
            && (forall p, i :: p in Open(peers) && p !in c && 0 <= i < |c| ==> c[i] <= p)
  {
    SortedOpenIsOpen(peers, order);
    var open := SortedOpen(peers, order);
    DistinctHasSetSize(open, Open(peers));
    var c := Candidates(peers, order);
    assert forall m :: 0 <= m < |c| ==> c[m] == open[m];
    forall p, i | p in Open(peers) && p !in c && 0 <= i < |c| ensures c[i] <= p {
      var j :| 0 <= j < |open| && open[j] == p;
      assert ByAddress(open[i], open[j]);
    }
  }

  // ---------------------------------------------------------------------------
  // One filler on its own
  // ---------------------------------------------------------------------------

  class PeerTable {
    var peers: Peers

    method TakeSlot(peer: Peer) returns (took: bool)
      modifies this
      ensures took == CanTake(old(peers), peer)
      ensures peers == if took then SetSlot(old(peers), peer, true) else old(peers)
    {
      if |Holders(peers)| < MAX_HIGH_BANDWIDTH_PEERS && peer in peers
         && peers[peer].handshakeComplete && !peers[peer].highBandwidth {
        peers := peers[peer := peers[peer].(highBandwidth := true)];
        return true;
      }
      took := false;
    }

    method ClearSlot(peer: Peer)
      modifies this
      ensures peers == SetSlot(old(peers), peer, false)
    {
      if peer in peers {
        peers := peers[peer := peers[peer].(highBandwidth := false)];
      }
    }

    /** `revoke_high_bandwidth_peer` under the lock; the peer is told only if it had the slot. */
    method RevokeSlot(peer: Peer) returns (leave: bool)
      modifies this
      ensures leave == (peer in old(Holders(peers)))
      ensures peers == if leave then SetSlot(old(peers), peer, false) else old(peers)
    {
      leave := peer in peers && peers[peer].highBandwidth;
      if leave {
        peers := peers[peer := peers[peer].(highBandwidth := false)];
      }
    }

    method FillFrom(c: seq<Peer>, sendOk: Peer -> bool)
      requires Offerable(peers, c)
      modifies this
      ensures peers == Filled(old(peers), c, sendOk, |c|)
    {
      var i := 0;
      while i < |c|
        invariant 0 <= i <= |c|
        invariant peers == Filled(old(peers), c, sendOk, i)
      {
        NextCanTake(old(peers), c, sendOk, i);
        var took := TakeSlot(c[i]);
        if took && !sendOk(c[i]) {
          ClearSlot(c[i]);
        }
        i := i + 1;
      }
    }

    /** `fill_high_bandwidth_slots` without interference: every candidate that could be told holds a slot. */
    method FillHighBandwidthSlots(order: seq<Peer>, sendOk: Peer -> bool)
      requires Enumerates(order, peers.Keys)
      modifies this
      ensures FillInv(old(peers), peers, Candidates(old(peers), order), sendOk)
    {
      var c := Candidates(peers, order);
      CandidatesAreLeastOpen(peers, order);
      FilledHolds(peers, c, sendOk, |c|);
      assert c[..|c|] == c;
      FillFrom(c, sendOk);
    }
  }

  /** The slots after the first `n` candidates were offered one. */
  function Filled(peers: Peers, c: seq<Peer>, sendOk: Peer -> bool, n: nat): Peers
    requires n <= |c|
  {
    if n == 0 then peers else SetSlot(Filled(peers, c, sendOk, n - 1), c[n - 1], sendOk(c[n - 1]))
  }

  /** The candidates are open peers, each listed once, and fit in the free slots. */
  ghost predicate Offerable(peers: Peers, c: seq<Peer>) {
    && (c == [] || |Holders(peers)| + |c| <= MAX_HIGH_BANDWIDTH_PEERS)
    && Distinct(c) && (forall i :: 0 <= i < |c| ==> c[i] in Open(peers))
  }

  lemma NextCanTake(before: Peers, c: seq<Peer>, sendOk: Peer -> bool, i: nat)
    requires i < |c| && Offerable(before, c)
    ensures CanTake(Filled(before, c, sendOk, i), c[i])
  {
    FilledHolds(before, c, sendOk, i);
    OfferedNext(before, Filled(before, c, sendOk, i), c, i, sendOk);
  }

  lemma {:induction false} FilledHolds(before: Peers, c: seq<Peer>, sendOk: Peer -> bool, n: nat)
    requires n <= |c| && Offerable(before, c)
    ensures FillInv(before, Filled(before, c, sendOk, n), c[..n], sendOk)
  {
    if n > 0 {
      FilledHolds(before, c, sendOk, n - 1);
      OfferedNext(before, Filled(before, c, sendOk, n - 1), c, n - 1, sendOk);
      FillStep(before, Filled(before, c, sendOk, n - 1), c, n - 1, sendOk);
    }
  }

  /** After the listed candidates, exactly the ones that were told hold a new slot. */
  ghost predicate FillInv(before: Peers, peers: Peers, c: seq<Peer>, sendOk: Peer -> bool) {
    && peers.Keys == before.Keys
    && Holders(peers) == Holders(before) + Told(c, sendOk)
    && (forall p :: p in peers ==> peers[p].handshakeComplete == before[p].handshakeComplete)
  }

  lemma OfferedNext(before: Peers, peers: Peers, c: seq<Peer>, i: nat, sendOk: Peer -> bool)
    requires i < |c| && FillInv(before, peers, c[..i], sendOk) && Offerable(before, c)
    ensures CanTake(peers, c[i])
  {
    ToldIsSmall(c[..i], sendOk);
    assert |Holders(peers)| <= |Holders(before)| + |Told(c[..i], sendOk)|;
    assert c[i] in Open(before) && c[i] !in c[..i];
    assert c[i] !in Holders(peers) && c[i] in peers;
  }

  lemma HoldersAfterOffer(peers: Peers, p: Peer, ok: bool)
    requires CanTake(peers, p)
    ensures Holders(SetSlot(peers, p, ok)) == Holders(peers) + if ok then {p} else {}
  {
  }

  lemma UnionStep(held: set<Peer>, told: set<Peer>, added: set<Peer>)
    ensures held + told + added == held + (told + added)
  {
  }

  lemma FillStep(before: Peers, peers: Peers, c: seq<Peer>, i: nat, sendOk: Peer -> bool)
    requires i < |c| && FillInv(before, peers, c[..i], sendOk) && CanTake(peers, c[i])
    ensures FillInv(before, SetSlot(peers, c[i], sendOk(c[i])), c[..i + 1], sendOk)
  {
    var p, ok := c[i], sendOk(c[i]);
    assert Holders(SetSlot(peers, p, ok)) == Holders(before) + Told(c[..i + 1], sendOk) by {
      HoldersAfterOffer(peers, p, ok);
      ToldSnoc(c, i, sendOk);
      UnionStep(Holders(before), Told(c[..i], sendOk), if ok then {p} else {});
    }
  }

  ghost function Told(c: seq<Peer>, sendOk: Peer -> bool): set<Peer> {
    set p | p in c && sendOk(p)
  }

  lemma ToldSnoc(c: seq<Peer>, i: nat, sendOk: Peer -> bool)
    requires i < |c|
    ensures Told(c[..i + 1], sendOk) == Told(c[..i], sendOk) + if sendOk(c[i]) then {c[i]} else {}
  {
    assert c[..i + 1] == c[..i] + [c[i]];
  }

  lemma {:induction false} ToldIsSmall(c: seq<Peer>, sendOk: Peer -> bool)
    ensures |Told(c, sendOk)| <= |c|
  {
    if c != [] {
      ToldIsSmall(c[..|c| - 1], sendOk);
      assert Told(c, sendOk) <= Told(c[..|c| - 1], sendOk) + {c[|c| - 1]};
      SubsetSize(Told(c, sendOk), Told(c[..|c| - 1], sendOk) + {c[|c| - 1]});
    }
  }

  // ---------------------------------------------------------------------------
  // Every interleaving
  // ---------------------------------------------------------------------------

  predicate CanTake(peers: Peers, p: Peer) {
    |Holders(peers)| < MAX_HIGH_BANDWIDTH_PEERS && p in peers && peers[p].handshakeComplete && !peers[p].highBandwidth
  }

  function SetSlot(peers: Peers, p: Peer, slot: bool): Peers {
    if p in peers then peers[p := peers[p].(highBandwidth := slot)] else peers
  }

  /** Where a filler stands: looking at its stale list, sending, or about to roll back. */
  datatype Filler = Trying(todo: seq<Peer>) | Sending(peer: Peer, todo: seq<Peer>) | Undoing(peer: Peer, todo: seq<Peer>)

  /** `asked` are the connected peers whose last delivered message asked for high bandwidth. */
  datatype Net = Net(peers: Peers, fillers: map<nat, Filler>, revoking: map<nat, Peer>, asked: set<Peer>)

  datatype Op =
    | Start(t: nat, order: seq<Peer>) | Try(t: nat) | SendOk(t: nat) | SendFailed(t: nat) | Undo(t: nat)
    | Revoke(t: nat, p: Peer) | RevokeSent(t: nat, ok: bool)
    | Join(p: Peer) | Handshake(p: Peer) | Leave(p: Peer)

  function Step(s: Net, op: Op): Net {
    match op
    case Start(t, order) =>
      if t in s.fillers then s else s.(fillers := s.fillers[t := Trying(Candidates(s.peers, order))])
    case Try(t) =>
      if t !in s.fillers || !s.fillers[t].Trying? then s
      else
        var todo := s.fillers[t].todo;
        if todo == [] then s.(fillers := s.fillers - {t})
        else if CanTake(s.peers, todo[0]) then
          s.(peers := SetSlot(s.peers, todo[0], true), fillers := s.fillers[t := Sending(todo[0], todo[1..])])
        else s.(fillers := s.fillers[t := Trying(todo[1..])])
    case SendOk(t) =>
      if t !in s.fillers || !s.fillers[t].Sending? then s
      else s.(fillers := s.fillers[t := Trying(s.fillers[t].todo)], asked := s.asked + {s.fillers[t].peer})
    case SendFailed(t) =>
      if t !in s.fillers || !s.fillers[t].Sending? then s
      else s.(fillers := s.fillers[t := Undoing(s.fillers[t].peer, s.fillers[t].todo)])
    case Undo(t) =>
      if t !in s.fillers || !s.fillers[t].Undoing? then s
      else s.(fillers := s.fillers[t := Trying(s.fillers[t].todo)], peers := SetSlot(s.peers, s.fillers[t].peer, false))
    case Revoke(t, p) =>
      if t in s.revoking || p !in Holders(s.peers) then s
      else s.(peers := SetSlot(s.peers, p, false), revoking := s.revoking[t := p])
    case RevokeSent(t, ok) =>
      if t !in s.revoking then s
      else s.(revoking := s.revoking - {t}, asked := if ok then s.asked - {s.revoking[t]} else s.asked)
    case Join(p) =>
      if p in s.peers then s else s.(peers := s.peers[p := PeerState(false, false)])
    case Handshake(p) =>
      if p in s.peers then s.(peers := s.peers[p := s.peers[p].(handshakeComplete := true)]) else s
    case Leave(p) =>
      s.(peers := s.peers - {p}, asked := s.asked - {p})
  }

  function Run(s: Net, ops: seq<Op>): Net
    decreases ops
  {
    if ops == [] then s else Run(Step(s, ops[0]), ops[1..])
  }

  lemma StepKeepsThree(s: Net, op: Op)
    requires |Holders(s.peers)| <= MAX_HIGH_BANDWIDTH_PEERS
    ensures |Holders(Step(s, op).peers)| <= MAX_HIGH_BANDWIDTH_PEERS
  {
    var after := Holders(Step(s, op).peers);
    if op.Try? && op.t in s.fillers && s.fillers[op.t].Trying? && s.fillers[op.t].todo != []
       && CanTake(s.peers, s.fillers[op.t].todo[0]) {
      assert after == Holders(s.peers) + {s.fillers[op.t].todo[0]};
    } else {
      assert after <= Holders(s.peers);
      SubsetSize(after, Holders(s.peers));
    }
  }

  /** In every interleaving at most three peers hold a slot. */
  lemma {:induction false} ThreeSlots(s: Net, ops: seq<Op>)
    requires |Holders(s.peers)| <= MAX_HIGH_BANDWIDTH_PEERS
    ensures |Holders(Run(s, ops).peers)| <= MAX_HIGH_BANDWIDTH_PEERS
    decreases ops
  {
    if ops != [] {
      StepKeepsThree(s, ops[0]);
      ThreeSlots(Step(s, ops[0]), ops[1..]);
    }
  }

  // ---------------------------------------------------------------------------
  // Peers that were asked
  // ---------------------------------------------------------------------------

  ghost predicate InFlight(s: Net, p: Peer) {
    exists t :: t in s.fillers && !s.fillers[t].Trying? && s.fillers[t].peer == p
  }

  ghost predicate Revoking(s: Net, p: Peer) {
    exists t :: t in s.revoking && s.revoking[t] == p
  }

  /** Another revoker is still to tell the peer of revoker `t`. */
  ghost predicate RevokedByAnother(s: Net, t: nat)
    requires t in s.revoking
  {
    exists r :: r in s.revoking && r != t && s.revoking[r] == s.revoking[t]
  }

  /**
   No filler is talking to a peer that loses its slot or leaves, and a revocation that does
   not arrive concerns a peer that was not asked, is told by another revoker, or has taken a
   slot again and been asked anew.
   */
  ghost predicate Calm(s: Net, op: Op) {
    match op
    case Revoke(t, p) => t in s.revoking || p !in Holders(s.peers) || !InFlight(s, p)
    case Leave(p) => !InFlight(s, p)
    case RevokeSent(t, ok) =>
      ok || t !in s.revoking || s.revoking[t] !in s.asked || RevokedByAnother(s, t)
      || (s.revoking[t] in Holders(s.peers) && !InFlight(s, s.revoking[t]))
    case _ => true
  }

  ghost predicate CalmRun(s: Net, ops: seq<Op>)
    decreases ops
  {
    ops == [] || (Calm(s, ops[0]) && CalmRun(Step(s, ops[0]), ops[1..]))
  }

  /** The peer a slot or revocation is taken from. */
  function Concerns(s: Net, op: Op): Option<Peer> {
    match op
    case Revoke(_, p) => Some(p)
    case Leave(p) => Some(p)
    case RevokeSent(t, _) => if t in s.revoking then Some(s.revoking[t]) else None
    case _ => None
  }

  /** Filler `t` is talking to `p`. */
  predicate Talks(s: Net, t: nat, p: Peer) {
    t in s.fillers && !s.fillers[t].Trying? && s.fillers[t].peer == p
  }

  /** An asked peer holds a slot or is being revoked. */
  ghost predicate AskedHolds(s: Net, p: Peer) {
    p in s.asked ==> p in Holders(s.peers) || Revoking(s, p)
  }

  /** A filler that talks to `p` has taken its slot, and the peer was not asked since it was last revoked. */
  ghost predicate TalkHolds(s: Net, t: nat, p: Peer) {
    Talks(s, t, p) ==> p in Holders(s.peers) && (p in s.asked ==> Revoking(s, p))
  }

  /** The peer is accounted for: by a slot, a revocation on its way, or the one filler that talks to it. */
  ghost predicate AccountedFor(s: Net, p: Peer) {
    && AskedHolds(s, p) && (forall t :: TalkHolds(s, t, p))
    && (forall t, r :: Talks(s, t, p) && Talks(s, r, p) ==> t == r)
  }

  ghost predicate Accounted(s: Net) {
    forall p :: AccountedFor(s, p)
  }

  /** The step does not disturb `p`. */
  ghost predicate Spares(s: Net, op: Op, p: Peer) {
    Calm(s, op) || Concerns(s, op) != Some(p)
  }

  lemma RevokingAfter(s: Net, op: Op, p: Peer)
    requires Revoking(s, p) && Spares(s, op, p)
    ensures Revoking(Step(s, op), p) || p !in Step(s, op).asked
            || (op.RevokeSent? && p in Holders(s.peers) && !InFlight(s, p))
  {
    var t :| t in s.revoking && s.revoking[t] == p;
    var r := Step(s, op);
    if !(op.RevokeSent? && op.t == t) {
      assert t in r.revoking && r.revoking[t] == p;
    } else if !op.ok && RevokedByAnother(s, t) {
      var o :| o in s.revoking && o != t && s.revoking[o] == p;
      assert o in r.revoking && r.revoking[o] == p;
    }
  }

  lemma StepKeepsAsked(s: Net, op: Op, p: Peer)
    requires AccountedFor(s, p) && Spares(s, op, p)
    ensures AskedHolds(Step(s, op), p)
  {
    var r := Step(s, op);
    if p in r.asked {
      if Revoking(s, p) {
        RevokingAfter(s, op, p);
      } else if op.Revoke? && r != s && op.p == p {
        assert op.t in r.revoking && r.revoking[op.t] == p;
      } else if op.SendOk? || op.Undo? {
        assert TalkHolds(s, op.t, p);
      }
    }
  }

  /** An operation starts at most one talk, to a peer that held no slot, and ends at most one. */
  lemma TalksAfter(s: Net, op: Op, t: nat, p: Peer)
    requires Talks(Step(s, op), t, p)
    ensures if Talks(s, t, p) then (op.Undo? || op.SendOk?) && op.t == t ==> Step(s, op) == s
            else op.Try? && op.t == t && CanTake(s.peers, p) && Step(s, op).peers == SetSlot(s.peers, p, true)
  {
  }

  lemma StepKeepsTalk(s: Net, op: Op, t: nat, p: Peer)
    requires AccountedFor(s, p) && Spares(s, op, p)
    ensures TalkHolds(Step(s, op), t, p)
  {
    var r := Step(s, op);
    if Talks(r, t, p) {
      TalksAfter(s, op, t, p);
      if Talks(s, t, p) {
        assert InFlight(s, p) && TalkHolds(s, t, p);
        if op.Undo? || op.SendOk? {
          assert Talks(s, op.t, p) ==> op.t == t;
        }
      }
      if Revoking(s, p) {
        RevokingAfter(s, op, p);
      }
    }
  }

  lemma StepKeepsPeer(s: Net, op: Op, p: Peer)
    requires AccountedFor(s, p) && Spares(s, op, p)
    ensures AccountedFor(Step(s, op), p)
  {
    var r := Step(s, op);
    StepKeepsAsked(s, op, p);
    forall t ensures TalkHolds(r, t, p) {
      StepKeepsTalk(s, op, t, p);
    }
    forall t, q | Talks(r, t, p) && Talks(r, q, p) ensures t == q {
      TalksAfter(s, op, t, p);
      TalksAfter(s, op, q, p);
      assert TalkHolds(s, t, p) && TalkHolds(s, q, p);
    }
  }

  /** Pulling a slot from under a filler leaves that filler without one. */
  lemma LostSlotBreaks(s: Net, op: Op, p: Peer)
    requires AccountedFor(s, p) && InFlight(s, p)
    requires (op.Revoke? && op.t !in s.revoking && op.p == p && p in Holders(s.peers)) || op == Leave(p)
    ensures !AccountedFor(Step(s, op), p)
  {
    var t :| t in s.fillers && !s.fillers[t].Trying? && s.fillers[t].peer == p;
    assert Talks(Step(s, op), t, p) && !TalkHolds(Step(s, op), t, p);
  }

  /** Losing the only revocation of an asked peer breaks its account unless the peer holds a slot of its own. */
  lemma LostRevocationBreaks(s: Net, t: nat)
    requires t in s.revoking && AccountedFor(s, s.revoking[t]) && !Calm(s, RevokeSent(t, false))
    ensures !AccountedFor(Step(s, RevokeSent(t, false)), s.revoking[t])
  {
    var p, r := s.revoking[t], Step(s, RevokeSent(t, false));
    assert !Revoking(r, p);
    if p in Holders(s.peers) {
      var f :| f in s.fillers && !s.fillers[f].Trying? && s.fillers[f].peer == p;
      assert Talks(r, f, p) && !TalkHolds(r, f, p);
    }
  }

  /** A step keeps the account of a peer exactly when it is calm or concerns another peer. */
  lemma StepKeepsAccountIff(s: Net, op: Op, p: Peer)
    requires AccountedFor(s, p)
    ensures AccountedFor(Step(s, op), p) <==> Spares(s, op, p)
  {
    if Spares(s, op, p) {
      StepKeepsPeer(s, op, p);
    } else if op.RevokeSent? {
      LostRevocationBreaks(s, op.t);
    } else {
      LostSlotBreaks(s, op, p);
    }
  }

  /** The account of all peers is right after every step of the run. */
  ghost predicate AccountedThroughout(s: Net, ops: seq<Op>)
    decreases ops
  {
    Accounted(s) && (ops == [] || AccountedThroughout(Step(s, ops[0]), ops[1..]))
  }

  lemma StepKeepsAllIff(s: Net, op: Op)
    requires Accounted(s)
    ensures Accounted(Step(s, op)) <==> Calm(s, op)
  {
    forall p ensures AccountedFor(Step(s, op), p) <==> Spares(s, op, p) {
      StepKeepsAccountIff(s, op, p);
    }
    if !Calm(s, op) {
      assert !AccountedFor(Step(s, op), Concerns(s, op).value);
    }
  }

  /** Over whole runs: asked peers hold a slot or are about to be told otherwise all the way exactly in the calm runs. */
  lemma {:induction false} AccountedThroughoutIff(s: Net, ops: seq<Op>)
    requires Accounted(s)
    ensures AccountedThroughout(s, ops) <==> CalmRun(s, ops)
    decreases ops
  {
    if ops != [] {
      StepKeepsAllIff(s, ops[0]);
      if Calm(s, ops[0]) {
        AccountedThroughoutIff(Step(s, ops[0]), ops[1..]);
      }
    }
  }

  /** The peers that the run takes a slot or revocation from at a bad moment. */
  ghost function Disturbed(s: Net, ops: seq<Op>): set<Peer>
    decreases ops
  {
    if ops == [] then {}
    else
      (if Calm(s, ops[0]) || Concerns(s, ops[0]).None? then {} else {Concerns(s, ops[0]).value}) + Disturbed(Step(s, ops[0]), ops[1..])
  }

  lemma {:induction false} CalmDisturbsNobody(s: Net, ops: seq<Op>)
    requires CalmRun(s, ops)
    ensures Disturbed(s, ops) == {}
    decreases ops
  {
    if ops != [] {
      CalmDisturbsNobody(Step(s, ops[0]), ops[1..]);
    }
  }

  lemma {:induction false} UndisturbedStayAccounted(s: Net, ops: seq<Op>, p: Peer)
    requires AccountedFor(s, p) && p !in Disturbed(s, ops)
    ensures AccountedFor(Run(s, ops), p)
    decreases ops
  {
    if ops != [] {
      StepKeepsPeer(s, ops[0], p);
      UndisturbedStayAccounted(Step(s, ops[0]), ops[1..], p);
    }
  }

  /**
   Over every run: besides the peers that were disturbed, at most three peers are asked without
   being told otherwise; so the number of asked peers passes three by at most the number of
   disturbed ones.
   */
  lemma AtMostThreeAsked(s: Net, ops: seq<Op>)
    requires Accounted(s) && |Holders(s.peers)| <= MAX_HIGH_BANDWIDTH_PEERS
    ensures var asked := Run(s, ops).asked - Run(s, ops).revoking.Values;
            && |asked - Disturbed(s, ops)| <= MAX_HIGH_BANDWIDTH_PEERS
            && |asked| <= MAX_HIGH_BANDWIDTH_PEERS + |Disturbed(s, ops)|
            && (CalmRun(s, ops) ==> |asked| <= MAX_HIGH_BANDWIDTH_PEERS)
  {
    var r, d := Run(s, ops), Disturbed(s, ops);
    var asked := r.asked - r.revoking.Values;
    ThreeSlots(s, ops);
    forall p | p in asked - d ensures p in Holders(r.peers) {
      UndisturbedStayAccounted(s, ops, p);
      assert AskedHolds(r, p) && !Revoking(r, p);
    }
    SubsetSize(asked - d, Holders(r.peers));
    SubsetSize(asked, (asked - d) + d);
    if CalmRun(s, ops) {
      CalmDisturbsNobody(s, ops);
    }
  }

  // ---------------------------------------------------------------------------
  // A run that is not calm
  // ---------------------------------------------------------------------------

  const Slot := PeerState(true, true)
  const Free := PeerState(true, false)
  const Idle := Net(map[], map[], map[], {})

  /** Peers 2, 3, 4 hold the slots; the request to 4 is still being sent, and a second filler's stale list names 1. */
  const InMidSend := Net(map[1 := Free, 2 := Slot, 3 := Slot, 4 := Slot], map[0 := Sending(4, []), 1 := Trying([1])], map[], {2, 3})

  /** Four is revoked, told so, and only then asked. */
  lemma RevokedThenAsked()
    ensures Run(InMidSend, [Revoke(9, 4), RevokeSent(9, true), SendOk(0)])
            == Net(map[1 := Free, 2 := Slot, 3 := Slot, 4 := Free], map[0 := Trying([]), 1 := Trying([1])], map[], {2, 3, 4})
  {
    var a, b, c := Revoke(9, 4), RevokeSent(9, true), SendOk(0);
    assert [a, b, c][1..] == [b, c] && [b, c][1..] == [c] && [c][1..] == [];
    var s1 := Step(InMidSend, a);
    assert s1 == Net(map[1 := Free, 2 := Slot, 3 := Slot, 4 := Free], map[0 := Sending(4, []), 1 := Trying([1])], map[9 := 4], {2, 3});
    var s2 := Step(s1, b);
    assert s2.revoking == map[] && s2.asked == {2, 3};
    assert Run(InMidSend, [a, b, c]) == Run(s1, [b, c]) == Run(s2, [c]) == Run(Step(s2, c), []);
  }

  lemma FourthAsked()
    ensures var s := Net(map[1 := Free, 2 := Slot, 3 := Slot, 4 := Free], map[0 := Trying([]), 1 := Trying([1])], map[], {2, 3, 4});
            Run(s, [Try(1), SendOk(1)]).asked == {1, 2, 3, 4} && Run(s, [Try(1), SendOk(1)]).revoking == map[]
  {
    var s := Net(map[1 := Free, 2 := Slot, 3 := Slot, 4 := Free], map[0 := Trying([]), 1 := Trying([1])], map[], {2, 3, 4});
    assert Holders(s.peers) == {2, 3};
    var s1 := Step(s, Try(1));
    assert s1.fillers[1] == Sending(1, [1][1..]);
    assert [Try(1), SendOk(1)][1..] == [SendOk(1)] && [SendOk(1)][1..] == [];
    assert Run(s, [Try(1), SendOk(1)]) == Run(s1, [SendOk(1)]) == Run(Step(s1, SendOk(1)), []);
  }

  lemma {:induction false} RunConcat(s: Net, a: seq<Op>, b: seq<Op>)
    ensures Run(s, a + b) == Run(Run(s, a), b)
    decreases a
  {
    if a == [] {
      assert a + b == b;
    } else {
      assert (a + b)[1..] == a[1..] + b;
      RunConcat(Step(s, a[0]), a[1..], b);
    }
  }

  /** A peer joins, completes its handshake, and a filler starts. */
  function Arrival(p: Peer, t: nat, order: seq<Peer>): seq<Op> {
    [Join(p), Handshake(p), Start(t, order)]
  }

  lemma RunThree(s: Net, a: Op, b: Op, c: Op)
    ensures Run(s, [a, b, c]) == Step(Step(Step(s, a), b), c)
  {
    assert [a, b, c][1..] == [b, c] && [b, c][1..] == [c] && [c][1..] == [];
    assert Run(s, [a, b, c]) == Run(Step(s, a), [b, c]) == Run(Step(Step(s, a), b), [c]);
  }

  /** With one candidate to choose, it is the open peer with the least address. */
  lemma OneCandidate(peers: Peers, order: seq<Peer>, c: Peer)
    requires Enumerates(order, peers.Keys) && c in Open(peers) && forall q :: q in Open(peers) ==> c <= q
    requires Min(SatSub(MAX_HIGH_BANDWIDTH_PEERS, |Holders(peers)|), |Open(peers)|) == 1
    ensures Candidates(peers, order) == [c]
  {
    CandidatesAreLeastOpen(peers, order);
    var cs := Candidates(peers, order);
    assert cs == [cs[0]] && cs[0] in Open(peers);
  }

  lemma HandshakeSteps(s: Net, p: Peer)
    requires p !in s.peers
    ensures Step(Step(s, Join(p)), Handshake(p)) == s.(peers := s.peers[p := Free])
  {
    assert s.peers[p := PeerState(false, false)][p := Free] == s.peers[p := Free];
  }

  /** `r` is `s` with a new peer `p` and a new filler `t` that has `c` on its list. */
  predicate Arrived(s: Net, p: Peer, t: nat, c: Peer, r: Net) {
    p !in s.peers && t !in s.fillers && r == s.(peers := s.peers[p := Free], fillers := s.fillers[t := Trying([c])])
  }

  lemma ArrivalRun(s: Net, p: Peer, t: nat, order: seq<Peer>, c: Peer, r: Net)
    requires Arrived(s, p, t, c, r) && Candidates(r.peers, order) == [c]
    ensures Run(s, Arrival(p, t, order)) == r
  {
    RunThree(s, Join(p), Handshake(p), Start(t, order));
    HandshakeSteps(s, p);
  }

  /** The filler gives its only candidate a slot, tells it, and finishes. */
  lemma ServedRun(s: Net, t: nat, p: Peer)
    requires t in s.fillers && s.fillers[t] == Trying([p]) && CanTake(s.peers, p)
    ensures Run(s, [Try(t), SendOk(t), Try(t)]) == Net(SetSlot(s.peers, p, true), s.fillers - {t}, s.revoking, s.asked + {p})
  {
    RunThree(s, Try(t), SendOk(t), Try(t));
    assert [p][1..] == [];
  }

  lemma RunThen(s: Net, a: seq<Op>, mid: Net, b: seq<Op>, end: Net)
    requires Run(s, a) == mid && Run(mid, b) == end
    ensures Run(s, a + b) == end
  {
    RunConcat(s, a, b);
  }

  const TwoCame := Net(map[2 := Free], map[0 := Trying([2])], map[], {})
  const TwoAsked := Net(map[2 := Slot], map[], map[], {2})
  const ThreeCame := Net(map[2 := Slot, 3 := Free], map[0 := Trying([3])], map[], {2})
  const ThreeAsked := Net(map[2 := Slot, 3 := Slot], map[], map[], {2, 3})
  const FourCame := Net(map[2 := Slot, 3 := Slot, 4 := Free], map[0 := Trying([4])], map[], {2, 3})
  const OneCame := Net(map[1 := Free, 2 := Slot, 3 := Slot, 4 := Free], map[0 := Trying([4]), 1 := Trying([1])], map[], {2, 3})

  lemma TwoComes(order: seq<Peer>)
    requires Enumerates(order, TwoCame.peers.Keys)
    ensures Run(Idle, Arrival(2, 0, order)) == TwoCame
  {
    assert Candidates(TwoCame.peers, order) == [2] by {
      assert Open(TwoCame.peers) == {2} && Holders(TwoCame.peers) == {};
      OneCandidate(TwoCame.peers, order, 2);
    }
    assert Arrived(Idle, 2, 0, 2, TwoCame);
    ArrivalRun(Idle, 2, 0, order, 2, TwoCame);
  }

  lemma ThreeComes(order: seq<Peer>)
    requires Enumerates(order, ThreeCame.peers.Keys)
    ensures Run(TwoAsked, Arrival(3, 0, order)) == ThreeCame
  {
    assert Candidates(ThreeCame.peers, order) == [3] by {
      assert Open(ThreeCame.peers) == {3} && Holders(ThreeCame.peers) == {2};
      OneCandidate(ThreeCame.peers, order, 3);
    }
    assert Arrived(TwoAsked, 3, 0, 3, ThreeCame);
    ArrivalRun(TwoAsked, 3, 0, order, 3, ThreeCame);
  }

  lemma FourComes(order: seq<Peer>)
    requires Enumerates(order, FourCame.peers.Keys)
    ensures Run(ThreeAsked, Arrival(4, 0, order)) == FourCame
  {
    assert Candidates(FourCame.peers, order) == [4] by {
      assert Open(FourCame.peers) == {4} && Holders(FourCame.peers) == {2, 3};
      OneCandidate(FourCame.peers, order, 4);
    }
    assert Arrived(ThreeAsked, 4, 0, 4, FourCame);
    ArrivalRun(ThreeAsked, 4, 0, order, 4, FourCame);
  }

  lemma OneIsLeast(order: seq<Peer>)
    requires Enumerates(order, OneCame.peers.Keys)
    ensures Candidates(OneCame.peers, order) == [1]
  {
    assert Open(OneCame.peers) == {1, 4} && Holders(OneCame.peers) == {2, 3};
    OneCandidate(OneCame.peers, order, 1);
  }

  lemma OneArrived()
    ensures Arrived(FourCame, 1, 1, 1, OneCame)
  {
    assert FourCame.peers[1 := Free] == OneCame.peers;
    assert FourCame.fillers[1 := Trying([1])] == OneCame.fillers;
  }

  lemma OneComes(order: seq<Peer>)
    requires Enumerates(order, OneCame.peers.Keys)
    ensures Run(FourCame, Arrival(1, 1, order)) == OneCame
  {
    OneIsLeast(order);
    OneArrived();
    ArrivalRun(FourCame, 1, 1, order, 1, OneCame);
  }

  lemma ThreeIsServed()
    ensures Run(ThreeCame, [Try(0), SendOk(0), Try(0)]) == ThreeAsked
  {
    assert Holders(ThreeCame.peers) == {2};
    ServedRun(ThreeCame, 0, 3);
  }

  lemma FourIsTried()
    ensures Run(OneCame, [Try(0)]) == InMidSend
  {
    assert Holders(OneCame.peers) == {2, 3} && [4][1..] == [] && [Try(0)][1..] == [];
    assert Run(OneCame, [Try(0)]) == Run(Step(OneCame, Try(0)), []);
  }

  /** The orders in which the map of peers is walked by the four fillers. */
  datatype Walks = Walks(two: seq<Peer>, three: seq<Peer>, four: seq<Peer>, one: seq<Peer>)

  ghost predicate WalksOk(w: Walks) {
    Enumerates(w.two, TwoCame.peers.Keys) && Enumerates(w.three, ThreeCame.peers.Keys)
    && Enumerates(w.four, FourCame.peers.Keys) && Enumerates(w.one, OneCame.peers.Keys)
  }

  /** Two and three come and are asked. */
  function AskTwoOps(w: Walks): seq<Op> {
    var served := [Try(0), SendOk(0), Try(0)];
    Arrival(2, 0, w.two) + served + (Arrival(3, 0, w.three) + served)
  }

  lemma TwoAreAsked(w: Walks)
    requires WalksOk(w)
    ensures Run(Idle, AskTwoOps(w)) == ThreeAsked
  {
    var served := [Try(0), SendOk(0), Try(0)];
    TwoComes(w.two);
    RunThen(Idle, Arrival(2, 0, w.two), TwoCame, served, TwoAsked);
    ThreeComes(w.three);
    ThreeIsServed();
    RunThen(TwoAsked, Arrival(3, 0, w.three), ThreeCame, served, ThreeAsked);
    RunThen(Idle, Arrival(2, 0, w.two) + served, TwoAsked, Arrival(3, 0, w.three) + served, ThreeAsked);
  }

  /** Then four and one come, with a filler each, and four's is in mid-send. */
  function MidSendOps(w: Walks): seq<Op> {
    AskTwoOps(w) + (Arrival(4, 0, w.four) + (Arrival(1, 1, w.one) + [Try(0)]))
  }

  lemma MidSendIsReached(w: Walks)
    requires WalksOk(w)
    ensures Run(Idle, MidSendOps(w)) == InMidSend
  {
    OneComes(w.one);
    FourIsTried();
    RunThen(FourCame, Arrival(1, 1, w.one), OneCame, [Try(0)], InMidSend);
    FourComes(w.four);
    RunThen(ThreeAsked, Arrival(4, 0, w.four), FourCame, Arrival(1, 1, w.one) + [Try(0)], InMidSend);
    TwoAreAsked(w);
    RunThen(Idle, AskTwoOps(w), ThreeAsked, Arrival(4, 0, w.four) + (Arrival(1, 1, w.one) + [Try(0)]), InMidSend);
  }

  /** Then four's slot is revoked before its request goes out, and a stale list brings in one. */
  function FourAskedOps(w: Walks): seq<Op> {
    MidSendOps(w) + ([Revoke(9, 4), RevokeSent(9, true), SendOk(0)] + [Try(1), SendOk(1)])
  }

  /** From no peers at all, four peers end up asked, with every message delivered and no revocation on its way. */
  lemma FourAskedWithThreeSlots(w: Walks)
    requires WalksOk(w)
    ensures var r := Run(Idle, FourAskedOps(w)); r.asked == {1, 2, 3, 4} && r.revoking == map[]
    ensures Accounted(Idle)
  {
    MidSendIsReached(w);
    RevokedThenAsked();
    FourthAsked();
    var end := [Revoke(9, 4), RevokeSent(9, true), SendOk(0)];
    RunConcat(InMidSend, end, [Try(1), SendOk(1)]);
    RunConcat(Idle, MidSendOps(w), end + [Try(1), SendOk(1)]);
  }

  /** In address order, for one. */
  lemma SomeWalks()
    ensures WalksOk(Walks([2], [2, 3], [2, 3, 4], [1, 2, 3, 4]))
  {
  }
}
