/**
 Announcing a new tip with `headers` messages: peers one to eight blocks behind get exactly
 the headers they miss.
 */
module HeaderAnnounce {
  import opened Prelude
  import opened HeaderProbe
  import opened HeaderChain

  const MAX_HEADER_ANNOUNCE_DISTANCE := 8

  type Peer = nat

  /** How many headers take a peer from its mark to the tip; none for a peer without a mark, level, ahead or too far behind. */
  function AnnounceLen(tipHeight: nat, known: Option<nat>): (d: Option<nat>)
    ensures d.Some? <==> known.Some? && known.value < tipHeight <= known.value + MAX_HEADER_ANNOUNCE_DISTANCE
    ensures d.Some? ==> known.value + d.value == tipHeight
  {
    if known.None? || tipHeight < known.value then None
    else if 1 <= tipHeight - known.value <= MAX_HEADER_ANNOUNCE_DISTANCE then Some(tipHeight - known.value)
    else None
  }

  /** The active headers at heights `low` up to but not including `end`, if every row is there. */
  function ActiveHeaders(ix: Index, low: nat, end: nat): (hs: Option<seq<Header>>)
    requires low <= end
    decreases end - low
  {
    if low == end then Some([])
    else if low !in ix.active || ix.active[low] !in ix.headers then None
    else
      var rest := ActiveHeaders(ix, low + 1, end);
      if rest.None? then None else Some([ix.headers[ix.active[low]]] + rest.value)
  }

  function AnnounceBatch(hashOf: Header -> Hash, ix: Index, tipHeight: nat, distance: nat, tipHash: Hash, tipHeader: Header)
    : Option<seq<Header>>
    requires distance >= 1
  {
    if distance == 1 then Some([tipHeader])
    else
      var hs := ActiveHeaders(ix, SatSub(tipHeight, distance - 1), tipHeight + 1);
      if hs.None? || |hs.value| != distance || hashOf(hs.value[|hs.value| - 1]) != tipHash then None else hs
  }

  lemma {:induction false} ActiveHeadersSnoc(ix: Index, low: nat, end: nat)
    requires low <= end && end in ix.active && ix.active[end] in ix.headers && ActiveHeaders(ix, low, end).Some?
    ensures ActiveHeaders(ix, low, end + 1) == Some(ActiveHeaders(ix, low, end).value + [ix.headers[ix.active[end]]])
    decreases end - low
  {
    if low == end {
      assert ActiveHeaders(ix, low + 1, end + 1) == Some([]);
      assert ActiveHeaders(ix, low, end) == Some([]);
      var x := ix.headers[ix.active[end]];
      assert [x] + [] == [] + [x];
    } else {
      ActiveHeadersSnoc(ix, low + 1, end);
      var rest := ActiveHeaders(ix, low + 1, end).value;
      var x, y := ix.headers[ix.active[low]], ix.headers[ix.active[end]];
      assert [x] + (rest + [y]) == ([x] + rest) + [y];
    }
  }

  lemma {:induction false} ActiveHeadersNeedEveryRow(ix: Index, low: nat, end: nat, n: nat)
    requires low <= n < end && (n !in ix.active || ix.active[n] !in ix.headers)
    ensures ActiveHeaders(ix, low, end).None?
    decreases end - low
  {
    if low < n {
      ActiveHeadersNeedEveryRow(ix, low + 1, end, n);
    }
  }

  lemma {:induction false} ActiveHeadersAreTheRows(ix: Index, low: nat, end: nat)
    requires low <= end
    requires forall n :: low <= n < end ==> n in ix.active && ix.active[n] in ix.headers
    ensures var hs := ActiveHeaders(ix, low, end);
            hs.Some? && |hs.value| == end - low
            && (forall i :: 0 <= i < |hs.value| ==> hs.value[i] == ix.headers[ix.active[low + i]])
    decreases end - low
  {
    if low < end {
      ActiveHeadersAreTheRows(ix, low + 1, end);
    }
  }

  /** `headers_for_announce`. */
  method HeadersForAnnounce(hashOf: Header -> Hash, store: BlockIndex, tipHeight: nat, distance: nat,
                            tipHash: Hash, tipHeader: Header) returns (batch: Option<seq<Header>>)
    requires distance >= 1
    ensures batch == AnnounceBatch(hashOf, store.View(), tipHeight, distance, tipHash, tipHeader)
  {
    if distance == 1 {
      return Some([tipHeader]);
    }
    ghost var ix := store.View();
    var start := SatSub(tipHeight, distance - 1);
    var headers: seq<Header> := [];
    var height := start;
    while height <= tipHeight
      invariant start <= height <= tipHeight + 1
      invariant ActiveHeaders(ix, start, height) == Some(headers)
    {
      if height !in store.active || store.active[height] !in store.headers {
        ActiveHeadersNeedEveryRow(ix, start, tipHeight + 1, height);
        return None;
      }
      ActiveHeadersSnoc(ix, start, height);
      headers := headers + [store.headers[store.active[height]]];
      height := height + 1;
    }
    if |headers| != distance || hashOf(headers[|headers| - 1]) != tipHash {
      return None;
    }
    batch := Some(headers);
  }

  /** `hs` carries the peer from its known height to the tip, block by block. */
  ghost predicate ClosesGap(hashOf: Header -> Hash, ix: Index, known: nat, tipHeight: nat, tipHash: Hash, hs: seq<Header>) {
    && 1 <= |hs| <= MAX_HEADER_ANNOUNCE_DISTANCE && known + |hs| == tipHeight
    && known in ix.active && hs[0].prev == ix.active[known]
    && (forall i :: 0 <= i < |hs| - 1 ==> Connects(hashOf, hs, i))
    && hashOf(hs[|hs| - 1]) == tipHash
  }

  ghost predicate Connects(hashOf: Header -> Hash, hs: seq<Header>, i: nat)
    requires i + 1 < |hs|
  {
    hs[i + 1].prev == hashOf(hs[i])
  }

  /** `hs[j]` is the active header `j + 1` heights above `known`. */
  ghost predicate RowIs(ix: Index, known: nat, hs: seq<Header>, j: nat)
    requires j < |hs|
  {
    known + 1 + j in ix.active && ix.active[known + 1 + j] in ix.headers && hs[j] == ix.headers[ix.active[known + 1 + j]]
  }

  lemma ActiveRowsConnect(hashOf: Header -> Hash, u: iset<Header>, ix: Index, known: nat, hs: seq<Header>, i: nat)
    requires ChainInv(hashOf, u, ix) && i + 1 < |hs|
    requires RowIs(ix, known, hs, i) && RowIs(ix, known, hs, i + 1)
    ensures Connects(hashOf, hs, i)
  {
    assert LinkedAt(ix, known + 1 + i + 1);
  }

  /** The active headers above `known`, up to the tip, close the gap. */
  lemma RowsCloseGap(hashOf: Header -> Hash, u: iset<Header>, ix: Index, known: nat, tipHeight: nat, hs: seq<Header>)
    requires ChainInv(hashOf, u, ix) && tipHeight in ix.active
    requires known < tipHeight <= known + MAX_HEADER_ANNOUNCE_DISTANCE && |hs| == tipHeight - known
    requires forall j :: 0 <= j < |hs| ==> RowIs(ix, known, hs, j)
    ensures ClosesGap(hashOf, ix, known, tipHeight, ix.active[tipHeight], hs)
  {
    assert RowIs(ix, known, hs, 0) && RowIs(ix, known, hs, |hs| - 1);
    assert LinkedAt(ix, known + 1);
    forall i | 0 <= i < |hs| - 1 ensures Connects(hashOf, hs, i) {
      assert RowIs(ix, known, hs, i) && RowIs(ix, known, hs, i + 1);
      ActiveRowsConnect(hashOf, u, ix, known, hs, i);
    }
  }

  /** One block behind, the tip itself closes the gap. */
  lemma TipClosesGap(hashOf: Header -> Hash, u: iset<Header>, ix: Index, tipHeight: nat, tipHeader: Header)
    requires ChainInv(hashOf, u, ix) && CollisionFree(hashOf, u) && tipHeight > 0
    requires tipHeight in ix.active && ix.active[tipHeight] == hashOf(tipHeader) && tipHeader in u
    ensures ClosesGap(hashOf, ix, tipHeight - 1, tipHeight, hashOf(tipHeader), [tipHeader])
  {
    assert ix.headers[hashOf(tipHeader)] == tipHeader;
    assert LinkedAt(ix, tipHeight);
  }

  /** On a linked index that holds the tip, a peer in range is always sent exactly its gap. */
  lemma AnnouncedBatchClosesGap(hashOf: Header -> Hash, u: iset<Header>, ix: Index, known: Option<nat>,
                                tipHeight: nat, tipHash: Hash, tipHeader: Header)
    requires ChainInv(hashOf, u, ix) && CollisionFree(hashOf, u)
    requires tipHeight in ix.active && ix.active[tipHeight] == tipHash
    requires tipHeader in u && hashOf(tipHeader) == tipHash
    requires AnnounceLen(tipHeight, known).Some?
    ensures var batch := AnnounceBatch(hashOf, ix, tipHeight, AnnounceLen(tipHeight, known).value, tipHash, tipHeader);
            batch.Some? && ClosesGap(hashOf, ix, known.value, tipHeight, tipHash, batch.value)
  {
    var k := known.value;
    if AnnounceLen(tipHeight, known).value == 1 {
      TipClosesGap(hashOf, u, ix, tipHeight, tipHeader);
    } else {
      ActiveHeadersAreTheRows(ix, k + 1, tipHeight + 1);
      var hs := ActiveHeaders(ix, k + 1, tipHeight + 1).value;
      forall j | 0 <= j < |hs| ensures RowIs(ix, k, hs, j) {
      }
      RowsCloseGap(hashOf, u, ix, k, tipHeight, hs);
    }
  }

  /** The batch of a peer that closes the gap is the only one: hashes pin every header. */
  lemma {:induction false} GapIsUnique(hashOf: Header -> Hash, u: iset<Header>, ix: Index, known: nat, tipHeight: nat,
                                       tipHash: Hash, a: seq<Header>, b: seq<Header>, i: nat)
    requires CollisionFree(hashOf, u)
    requires forall j :: 0 <= j < |a| ==> a[j] in u
    requires forall j :: 0 <= j < |b| ==> b[j] in u
    requires ClosesGap(hashOf, ix, known, tipHeight, tipHash, a) && ClosesGap(hashOf, ix, known, tipHeight, tipHash, b)
    requires i < |a|
    ensures |a| == |b| && a[i] == b[i]
    decreases |a| - i
  {
    if i + 1 < |a| {
      GapIsUnique(hashOf, u, ix, known, tipHeight, tipHash, a, b, i + 1);
      assert Connects(hashOf, a, i) && Connects(hashOf, b, i);
    }
  }

  // ---------------------------------------------------------------------------
  // Known-header marks of the connected peers
  // ---------------------------------------------------------------------------

  type Marks = map<Peer, Option<nat>>

  /** Marks only ever move up. */
  function Advance(known: Option<nat>, height: nat): (next: Option<nat>)
    ensures next.Some? && next.value >= height && (known.Some? ==> next.value >= known.value)
    ensures next == known || next == Some(height)
  {
    Some(if known.Some? && known.value > height then known.value else height)
  }

  function Note(marks: Marks, peer: Peer, height: nat): Marks {
    if peer in marks then marks[peer := Advance(marks[peer], height)] else marks
  }

  datatype Sent = Sent(peer: Peer, known: Option<nat>, headers: seq<Header>)

  /** A block that became the tip, as one announcement round sees it. */
  datatype Round = Round(ix: Index, tipHeight: nat, tipHash: Hash, tipHeader: Header, peers: seq<Peer>, sendOk: Peer -> bool)

  function BatchFor(hashOf: Header -> Hash, r: Round, marks: Marks, peer: Peer): Option<seq<Header>> {
    var known := if peer in marks then marks[peer] else None;
    var d := AnnounceLen(r.tipHeight, known);
    if d.None? then None else AnnounceBatch(hashOf, r.ix, r.tipHeight, d.value, r.tipHash, r.tipHeader)
  }

  /** Marks and messages after the first `n` peers of the round. */
  function AnnounceTo(hashOf: Header -> Hash, r: Round, marks: Marks, n: nat): (out: (Marks, seq<Sent>))
    requires n <= |r.peers|
  {
    if n == 0 then (marks, [])
    else
      var before := AnnounceTo(hashOf, r, marks, n - 1);
      var peer := r.peers[n - 1];
      var batch := BatchFor(hashOf, r, before.0, peer);
      if batch.None? || !r.sendOk(peer) then before
      else (Note(before.0, peer, r.tipHeight),
            before.1 + [Sent(peer, if peer in before.0 then before.0[peer] else None, batch.value)])
  }

  class Announcer {
    var marks: Marks

    method HeadersFor(hashOf: Header -> Hash, store: BlockIndex, ghost r: Round, tipHeight: nat, hash: Hash, header: Header,
                      peer: Peer) returns (batch: Option<seq<Header>>)
      requires r.ix == store.View() && r.tipHeight == tipHeight && r.tipHash == hash && r.tipHeader == header
      ensures batch == BatchFor(hashOf, r, marks, peer)
    {
      var distance := AnnounceLen(tipHeight, if peer in marks then marks[peer] else None);
      if distance.None? {
        return None;
      }
      batch := HeadersForAnnounce(hashOf, store, tipHeight, distance.value, hash, header);
    }

    method AnnounceConnectedBlock(hashOf: Header -> Hash, store: BlockIndex, relay: bool, hash: Hash, header: Header,
                                  peers: seq<Peer>, sendOk: Peer -> bool) returns (sent: seq<Sent>)
      modifies this
      ensures relay && TipHeightOf(store.View(), store.tip, hash).Some? ==>
                var r := Round(store.View(), TipHeightOf(store.View(), store.tip, hash).value, hash, header, peers, sendOk);
                (marks, sent) == AnnounceTo(hashOf, r, old(marks), |peers|)
      ensures !relay || TipHeightOf(store.View(), store.tip, hash).None? ==> marks == old(marks) && sent == []
    {
      sent := [];
      if !relay {
        return;
      }
      var tipHeight: nat;
      if hash in store.heights {
        tipHeight := store.heights[hash];
      } else if store.tip.hash == Some(hash) && store.tip.height.Some? {
        tipHeight := store.tip.height.value;
      } else {
        return;
      }
      ghost var r := Round(store.View(), tipHeight, hash, header, peers, sendOk);
      var i := 0;
      while i < |peers|
        invariant 0 <= i <= |peers|
        invariant (marks, sent) == AnnounceTo(hashOf, r, old(marks), i)
        invariant store.View() == r.ix
      {
        var peer := peers[i];
        var batch := HeadersFor(hashOf, store, r, tipHeight, hash, header, peer);
        if batch.Some? && sendOk(peer) {
          sent := sent + [Sent(peer, if peer in marks then marks[peer] else None, batch.value)];
          if peer in marks {
            marks := marks[peer := Advance(marks[peer], tipHeight)];
          }
        }
        i := i + 1;
      }
    }
  }

  /** The height of the announced block: its own row, or the chain state when it is the tip. */
  function TipHeightOf(ix: Index, tip: ChainTip, hash: Hash): Option<nat> {
    if hash in ix.heights then Some(ix.heights[hash])
    else if tip.hash == Some(hash) then tip.height
    else None
  }

  /** The message closes its peer's gap, and the peer's mark is now the tip. */
  ghost predicate Delivered(hashOf: Header -> Hash, r: Round, after: Marks, m: Sent) {
    && m.known.Some? && ClosesGap(hashOf, r.ix, m.known.value, r.tipHeight, r.tipHash, m.headers)
    && m.peer in after && after[m.peer] == Some(r.tipHeight)
  }

  lemma {:induction false} RoundClosesGaps(hashOf: Header -> Hash, u: iset<Header>, r: Round, marks: Marks, n: nat)
    requires ChainInv(hashOf, u, r.ix) && CollisionFree(hashOf, u) && n <= |r.peers|
    requires r.tipHeight in r.ix.active && r.ix.active[r.tipHeight] == r.tipHash
    requires r.tipHeader in u && hashOf(r.tipHeader) == r.tipHash
    ensures forall i :: 0 <= i < |AnnounceTo(hashOf, r, marks, n).1| ==>
              Delivered(hashOf, r, AnnounceTo(hashOf, r, marks, n).0, AnnounceTo(hashOf, r, marks, n).1[i])
  {
    if n > 0 {
      var before := AnnounceTo(hashOf, r, marks, n - 1);
      RoundClosesGaps(hashOf, u, r, marks, n - 1);
      var peer := r.peers[n - 1];
      var known := if peer in before.0 then before.0[peer] else None;
      var batch := BatchFor(hashOf, r, before.0, peer);
      if batch.Some? && r.sendOk(peer) {
        AnnouncedBatchClosesGap(hashOf, u, r.ix, known, r.tipHeight, r.tipHash, r.tipHeader);
        var out := AnnounceTo(hashOf, r, marks, n);
        forall i | 0 <= i < |out.1| ensures Delivered(hashOf, r, out.0, out.1[i]) {
          if i < |before.1| {
            assert out.1[i] == before.1[i];
            assert Delivered(hashOf, r, before.0, before.1[i]);
          }
        }
      }
    }
  }

  /** The peer is close enough to the tip to be announced to. */
  predicate InRange(marks: Marks, tipHeight: nat, peer: Peer) {
    peer in marks && AnnounceLen(tipHeight, marks[peer]).Some?
  }

  ghost predicate IsSent(sent: seq<Sent>, peer: Peer) {
    exists i :: 0 <= i < |sent| && sent[i].peer == peer
  }

  /** Until a peer is sent its headers its mark stays, and then the mark is the tip. */
  ghost predicate MarkFollows(r: Round, marks: Marks, out: (Marks, seq<Sent>), peer: Peer) {
    && (peer in out.0 <==> peer in marks)
    && (peer in marks && !IsSent(out.1, peer) ==> out.0[peer] == marks[peer])
    && (peer in marks && IsSent(out.1, peer) ==> out.0[peer] == Some(r.tipHeight) && InRange(marks, r.tipHeight, peer) && r.sendOk(peer))
    && (IsSent(out.1, peer) ==> peer in marks)
  }

  lemma SentSnoc(sent: seq<Sent>, m: Sent, peer: Peer)
    ensures IsSent(sent + [m], peer) <==> IsSent(sent, peer) || m.peer == peer
  {
    if IsSent(sent, peer) {
      var i :| 0 <= i < |sent| && sent[i].peer == peer;
      assert (sent + [m])[i].peer == peer;
    }
    assert (sent + [m])[|sent|] == m;
  }

  lemma {:induction false} RoundMarksFollow(hashOf: Header -> Hash, r: Round, marks: Marks, n: nat, peer: Peer)
    requires n <= |r.peers|
    ensures MarkFollows(r, marks, AnnounceTo(hashOf, r, marks, n), peer)
  {
    if n > 0 {
      var before := AnnounceTo(hashOf, r, marks, n - 1);
      var p := r.peers[n - 1];
      RoundMarksFollow(hashOf, r, marks, n - 1, peer);
      var batch := BatchFor(hashOf, r, before.0, p);
      if batch.Some? && r.sendOk(p) {
        var m := Sent(p, if p in before.0 then before.0[p] else None, batch.value);
        SentSnoc(before.1, m, peer);
      }
    }
  }

  /** A round reaches exactly the listed peers in range whose send succeeds. */
  lemma {:induction false} RoundReachesIff(hashOf: Header -> Hash, u: iset<Header>, r: Round, marks: Marks, n: nat, peer: Peer)
    requires ChainInv(hashOf, u, r.ix) && CollisionFree(hashOf, u) && n <= |r.peers|
    requires r.tipHeight in r.ix.active && r.ix.active[r.tipHeight] == r.tipHash
    requires r.tipHeader in u && hashOf(r.tipHeader) == r.tipHash
    ensures IsSent(AnnounceTo(hashOf, r, marks, n).1, peer) <==>
            peer in r.peers[..n] && InRange(marks, r.tipHeight, peer) && r.sendOk(peer)
  {
    if n > 0 {
      var before := AnnounceTo(hashOf, r, marks, n - 1);
      var p := r.peers[n - 1];
      RoundReachesIff(hashOf, u, r, marks, n - 1, peer);
      RoundMarksFollow(hashOf, r, marks, n - 1, peer);
      assert r.peers[..n] == r.peers[..n - 1] + [p];
      var known := if p in before.0 then before.0[p] else None;
      var batch := BatchFor(hashOf, r, before.0, p);
      if AnnounceLen(r.tipHeight, known).Some? {
        AnnouncedBatchClosesGap(hashOf, u, r.ix, known, r.tipHeight, r.tipHash, r.tipHeader);
      }
      if batch.Some? && r.sendOk(p) {
        SentSnoc(before.1, Sent(p, known, batch.value), peer);
      }
    }
  }

  datatype Event = Joined(peer: Peer) | Left(peer: Peer) | Noted(peer: Peer, height: nat) | Announced(round: Round)

  function StepMarks(hashOf: Header -> Hash, marks: Marks, e: Event): Marks {
    match e
    case Joined(peer) => if peer in marks then marks else marks[peer := None]
    case Left(peer) => marks - {peer}
    case Noted(peer, height) => Note(marks, peer, height)
    case Announced(r) => AnnounceTo(hashOf, r, marks, |r.peers|).0
  }

  function RunMarks(hashOf: Header -> Hash, marks: Marks, events: seq<Event>): Marks
    decreases events
  {
    if events == [] then marks else RunMarks(hashOf, StepMarks(hashOf, marks, events[0]), events[1..])
  }

  predicate NotBelow(a: Option<nat>, b: Option<nat>) {
    a.Some? ==> b.Some? && a.value <= b.value
  }

  lemma {:induction false} AnnounceNeverRewinds(hashOf: Header -> Hash, r: Round, marks: Marks, n: nat, peer: Peer)
    requires n <= |r.peers| && peer in marks
    ensures var after := AnnounceTo(hashOf, r, marks, n).0; peer in after && NotBelow(marks[peer], after[peer])
  {
    if n > 0 {
      AnnounceNeverRewinds(hashOf, r, marks, n - 1, peer);
    }
  }

  /** Over any run, the mark of a peer that stays connected never goes down. */
  lemma {:induction false} MarksNeverGoDown(hashOf: Header -> Hash, marks: Marks, events: seq<Event>, peer: Peer)
    requires peer in marks && Left(peer) !in events
    ensures var after := RunMarks(hashOf, marks, events); peer in after && NotBelow(marks[peer], after[peer])
    decreases events
  {
    if events != [] {
      match events[0] {
        case Announced(r) => AnnounceNeverRewinds(hashOf, r, marks, |r.peers|, peer);
        case _ => assert events[0] in events;
      }
      MarksNeverGoDown(hashOf, StepMarks(hashOf, marks, events[0]), events[1..], peer);
    }
  }
}
