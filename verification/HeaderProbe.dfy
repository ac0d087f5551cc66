/**
 Storing a peer's `headers` reply.

 The block index is three maps: `active` (height -> hash of the active chain),
 `heights` (hash -> height, active and side headers alike) and `headers`
 (hash -> header).  A probe anchors a reply on the tip or on a known parent, cuts the
 longest acceptable linked prefix, lets a front part of it claim active heights and
 stores the rest by hash only.
 */
module HeaderProbe {
  import opened Prelude

  /** A 32-byte block hash. Only equality of hashes is ever used. */
  type Hash = nat

  datatype Header = Header(prev: Hash, version: int, merkleRoot: Hash, timestamp: nat, bits: nat, nonce: nat)

  datatype Row = Row(hash: Hash, header: Header, height: nat)

  datatype Pending = Pending(height: nat, bits: nat, timestamp: nat)

  datatype Index = Index(active: map<nat, Hash>, heights: map<Hash, nat>, headers: map<Hash, Header>)

  /** The chain tip as the chain state reports it, which may run ahead of the height index. */
  datatype ChainTip = ChainTip(hash: Option<Hash>, height: Option<nat>)

  /** The header rules of one probe: version gate and required work seen through the pending headers. */
  datatype Checks = Checks(versionOk: (int, nat) -> bool, meetsWork: (seq<Pending>, Header, nat) -> bool)

  datatype Anchor = Anchor(start: nat, parent: Hash, height: nat)

  /** The caller's view of the tip, the rules in force and the headers the peer sent. */
  datatype Probe = Probe(tipHash: Hash, localHeight: nat, checks: Checks, reply: seq<Header>)

  // ---------------------------------------------------------------------------
  // What one probe computes
  // ---------------------------------------------------------------------------

  /** The first header of the reply whose parent is the tip or an indexed hash. */
  function FindAnchor(ix: Index, p: Probe, i: nat := 0): (a: Option<Anchor>)
    requires i <= |p.reply|
    ensures a.Some? ==> i <= a.value.start < |p.reply| && p.reply[a.value.start].prev == a.value.parent
    ensures a.Some? ==> a.value.height == if a.value.parent == p.tipHash then p.localHeight
                                          else if a.value.parent in ix.heights then ix.heights[a.value.parent] else 0
    ensures a.Some? ==> a.value.parent == p.tipHash || a.value.parent in ix.heights
    ensures forall j :: i <= j < (if a.Some? then a.value.start else |p.reply|) ==>
              p.reply[j].prev != p.tipHash && p.reply[j].prev !in ix.heights
    decreases |p.reply| - i
  {
    if i == |p.reply| then None
    else if p.reply[i].prev == p.tipHash then Some(Anchor(i, p.tipHash, p.localHeight))
    else if p.reply[i].prev in ix.heights then Some(Anchor(i, p.reply[i].prev, ix.heights[p.reply[i].prev]))
    else FindAnchor(ix, p, i + 1)
  }

  predicate Accepts(c: Checks, parent: Hash, height: nat, pending: seq<Pending>, h: Header) {
    c.versionOk(h.version, height) && h.timestamp != 0 && h.prev == parent && c.meetsWork(pending, h, height)
  }

  function PendingOf(batch: seq<Row>): (r: seq<Pending>)
    ensures |r| == |batch|
  {
    seq(|batch|, i requires 0 <= i < |batch| => Pending(batch[i].height, batch[i].header.bits, batch[i].header.timestamp))
  }

  function ParentAt(parent: Hash, batch: seq<Row>, i: nat): Hash
    requires i <= |batch|
  {
    if i == 0 then parent else batch[i - 1].hash
  }

  function HeightAt(height: nat, batch: seq<Row>, i: nat): nat
    requires i <= |batch|
  {
    if i == 0 then height else batch[i - 1].height
  }

  /** Row `i` hangs on the one before it, one height higher, under its own hash. */
  ghost predicate Hangs(hashOf: Header -> Hash, parent: Hash, height: nat, batch: seq<Row>, i: nat)
    requires i < |batch|
  {
    && batch[i].hash == hashOf(batch[i].header)
    && batch[i].header.prev == ParentAt(parent, batch, i)
    && batch[i].height == SatInc(HeightAt(height, batch, i))
  }

  ghost predicate IsChain(hashOf: Header -> Hash, parent: Hash, height: nat, batch: seq<Row>) {
    forall i :: 0 <= i < |batch| ==> Hangs(hashOf, parent, height, batch, i)
  }

  /** The headers after the `done` rows, cut at the first one that breaks a rule or the chain. */
  function LinkFrom(hashOf: Header -> Hash, c: Checks, parent: Hash, height: nat, done: seq<Row>, hs: seq<Header>)
    : (batch: seq<Row>)
    decreases hs
  {
    var i := |done|;
    if hs == [] || !Accepts(c, ParentAt(parent, done, i), SatInc(HeightAt(height, done, i)), PendingOf(done), hs[0]) then done
    else LinkFrom(hashOf, c, parent, height,
                  done + [Row(hashOf(hs[0]), hs[0], SatInc(HeightAt(height, done, i)))], hs[1..])
  }

  function Batch(hashOf: Header -> Hash, ix: Index, p: Probe): seq<Row> {
    var a := FindAnchor(ix, p);
    if a.None? then []
    else LinkFrom(hashOf, p.checks, a.value.parent, a.value.height, [], p.reply[a.value.start..])
  }

  /** Whether the batch may start claiming active heights. */
  predicate ExtendsActive(ix: Index, tip: ChainTip, first: Row) {
    var parentHeight := SatSub(first.height, 1);
    if parentHeight in ix.active then ix.active[parentHeight] == first.header.prev
    else tip.hash == Some(first.header.prev)
         && parentHeight == (if tip.height.Some? then tip.height.value else 0)
  }

  predicate FreeIn(active: map<nat, Hash>, row: Row) {
    row.height in active ==> active[row.height] == row.hash
  }

  predicate Free(ix: Index, row: Row) {
    FreeIn(ix.active, row)
  }

  /** How many rows in front claim their height. */
  function Claims(ix: Index, tip: ChainTip, batch: seq<Row>): (k: nat)
    ensures k <= |batch|
  {
    if batch == [] || !ExtendsActive(ix, tip, batch[0]) then 0 else FreeRun(ix, batch)
  }

  function FreeRun(ix: Index, batch: seq<Row>): (k: nat)
    ensures k <= |batch|
  {
    if batch == [] || !Free(ix, batch[0]) then 0 else 1 + FreeRun(ix, batch[1..])
  }

  lemma {:induction false} FreeRunIsMaximal(ix: Index, batch: seq<Row>)
    ensures var k := FreeRun(ix, batch);
            (forall i :: 0 <= i < k ==> Free(ix, batch[i])) && (k < |batch| ==> !Free(ix, batch[k]))
  {
    if batch != [] && Free(ix, batch[0]) {
      FreeRunIsMaximal(ix, batch[1..]);
    }
  }

  /** The claiming rows extend the active chain onto free heights, and the next row does not. */
  lemma ClaimsAreMaximal(ix: Index, tip: ChainTip, batch: seq<Row>)
    ensures var k := Claims(ix, tip, batch);
            && (k > 0 ==> ExtendsActive(ix, tip, batch[0]))
            && (forall i :: 0 <= i < k ==> Free(ix, batch[i]))
            && (k < |batch| ==> !ExtendsActive(ix, tip, batch[0]) || !Free(ix, batch[k]))
  {
    FreeRunIsMaximal(ix, batch);
  }

  lemma ClaimStep(ix: Index, tip: ChainTip, batch: seq<Row>, j: nat)
    requires j < |batch| && j <= Claims(ix, tip, batch)
    ensures j < Claims(ix, tip, batch) <==> ExtendsActive(ix, tip, batch[0]) && Free(ix, batch[j])
  {
    ClaimsAreMaximal(ix, tip, batch);
  }

  function PutHeaders(m: map<Hash, Header>, rows: seq<Row>): map<Hash, Header> {
    if rows == [] then m
    else PutHeaders(m, rows[..|rows| - 1])[rows[|rows| - 1].hash := rows[|rows| - 1].header]
  }

  function PutHeights(m: map<Hash, nat>, rows: seq<Row>): map<Hash, nat> {
    if rows == [] then m
    else PutHeights(m, rows[..|rows| - 1])[rows[|rows| - 1].hash := rows[|rows| - 1].height]
  }

  /** A row does not displace another hash at its height. */
  function PutActive(m: map<nat, Hash>, rows: seq<Row>): map<nat, Hash> {
    if rows == [] then m
    else
      var before := PutActive(m, rows[..|rows| - 1]);
      var row := rows[|rows| - 1];
      if FreeIn(before, row) then before[row.height := row.hash] else before
  }

  /** `store_header` and `store_hash_height`: the active chain is not touched. */
  function StoreSide(ix: Index, rows: seq<Row>): Index {
    Index(ix.active, PutHeights(ix.heights, rows), PutHeaders(ix.headers, rows))
  }

  /** `store_headers_batch`. */
  function StoreActive(ix: Index, rows: seq<Row>): Index {
    Index(PutActive(ix.active, rows), PutHeights(ix.heights, rows), PutHeaders(ix.headers, rows))
  }

  function StoreBatch(ix: Index, tip: ChainTip, batch: seq<Row>): Index {
    var k := Claims(ix, tip, batch);
    StoreActive(StoreSide(ix, batch[k..]), batch[..k])
  }

  /** The index after one probe. */
  function ProbeIndex(hashOf: Header -> Hash, ix: Index, tip: ChainTip, p: Probe): Index {
    StoreBatch(ix, tip, Batch(hashOf, ix, p))
  }

  datatype Report = Report(stored: nat, lastHeight: Option<nat>, missingBodies: seq<Hash>,
                           forksBeforeTip: bool, disconnectFrom: Option<nat>, heavierTip: Option<Hash>)

  const NoReport := Report(0, None, [], false, None, None)

  function MissingBodies(hasBody: Hash -> bool, batch: seq<Row>): seq<Hash> {
    if batch == [] then []
    else
      var front := MissingBodies(hasBody, batch[..|batch| - 1]);
      var last := batch[|batch| - 1].hash;
      if hasBody(last) then front else front + [last]
  }

  predicate PassesThrough(batch: seq<Row>, tipHash: Hash) {
    exists i :: 0 <= i < |batch| && (batch[i].hash == tipHash || batch[i].header.prev == tipHash)
  }

  function DisconnectFrom(ix: Index, tip: ChainTip, batch: seq<Row>): Option<nat> {
    var k := Claims(ix, tip, batch);
    if k < |batch| then Some(batch[k].height) else None
  }

  function ReportOf(ix: Index, tip: ChainTip, tipHash: Hash, batch: seq<Row>,
                    hasBody: Hash -> bool, heavier: Hash -> bool): Report
  {
    if batch == [] then NoReport
    else
      var last := batch[|batch| - 1];
      Report(|batch|, Some(last.height), MissingBodies(hasBody, batch), !PassesThrough(batch, tipHash),
             DisconnectFrom(ix, tip, batch), if heavier(last.hash) then Some(last.hash) else None)
  }

  // ---------------------------------------------------------------------------
  // The probe as the node runs it
  // ---------------------------------------------------------------------------

  class BlockIndex {
    var active: map<nat, Hash>
    var heights: map<Hash, nat>
    var headers: map<Hash, Header>
    var tip: ChainTip

    ghost function View(): Index
      reads this
    {
      Index(active, heights, headers)
    }

    method AnchorOf(p: Probe) returns (a: Option<Anchor>)
      ensures a == FindAnchor(View(), p)
    {
      var i := 0;
      while i < |p.reply|
        invariant 0 <= i <= |p.reply|
        invariant FindAnchor(View(), p) == FindAnchor(View(), p, i)
      {
        if p.reply[i].prev == p.tipHash {
          return Some(Anchor(i, p.tipHash, p.localHeight));
        }
        if p.reply[i].prev in heights {
          return Some(Anchor(i, p.reply[i].prev, heights[p.reply[i].prev]));
        }
        i := i + 1;
      }
      a := None;
    }

    method LinkedPrefix(hashOf: Header -> Hash, c: Checks, a: Anchor, reply: seq<Header>) returns (batch: seq<Row>)
      requires a.start <= |reply|
      ensures batch == LinkFrom(hashOf, c, a.parent, a.height, [], reply[a.start..])
    {
      batch := [];
      var pending: seq<Pending> := [];
      var parent, height := a.parent, a.height;
      var i := a.start;
      while i < |reply|
        invariant a.start <= i <= |reply|
        invariant parent == ParentAt(a.parent, batch, |batch|)
        invariant height == HeightAt(a.height, batch, |batch|)
        invariant pending == PendingOf(batch)
        invariant LinkFrom(hashOf, c, a.parent, a.height, [], reply[a.start..])
                  == LinkFrom(hashOf, c, a.parent, a.height, batch, reply[i..])
      {
        var header := reply[i];
        var next := SatInc(height);
        if !Accepts(c, parent, next, pending, header) {
          return;
        }
        height := next;
        pending := pending + [Pending(height, header.bits, header.timestamp)];
        batch := batch + [Row(hashOf(header), header, height)];
        parent := hashOf(header);
        assert reply[i..][1..] == reply[i + 1..];
        i := i + 1;
      }
    }

    method StoreHeadersBatch(rows: seq<Row>)
      modifies `active, `heights, `headers
      ensures View() == StoreActive(old(View()), rows)
    {
      ghost var ix := View();
      var i := 0;
      while i < |rows|
        invariant 0 <= i <= |rows|
        invariant View() == StoreActive(ix, rows[..i])
      {
        var row := rows[i];
        assert rows[..i + 1] == rows[..i] + [row];
        if row.height !in active || active[row.height] == row.hash {
          active := active[row.height := row.hash];
        }
        headers := headers[row.hash := row.header];
        heights := heights[row.hash := row.height];
        i := i + 1;
      }
      assert rows[..|rows|] == rows;
    }

    /** Splits the batch: rows that extend the active chain are kept back, the others are stored by hash. */
    method SplitRows(batch: seq<Row>) returns (onActive: seq<Row>, disconnectFrom: Option<nat>)
      modifies `heights, `headers
      ensures onActive == batch[..Claims(old(View()), tip, batch)]
      ensures View() == StoreSide(old(View()), batch[Claims(old(View()), tip, batch)..])
      ensures disconnectFrom == DisconnectFrom(old(View()), tip, batch)
    {
      ghost var ix := View();
      ghost var k := Claims(ix, tip, batch);
      var extending := |batch| > 0 && ExtendsActive(Index(active, heights, headers), tip, batch[0]);
      ghost var front := extending;
      ghost var side: seq<Row> := [];
      onActive, disconnectFrom := [], None;
      var j := 0;
      while j < |batch|
        invariant 0 <= j <= |batch|
        invariant extending == (front && j <= k)
        invariant j <= k ==> onActive == batch[..j] && side == []
        invariant j > k ==> onActive == batch[..k] && side == batch[k..j]
        invariant View() == StoreSide(ix, side)
        invariant disconnectFrom == if j <= k then None else Some(batch[k].height)
      {
        var row := batch[j];
        if j <= k {
          ClaimStep(ix, tip, batch, j);
        }
        if extending && (row.height !in active || active[row.height] == row.hash) {
          assert batch[..j + 1] == batch[..j] + [row];
          onActive := onActive + [row];
        } else {
          assert batch[k..j + 1] == batch[k..j] + [row];
          if disconnectFrom.None? {
            disconnectFrom := Some(row.height);
          }
          extending := false;
          side := side + [row];
          headers := headers[row.hash := row.header];
          heights := heights[row.hash := row.height];
        }
        j := j + 1;
      }
      assert batch[..j] == batch && batch[k..j] == batch[k..];
    }

    /** `store_headers_linking_to_tip`. */
    method StoreHeadersLinkingToTip(hashOf: Header -> Hash, p: Probe, hasBody: Hash -> bool, heavier: Hash -> bool)
      returns (report: Report)
      modifies `active, `heights, `headers
      ensures View() == ProbeIndex(hashOf, old(View()), tip, p)
      ensures report == ReportOf(old(View()), tip, p.tipHash, Batch(hashOf, old(View()), p), hasBody, heavier)
    {
      var anchor := AnchorOf(p);
      if anchor.None? {
        return NoReport;
      }
      var batch := LinkedPrefix(hashOf, p.checks, anchor.value, p.reply);
      if |batch| == 0 {
        return NoReport;
      }
      var onActive, disconnectFrom := SplitRows(batch);
      StoreHeadersBatch(onActive);
      var last := batch[|batch| - 1];
      report := Report(|batch|, Some(last.height), MissingBodies(hasBody, batch), !PassesThrough(batch, p.tipHash),
                       disconnectFrom, if heavier(last.hash) then Some(last.hash) else None);
    }
  }
}
