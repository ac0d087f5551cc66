/**
 What every probe keeps, however many replies arrive: the active index stays one
 parent-linked chain, an occupied height never changes hash, each batch splits into an
 active front and a side rest, and every indexed height is the block's true depth.
 */
module HeaderChain {
  import opened Prelude
  import opened HeaderProbe

  /** No two headers of `u`, the headers ever stored or received, share a hash. */
  ghost predicate CollisionFree(hashOf: Header -> Hash, u: iset<Header>) {
    forall x, y :: x in u && y in u && hashOf(x) == hashOf(y) ==> x == y
  }

  /** Stored headers are genuine and every active hash has its header. */
  ghost predicate Sound(hashOf: Header -> Hash, u: iset<Header>, ix: Index) {
    && (forall h :: h in ix.headers ==> ix.headers[h] in u && hashOf(ix.headers[h]) == h)
    && (forall n :: n in ix.active ==> ix.active[n] in ix.headers)
  }

  /** The active heights are 0, 1, .. without a gap. */
  ghost predicate Contiguous(ix: Index) {
    forall n, m: nat :: n in ix.active && m < n ==> m in ix.active
  }

  /** The active block at height `n`, if it and the one below are indexed, is the child of the one below. */
  ghost predicate LinkedAt(ix: Index, n: nat) {
    n in ix.active && n > 0 && n - 1 in ix.active ==>
      ix.active[n] in ix.headers && ix.headers[ix.active[n]].prev == ix.active[n - 1]
  }

  ghost predicate Linked(ix: Index) {
    forall n: nat :: LinkedAt(ix, n)
  }

  ghost predicate ChainInv(hashOf: Header -> Hash, u: iset<Header>, ix: Index) {
    Sound(hashOf, u, ix) && Contiguous(ix) && Linked(ix)
  }

  /** The rows at hand are genuine rows of `u` on consecutive heights. */
  ghost predicate Rows(hashOf: Header -> Hash, u: iset<Header>, rows: seq<Row>) {
    && (forall i :: 0 <= i < |rows| ==> rows[i].header in u && rows[i].hash == hashOf(rows[i].header))
    && (forall i :: 0 <= i < |rows| ==> rows[i].height == rows[0].height + i)
  }

  predicate Follows(batch: seq<Row>, i: nat)
    requires 1 <= i < |batch|
  {
    batch[i].header.prev == batch[i - 1].hash
  }

  /** The batch is a chain on consecutive heights above genesis. */
  ghost predicate LinkedRows(hashOf: Header -> Hash, u: iset<Header>, batch: seq<Row>) {
    && Rows(hashOf, u, batch)
    && (batch != [] ==> batch[0].height > 0)
    && (forall i :: 1 <= i < |batch| ==> Follows(batch, i))
  }

  /** The row is active at its height. */
  predicate IsActive(ix: Index, row: Row) {
    row.height in ix.active && ix.active[row.height] == row.hash
  }

  // ---------------------------------------------------------------------------
  // The linked prefix
  // ---------------------------------------------------------------------------

  lemma ChainSnoc(hashOf: Header -> Hash, parent: Hash, height: nat, rows: seq<Row>, h: Header)
    requires IsChain(hashOf, parent, height, rows) && h.prev == ParentAt(parent, rows, |rows|)
    ensures IsChain(hashOf, parent, height, rows + [Row(hashOf(h), h, SatInc(HeightAt(height, rows, |rows|)))])
  {
    var more := rows + [Row(hashOf(h), h, SatInc(HeightAt(height, rows, |rows|)))];
    forall j | 0 <= j < |more| ensures Hangs(hashOf, parent, height, more, j) {
      if j < |rows| {
        assert Hangs(hashOf, parent, height, rows, j);
      }
    }
  }

  /** The cut is a linked chain of headers from the front of the reply. */
  lemma {:induction false} LinkFromIsChain(hashOf: Header -> Hash, c: Checks, parent: Hash, height: nat,
                                           done: seq<Row>, hs: seq<Header>)
    requires IsChain(hashOf, parent, height, done)
    ensures var b := LinkFrom(hashOf, c, parent, height, done, hs);
            && IsChain(hashOf, parent, height, b)
            && |done| <= |b| <= |done| + |hs| && b[..|done|] == done
            && (forall i :: |done| <= i < |b| ==> b[i].header == hs[i - |done|])
    decreases hs
  {
    var next := SatInc(HeightAt(height, done, |done|));
    if hs != [] && Accepts(c, ParentAt(parent, done, |done|), next, PendingOf(done), hs[0]) {
      var more := done + [Row(hashOf(hs[0]), hs[0], next)];
      ChainSnoc(hashOf, parent, height, done, hs[0]);
      LinkFromIsChain(hashOf, c, parent, height, more, hs[1..]);
      var b := LinkFrom(hashOf, c, parent, height, more, hs[1..]);
      assert b[..|done|] == b[..|more|][..|done|];
      assert b[|done|] == b[..|more|][|done|];
    }
  }

  predicate AcceptedAt(c: Checks, parent: Hash, batch: seq<Row>, i: nat)
    requires i < |batch|
  {
    Accepts(c, ParentAt(parent, batch, i), batch[i].height, PendingOf(batch[..i]), batch[i].header)
  }

  /** Every header of the cut passes the rules given the ones before it, and the next header of the reply does not. */
  lemma {:induction false} LinkFromIsLongest(hashOf: Header -> Hash, c: Checks, parent: Hash, height: nat,
                                             done: seq<Row>, hs: seq<Header>)
    requires IsChain(hashOf, parent, height, done)
    ensures var b := LinkFrom(hashOf, c, parent, height, done, hs);
            && |done| <= |b| <= |done| + |hs|
            && (forall i :: |done| <= i < |b| ==> AcceptedAt(c, parent, b, i))
            && (|b| < |done| + |hs| ==>
                  !Accepts(c, ParentAt(parent, b, |b|), SatInc(HeightAt(height, b, |b|)), PendingOf(b), hs[|b| - |done|]))
    decreases hs
  {
    var i := |done|;
    var next := SatInc(HeightAt(height, done, i));
    if hs != [] && Accepts(c, ParentAt(parent, done, i), next, PendingOf(done), hs[0]) {
      var more := done + [Row(hashOf(hs[0]), hs[0], next)];
      ChainSnoc(hashOf, parent, height, done, hs[0]);
      LinkFromIsLongest(hashOf, c, parent, height, more, hs[1..]);
      var b := LinkFrom(hashOf, c, parent, height, more, hs[1..]);
      assert b[..|more|] == more by {
        LinkFromIsChain(hashOf, c, parent, height, more, hs[1..]);
      }
      assert b[i] == b[..|more|][i];
      assert b[..i] == b[..|more|][..i] == done;
      assert AcceptedAt(c, parent, b, i) by {
        assert i > 0 ==> b[i - 1] == b[..i][i - 1];
      }
    }
  }

  /** A probe whose heights stay below the 64-bit top. */
  ghost predicate Fits(ix: Index, p: Probe) {
    var a := FindAnchor(ix, p);
    a.Some? ==> a.value.height + |p.reply| <= U64_MAX
  }

  ghost predicate ReplyIn(u: iset<Header>, p: Probe) {
    forall i :: 0 <= i < |p.reply| ==> p.reply[i] in u
  }

  lemma {:induction false} ChainHeights(hashOf: Header -> Hash, parent: Hash, height: nat, batch: seq<Row>, n: nat)
    requires IsChain(hashOf, parent, height, batch) && height + |batch| <= U64_MAX && n <= |batch|
    ensures forall i :: 0 <= i < n ==> batch[i].height == height + 1 + i
  {
    if n > 0 {
      ChainHeights(hashOf, parent, height, batch, n - 1);
      assert Hangs(hashOf, parent, height, batch, n - 1);
    }
  }

  lemma ChainIsLinkedRows(hashOf: Header -> Hash, u: iset<Header>, parent: Hash, height: nat, batch: seq<Row>)
    requires IsChain(hashOf, parent, height, batch) && height + |batch| <= U64_MAX
    requires forall i :: 0 <= i < |batch| ==> batch[i].header in u
    ensures LinkedRows(hashOf, u, batch) && (batch != [] ==> batch[0].height == height + 1)
  {
    ChainHeights(hashOf, parent, height, batch, |batch|);
    forall i | 1 <= i < |batch| ensures Follows(batch, i) {
      assert Hangs(hashOf, parent, height, batch, i);
    }
    forall i | 0 <= i < |batch| ensures batch[i].hash == hashOf(batch[i].header) {
      assert Hangs(hashOf, parent, height, batch, i);
    }
  }

  lemma BatchRows(hashOf: Header -> Hash, u: iset<Header>, ix: Index, p: Probe)
    requires ReplyIn(u, p) && Fits(ix, p)
    ensures var b := Batch(hashOf, ix, p);
            && LinkedRows(hashOf, u, b)
            && (b != [] ==> FindAnchor(ix, p).Some? && b[0].height == FindAnchor(ix, p).value.height + 1
                            && IsChain(hashOf, FindAnchor(ix, p).value.parent, FindAnchor(ix, p).value.height, b))
  {
    var a := FindAnchor(ix, p);
    if a.Some? {
      var Anchor(start, parent, height) := a.value;
      LinkFromIsChain(hashOf, p.checks, parent, height, [], p.reply[start..]);
      ChainIsLinkedRows(hashOf, u, parent, height, Batch(hashOf, ix, p));
    }
  }

  // ---------------------------------------------------------------------------
  // The maps after a batch
  // ---------------------------------------------------------------------------

  ghost predicate Genuine(hashOf: Header -> Hash, u: iset<Header>, m: map<Hash, Header>) {
    forall h :: h in m ==> m[h] in u && hashOf(m[h]) == h
  }

  lemma {:induction false} HeadersAfter(hashOf: Header -> Hash, u: iset<Header>, m: map<Hash, Header>, rows: seq<Row>)
    requires Genuine(hashOf, u, m) && CollisionFree(hashOf, u)
    requires forall i :: 0 <= i < |rows| ==> rows[i].header in u && rows[i].hash == hashOf(rows[i].header)
    ensures var r := PutHeaders(m, rows);
            && Genuine(hashOf, u, r)
            && (forall h :: h in m ==> h in r && r[h] == m[h])
            && (forall i :: 0 <= i < |rows| ==> rows[i].hash in r && r[rows[i].hash] == rows[i].header)
  {
    if rows != [] {
      HeadersAfter(hashOf, u, m, rows[..|rows| - 1]);
    }
  }

  lemma {:induction false} ActiveAfter(m: map<nat, Hash>, rows: seq<Row>)
    requires forall i :: 0 <= i < |rows| ==> rows[i].height == rows[0].height + i && FreeIn(m, rows[i])
    ensures var r := PutActive(m, rows);
            && (forall n :: n in m ==> n in r && r[n] == m[n])
            && (forall i :: 0 <= i < |rows| ==> rows[i].height in r && r[rows[i].height] == rows[i].hash)
            && (forall n :: n in r ==> n in m || (rows != [] && rows[0].height <= n < rows[0].height + |rows|))
  {
    if rows != [] {
      ActiveAfter(m, rows[..|rows| - 1]);
    }
  }

  /** What a batch leaves in the three maps, row by row: `k` rows claim their height. */
  ghost predicate Shape(ix: Index, batch: seq<Row>, k: nat, r: Index)
    requires k <= |batch|
  {
    && (forall h :: h in ix.headers ==> h in r.headers && r.headers[h] == ix.headers[h])
    && (forall i :: 0 <= i < |batch| ==> batch[i].hash in r.headers && r.headers[batch[i].hash] == batch[i].header)
    && (forall n :: n in ix.active ==> n in r.active && r.active[n] == ix.active[n])
    && (forall i :: 0 <= i < k ==> IsActive(r, batch[i]))
    && (forall n :: n in r.active ==> n in ix.active || (k > 0 && batch[0].height <= n < batch[0].height + k))
  }

  lemma HeadersAfterBatch(hashOf: Header -> Hash, u: iset<Header>, ix: Index, tip: ChainTip, batch: seq<Row>)
    requires Sound(hashOf, u, ix) && CollisionFree(hashOf, u) && Rows(hashOf, u, batch)
    ensures var r := StoreBatch(ix, tip, batch);
            && Genuine(hashOf, u, r.headers)
            && (forall h :: h in ix.headers ==> h in r.headers && r.headers[h] == ix.headers[h])
            && (forall i :: 0 <= i < |batch| ==> batch[i].hash in r.headers && r.headers[batch[i].hash] == batch[i].header)
  {
    var k := Claims(ix, tip, batch);
    var side := PutHeaders(ix.headers, batch[k..]);
    HeadersAfter(hashOf, u, ix.headers, batch[k..]);
    HeadersAfter(hashOf, u, side, batch[..k]);
    var r := PutHeaders(side, batch[..k]);
    assert forall i :: 0 <= i < |batch[..k]| ==> batch[..k][i] == batch[i] && batch[i].hash in r;
    forall i | k <= i < |batch| ensures batch[i].hash in r && r[batch[i].hash] == batch[i].header {
      var row := batch[k..][i - k];
      assert row.hash in side && side[row.hash] == row.header;
    }
  }

  lemma ActiveAfterBatch(hashOf: Header -> Hash, u: iset<Header>, ix: Index, tip: ChainTip, batch: seq<Row>)
    requires Rows(hashOf, u, batch)
    ensures var r := StoreBatch(ix, tip, batch);
            var k := Claims(ix, tip, batch);
            && (forall n :: n in ix.active ==> n in r.active && r.active[n] == ix.active[n])
            && (forall i :: 0 <= i < k ==> IsActive(r, batch[i]))
            && (forall n :: n in r.active ==> n in ix.active || (k > 0 && batch[0].height <= n < batch[0].height + k))
  {
    var k := Claims(ix, tip, batch);
    ClaimsAreMaximal(ix, tip, batch);
    var claimed := batch[..k];
    forall i | 0 <= i < k ensures claimed[i].height == claimed[0].height + i && FreeIn(ix.active, claimed[i]) {
      assert Free(ix, batch[i]);
    }
    ActiveAfter(ix.active, claimed);
    forall i | 0 <= i < k ensures IsActive(StoreBatch(ix, tip, batch), batch[i]) {
      assert claimed[i] == batch[i];
    }
  }

  lemma BatchShape(hashOf: Header -> Hash, u: iset<Header>, ix: Index, tip: ChainTip, batch: seq<Row>)
    requires Sound(hashOf, u, ix) && CollisionFree(hashOf, u) && Rows(hashOf, u, batch)
    ensures Shape(ix, batch, Claims(ix, tip, batch), StoreBatch(ix, tip, batch))
    ensures Sound(hashOf, u, StoreBatch(ix, tip, batch))
  {
    HeadersAfterBatch(hashOf, u, ix, tip, batch);
    ActiveAfterBatch(hashOf, u, ix, tip, batch);
    var r := StoreBatch(ix, tip, batch);
    forall n | n in r.active ensures r.active[n] in r.headers {
      if n !in ix.active {
        assert IsActive(r, batch[n - batch[0].height]);
      }
    }
  }

  // ---------------------------------------------------------------------------
  // One chain, kept by every probe
  // ---------------------------------------------------------------------------

  /** The chain tip is the parent of the batch, but its row is missing from the height index. */
  predicate TipRowMissing(ix: Index, tip: ChainTip, batch: seq<Row>) {
    batch != [] && ExtendsActive(ix, tip, batch[0]) && SatSub(batch[0].height, 1) !in ix.active
  }

  predicate TipIndexed(ix: Index, tip: ChainTip) {
    tip.hash.Some? ==> tip.height.Some? && tip.height.value in ix.active && ix.active[tip.height.value] == tip.hash.value
  }

  lemma TipIndexedHasItsRow(ix: Index, tip: ChainTip, batch: seq<Row>)
    requires TipIndexed(ix, tip)
    ensures !TipRowMissing(ix, tip, batch)
  {
  }

  lemma LinkedAtAfter(hashOf: Header -> Hash, u: iset<Header>, ix: Index, tip: ChainTip, batch: seq<Row>, n: nat)
    requires ChainInv(hashOf, u, ix) && LinkedRows(hashOf, u, batch)
    requires Shape(ix, batch, Claims(ix, tip, batch), StoreBatch(ix, tip, batch))
    ensures LinkedAt(StoreBatch(ix, tip, batch), n)
  {
    var r := StoreBatch(ix, tip, batch);
    var k := Claims(ix, tip, batch);
    if n in r.active && n > 0 && n - 1 in r.active {
      if k > 0 && batch[0].height <= n < batch[0].height + k {
        var i := n - batch[0].height;
        assert IsActive(r, batch[i]);
        if i > 0 {
          assert Follows(batch, i);
          assert IsActive(r, batch[i - 1]);
        } else {
          ClaimsAreMaximal(ix, tip, batch);
        }
      } else {
        assert LinkedAt(ix, n);
      }
    }
  }

  /** Building on a tip without a row leaves a gap at the tip's height. */
  lemma MissingTipRowLeavesGap(hashOf: Header -> Hash, u: iset<Header>, ix: Index, tip: ChainTip, batch: seq<Row>)
    requires ChainInv(hashOf, u, ix) && CollisionFree(hashOf, u) && LinkedRows(hashOf, u, batch)
    requires TipRowMissing(ix, tip, batch)
    ensures !Contiguous(StoreBatch(ix, tip, batch))
  {
    var low := batch[0].height;
    assert low !in ix.active && Free(ix, batch[0]);
    ClaimStep(ix, tip, batch, 0);
    ActiveAfterBatch(hashOf, u, ix, tip, batch);
    assert IsActive(StoreBatch(ix, tip, batch), batch[0]);
    assert low - 1 !in StoreBatch(ix, tip, batch).active;
  }

  lemma BatchKeepsContiguous(hashOf: Header -> Hash, u: iset<Header>, ix: Index, tip: ChainTip, batch: seq<Row>)
    requires ChainInv(hashOf, u, ix) && CollisionFree(hashOf, u) && LinkedRows(hashOf, u, batch)
    requires !TipRowMissing(ix, tip, batch)
    ensures Contiguous(StoreBatch(ix, tip, batch))
  {
    ActiveAfterBatch(hashOf, u, ix, tip, batch);
    var r := StoreBatch(ix, tip, batch);
    var k := Claims(ix, tip, batch);
    if k > 0 {
      var low := batch[0].height;
      assert low - 1 in ix.active by {
        ClaimsAreMaximal(ix, tip, batch);
      }
      forall n, m: nat | n in r.active && m < n ensures m in r.active {
        if low <= m < low + k {
          assert IsActive(r, batch[m - low]);
        } else if n !in ix.active {
          assert m <= low - 1;
        }
      }
    }
  }

  /**
   A probe never changes an occupied height and keeps parent links.  It keeps the index
   free of gaps exactly when it does not build on a tip whose row is missing.
   */
  lemma BatchKeepsChain(hashOf: Header -> Hash, u: iset<Header>, ix: Index, tip: ChainTip, batch: seq<Row>)
    requires ChainInv(hashOf, u, ix) && CollisionFree(hashOf, u) && LinkedRows(hashOf, u, batch)
    ensures var r := StoreBatch(ix, tip, batch);
            && Sound(hashOf, u, r) && Linked(r)
            && (forall n :: n in ix.active ==> n in r.active && r.active[n] == ix.active[n])
            && (Contiguous(r) <==> !TipRowMissing(ix, tip, batch))
  {
    BatchShape(hashOf, u, ix, tip, batch);
    forall n: nat ensures LinkedAt(StoreBatch(ix, tip, batch), n) {
      LinkedAtAfter(hashOf, u, ix, tip, batch, n);
    }
    if TipRowMissing(ix, tip, batch) {
      MissingTipRowLeavesGap(hashOf, u, ix, tip, batch);
    } else {
      BatchKeepsContiguous(hashOf, u, ix, tip, batch);
    }
  }

  /** `BatchKeepsChain` for the batch a probe cuts, with the tip's row present. */
  lemma ProbeKeepsChain(hashOf: Header -> Hash, u: iset<Header>, ix: Index, tip: ChainTip, p: Probe)
    requires ChainInv(hashOf, u, ix) && CollisionFree(hashOf, u) && TipIndexed(ix, tip)
    requires ReplyIn(u, p) && Fits(ix, p)
    ensures var r := ProbeIndex(hashOf, ix, tip, p);
            && ChainInv(hashOf, u, r) && TipIndexed(r, tip)
            && (forall n :: n in ix.active ==> n in r.active && r.active[n] == ix.active[n])
  {
    BatchRows(hashOf, u, ix, p);
    var b := Batch(hashOf, ix, p);
    BatchKeepsChain(hashOf, u, ix, tip, b);
    TipIndexedHasItsRow(ix, tip, b);
  }

  // ---------------------------------------------------------------------------
  // Active front, side rest
  // ---------------------------------------------------------------------------

  /** If row `i` of the batch were active, so would be the row before it, back to the first. */
  lemma {:induction false} ActiveRowsReachBack(hashOf: Header -> Hash, u: iset<Header>, ix: Index, batch: seq<Row>, i: nat)
    requires ChainInv(hashOf, u, ix) && CollisionFree(hashOf, u) && LinkedRows(hashOf, u, batch)
    requires i < |batch| && IsActive(ix, batch[i])
    ensures forall j :: 0 <= j <= i ==> IsActive(ix, batch[j])
    ensures batch[0].height - 1 in ix.active && ix.active[batch[0].height - 1] == batch[0].header.prev
  {
    assert ix.headers[batch[i].hash] == batch[i].header;
    assert LinkedAt(ix, batch[i].height);
    if i > 0 {
      assert Follows(batch, i);
      assert IsActive(ix, batch[i - 1]);
      ActiveRowsReachBack(hashOf, u, ix, batch, i - 1);
    }
  }

  /**
   The rows before `Claims` are active after the probe and the rows from there on are
   not, whether or not their height was occupied: `disconnectFrom` is the least batch
   height off the active chain.
   */
  lemma BatchSplits(hashOf: Header -> Hash, u: iset<Header>, ix: Index, tip: ChainTip, batch: seq<Row>)
    requires ChainInv(hashOf, u, ix) && CollisionFree(hashOf, u) && LinkedRows(hashOf, u, batch)
    ensures var r := StoreBatch(ix, tip, batch);
            var d := DisconnectFrom(ix, tip, batch);
            forall i :: 0 <= i < |batch| ==> (IsActive(r, batch[i]) <==> (d.None? || batch[i].height < d.value))
  {
    BatchShape(hashOf, u, ix, tip, batch);
    var r := StoreBatch(ix, tip, batch);
    var k := Claims(ix, tip, batch);
    forall i | k <= i < |batch| ensures !IsActive(r, batch[i]) {
      if IsActive(r, batch[i]) {
        assert batch[i].height in ix.active;
        ActiveRowsReachBack(hashOf, u, ix, batch, i);
        assert IsActive(ix, batch[k]);
        ClaimStep(ix, tip, batch, k);
      }
    }
  }

  /** `BatchSplits` for the batch a probe cuts; the tip's row may be missing. */
  lemma ProbeSplitsBatch(hashOf: Header -> Hash, u: iset<Header>, ix: Index, tip: ChainTip, p: Probe)
    requires ChainInv(hashOf, u, ix) && CollisionFree(hashOf, u) && ReplyIn(u, p) && Fits(ix, p)
    ensures var b := Batch(hashOf, ix, p);
            var r := ProbeIndex(hashOf, ix, tip, p);
            var d := DisconnectFrom(ix, tip, b);
            && (forall i :: 0 <= i < |b| ==> (IsActive(r, b[i]) <==> (d.None? || b[i].height < d.value)))
            && (d.Some? ==> exists i :: 0 <= i < |b| && b[i].height == d.value)
  {
    BatchRows(hashOf, u, ix, p);
    var b := Batch(hashOf, ix, p);
    BatchSplits(hashOf, u, ix, tip, b);
    if DisconnectFrom(ix, tip, b).Some? {
      assert b[Claims(ix, tip, b)].height == DisconnectFrom(ix, tip, b).value;
    }
  }

  // ---------------------------------------------------------------------------
  // Heights are true depths
  // ---------------------------------------------------------------------------

  /** `depth` counts parents from the genesis header `g` on: any other header is one deeper than its parent. */
  ghost predicate DepthOf(hashOf: Header -> Hash, u: iset<Header>, g: Header, depth: Hash -> nat) {
    depth(hashOf(g)) == 0 && forall x :: x in u && x != g ==> depth(hashOf(x)) == depth(x.prev) + 1
  }

  /** The genesis header has no parent: no header hashes to its parent field, and nothing is indexed under it. */
  ghost predicate Rooted(hashOf: Header -> Hash, u: iset<Header>, g: Header, ix: Index) {
    g.prev !in ix.heights && forall x :: x in u ==> hashOf(x) != g.prev
  }

  /** The probe names the tip's true height; the tip is a block, so not the parent of genesis. */
  ghost predicate TrueTip(g: Header, depth: Hash -> nat, p: Probe) {
    p.localHeight == Clamp(depth(p.tipHash)) && p.tipHash != g.prev
  }

  function Clamp(d: nat): nat {
    if d < U64_MAX then d else U64_MAX
  }

  /** Both indices record depths, up to the top of the 64-bit height. */
  ghost predicate TrueHeights(depth: Hash -> nat, ix: Index) {
    && (forall h :: h in ix.heights ==> ix.heights[h] == Clamp(depth(h)))
    && (forall n :: n in ix.active ==> n == Clamp(depth(ix.active[n])))
  }

  ghost predicate RowsAtDepth(depth: Hash -> nat, rows: seq<Row>) {
    forall i :: 0 <= i < |rows| ==> rows[i].height == Clamp(depth(rows[i].hash))
  }

  /** A chain on a parent other than genesis's never comes to the genesis header. */
  lemma NotGenesis(hashOf: Header -> Hash, u: iset<Header>, g: Header, parent: Hash, height: nat, batch: seq<Row>, i: nat)
    requires IsChain(hashOf, parent, height, batch) && i < |batch|
    requires forall j :: 0 <= j < |batch| ==> batch[j].header in u
    requires parent != g.prev && forall x :: x in u ==> hashOf(x) != g.prev
    ensures batch[i].header != g
  {
    assert Hangs(hashOf, parent, height, batch, i);
    if i > 0 {
      assert Hangs(hashOf, parent, height, batch, i - 1);
      assert hashOf(batch[i - 1].header) != g.prev;
    }
  }

  lemma {:induction false} ChainAtDepth(hashOf: Header -> Hash, u: iset<Header>, g: Header, depth: Hash -> nat,
                                        parent: Hash, height: nat, batch: seq<Row>, n: nat)
    requires IsChain(hashOf, parent, height, batch) && DepthOf(hashOf, u, g, depth) && n <= |batch|
    requires forall i :: 0 <= i < |batch| ==> batch[i].header in u
    requires parent != g.prev && forall x :: x in u ==> hashOf(x) != g.prev
    requires height == Clamp(depth(parent))
    ensures RowsAtDepth(depth, batch[..n])
  {
    if n > 0 {
      ChainAtDepth(hashOf, u, g, depth, parent, height, batch, n - 1);
      NotGenesis(hashOf, u, g, parent, height, batch, n - 1);
      assert Hangs(hashOf, parent, height, batch, n - 1);
      if n > 1 {
        assert batch[n - 2] == batch[..n - 1][n - 2];
      }
      forall i | 0 <= i < n ensures batch[..n][i].height == Clamp(depth(batch[..n][i].hash)) {
        if i < n - 1 {
          assert batch[..n][i] == batch[..n - 1][i];
        }
      }
    }
  }

  lemma {:induction false} PutKeepsTrueHeights(depth: Hash -> nat, ix: Index, rows: seq<Row>)
    requires TrueHeights(depth, ix) && RowsAtDepth(depth, rows)
    ensures TrueHeights(depth, StoreSide(ix, rows)) && TrueHeights(depth, StoreActive(ix, rows))
  {
    if rows != [] {
      PutKeepsTrueHeights(depth, ix, rows[..|rows| - 1]);
    }
  }

  lemma BatchAtDepth(hashOf: Header -> Hash, u: iset<Header>, g: Header, depth: Hash -> nat, ix: Index, p: Probe)
    requires DepthOf(hashOf, u, g, depth) && Rooted(hashOf, u, g, ix) && TrueHeights(depth, ix)
    requires ReplyIn(u, p) && TrueTip(g, depth, p)
    ensures RowsAtDepth(depth, Batch(hashOf, ix, p))
  {
    var a := FindAnchor(ix, p);
    if a.Some? {
      var Anchor(start, parent, height) := a.value;
      LinkFromIsChain(hashOf, p.checks, parent, height, [], p.reply[start..]);
      var b := Batch(hashOf, ix, p);
      ChainAtDepth(hashOf, u, g, depth, parent, height, b, |b|);
      assert b[..|b|] == b;
    }
  }

  lemma {:induction false} PutKeepsUnindexed(hashOf: Header -> Hash, u: iset<Header>, h: Hash, m: map<Hash, nat>, rows: seq<Row>)
    requires h !in m && forall x :: x in u ==> hashOf(x) != h
    requires forall i :: 0 <= i < |rows| ==> rows[i].header in u && rows[i].hash == hashOf(rows[i].header)
    ensures h !in PutHeights(m, rows)
  {
    if rows != [] {
      PutKeepsUnindexed(hashOf, u, h, m, rows[..|rows| - 1]);
    }
  }

  /** A probe indexes hashes of headers only, so the index stays rooted in genesis. */
  lemma ProbeKeepsRooted(hashOf: Header -> Hash, u: iset<Header>, g: Header, ix: Index, tip: ChainTip, p: Probe)
    requires Rooted(hashOf, u, g, ix) && ReplyIn(u, p)
    ensures Rooted(hashOf, u, g, ProbeIndex(hashOf, ix, tip, p))
  {
    var a := FindAnchor(ix, p);
    var b := Batch(hashOf, ix, p);
    if a.Some? {
      var Anchor(start, parent, height) := a.value;
      LinkFromIsChain(hashOf, p.checks, parent, height, [], p.reply[start..]);
      forall i | 0 <= i < |b| ensures b[i].header in u && b[i].hash == hashOf(b[i].header) {
        assert Hangs(hashOf, parent, height, b, i);
      }
    }
    var k := Claims(ix, tip, b);
    PutKeepsUnindexed(hashOf, u, g.prev, ix.heights, b[k..]);
    PutKeepsUnindexed(hashOf, u, g.prev, StoreSide(ix, b[k..]).heights, b[..k]);
  }

  /** Heights stay true depths, so a child is always indexed one above its parent, active or side. */
  lemma ProbeKeepsTrueHeights(hashOf: Header -> Hash, u: iset<Header>, g: Header, depth: Hash -> nat, ix: Index, tip: ChainTip,
                              p: Probe)
    requires DepthOf(hashOf, u, g, depth) && Rooted(hashOf, u, g, ix) && TrueHeights(depth, ix)
    requires ReplyIn(u, p) && TrueTip(g, depth, p)
    ensures var r := ProbeIndex(hashOf, ix, tip, p);
            && TrueHeights(depth, r) && Rooted(hashOf, u, g, r)
            && (forall x :: x in u && hashOf(x) in r.heights && x.prev in r.heights ==>
                  r.heights[hashOf(x)] == SatInc(r.heights[x.prev]))
  {
    BatchAtDepth(hashOf, u, g, depth, ix, p);
    ProbeKeepsRooted(hashOf, u, g, ix, tip, p);
    var b := Batch(hashOf, ix, p);
    var k := Claims(ix, tip, b);
    PutKeepsTrueHeights(depth, ix, b[k..]);
    PutKeepsTrueHeights(depth, StoreSide(ix, b[k..]), b[..k]);
  }

  // ---------------------------------------------------------------------------
  // Whole runs of replies
  // ---------------------------------------------------------------------------

  /** One reply, with the chain tip as it is when the reply comes in. */
  datatype Turn = Turn(tip: ChainTip, probe: Probe)

  function AfterTurn(hashOf: Header -> Hash, ix: Index, turn: Turn): Index {
    ProbeIndex(hashOf, ix, turn.tip, turn.probe)
  }

  function RunProbes(hashOf: Header -> Hash, ix: Index, turns: seq<Turn>): Index
    decreases turns
  {
    if turns == [] then ix else RunProbes(hashOf, AfterTurn(hashOf, ix, turns[0]), turns[1..])
  }

  function TotalHeaders(turns: seq<Turn>): nat {
    if turns == [] then 0 else |turns[0].probe.reply| + TotalHeaders(turns[1..])
  }

  /** No height of the run reaches the 64-bit top: `b` bounds the heights now, and the replies are short enough. */
  ghost predicate Room(ix: Index, turns: seq<Turn>, b: nat) {
    && (forall h :: h in ix.heights ==> ix.heights[h] <= b)
    && (forall i :: 0 <= i < |turns| ==> turns[i].probe.localHeight <= b)
    && b + TotalHeaders(turns) <= U64_MAX
  }

  lemma {:induction false} HeightsBelow(m: map<Hash, nat>, rows: seq<Row>, b: nat)
    requires forall h :: h in m ==> m[h] <= b
    requires forall i :: 0 <= i < |rows| ==> rows[i].height <= b
    ensures forall h :: h in PutHeights(m, rows) ==> PutHeights(m, rows)[h] <= b
  {
    if rows != [] {
      HeightsBelow(m, rows[..|rows| - 1], b);
    }
  }

  lemma BatchBelow(hashOf: Header -> Hash, u: iset<Header>, ix: Index, p: Probe, b: nat)
    requires ReplyIn(u, p) && p.localHeight <= b && b + |p.reply| <= U64_MAX
    requires forall h :: h in ix.heights ==> ix.heights[h] <= b
    ensures Fits(ix, p)
    ensures forall i :: 0 <= i < |Batch(hashOf, ix, p)| ==> Batch(hashOf, ix, p)[i].height <= b + |p.reply|
  {
    var a := FindAnchor(ix, p);
    if a.Some? {
      var Anchor(start, parent, height) := a.value;
      LinkFromIsChain(hashOf, p.checks, parent, height, [], p.reply[start..]);
      var batch := Batch(hashOf, ix, p);
      ChainHeights(hashOf, parent, height, batch, |batch|);
    }
  }

  lemma ProbeLeavesRoom(hashOf: Header -> Hash, u: iset<Header>, ix: Index, turns: seq<Turn>, b: nat)
    requires turns != [] && Room(ix, turns, b) && ReplyIn(u, turns[0].probe)
    ensures Fits(ix, turns[0].probe)
    ensures Room(AfterTurn(hashOf, ix, turns[0]), turns[1..], b + |turns[0].probe.reply|)
  {
    var Turn(tip, p) := turns[0];
    assert turns[0].probe.localHeight <= b;
    BatchBelow(hashOf, u, ix, p, b);
    var batch := Batch(hashOf, ix, p);
    var k := Claims(ix, tip, batch);
    HeightsBelow(ix.heights, batch[k..], b + |p.reply|);
    HeightsBelow(PutHeights(ix.heights, batch[k..]), batch[..k], b + |p.reply|);
  }

  /** Each tip is indexed at its turn. */
  ghost predicate TipsIndexed(hashOf: Header -> Hash, ix: Index, turns: seq<Turn>)
    decreases turns
  {
    turns == [] || (TipIndexed(ix, turns[0].tip) && TipsIndexed(hashOf, AfterTurn(hashOf, ix, turns[0]), turns[1..]))
  }

  /** No batch is claimed on top of a tip whose own row is missing. */
  ghost predicate RowsThere(hashOf: Header -> Hash, ix: Index, turns: seq<Turn>)
    decreases turns
  {
    turns == []
    || (!TipRowMissing(ix, turns[0].tip, Batch(hashOf, ix, turns[0].probe)) && RowsThere(hashOf, AfterTurn(hashOf, ix, turns[0]), turns[1..]))
  }

  /** The index is one chain after every turn. */
  ghost predicate ChainThroughout(hashOf: Header -> Hash, u: iset<Header>, ix: Index, turns: seq<Turn>)
    decreases turns
  {
    ChainInv(hashOf, u, ix) && (turns == [] || ChainThroughout(hashOf, u, AfterTurn(hashOf, ix, turns[0]), turns[1..]))
  }

  /**
   Over any sequence of replies and tips, the active index is one gap-free parent-linked chain
   after every turn exactly if no batch is claimed on top of a tip without its row, and then no
   hash on it ever changes.
   */
  lemma {:induction false} RunKeepsChainIff(hashOf: Header -> Hash, u: iset<Header>, ix: Index, turns: seq<Turn>, b: nat)
    requires ChainInv(hashOf, u, ix) && CollisionFree(hashOf, u) && Room(ix, turns, b)
    requires forall i :: 0 <= i < |turns| ==> ReplyIn(u, turns[i].probe)
    ensures ChainThroughout(hashOf, u, ix, turns) <==> RowsThere(hashOf, ix, turns)
    ensures RowsThere(hashOf, ix, turns) ==>
              var r := RunProbes(hashOf, ix, turns);
              ChainInv(hashOf, u, r) && forall n :: n in ix.active ==> n in r.active && r.active[n] == ix.active[n]
    decreases turns
  {
    if turns != [] {
      var Turn(tip, p) := turns[0];
      assert ReplyIn(u, turns[0].probe);
      ProbeLeavesRoom(hashOf, u, ix, turns, b);
      BatchRows(hashOf, u, ix, p);
      BatchKeepsChain(hashOf, u, ix, tip, Batch(hashOf, ix, p));
      if !TipRowMissing(ix, tip, Batch(hashOf, ix, p)) {
        RunKeepsChainIff(hashOf, u, AfterTurn(hashOf, ix, turns[0]), turns[1..], b + |p.reply|);
      }
    }
  }

  lemma {:induction false} TipsIndexedHaveRows(hashOf: Header -> Hash, ix: Index, turns: seq<Turn>)
    requires TipsIndexed(hashOf, ix, turns)
    ensures RowsThere(hashOf, ix, turns)
    decreases turns
  {
    if turns != [] {
      TipIndexedHasItsRow(ix, turns[0].tip, Batch(hashOf, ix, turns[0].probe));
      TipsIndexedHaveRows(hashOf, AfterTurn(hashOf, ix, turns[0]), turns[1..]);
    }
  }

  /** Any sequence of replies to indexed tips keeps one gap-free parent-linked active chain and every hash on it. */
  lemma RunKeepsChain(hashOf: Header -> Hash, u: iset<Header>, ix: Index, turns: seq<Turn>, b: nat)
    requires ChainInv(hashOf, u, ix) && CollisionFree(hashOf, u) && Room(ix, turns, b) && TipsIndexed(hashOf, ix, turns)
    requires forall i :: 0 <= i < |turns| ==> ReplyIn(u, turns[i].probe)
    ensures var r := RunProbes(hashOf, ix, turns);
            ChainInv(hashOf, u, r) && forall n :: n in ix.active ==> n in r.active && r.active[n] == ix.active[n]
  {
    TipsIndexedHaveRows(hashOf, ix, turns);
    RunKeepsChainIff(hashOf, u, ix, turns, b);
  }

  /** Any sequence of replies keeps every indexed height one above its parent's. */
  lemma {:induction false} RunKeepsTrueHeights(hashOf: Header -> Hash, u: iset<Header>, g: Header, depth: Hash -> nat, ix: Index, turns: seq<Turn>)
    requires DepthOf(hashOf, u, g, depth) && Rooted(hashOf, u, g, ix) && TrueHeights(depth, ix)
    requires forall i :: 0 <= i < |turns| ==> ReplyIn(u, turns[i].probe) && TrueTip(g, depth, turns[i].probe)
    ensures var r := RunProbes(hashOf, ix, turns);
            && TrueHeights(depth, r) && Rooted(hashOf, u, g, r)
            && (forall x :: x in u && hashOf(x) in r.heights && x.prev in r.heights ==>
                  r.heights[hashOf(x)] == SatInc(r.heights[x.prev]))
    decreases turns
  {
    if turns != [] {
      assert ReplyIn(u, turns[0].probe);
      ProbeKeepsTrueHeights(hashOf, u, g, depth, ix, turns[0].tip, turns[0].probe);
      RunKeepsTrueHeights(hashOf, u, g, depth, AfterTurn(hashOf, ix, turns[0]), turns[1..]);
    }
  }

  /** The bodies to fetch are exactly the batch's blocks without one, in batch order. */
  lemma {:induction false} MissingBodiesAreExact(hasBody: Hash -> bool, a: seq<Row>, b: seq<Row>)
    ensures MissingBodies(hasBody, a + b) == MissingBodies(hasBody, a) + MissingBodies(hasBody, b)
    ensures forall h :: h in MissingBodies(hasBody, b) <==> !hasBody(h) && exists i :: 0 <= i < |b| && b[i].hash == h
    decreases b
  {
    if b == [] {
      assert a + b == a;
    } else {
      var front, last := b[..|b| - 1], b[|b| - 1];
      assert (a + b)[..|a + b| - 1] == a + front;
      MissingBodiesAreExact(hasBody, a, front);
      forall h ensures h in MissingBodies(hasBody, b) <==> !hasBody(h) && exists i :: 0 <= i < |b| && b[i].hash == h {
        if h in MissingBodies(hasBody, front) {
          var i :| 0 <= i < |front| && front[i].hash == h;
          assert b[i].hash == h;
        }
        if exists i :: 0 <= i < |b| && b[i].hash == h {
          var i :| 0 <= i < |b| && b[i].hash == h;
          assert i < |front| ==> front[i].hash == h;
        }
        assert b[|b| - 1].hash == last.hash;
      }
    }
  }

  // ---------------------------------------------------------------------------
  // Forks and the tip
  // ---------------------------------------------------------------------------

  ghost predicate AtTip(hashOf: Header -> Hash, u: iset<Header>, g: Header, depth: Hash -> nat, ix: Index, tip: ChainTip, p: Probe) {
    && ChainInv(hashOf, u, ix) && CollisionFree(hashOf, u) && ReplyIn(u, p) && Fits(ix, p)
    && DepthOf(hashOf, u, g, depth) && Rooted(hashOf, u, g, ix) && TrueHeights(depth, ix) && TrueTip(g, depth, p)
    && tip == ChainTip(Some(p.tipHash), Some(p.localHeight)) && TipIndexed(ix, tip)
  }

  /** A row that is the tip is active, so undo starts above it. */
  lemma TipRowIsActive(hashOf: Header -> Hash, u: iset<Header>, g: Header, depth: Hash -> nat, ix: Index, tip: ChainTip, p: Probe, i: nat)
    requires AtTip(hashOf, u, g, depth, ix, tip, p)
    requires i < |Batch(hashOf, ix, p)| && Batch(hashOf, ix, p)[i].hash == p.tipHash
    ensures var d := DisconnectFrom(ix, tip, Batch(hashOf, ix, p)); d.None? || d.value > p.localHeight
  {
    var b := Batch(hashOf, ix, p);
    BatchRows(hashOf, u, ix, p);
    BatchAtDepth(hashOf, u, g, depth, ix, p);
    assert b[i].height == p.localHeight;
    BatchShape(hashOf, u, ix, tip, b);
    assert IsActive(StoreBatch(ix, tip, b), b[i]);
    BatchSplits(hashOf, u, ix, tip, b);
  }

  /** A batch through the tip never asks to undo the tip. */
  lemma ThroughTipUndoesAboveIt(hashOf: Header -> Hash, u: iset<Header>, g: Header, depth: Hash -> nat, ix: Index, tip: ChainTip, p: Probe)
    requires AtTip(hashOf, u, g, depth, ix, tip, p) && PassesThrough(Batch(hashOf, ix, p), p.tipHash)
    ensures var d := DisconnectFrom(ix, tip, Batch(hashOf, ix, p)); d.None? || d.value > p.localHeight
  {
    var b := Batch(hashOf, ix, p);
    var i :| 0 <= i < |b| && (b[i].hash == p.tipHash || b[i].header.prev == p.tipHash);
    if b[i].hash == p.tipHash {
      TipRowIsActive(hashOf, u, g, depth, ix, tip, p, i);
    } else if i == 0 {
      BatchRows(hashOf, u, ix, p);
      assert Hangs(hashOf, FindAnchor(ix, p).value.parent, FindAnchor(ix, p).value.height, b, 0);
    } else {
      assert Follows(b, i) by {
        BatchRows(hashOf, u, ix, p);
      }
      TipRowIsActive(hashOf, u, g, depth, ix, tip, p, i - 1);
    }
  }

  lemma UndoAboveTipPassesThrough(hashOf: Header -> Hash, u: iset<Header>, ix: Index, tip: ChainTip, batch: seq<Row>, n: nat)
    requires ChainInv(hashOf, u, ix) && CollisionFree(hashOf, u) && LinkedRows(hashOf, u, batch)
    requires n in ix.active && batch != [] && batch[0].height <= n <= batch[|batch| - 1].height
    requires var d := DisconnectFrom(ix, tip, batch); d.None? || d.value > n
    ensures PassesThrough(batch, ix.active[n])
  {
    assert batch[|batch| - 1].height == batch[0].height + |batch| - 1;
    var i := n - batch[0].height;
    var r := StoreBatch(ix, tip, batch);
    assert IsActive(r, batch[i]) by {
      BatchSplits(hashOf, u, ix, tip, batch);
    }
    assert r.active[n] == ix.active[n] by {
      BatchShape(hashOf, u, ix, tip, batch);
    }
    assert batch[i].hash == ix.active[n];
  }

  /** The report says the batch forks before the tip. */
  predicate ForksBefore(hashOf: Header -> Hash, ix: Index, p: Probe) {
    !PassesThrough(Batch(hashOf, ix, p), p.tipHash)
  }

  /** The report asks to undo the tip. */
  predicate UndoesTip(hashOf: Header -> Hash, ix: Index, tip: ChainTip, p: Probe) {
    var d := DisconnectFrom(ix, tip, Batch(hashOf, ix, p)); d.Some? && d.value <= p.localHeight
  }

  lemma SpanningReportMatches(hashOf: Header -> Hash, u: iset<Header>, g: Header, depth: Hash -> nat, ix: Index, tip: ChainTip, p: Probe)
    requires AtTip(hashOf, u, g, depth, ix, tip, p)
    requires var b := Batch(hashOf, ix, p); b != [] && b[0].height <= p.localHeight <= b[|b| - 1].height
    ensures ForksBefore(hashOf, ix, p) <==> UndoesTip(hashOf, ix, tip, p)
  {
    var b := Batch(hashOf, ix, p);
    if PassesThrough(b, p.tipHash) {
      ThroughTipUndoesAboveIt(hashOf, u, g, depth, ix, tip, p);
    } else if !UndoesTip(hashOf, ix, tip, p) {
      BatchRows(hashOf, u, ix, p);
      UndoAboveTipPassesThrough(hashOf, u, ix, tip, b, p.localHeight);
    }
  }

  /** A batch that does not reach the tip's height passes through the tip only as its child. */
  lemma PassesOnlyAsChild(hashOf: Header -> Hash, u: iset<Header>, g: Header, depth: Hash -> nat, ix: Index, tip: ChainTip, p: Probe)
    requires AtTip(hashOf, u, g, depth, ix, tip, p)
    requires var b := Batch(hashOf, ix, p); b != [] && (p.localHeight < b[0].height || b[|b| - 1].height < p.localHeight)
    ensures var b := Batch(hashOf, ix, p); PassesThrough(b, p.tipHash) <==> b[0].header.prev == p.tipHash
    ensures Batch(hashOf, ix, p)[0].header.prev == p.tipHash ==> Batch(hashOf, ix, p)[0].height == p.localHeight + 1
  {
    var b := Batch(hashOf, ix, p);
    BatchRows(hashOf, u, ix, p);
    BatchAtDepth(hashOf, u, g, depth, ix, p);
    assert Hangs(hashOf, FindAnchor(ix, p).value.parent, FindAnchor(ix, p).value.height, b, 0);
    if PassesThrough(b, p.tipHash) {
      var i :| 0 <= i < |b| && (b[i].hash == p.tipHash || b[i].header.prev == p.tipHash);
      if b[i].hash != p.tipHash && i > 0 {
        assert Follows(b, i);
        assert b[i - 1].height == p.localHeight;
      }
    }
  }

  /** Below the tip every height is taken, so nothing is to be undone exactly when the whole batch is active already. */
  lemma BelowTipUndoesIffNew(hashOf: Header -> Hash, u: iset<Header>, g: Header, depth: Hash -> nat, ix: Index, tip: ChainTip, p: Probe)
    requires AtTip(hashOf, u, g, depth, ix, tip, p)
    requires var b := Batch(hashOf, ix, p); b != [] && b[|b| - 1].height < p.localHeight
    ensures var b := Batch(hashOf, ix, p); UndoesTip(hashOf, ix, tip, p) <==> !IsActive(ix, b[|b| - 1])
  {
    var b := Batch(hashOf, ix, p);
    var last := b[|b| - 1];
    BatchRows(hashOf, u, ix, p);
    BatchShape(hashOf, u, ix, tip, b);
    ProbeSplitsBatch(hashOf, u, ix, tip, p);
    assert last.height in ix.active;
    if IsActive(ix, last) {
      ActiveRowsReachBack(hashOf, u, ix, b, |b| - 1);
    }
  }

  /**
   When the two answers of a report agree, so that a fork before the tip is one that undoes
   the tip: exactly if a batch above the tip is its child, and a batch that ends below the tip
   brings something new.  A branch on a side block at or above the tip's height is reported as
   a fork with nothing to undo, and so is a batch that only repeats active ancestors.
   */
  lemma ForkReportMatchesUndo(hashOf: Header -> Hash, u: iset<Header>, g: Header, depth: Hash -> nat, ix: Index, tip: ChainTip, p: Probe)
    requires AtTip(hashOf, u, g, depth, ix, tip, p) && Batch(hashOf, ix, p) != []
    ensures var b := Batch(hashOf, ix, p);
            (ForksBefore(hashOf, ix, p) <==> UndoesTip(hashOf, ix, tip, p)) <==>
            if b[0].height > p.localHeight then b[0].header.prev == p.tipHash
            else b[|b| - 1].height >= p.localHeight || !IsActive(ix, b[|b| - 1])
  {
    var b := Batch(hashOf, ix, p);
    if b[0].height > p.localHeight {
      PassesOnlyAsChild(hashOf, u, g, depth, ix, tip, p);
      BatchRows(hashOf, u, ix, p);
    } else if b[|b| - 1].height >= p.localHeight {
      SpanningReportMatches(hashOf, u, g, depth, ix, tip, p);
    } else {
      PassesOnlyAsChild(hashOf, u, g, depth, ix, tip, p);
      BelowTipUndoesIffNew(hashOf, u, g, depth, ix, tip, p);
    }
  }

  /** A claimed row of the batch sits at the tip's height, which the index does not know yet, under another hash. */
  predicate ForeignClaim(ix: Index, tip: ChainTip, batch: seq<Row>)
    requires tip.hash.Some? && tip.height.Some?
  {
    tip.height.value !in ix.active
    && exists i :: 0 <= i < Claims(ix, tip, batch) && batch[i].height == tip.height.value && batch[i].hash != tip.hash.value
  }

  /** Another block takes the tip's height exactly when the tip's row was missing and such a row claims it. */
  lemma TipHeightTakenIff(hashOf: Header -> Hash, u: iset<Header>, ix: Index, tip: ChainTip, batch: seq<Row>)
    requires ChainInv(hashOf, u, ix) && CollisionFree(hashOf, u) && LinkedRows(hashOf, u, batch)
    requires tip.hash.Some? && tip.height.Some?
    requires tip.height.value in ix.active ==> ix.active[tip.height.value] == tip.hash.value
    ensures var r := StoreBatch(ix, tip, batch);
            (tip.height.value in r.active && r.active[tip.height.value] != tip.hash.value) <==> ForeignClaim(ix, tip, batch)
  {
    ActiveAfterBatch(hashOf, u, ix, tip, batch);
    var r := StoreBatch(ix, tip, batch);
    var n := tip.height.value;
    if n in r.active && n !in ix.active {
      var i := n - batch[0].height;
      assert IsActive(r, batch[i]) && batch[i].height == n;
    }
  }

  function Labelled(h: Header): Hash {
    h.nonce
  }

  const Genesis := Header(0, 1, 0, 1, 1, 1)
  const Sibling := Header(1, 1, 0, 1, 1, 3)
  const GenesisIndex := Index(map[0 := 1], map[1 := 0], map[1 := Genesis])

  function SiblingReply(): Probe {
    Probe(2, 1, Checks((v, n) => true, (q, h, n) => true), [Sibling])
  }

  lemma SiblingBatch()
    ensures Batch(Labelled, GenesisIndex, SiblingReply()) == [Row(3, Sibling, 1)]
  {
    var p := SiblingReply();
    var row := Row(3, Sibling, 1);
    assert FindAnchor(GenesisIndex, p) == Some(Anchor(0, 1, 0));
    assert p.reply[0..] == [Sibling] && [Sibling][1..] == [];
    assert LinkFrom(Labelled, p.checks, 1, 0, [] + [row], []) == [row];
  }

  /** A concrete reply that does so: the tip 2 at height 1 is not indexed, and its sibling 3 takes height 1. */
  lemma SiblingTakesTheTipHeight()
    ensures ChainInv(Labelled, iset{Genesis, Sibling}, GenesisIndex) && CollisionFree(Labelled, iset{Genesis, Sibling})
    ensures ProbeIndex(Labelled, GenesisIndex, ChainTip(Some(2), Some(1)), SiblingReply()).active == map[0 := 1, 1 := 3]
  {
    SiblingBatch();
    var row := Row(3, Sibling, 1);
    var tip := ChainTip(Some(2), Some(1));
    assert ExtendsActive(GenesisIndex, tip, row) && Free(GenesisIndex, row);
    assert [row][1..] == [] && [row][..1] == [row] && [row][..0] == [];
    assert FreeRun(GenesisIndex, [row]) == 1 + FreeRun(GenesisIndex, [row][1..]);
    assert Claims(GenesisIndex, tip, [row]) == 1;
    assert PutActive(GenesisIndex.active, [row]) == map[0 := 1, 1 := 3];
  }

  // ---------------------------------------------------------------------------
  // Two forks at the tip
  // ---------------------------------------------------------------------------

  const Tip := Header(1, 1, 0, 1, 1, 2)
  const SideChild := Header(3, 1, 0, 1, 1, 4)
  const Known := iset{Genesis, Tip, Sibling, SideChild}

  /** Genesis 1 and the tip 2 are active; the tip's sibling 3 is known on the side. */
  const TipIndex := Index(map[0 := 1, 1 := 2], map[1 := 0, 2 := 1, 3 := 1], map[1 := Genesis, 2 := Tip, 3 := Sibling])
  const AtTwo := ChainTip(Some(2), Some(1))

  function DepthIn(h: Hash): nat {
    if h == 1 then 0 else if h == 4 then 2 else 1
  }

  function TipReply(reply: seq<Header>): Probe {
    Probe(2, 1, Checks((v, n) => true, (q, h, n) => true), reply)
  }

  lemma TipIndexIsChain()
    ensures ChainInv(Labelled, Known, TipIndex) && CollisionFree(Labelled, Known)
  {
    forall n ensures LinkedAt(TipIndex, n) {
    }
  }

  lemma TipIndexHeights()
    ensures DepthOf(Labelled, Known, Genesis, DepthIn) && Rooted(Labelled, Known, Genesis, TipIndex) && TrueHeights(DepthIn, TipIndex)
  {
  }

  /** The conditions at the tip are met by every reply made of these headers. */
  lemma TipReplyIsAtTip(reply: seq<Header>)
    requires |reply| <= 2 && forall i :: 0 <= i < |reply| ==> reply[i] in Known
    ensures AtTip(Labelled, Known, Genesis, DepthIn, TipIndex, AtTwo, TipReply(reply))
  {
    TipIndexIsChain();
    TipIndexHeights();
  }

  /** A reply that repeats genesis and goes on with the tip's sibling forks before the tip and undoes it. */
  lemma SiblingForks()
    ensures AtTip(Labelled, Known, Genesis, DepthIn, TipIndex, AtTwo, TipReply([Genesis, Sibling]))
    ensures Batch(Labelled, TipIndex, TipReply([Genesis, Sibling])) == [Row(3, Sibling, 1)]
    ensures UndoesTip(Labelled, TipIndex, AtTwo, TipReply([Genesis, Sibling]))
  {
    TipReplyIsAtTip([Genesis, Sibling]);
    var p := TipReply([Genesis, Sibling]);
    var row := Row(3, Sibling, 1);
    assert FindAnchor(TipIndex, p, 1) == Some(Anchor(1, 1, 0));
    assert FindAnchor(TipIndex, p) == FindAnchor(TipIndex, p, 1);
    assert p.reply[1..] == [Sibling] && [Sibling][1..] == [];
    assert LinkFrom(Labelled, p.checks, 1, 0, [] + [row], []) == [row];
    assert !Free(TipIndex, row) && FreeRun(TipIndex, [row]) == 0;
  }

  /** A concrete mismatch: a child of the sibling forks before the tip, yet only heights above the tip are to be undone. */
  lemma SideBranchUndoesNothing()
    ensures AtTip(Labelled, Known, Genesis, DepthIn, TipIndex, AtTwo, TipReply([SideChild]))
    ensures ForksBefore(Labelled, TipIndex, TipReply([SideChild]))
    ensures !UndoesTip(Labelled, TipIndex, AtTwo, TipReply([SideChild]))
  {
    TipReplyIsAtTip([SideChild]);
    var p := TipReply([SideChild]);
    var row := Row(4, SideChild, 2);
    assert FindAnchor(TipIndex, p) == Some(Anchor(0, 3, 1));
    assert p.reply[0..] == [SideChild] && [SideChild][1..] == [];
    assert LinkFrom(Labelled, p.checks, 3, 1, [] + [row], []) == [row];
    assert Batch(Labelled, TipIndex, p) == [row];
  }
}
