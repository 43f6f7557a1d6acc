/** Packing inode log entries into journal entries (cfs/include/FsReq_SyncBatchCtx.h and
    `submitSyncBatches` in cfs/src/FsProc_FileMng.cc). */
module SyncBatches {

  import opened InodeLog

  /** What one inode contributes to the journal: its extent log and the inodes it depends on. */
  datatype Entry = Entry(ino: nat, log: Log, deps: map<nat, nat>)

  const BSIZE: nat := 4096
  const MAX_ENTRY_SIZE: nat := 128 * 1024
  const MAX_BODY_SIZE: nat := MAX_ENTRY_SIZE - BSIZE

  /** Three 8-byte and six 4-byte header fields, three timestamps, a 2-byte and a 1-byte field, four
      8-byte fields; 24 bytes per extent and 16 per dependency. */
  function CalcSize(e: Entry): (n: nat)
  {
    (8 * 3) + (4 * 6) + (16 * 3) + 2 + 1 + (8 * 4) + |e.log.add| * 24 + |e.log.del| * 24 + |e.deps| * 16
  }

  function BodySize(es: seq<Entry>): (n: nat)
  {
    if es == [] then 48 else BodySize(es[..|es| - 1]) + CalcSize(es[|es| - 1])
  }

  function Inos(es: seq<Entry>): (s: set<nat>)
  {
    set e | e in es :: e.ino
  }

  predicate FitsAlone(max: nat, e: Entry)
  {
    BodySize([e]) <= max
  }

  lemma BodySizeAppend(es: seq<Entry>, e: Entry)
    ensures BodySize(es + [e]) == BodySize(es) + CalcSize(e)
    ensures BodySize([e]) == 48 + CalcSize(e)
  {
    assert (es + [e])[..|es|] == es;
    assert [e][..0] == [];
  }

  lemma {:induction false} BodySizeAtLeast(es: seq<Entry>)
    ensures BodySize(es) >= 48
  {
    if es != [] {
      BodySizeAtLeast(es[..|es| - 1]);
    }
  }

  lemma LastApart<T>(a: seq<T>, b: seq<T>)
    requires b != []
    ensures b == b[..|b| - 1] + [b[|b| - 1]] && a + b == (a + b[..|b| - 1]) + [b[|b| - 1]]
  {
  }

  lemma {:induction false} BodySizeConcat(es: seq<Entry>, more: seq<Entry>)
    ensures BodySize(es + more) == BodySize(es) + BodySize(more) - 48
  {
    if more == [] {
      assert es + more == es;
    } else {
      var front, e := more[..|more| - 1], more[|more| - 1];
      LastApart(es, more);
      BodySizeConcat(es, front);
      BodySizeAppend(es + front, e);
      BodySizeAppend(front, e);
    }
  }

  lemma BodySizeBounds(a: seq<Entry>, b: seq<Entry>)
    ensures BodySize(a) <= BodySize(a + b) && BodySize(b) <= BodySize(a + b)
  {
    BodySizeConcat(a, b);
    BodySizeAtLeast(a);
    BodySizeAtLeast(b);
  }

  lemma Halves<T>(q: seq<T>, n: nat)
    requires n <= |q|
    ensures q[..n] + q[n..] == q
  {
  }

  lemma BodySizeParts(es: seq<Entry>, n: nat)
    requires n <= |es|
    ensures BodySize(es[..n]) <= BodySize(es) && BodySize(es[n..]) <= BodySize(es)
  {
    Halves(es, n);
    BodySizeBounds(es[..n], es[n..]);
  }

  // ---------------------------------------------------------------- packings

  function Concat(bs: seq<seq<Entry>>): (r: seq<Entry>)
  {
    if bs == [] then [] else bs[0] + Concat(bs[1..])
  }

  /** Every batch holds something and keeps within the limit. */
  predicate Within(max: nat, bs: seq<seq<Entry>>)
  {
    forall k :: 0 <= k < |bs| ==> bs[k] != [] && BodySize(bs[k]) <= max
  }

  /** A batch is closed only because the next entry did not fit. */
  predicate Tight(max: nat, bs: seq<seq<Entry>>)
    requires forall k :: 0 <= k < |bs| ==> bs[k] != []
  {
    forall k :: 0 <= k < |bs| - 1 ==> BodySize(bs[k] + [bs[k + 1][0]]) > max
  }

  predicate Packed(max: nat, es: seq<Entry>, bs: seq<seq<Entry>>)
  {
    Concat(bs) == es && Within(max, bs) && Tight(max, bs)
  }

  lemma {:induction false} ConcatSnoc(bs: seq<seq<Entry>>, b: seq<Entry>)
    ensures Concat(bs + [b]) == Concat(bs) + b
  {
    if bs == [] {
      assert bs + [b] == [b] && [b][1..] == [];
    } else {
      ConcatSnoc(bs[1..], b);
      assert (bs + [b])[1..] == bs[1..] + [b];
    }
  }

  /** The packing of a traversal order is fixed by the three clauses. */
  lemma {:induction false} PackedUnique(max: nat, es: seq<Entry>, bs: seq<seq<Entry>>, cs: seq<seq<Entry>>)
    requires Packed(max, es, bs) && Packed(max, es, cs)
    ensures bs == cs
    decreases |bs|
  {
    if bs == [] {
    } else {
      assert bs[0] != [] && es == bs[0] + Concat(bs[1..]);
      assert cs != [];
      FirstNotLonger(max, es, bs, cs);
      FirstNotLonger(max, es, cs, bs);
      assert bs[0] == es[..|bs[0]|] == cs[0];
      var rest := es[|bs[0]|..];
      assert Concat(bs[1..]) == rest == Concat(cs[1..]);
      TightTail(max, bs);
      TightTail(max, cs);
      PackedUnique(max, rest, bs[1..], cs[1..]);
    }
  }

  lemma TightTail(max: nat, bs: seq<seq<Entry>>)
    requires bs != [] && Within(max, bs) && Tight(max, bs)
    ensures Within(max, bs[1..]) && Tight(max, bs[1..])
  {
    var t := bs[1..];
    assert forall k :: 0 <= k < |t| ==> t[k] == bs[k + 1];
    forall k | 0 <= k < |t| - 1 ensures BodySize(t[k] + [t[k + 1][0]]) > max {
      assert BodySize(bs[k + 1] + [bs[k + 1 + 1][0]]) > max;
    }
  }

  lemma HeadFits(max: nat, cs: seq<seq<Entry>>, m: nat)
    requires cs != [] && Within(max, cs) && m <= |cs[0]|
    ensures |cs[0]| <= |Concat(cs)| && BodySize(Concat(cs)[..m]) <= max
  {
    BodySizeParts(cs[0], m);
    assert Concat(cs)[..m] == cs[0][..m];
  }

  lemma HeadTight(max: nat, bs: seq<seq<Entry>>)
    requires |bs| > 1 && Within(max, bs) && Tight(max, bs)
    ensures |bs[0]| < |Concat(bs)| && BodySize(Concat(bs)[..|bs[0]| + 1]) > max
  {
    var rest := bs[1..];
    assert rest[0] == bs[1] && Concat(rest) == bs[1] + Concat(rest[1..]);
    assert Concat(bs)[..|bs[0]| + 1] == bs[0] + [bs[1][0]];
    assert BodySize(bs[0] + [bs[0 + 1][0]]) > max;
  }

  /** A tight first batch is at least as long as the first batch of any packing within the limit. */
  lemma FirstNotLonger(max: nat, es: seq<Entry>, bs: seq<seq<Entry>>, cs: seq<seq<Entry>>)
    requires Packed(max, es, bs) && bs != []
    requires cs != [] && Within(max, cs) && Concat(cs) == es
    ensures |cs[0]| <= |bs[0]| <= |es| && |cs[0]| <= |es|
  {
    HeadFits(max, bs, 0);
    forall m | 0 <= m <= |cs[0]| ensures |cs[0]| <= |es| && BodySize(es[..m]) <= max {
      HeadFits(max, cs, m);
    }
    HeadFits(max, cs, 0);
    if |bs| == 1 {
      assert bs[1..] == [] && es == bs[0];
    } else {
      HeadTight(max, bs);
    }
  }

  /** Cutting entries off the front of a list never needs more batches. */
  lemma {:induction false} DropFront(max: nat, es: seq<Entry>, cs: seq<seq<Entry>>, n: nat)
    returns (ds: seq<seq<Entry>>)
    requires Within(max, cs) && Concat(cs) == es && n <= |es|
    ensures Within(max, ds) && Concat(ds) == es[n..] && |ds| <= |cs|
    ensures cs != [] && n >= |cs[0]| ==> |ds| < |cs|
    decreases |cs|
  {
    if cs == [] || n == 0 {
      ds := cs;
      assert es[n..] == es;
    } else {
      var rest := Concat(cs[1..]);
      assert es == cs[0] + rest;
      assert Within(max, cs[1..]) by {
        assert forall k :: 0 <= k < |cs[1..]| ==> cs[1..][k] == cs[k + 1];
      }
      if n >= |cs[0]| {
        ds := DropFront(max, rest, cs[1..], n - |cs[0]|);
        assert es[n..] == rest[n - |cs[0]|..];
      } else {
        ds := [cs[0][n..]] + cs[1..];
        BodySizeParts(cs[0], n);
        assert ds[1..] == cs[1..];
        assert es[n..] == cs[0][n..] + rest;
        forall k | 0 <= k < |ds| ensures ds[k] != [] && BodySize(ds[k]) <= max {
          assert k > 0 ==> ds[k] == cs[k];
        }
      }
    }
  }

  /** No way of cutting the same order into batches within the limit uses fewer of them. */
  lemma {:induction false} PackedIsFewest(max: nat, es: seq<Entry>, bs: seq<seq<Entry>>, cs: seq<seq<Entry>>)
    requires Packed(max, es, bs) && Within(max, cs) && Concat(cs) == es
    ensures |bs| <= |cs|
    decreases |bs|
  {
    if bs != [] {
      assert bs[0] != [] && es == bs[0] + Concat(bs[1..]);
      assert cs != [];
      FirstNotLonger(max, es, bs, cs);
      var ds := DropFront(max, es, cs, |bs[0]|);
      assert es[|bs[0]|..] == Concat(bs[1..]);
      TightTail(max, bs);
      PackedIsFewest(max, es[|bs[0]|..], bs[1..], ds);
    }
  }

  predicate DistinctInos(es: seq<Entry>)
  {
    forall i, j :: 0 <= i < j < |es| ==> es[i].ino != es[j].ino
  }

  lemma DistinctParts(a: seq<Entry>, b: seq<Entry>)
    requires DistinctInos(a + b)
    ensures DistinctInos(b) && Inos(a) !! Inos(b) && Inos(a + b) == Inos(a) + Inos(b)
  {
    var es := a + b;
    assert forall i :: 0 <= i < |a| ==> es[i] == a[i];
    assert forall i :: 0 <= i < |b| ==> es[|a| + i] == b[i];
    forall x, y | x in a && y in b ensures x.ino != y.ino {
      var i :| 0 <= i < |a| && a[i] == x;
      var j :| 0 <= j < |b| && b[j] == y;
      assert es[i].ino != es[|a| + j].ino;
    }
  }

  ghost predicate InBatch(bs: seq<seq<Entry>>, ino: nat, k: int)
  {
    0 <= k < |bs| && ino in Inos(bs[k])
  }

  /** Each inode is in exactly one batch. */
  lemma {:induction false} OneBatchEach(es: seq<Entry>, bs: seq<seq<Entry>>, ino: nat)
    requires Concat(bs) == es && DistinctInos(es)
    ensures ino in Inos(es) <==> exists k :: InBatch(bs, ino, k)
    ensures forall j, k :: InBatch(bs, ino, j) && InBatch(bs, ino, k) ==> j == k
    decreases |bs|
  {
    if bs != [] {
      var rest := bs[1..];
      DistinctParts(bs[0], Concat(rest));
      OneBatchEach(Concat(rest), rest, ino);
      assert InBatch(bs, ino, 0) <==> ino in Inos(bs[0]);
      if k :| InBatch(rest, ino, k) {
        assert InBatch(bs, ino, k + 1);
      }
      forall k | InBatch(bs, ino, k) ensures k == 0 || InBatch(rest, ino, k - 1) {
      }
    }
  }

  // ---------------------------------------------------------------- the objects

  class SyncBatchedContext {
    const maxSize: nat
    var curLogEntrySize: nat
    var entries: seq<Entry>
    var inodes: set<nat>

    ghost predicate Valid()
      reads this
    {
      curLogEntrySize == BodySize(entries) && inodes == Inos(entries)
    }

    constructor (maxSize: nat)
      ensures Valid() && entries == [] && this.maxSize == maxSize
    {
      this.maxSize := maxSize;
      curLogEntrySize, entries, inodes := 48, [], {};
    }

    method TryAdd(e: Entry) returns (ok: bool)
      requires Valid()
      modifies this
      ensures Valid()
      ensures ok <==> BodySize(old(entries) + [e]) <= maxSize
      ensures entries == if ok then old(entries) + [e] else old(entries)
    {
      BodySizeAppend(entries, e);
      if curLogEntrySize + CalcSize(e) > maxSize {
        return false;
      }
      assert Inos(entries + [e]) == Inos(entries) + {e.ino};
      entries := entries + [e];
      curLogEntrySize := curLogEntrySize + CalcSize(e);
      inodes := inodes + {e.ino};
      return true;
    }
  }

  datatype ReqState = SyncInit | BatchesInProgress | BatchesComplete

  class SyncReq {
    var state: ReqState
    var created: nat
    var completed: nat
    var failed: nat

    constructor ()
      ensures state == SyncInit && created == completed == failed == 0
    {
      state, created, completed, failed := SyncInit, 0, 0, 0;
    }

    /** One batch has been written (or has failed); `true` when the request becomes ready. */
    method OnBatchedJournalWriteComplete(success: bool) returns (ready: bool)
      modifies this
      ensures created == old(created) && completed == old(completed) + 1
      ensures failed == old(failed) + (if success then 0 else 1)
      ensures ready <==> completed == created
      ensures state == if ready then BatchesComplete else old(state)
    {
      completed := completed + 1;
      if !success {
        failed := failed + 1;
      }
      ready := completed == created;
      if ready {
        state := BatchesComplete;
      }
    }
  }

  /** Closed batches and the one being filled. */
  predicate Open(max: nat, closed: seq<seq<Entry>>, cur: seq<Entry>)
  {
    && Within(max, closed)
    && (cur == [] ==> closed == [])
    && (cur != [] ==> Within(max, closed + [cur]) && Tight(max, closed + [cur]))
  }

  /** The state after the entries `es`. */
  predicate Filled(max: nat, es: seq<Entry>, closed: seq<seq<Entry>>, cur: seq<Entry>)
  {
    && Open(max, closed, cur)
    && Concat(closed) + cur == es
    && (es != [] ==> cur != [])
    && (forall e :: e in es ==> FitsAlone(max, e))
  }

  lemma CloseBatch(max: nat, es: seq<Entry>, closed: seq<seq<Entry>>, full: seq<Entry>, e: Entry)
    requires Filled(max, es, closed, full)
    requires BodySize(full + [e]) > max && FitsAlone(max, e)
    ensures Filled(max, es + [e], closed + [full], [e])
  {
    assert full == [] ==> full + [e] == [e];
    ConcatSnoc(closed, full);
    var bs := closed + [full];
    var bs' := bs + [[e]];
    assert forall k :: 0 <= k < |bs| ==> bs'[k] == bs[k];
    forall k | 0 <= k < |bs'| - 1 ensures BodySize(bs'[k] + [bs'[k + 1][0]]) > max {
      if k < |bs| - 1 {
        assert BodySize(bs[k] + [bs[k + 1][0]]) > max;
      }
    }
  }

  lemma ExtendBatch(max: nat, es: seq<Entry>, closed: seq<seq<Entry>>, cur: seq<Entry>, e: Entry)
    requires Filled(max, es, closed, cur) && BodySize(cur + [e]) <= max
    ensures Filled(max, es + [e], closed, cur + [e])
  {
    BodySizeParts(cur + [e], |cur|);
    assert (cur + [e])[|cur|..] == [e];
    assert Concat(closed) + (cur + [e]) == es + [e];
    if cur != [] {
      var bs, bs' := closed + [cur], closed + [cur + [e]];
      forall k | 0 <= k < |bs'| - 1 ensures BodySize(bs'[k] + [bs'[k + 1][0]]) > max {
        assert BodySize(bs[k] + [bs[k + 1][0]]) > max;
        assert bs'[k] == bs[k] && bs'[k + 1][0] == bs[k + 1][0];
      }
    }
  }

  lemma FilledIsPacked(max: nat, es: seq<Entry>, closed: seq<seq<Entry>>, cur: seq<Entry>)
    requires es != [] && Filled(max, es, closed, cur)
    ensures Packed(max, es, closed + [cur])
  {
    ConcatSnoc(closed, cur);
  }

  /** Adds to the current batch, or to a new one; fails when a new one does not take the entry. */
  method AddEntry(cur: SyncBatchedContext, e: Entry) returns (ok: bool, next: SyncBatchedContext)
    requires cur.Valid()
    modifies cur
    ensures cur.Valid() && next.Valid() && next.maxSize == cur.maxSize
    ensures next == cur || fresh(next)
    ensures next == cur <==> BodySize(old(cur.entries) + [e]) <= cur.maxSize
    ensures next == cur ==> ok && cur.entries == old(cur.entries) + [e]
    ensures next != cur ==> cur.entries == old(cur.entries) && (ok <==> FitsAlone(cur.maxSize, e))
    ensures next != cur && ok ==> next.entries == [e]
  {
    next := cur;
    ok := cur.TryAdd(e);
    if !ok {
      next := new SyncBatchedContext(cur.maxSize);
      ok := next.TryAdd(e);
      assert [] + [e] == [e];
    }
  }

  /** The loop of `submitSyncBatches` over the log entries of the inodes, in traversal order; a batch
      is listed by the entries of its context, which nothing changes once the next one is opened. */
  method PackEntries(es: seq<Entry>, max: nat) returns (ok: bool, batches: seq<seq<Entry>>)
    requires es != []
    ensures ok <==> forall e :: e in es ==> FitsAlone(max, e)
    ensures ok ==> Packed(max, es, batches)
  {
    var cur := new SyncBatchedContext(max);
    batches := [];
    for i := 0 to |es|
      invariant fresh(cur) && cur.Valid() && cur.maxSize == max
      invariant Filled(max, es[..i], batches, cur.entries)
    {
      assert es[..i + 1] == es[..i] + [es[i]];
      ghost var full := cur.entries;
      var next;
      ok, next := AddEntry(cur, es[i]);
      if next == cur {
        ExtendBatch(max, es[..i], batches, full, es[i]);
      } else {
        if !ok {
          return false, batches + [cur.entries];
        }
        CloseBatch(max, es[..i], batches, full, es[i]);
        batches := batches + [cur.entries];
        cur := next;
      }
    }
    assert es[..|es|] == es;
    FilledIsPacked(max, es, batches, cur.entries);
    batches := batches + [cur.entries];
    ok := true;
  }

  /** How many of the first `n` batches the journal refuses while they are submitted. */
  function Refusals(refuses: nat -> bool, n: nat): (k: nat)
    ensures k <= n
  {
    if n == 0 then 0 else Refusals(refuses, n - 1) + if refuses(n - 1) then 1 else 0
  }

  lemma {:induction false} RefusalsAll(refuses: nat -> bool, n: nat)
    ensures Refusals(refuses, n) == n <==> forall i :: 0 <= i < n ==> refuses(i)
  {
    if n > 0 {
      RefusalsAll(refuses, n - 1);
    }
  }

  /** The loop that submits the batches: a batch that finds no space comes back as failed inside the call. */
  method SubmitAll(req: SyncReq, n: nat, refuses: nat -> bool) returns (made: nat)
    requires n > 0 && req.created == n && req.completed == 0 && req.failed == 0 && req.state == BatchesInProgress
    modifies req
    ensures req.created == n && req.completed == req.failed == Refusals(refuses, n)
    ensures req.state == if Refusals(refuses, n) == n then BatchesComplete else BatchesInProgress
    ensures made == if Refusals(refuses, n) == n then 1 else 0
  {
    made := 0;
    for i := 0 to n
      invariant req.created == n && req.completed == req.failed == Refusals(refuses, i)
      invariant req.state == if Refusals(refuses, i) == n then BatchesComplete else BatchesInProgress
      invariant made == if Refusals(refuses, i) == n then 1 else 0
    {
      if refuses(i) {
        var ready := req.OnBatchedJournalWriteComplete(false);
        if ready {
          made := made + 1;
        }
      }
    }
  }

  /** An inode set that is empty completes the request at once; so does one all of whose batches the
      journal refuses, and then the request has been put into the ready queue as well. `made` says how
      often that was done; `ok` is false when the original throws. */
  method SubmitSyncBatches(req: SyncReq, es: seq<Entry>, refuses: nat -> bool)
    returns (ok: bool, batches: seq<seq<Entry>>, made: nat)
    modifies req
    ensures es == [] || !ok ==>
      req.created == old(req.created) && req.completed == old(req.completed) && req.failed == old(req.failed)
    ensures ok <==> forall e :: e in es ==> FitsAlone(MAX_BODY_SIZE, e)
    ensures ok ==> Packed(MAX_BODY_SIZE, es, batches)
    ensures ok && es != [] ==>
      req.created == |batches| > 0 && req.completed == req.failed == Refusals(refuses, |batches|)
    ensures req.state == BatchesComplete <==> es == [] || (ok && forall i :: 0 <= i < |batches| ==> refuses(i))
    ensures req.state == BatchesComplete || req.state == BatchesInProgress
    ensures made == if es != [] && req.state == BatchesComplete then 1 else 0
  {
    batches, made := [], 0;
    if es == [] {
      req.state := BatchesComplete;
      return true, batches, made;
    }
    req.state := BatchesInProgress;
    ok, batches := PackEntries(es, MAX_BODY_SIZE);
    if ok {
      assert batches != [];
      req.created, req.completed, req.failed := |batches|, 0, 0;
      made := SubmitAll(req, |batches|, refuses);
      RefusalsAll(refuses, |batches|);
    }
  }
}
