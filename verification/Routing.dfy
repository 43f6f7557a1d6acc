/** The load manager's routing tables (cfs/src/FsProc_KP_DS.cc, cfs/include/FsProc_KnowParaLoadMng.h):
    which worker serves which application thread, and, the other way round, which threads a worker
    serves. A thread is a (pid, tid) pair, packed into one key in the second direction. */
module Routing {

  import opened Options

  type Worker = int

  const MASTER: Worker := 0

  /** A packing of the pairs in `ok`. */
  datatype Codec<!I(!new), !K(!new)> = Codec(enc: (I, I) -> K, pid: K -> I, tid: K -> I, ok: (I, I) -> bool)

  ghost predicate RoundTrips<I(!new), K(!new)>(c: Codec<I, K>)
  {
    forall p, t :: c.ok(p, t) ==> c.pid(c.enc(p, t)) == p && c.tid(c.enc(p, t)) == t
  }

  /** The key of a pair that the codec packs. */
  predicate IsKey<I(==, !new), K(==, !new)>(c: Codec<I, K>, k: K)
  {
    c.ok(c.pid(k), c.tid(k)) && c.enc(c.pid(k), c.tid(k)) == k
  }

  lemma KeyOfPair<I(!new), K(!new)>(c: Codec<I, K>, k: K, p: I, t: I)
    requires RoundTrips(c) && IsKey(c, k)
    ensures c.ok(p, t) && c.enc(p, t) == k <==> p == c.pid(k) && t == c.tid(k)
  {
  }

  // ---------------------------------------------------------------- sets of threads per worker

  type Sets<K> = map<Worker, set<K>>

  predicate In<K(==, !new)>(d: Sets<K>, w: Worker, k: K)
  {
    w in d && k in d[w]
  }

  /** `d[w].erase(k)`: a set is made for `w` if there is none. */
  function Erase<K(==, !new)>(d: Sets<K>, w: Worker, k: K): (r: Sets<K>)
    ensures forall x, y :: In(r, x, y) <==> In(d, x, y) && !(x == w && y == k)
  {
    d[w := if w in d then d[w] - {k} else {}]
  }

  function Emplace<K(==, !new)>(d: Sets<K>, w: Worker, k: K): (r: Sets<K>)
    ensures forall x, y :: In(r, x, y) <==> In(d, x, y) || (x == w && y == k)
  {
    d[w := if w in d then d[w] + {k} else {k}]
  }

  /** The next element a traversal of a set or map meets. */
  method Pick<T(==)>(s: set<T>) returns (x: T)
    requires s != {}
    ensures x in s
  {
    x :| x in s;
  }

  // ---------------------------------------------------------------- the memoryless table

  type Shares = map<Worker, real>

  /** The route of a thread names the workers it is spread over. */
  type Source<K> = map<K, Shares>

  ghost predicate Inverse<K(!new)>(src: Source<K>, d: Sets<K>)
  {
    forall w, k :: In(d, w, k) <==> k in src && w in src[k]
  }

  datatype Plan<I> = Plan(pid: I, tid: I, shares: Shares)

  /** The routes after the plans, in order. */
  function Merged<I(!new), K(==, !new)>(c: Codec<I, K>, src: Source<K>, plans: seq<Plan<I>>): (r: Source<K>)
  {
    if plans == [] then src
    else
      var p := plans[|plans| - 1];
      Merged(c, src, plans[..|plans| - 1])[c.enc(p.pid, p.tid) := p.shares]
  }

  /** Plans for threads the codec packs enter only keys that unpack to their thread. */
  lemma {:induction false} MergedKeys<I(!new), K(!new)>(c: Codec<I, K>, src: Source<K>, plans: seq<Plan<I>>, k: K)
    requires RoundTrips(c) && (k in src ==> IsKey(c, k))
    requires forall i :: 0 <= i < |plans| ==> c.ok(plans[i].pid, plans[i].tid)
    ensures k in Merged(c, src, plans) ==> IsKey(c, k)
  {
    if plans != [] {
      MergedKeys(c, src, plans[..|plans| - 1], k);
    }
  }

  predicate Names<I(==)>(plan: Plan<I>, p: I, t: I)
  {
    plan.pid == p && plan.tid == t
  }

  /** The position of the last plan that names a thread, -1 if none does. */
  function LastNaming<I(==)>(plans: seq<Plan<I>>, p: I, t: I): (k: int)
    ensures -1 <= k < |plans| && (k >= 0 ==> Names(plans[k], p, t))
    ensures forall i :: k < i < |plans| ==> !Names(plans[i], p, t)
  {
    if plans == [] then -1
    else if Names(plans[|plans| - 1], p, t) then |plans| - 1
    else LastNaming(plans[..|plans| - 1], p, t)
  }

  /** The route of a thread: the shares of the key it is packed into. */
  function RouteFor<I(!new), K(==, !new)>(c: Codec<I, K>, src: Source<K>, p: I, t: I): (r: Option<Shares>)
  {
    var k := c.enc(p, t);
    if k in src then Some(src[k]) else None
  }

  /** After the plans a thread's route is that of the last plan that names it, or its old route if none does. */
  lemma {:induction false} MergedRoute<I(!new), K(!new)>(c: Codec<I, K>, src: Source<K>, plans: seq<Plan<I>>,
                                                         p: I, t: I)
    requires RoundTrips(c) && c.ok(p, t) && forall i :: 0 <= i < |plans| ==> c.ok(plans[i].pid, plans[i].tid)
    ensures var k := LastNaming(plans, p, t);
            RouteFor(c, Merged(c, src, plans), p, t) == if k >= 0 then Some(plans[k].shares) else RouteFor(c, src, p, t)
  {
    if plans != [] {
      var front, last := plans[..|plans| - 1], plans[|plans| - 1];
      MergedRoute(c, src, front, p, t);
      assert c.ok(last.pid, last.tid);
      assert c.enc(last.pid, last.tid) == c.enc(p, t) <==> Names(last, p, t);
    }
  }

  /** Keys that no plan is packed into keep their routes. */
  lemma {:induction false} MergedOthers<I(!new), K(!new)>(c: Codec<I, K>, src: Source<K>, plans: seq<Plan<I>>, k: K)
    requires forall i :: 0 <= i < |plans| ==> c.enc(plans[i].pid, plans[i].tid) != k
    ensures k in Merged(c, src, plans) <==> k in src
    ensures k in src ==> Merged(c, src, plans)[k] == src[k]
  {
    if plans != [] {
      MergedOthers(c, src, plans[..|plans| - 1], k);
    }
  }

  predicate Listed<I(==)>(m: map<I, set<I>>, p: I, t: I)
  {
    p in m && t in m[p]
  }

  class LmMemLessRoutingTable<I(==, !new), K(==, !new)> {
    var src: Source<K>
    var dst: Sets<K>

    constructor ()
      ensures src == map[] && dst == map[]
    {
      src, dst := map[], map[];
    }

    method Forget(key: K, workers: set<Worker>)
      modifies this`dst
      ensures forall w, k :: In(dst, w, k) <==> old(In(dst, w, k)) && !(k == key && w in workers)
    {
      var rest := workers;
      while rest != {}
        invariant rest <= workers
        invariant forall w, k :: In(dst, w, k) <==> old(In(dst, w, k)) && !(k == key && w in workers - rest)
      {
        var w := Pick(rest);
        dst := Erase(dst, w, key);
        rest := rest - {w};
      }
    }

    method Record(key: K, workers: set<Worker>)
      modifies this`dst
      ensures forall w, k :: In(dst, w, k) <==> old(In(dst, w, k)) || (k == key && w in workers)
    {
      var rest := workers;
      while rest != {}
        invariant rest <= workers
        invariant forall w, k :: In(dst, w, k) <==> old(In(dst, w, k)) || (k == key && w in workers - rest)
      {
        var w := Pick(rest);
        dst := Emplace(dst, w, key);
        rest := rest - {w};
      }
    }

    method UpdateOne(key: K, shares: Shares)
      requires Inverse(src, dst)
      modifies this
      ensures src == old(src)[key := shares] && Inverse(src, dst)
    {
      ghost var d := dst;
      if key in src {
        Forget(key, src[key].Keys);
      }
      assert forall w, k :: In(dst, w, k) <==> In(d, w, k) && k != key;
      src := src[key := shares];
      Record(key, shares.Keys);
    }

    method Prune()
      modifies this`dst
      ensures forall w :: w in dst ==> dst[w] != {}
      ensures forall w, k :: In(dst, w, k) <==> old(In(dst, w, k))
    {
      var rest := dst.Keys;
      while rest != {}
        invariant rest <= dst.Keys
        invariant forall w :: w in dst && w !in rest ==> dst[w] != {}
        invariant forall w, k :: In(dst, w, k) <==> old(In(dst, w, k))
      {
        var w := Pick(rest);
        if dst[w] == {} {
          dst := dst - {w};
        }
        rest := rest - {w};
      }
    }

    /** The two directions stay inverse to each other and no worker is left with an empty set. */
    method UpdateItems(c: Codec<I, K>, plans: seq<Plan<I>>)
      requires Inverse(src, dst)
      modifies this
      ensures src == Merged(c, old(src), plans) && Inverse(src, dst)
      ensures forall w :: w in dst ==> dst[w] != {}
    {
      for i := 0 to |plans|
        invariant src == Merged(c, old(src), plans[..i]) && Inverse(src, dst)
      {
        assert plans[..i + 1][..i] == plans[..i];
        UpdateOne(c.enc(plans[i].pid, plans[i].tid), plans[i].shares);
      }
      assert plans[..|plans|] == plans;
      ghost var d := dst;
      Prune();
    }

    /** Adds to `known` exactly the threads whose route names the worker. */
    method GetWidHandling(c: Codec<I, K>, wid: Worker, known: map<I, set<I>>) returns (tids: map<I, set<I>>)
      requires RoundTrips(c) && Inverse(src, dst)
      requires forall k :: k in src ==> IsKey(c, k)
      ensures forall p, t :: Listed(tids, p, t) <==>
        Listed(known, p, t) || (c.ok(p, t) && c.enc(p, t) in src && wid in src[c.enc(p, t)])
    {
      tids := known;
      if wid in dst {
        var rest := dst[wid];
        while rest != {}
          invariant rest <= dst[wid]
          invariant forall p, t :: Listed(tids, p, t) <==>
            Listed(known, p, t) || (c.ok(p, t) && c.enc(p, t) in dst[wid] - rest)
        {
          var tau := Pick(rest);
          assert In(dst, wid, tau) && IsKey(c, tau);
          ghost var before := tids;
          tids := tids[c.pid(tau) := (if c.pid(tau) in tids then tids[c.pid(tau)] else {}) + {c.tid(tau)}];
          rest := rest - {tau};
          forall p, t ensures Listed(tids, p, t) <==> Listed(before, p, t) || (c.ok(p, t) && c.enc(p, t) == tau) {
            KeyOfPair(c, tau, p, t);
          }
        }
      }
      assert forall p, t :: In(dst, wid, c.enc(p, t)) <==> c.enc(p, t) in src && wid in src[c.enc(p, t)];
    }
  }

  /** Whether a route names a worker. */
  predicate Serves(r: Option<Shares>, wid: Worker)
  {
    r.Some? && wid in r.value
  }

  lemma KeysOfPairs<I(!new), K(!new)>(c: Codec<I, K>, src: Source<K>, plans: seq<Plan<I>>)
    requires RoundTrips(c) && (forall k :: k in src ==> IsKey(c, k))
    requires forall i :: 0 <= i < |plans| ==> c.ok(plans[i].pid, plans[i].tid)
    ensures forall k :: k in Merged(c, src, plans) ==> IsKey(c, k)
  {
    forall k | k in Merged(c, src, plans) ensures IsKey(c, k) {
      MergedKeys(c, src, plans, k);
    }
  }

  /** Plans, and then the threads of a worker: exactly those whose last plan names the worker, or that no plan
      names and whose old route does. */
  method PlanAndList<I(==, !new), K(==, !new)>(table: LmMemLessRoutingTable<I, K>, c: Codec<I, K>, plans: seq<Plan<I>>,
                                               wid: Worker)
    returns (tids: map<I, set<I>>)
    requires RoundTrips(c) && Inverse(table.src, table.dst) && (forall k :: k in table.src ==> IsKey(c, k))
    requires forall i :: 0 <= i < |plans| ==> c.ok(plans[i].pid, plans[i].tid)
    modifies table
    ensures forall p, t :: c.ok(p, t) ==>
      (Listed(tids, p, t) <==>
        var k := LastNaming(plans, p, t);
        Serves(if k >= 0 then Some(plans[k].shares) else old(RouteFor(c, table.src, p, t)), wid))
  {
    ghost var src := table.src;
    KeysOfPairs(c, src, plans);
    table.UpdateItems(c, plans);
    tids := table.GetWidHandling(c, wid, map[]);
    forall p, t | c.ok(p, t)
      ensures Listed(tids, p, t) <==>
        var k := LastNaming(plans, p, t); Serves(if k >= 0 then Some(plans[k].shares) else RouteFor(c, src, p, t), wid)
    {
      MergedRoute(c, src, plans, p, t);
      assert Listed(tids, p, t) <==> Serves(RouteFor(c, table.src, p, t), wid);
    }
  }

  // ---------------------------------------------------------------- tables with one worker per thread

  /** A thread is in a worker's set if and only if its route names the worker, and the sets hold
      nothing but threads. */
  ghost predicate Mirror<I(!new), K(!new)>(c: Codec<I, K>, d: Sets<K>, r: (I, I) -> Option<Worker>)
  {
    && (forall p, t, w :: c.ok(p, t) ==> (In(d, w, c.enc(p, t)) <==> r(p, t) == Some(w)))
    && (forall p, t :: r(p, t).Some? ==> c.ok(p, t))
    && (forall w, k :: In(d, w, k) ==> IsKey(c, k))
  }

  /** One thread's route changes from what it was to `to`. */
  ghost predicate Rerouted<I(!new)>(r: (I, I) -> Option<Worker>, r': (I, I) -> Option<Worker>, p: I, t: I, to: Worker)
  {
    forall p', t' :: r'(p', t') == if p' == p && t' == t then Some(to) else r(p', t')
  }

  function Moved<K(==, !new)>(d: Sets<K>, k: K, from: Option<Worker>, to: Worker): (r: Sets<K>)
    ensures forall w, x :: In(r, w, x) <==> (In(d, w, x) && !(x == k && from == Some(w))) || (x == k && w == to)
  {
    Emplace(if from.Some? then Erase(d, from.value, k) else d, to, k)
  }

  lemma MoveMirrors<I(!new), K(!new)>(c: Codec<I, K>, d: Sets<K>, r: (I, I) -> Option<Worker>,
                                      r': (I, I) -> Option<Worker>, p: I, t: I, to: Worker)
    requires RoundTrips(c) && Mirror(c, d, r) && c.ok(p, t) && Rerouted(r, r', p, t, to)
    ensures Mirror(c, Moved(d, c.enc(p, t), r(p, t), to), r')
  {
    var k := c.enc(p, t);
    var d' := Moved(d, k, r(p, t), to);
    assert IsKey(c, k);
    forall p', t', w | c.ok(p', t') ensures In(d', w, c.enc(p', t')) <==> r'(p', t') == Some(w) {
      KeyOfPair(c, k, p', t');
      assert In(d, w, c.enc(p', t')) <==> r(p', t') == Some(w);
    }
  }

  // ---------------------------------------------------------------- the creation table

  datatype Route = Route(dst: Worker, round: nat)

  type App<I> = map<I, map<I, Route>>

  function RouteOf<I(==)>(app: App<I>, p: I, t: I): (r: Option<Worker>)
  {
    if p in app && t in app[p] then Some(app[p][t].dst) else None
  }

  function Routes<I(==)>(app: App<I>): (r: (I, I) -> Option<Worker>)
  {
    (p, t) => RouteOf(app, p, t)
  }

  function Unless(r: Option<Worker>, wid: Worker): (r': Option<Worker>)
  {
    if r == Some(wid) then None else r
  }

  /** The round in which a thread was last active. */
  function RoundOf<I(==)>(app: App<I>, p: I, t: I): (r: nat)
  {
    if p in app && t in app[p] then app[p][t].round else 0
  }

  const U32: int := 0x1_0000_0000
  const U64: int := 0x1_0000_0000_0000_0000

  /** `int(cur - round)` with an unsigned 64-bit difference: the low 32 bits, signed. */
  function RoundsSince(cur: int, round: nat): (r: int)
  {
    var low := ((cur - round) % U64) % U32;
    if low < U32 / 2 then low else low - U32
  }

  /** It is the number of rounds between exactly for rounds less than 2^31 apart. */
  lemma RoundsPlainIff(cur: int, round: nat)
    ensures RoundsSince(cur, round) == cur - round <==> -(U32 / 2) <= cur - round < U32 / 2
  {
    var d := cur - round;
    if -(U32 / 2) <= d < 0 {
      assert d % U64 == d + U64;
      assert (d + U64) % U32 == d + U32;
    }
  }

  class LmWorkerCreationRoutingTable<I(==, !new), K(==, !new)> {
    var app: App<I>
    var dst: Sets<K>

    constructor ()
      ensures app == map[] && dst == map[]
    {
      app, dst := map[], map[];
    }

    ghost predicate Consistent(c: Codec<I, K>)
      reads this
    {
      RoundTrips(c) && Mirror(c, dst, Routes(app))
    }

    method UpdateDstWid(c: Codec<I, K>, pid: I, tid: I, key: K, wid: Worker, round: nat)
      requires Consistent(c) && c.ok(pid, tid) && key == c.enc(pid, tid)
      modifies this
      ensures Consistent(c) && RouteOf(app, pid, tid) == Some(wid) && RoundOf(app, pid, tid) == round
      ensures forall p, t :: !(p == pid && t == tid) ==>
                RouteOf(app, p, t) == old(RouteOf(app, p, t)) && RoundOf(app, p, t) == old(RoundOf(app, p, t))
    {
      ghost var r := Routes(app);
      var threads := if pid in app then app[pid] else map[];
      if tid in threads {
        dst := Erase(dst, threads[tid].dst, key);
      }
      app := app[pid := threads[tid := Route(wid, round)]];
      dst := Emplace(dst, wid, key);
      assert dst == Moved(old(dst), key, r(pid, tid), wid);
      assert Rerouted(r, Routes(app), pid, tid, wid);
      MoveMirrors(c, old(dst), r, Routes(app), pid, tid, wid);
    }

    /** Forgets a worker and the routes to it; the assertion that each of its threads has an entry holds. */
    method EraseWid(c: Codec<I, K>, wid: Worker)
      requires Consistent(c)
      modifies this
      ensures Consistent(c) && wid !in dst
      ensures forall p, t :: RouteOf(app, p, t) == Unless(old(RouteOf(app, p, t)), wid)
      ensures forall p, t :: RouteOf(app, p, t).Some? ==> RoundOf(app, p, t) == old(RoundOf(app, p, t))
    {
      if wid !in dst {
        forall p, t ensures RouteOf(app, p, t) != Some(wid) {
          assert Routes(app)(p, t) == RouteOf(app, p, t);
          assert In(dst, wid, c.enc(p, t)) ==> wid in dst;
        }
        return;
      }
      var rest := dst[wid];
      while rest != {}
        invariant dst == old(dst) && wid in dst && rest <= dst[wid]
        invariant forall p, t :: c.enc(p, t) in rest ==> RouteOf(app, p, t) == old(RouteOf(app, p, t))
        invariant forall p, t :: c.enc(p, t) !in rest ==> RouteOf(app, p, t) == Unless(old(RouteOf(app, p, t)), wid)
        invariant forall p, t :: RouteOf(app, p, t).Some? ==> RoundOf(app, p, t) == old(RoundOf(app, p, t))
      {
        var tau := Pick(rest);
        assert In(dst, wid, tau) && IsKey(c, tau);
        var pid, tid := c.pid(tau), c.tid(tau);
        assert old(RouteOf(app, pid, tid)) == Some(wid) by { assert old(Routes(app))(pid, tid) == Some(wid); }
        assert RouteOf(app, pid, tid) == Some(wid);
        Remove(pid, tid);
        rest := rest - {tau};
        forall p, t ensures c.ok(p, t) && c.enc(p, t) == tau <==> p == pid && t == tid {
          KeyOfPair(c, tau, p, t);
        }
      }
      dst := dst - {wid};
      ErasedMirrors(c, old(dst), old(app), app, wid);
    }

    method Remove(pid: I, tid: I)
      requires pid in app && tid in app[pid]
      modifies this`app
      ensures forall p, t :: RouteOf(app, p, t) == if p == pid && t == tid then None else old(RouteOf(app, p, t))
      ensures forall p, t :: RouteOf(app, p, t).Some? ==> RoundOf(app, p, t) == old(RoundOf(app, p, t))
    {
      app := app[pid := app[pid] - {tid}];
      assert forall t :: t in app[pid] <==> t in old(app[pid]) && t != tid;
      if app[pid] == map[] {
        app := app - {pid};
      }
    }

    /** The threads of a worker that were active in the last rounds; none of the three throws is reached. */
    method GetActiveTausInDstWithinNumRound(c: Codec<I, K>, wid: Worker, cur: int, num: int, order: seq<K>)
      returns (ok: bool, taus: seq<K>)
      requires Consistent(c) && (wid in dst ==> forall k :: k in order <==> k in dst[wid])
      ensures ok
      ensures forall k :: k in taus <==> In(dst, wid, k) && RoundsSince(cur, RoundOf(app, c.pid(k), c.tid(k))) <= num
    {
      taus := [];
      if wid !in dst {
        return true, taus;
      }
      for i := 0 to |order|
        invariant forall k :: k in taus <==>
          k in order[..i] && In(dst, wid, k) && RoundsSince(cur, RoundOf(app, c.pid(k), c.tid(k))) <= num
      {
        var tau := order[i];
        assert order[..i + 1] == order[..i] + [tau];
        assert In(dst, wid, tau) && IsKey(c, tau);
        var pid, tid := c.pid(tau), c.tid(tau);
        assert Routes(app)(pid, tid) == Some(wid);
        if pid !in app || tid !in app[pid] || app[pid][tid].dst != wid {
          return false, taus;
        }
        if RoundsSince(cur, app[pid][tid].round) <= num {
          taus := taus + [tau];
        }
      }
      assert order[..|order|] == order;
      ok := true;
    }
  }

  lemma ErasedMirrors<I(!new), K(!new)>(c: Codec<I, K>, d: Sets<K>, app: App<I>, app': App<I>, wid: Worker)
    requires RoundTrips(c) && Mirror(c, d, Routes(app))
    requires forall p, t :: RouteOf(app', p, t) == Unless(RouteOf(app, p, t), wid)
    ensures Mirror(c, d - {wid}, Routes(app'))
  {
    var d' := d - {wid};
    assert forall p, t :: Routes(app')(p, t) == RouteOf(app', p, t) && Routes(app)(p, t) == RouteOf(app, p, t);
    assert forall w, k :: In(d', w, k) <==> In(d, w, k) && w != wid;
  }

  lemma EmptyMirrors<I(!new), K(!new)>(c: Codec<I, K>)
    ensures Mirror(c, map[], Routes(map[]))
  {
    assert forall p: I, t: I :: Routes(map[])(p, t) == None;
  }

  // ---------------------------------------------------------------- the future table

  /** The workers of a thread by round, in the order of the rounds. */
  datatype Leg = Leg(round: nat, dst: Worker)
  type History = seq<Leg>

  predicate Ordered(h: History)
  {
    h != [] && forall i, j :: 0 <= i < j < |h| ==> h[i].round < h[j].round
  }

  /** `emplace` on the ordered map: a round that is there keeps its worker. */
  function Log(h: History, leg: Leg): (r: History)
  {
    if h == [] || h[|h| - 1].round < leg.round then h + [leg]
    else if h[|h| - 1].round == leg.round then h
    else Log(h[..|h| - 1], leg) + [h[|h| - 1]]
  }

  lemma {:induction false} LogMembers(h: History, leg: Leg, l: Leg)
    ensures l in Log(h, leg) ==> l in h || l == leg
    ensures l in h ==> l in Log(h, leg)
  {
    if h != [] && h[|h| - 1].round > leg.round {
      LogMembers(h[..|h| - 1], leg, l);
      assert h == h[..|h| - 1] + [h[|h| - 1]];
    }
  }

  /** A round that is not there is entered with its worker. */
  lemma {:induction false} LogEnters(h: History, leg: Leg)
    requires forall i :: 0 <= i < |h| ==> h[i].round != leg.round
    ensures |Log(h, leg)| == |h| + 1 && leg in Log(h, leg)
  {
    if h != [] && h[|h| - 1].round > leg.round {
      LogEnters(h[..|h| - 1], leg);
    } else {
      assert (h + [leg])[|h|] == leg;
    }
  }

  /** A round that is there keeps its worker. */
  lemma {:induction false} LogKeeps(h: History, leg: Leg, k: nat)
    requires Ordered(h) && k < |h| && h[k].round == leg.round
    ensures Log(h, leg) == h
  {
    if k < |h| - 1 {
      LogKeeps(h[..|h| - 1], leg, k);
      assert h == h[..|h| - 1] + [h[|h| - 1]];
    }
  }

  lemma {:induction false} LogOrdered(h: History, leg: Leg)
    requires h == [] || Ordered(h)
    ensures Ordered(Log(h, leg))
    ensures Log(h, leg)[|Log(h, leg)| - 1] == if h == [] || h[|h| - 1].round < leg.round then leg else h[|h| - 1]
  {
    if h != [] && h[|h| - 1].round > leg.round {
      var front, last := h[..|h| - 1], h[|h| - 1];
      LogOrdered(front, leg);
      var r := Log(front, leg);
      forall i | 0 <= i < |r| ensures r[i].round < last.round {
        LogMembers(front, leg, r[i]);
      }
    }
  }

  type Plans<I> = map<I, map<I, History>>

  predicate Sound<I(==)>(app: Plans<I>)
  {
    forall p :: p in app ==> forall t :: t in app[p] ==> Ordered(app[p][t])
  }

  function HistoryOf<I(==)>(app: Plans<I>, p: I, t: I): (h: History)
  {
    if p in app && t in app[p] then app[p][t] else []
  }

  /** The worker of the latest round, of those entered so far. */
  function Latest<I(==)>(app: Plans<I>, p: I, t: I): (r: Option<Worker>)
  {
    var h := HistoryOf(app, p, t);
    if h == [] then None else Some(h[|h| - 1].dst)
  }

  function LastRound<I(==)>(app: Plans<I>, p: I, t: I): (r: nat)
  {
    var h := HistoryOf(app, p, t);
    if h == [] then 0 else h[|h| - 1].round
  }

  function LatestOf<I(==)>(app: Plans<I>): (r: (I, I) -> Option<Worker>)
  {
    (p, t) => Latest(app, p, t)
  }

  /** The threads of a process, as `app[p]` gives them: none if the process is new. */
  function Threads<I(==)>(app: Plans<I>, p: I): (r: map<I, History>)
  {
    if p in app then app[p] else map[]
  }

  /** `app[pid]` may add an empty entry for the process. */
  lemma TouchedHistories<I(!new)>(app: Plans<I>, app': Plans<I>, pid: I)
    requires Sound(app) && app' == app[pid := Threads(app, pid)]
    ensures Sound(app') && forall p, t :: HistoryOf(app', p, t) == HistoryOf(app, p, t)
  {
  }

  lemma MirrorSame<I(!new), K(!new)>(c: Codec<I, K>, d: Sets<K>, r: (I, I) -> Option<Worker>,
                                     r': (I, I) -> Option<Worker>)
    requires Mirror(c, d, r) && forall p, t :: r'(p, t) == r(p, t)
    ensures Mirror(c, d, r')
  {
  }

  lemma TouchedSame<I(!new), K(!new)>(c: Codec<I, K>, d: Sets<K>, app: Plans<I>, app': Plans<I>, pid: I)
    requires Sound(app) && app' == app[pid := Threads(app, pid)] && Mirror(c, d, LatestOf(app))
    ensures Sound(app') && (forall p, t :: HistoryOf(app', p, t) == HistoryOf(app, p, t))
    ensures Mirror(c, d, LatestOf(app'))
  {
    TouchedHistories(app, app', pid);
    MirrorSame(c, d, LatestOf(app), LatestOf(app'));
  }

  /** A key that goes to `to` mirrors a route that goes to `now` exactly if the two are the same. */
  lemma MoveMirrorsIff<I(!new), K(!new)>(c: Codec<I, K>, d: Sets<K>, r: (I, I) -> Option<Worker>,
                                         r': (I, I) -> Option<Worker>, p: I, t: I,
                                         from: Worker, to: Worker, now: Worker)
    requires RoundTrips(c) && Mirror(c, d, r) && c.ok(p, t) && r(p, t) == Some(from) && Rerouted(r, r', p, t, now)
    ensures Mirror(c, Moved(d, c.enc(p, t), Some(from), to), r') <==> now == to
  {
    if now == to {
      MoveMirrors(c, d, r, r', p, t, to);
    } else {
      assert r'(p, t) == Some(now);
      assert In(Moved(d, c.enc(p, t), Some(from), to), to, c.enc(p, t));
    }
  }

  /** A key that is only added to `to` mirrors a route that goes there exactly if it was nowhere else. */
  lemma AddMirrorsIff<I(!new), K(!new)>(c: Codec<I, K>, d: Sets<K>, r: (I, I) -> Option<Worker>,
                                        r': (I, I) -> Option<Worker>, p: I, t: I, to: Worker)
    requires RoundTrips(c) && Mirror(c, d, r) && c.ok(p, t) && Rerouted(r, r', p, t, to)
    ensures Mirror(c, Emplace(d, to, c.enc(p, t)), r') <==> r(p, t) in {None, Some(to)}
  {
    var k := c.enc(p, t);
    MoveMirrors(c, d, r, r', p, t, to);
    var d', moved := Emplace(d, to, k), Moved(d, k, r(p, t), to);
    match r(p, t) {
      case None => assert d' == moved;
      case Some(w) =>
        if w == to {
          assert forall x, y :: In(d', x, y) <==> In(moved, x, y);
        } else {
          assert In(d, w, k);
          assert In(d', w, k) && r'(p, t) != Some(w);
        }
    }
  }

  lemma OneLatest<I(!new)>(app: Plans<I>, app': Plans<I>, p: I, t: I, h: History, p': I, t': I)
    requires p in app && t in app[p] && app' == app[p := app[p][t := h]] && h != []
    ensures Latest(app', p', t') == if p' == p && t' == t then Some(h[|h| - 1].dst) else Latest(app, p', t')
  {
  }

  lemma OneSound<I(!new)>(app: Plans<I>, app': Plans<I>, p: I, t: I, h: History)
    requires Sound(app) && p in app && app' == app[p := app[p][t := h]] && Ordered(h)
    ensures Sound(app')
  {
  }

  /** One thread's history is replaced. */
  lemma OneHistory<I(!new)>(app: Plans<I>, app': Plans<I>, p: I, t: I, h: History)
    requires p in app && t in app[p] && app' == app[p := app[p][t := h]] && h != []
    ensures Rerouted(LatestOf(app), LatestOf(app'), p, t, h[|h| - 1].dst)
  {
    forall p', t'
      ensures LatestOf(app')(p', t') == if p' == p && t' == t then Some(h[|h| - 1].dst) else LatestOf(app)(p', t')
    {
      OneLatest(app, app', p, t, h, p', t');
    }
  }

  /** The latest worker after a round is entered. */
  function LatestAfter(h: History, leg: Leg): (w: Worker)
    requires h != []
  {
    if leg.round > h[|h| - 1].round then leg.dst else h[|h| - 1].dst
  }

  lemma LogLatest(h: History, leg: Leg)
    requires Ordered(h)
    ensures Ordered(Log(h, leg)) && Log(h, leg)[|Log(h, leg)| - 1].dst == LatestAfter(h, leg)
  {
    LogOrdered(h, leg);
  }

  lemma LoggedReroutes<I(!new)>(app: Plans<I>, app': Plans<I>, p: I, t: I, leg: Leg, h: History)
    requires Sound(app) && p in app && t in app[p] && h == app[p][t] && app' == app[p := app[p][t := Log(h, leg)]]
    ensures Sound(app') && h != [] && Rerouted(LatestOf(app), LatestOf(app'), p, t, LatestAfter(h, leg))
  {
    assert Ordered(h);
    LogLatest(h, leg);
    OneSound(app, app', p, t, Log(h, leg));
    OneHistory(app, app', p, t, Log(h, leg));
  }

  lemma TauMoves<I(!new), K(!new)>(c: Codec<I, K>, d: Sets<K>, app: Plans<I>, app': Plans<I>, p: I, t: I,
                                   from: Worker, to: Worker, round: nat)
    requires RoundTrips(c) && Sound(app) && Mirror(c, d, LatestOf(app)) && c.ok(p, t)
    requires p in app && t in app[p] && app' == app[p := app[p][t := Log(app[p][t], Leg(round, to))]]
    requires Latest(app, p, t) == Some(from)
    ensures Sound(app')
    ensures Mirror(c, Moved(d, c.enc(p, t), Some(from), to), LatestOf(app')) <==>
            from == to || round > LastRound(app, p, t)
  {
    LoggedReroutes(app, app', p, t, Leg(round, to), app[p][t]);
    MoveMirrorsIff(c, d, LatestOf(app), LatestOf(app'), p, t, from, to, LatestAfter(app[p][t], Leg(round, to)));
  }

  lemma StartedReroutes<I(!new)>(app: Plans<I>, app': Plans<I>, p: I, t: I, round: nat)
    requires Sound(app) && app' == app[p := Threads(app, p)[t := [Leg(round, MASTER)]]]
    ensures Sound(app') && Rerouted(LatestOf(app), LatestOf(app'), p, t, MASTER)
  {
    assert forall p', t' :: !(p' == p && t' == t) ==> HistoryOf(app', p', t') == HistoryOf(app, p', t');
  }

  lemma TauStarts<I(!new), K(!new)>(c: Codec<I, K>, d: Sets<K>, app: Plans<I>, app': Plans<I>, p: I, t: I, round: nat)
    requires RoundTrips(c) && Sound(app) && Mirror(c, d, LatestOf(app)) && c.ok(p, t)
    requires app' == app[p := Threads(app, p)[t := [Leg(round, MASTER)]]]
    ensures Sound(app')
    ensures Mirror(c, Emplace(d, MASTER, c.enc(p, t)), LatestOf(app')) <==> Latest(app, p, t) in {None, Some(MASTER)}
  {
    StartedReroutes(app, app', p, t, round);
    AddMirrorsIff(c, d, LatestOf(app), LatestOf(app'), p, t, MASTER);
  }

  lemma NoPlansMirror<I(!new), K(!new)>(c: Codec<I, K>)
    ensures Mirror(c, map[], LatestOf<I>(map[]))
  {
    assert forall p: I, t: I :: LatestOf(map[])(p, t) == None;
  }

  class LmWorkerFutureRoutingTable<I(==, !new), K(==, !new)> {
    var app: Plans<I>
    var dst: Sets<K>

    ghost predicate Consistent(c: Codec<I, K>)
      reads this
    {
      RoundTrips(c) && Sound(app) && Mirror(c, dst, LatestOf(app))
    }

    constructor (ghost c: Codec<I, K>)
      requires RoundTrips(c)
      ensures Consistent(c) && app == map[] && dst == map[]
    {
      app, dst := map[], map[];
      new;
      NoPlansMirror<I, K>(c);
    }

    /** The update is refused unless the thread is at `from`. Otherwise its key moves to the set of
        `to`, and the two directions agree exactly if the round is later than all before or the
        worker stays the same: an earlier round is only entered in the history, and the removal of
        older visits to `to` is made on a copy. */
    method UpdateTauDstWid(c: Codec<I, K>, pid: I, tid: I, key: K, from: Worker, to: Worker, round: nat)
      returns (ok: bool)
      requires Consistent(c) && c.ok(pid, tid) && key == c.enc(pid, tid)
      modifies this
      ensures ok <==> old(Latest(app, pid, tid)) == Some(from)
      ensures Sound(app) && (!ok ==> Consistent(c))
      ensures ok ==> (Consistent(c) <==> from == to || round > old(LastRound(app, pid, tid)))
      ensures HistoryOf(app, pid, tid) ==
              if ok then Log(old(HistoryOf(app, pid, tid)), Leg(round, to)) else old(HistoryOf(app, pid, tid))
      ensures ok && round > old(LastRound(app, pid, tid)) ==>
                Latest(app, pid, tid) == Some(to) && LastRound(app, pid, tid) == round
      ensures ok && round <= old(LastRound(app, pid, tid)) ==>
                Latest(app, pid, tid) == Some(from) && LastRound(app, pid, tid) == old(LastRound(app, pid, tid))
      ensures forall p, t :: !(p == pid && t == tid) ==> HistoryOf(app, p, t) == old(HistoryOf(app, p, t))
      ensures dst == if ok then Moved(old(dst), key, Some(from), to) else old(dst)
    {
      app := app[pid := Threads(app, pid)];
      TouchedSame(c, dst, old(app), app, pid);
      if tid !in app[pid] {
        return false;
      }
      var h := app[pid][tid];
      assert Ordered(h);
      if h[|h| - 1].dst != from {
        return false;
      }
      ghost var before := app;
      dst := Emplace(Erase(dst, from, key), to, key);
      app := app[pid := app[pid][tid := Log(h, Leg(round, to))]];
      TauMoves(c, old(dst), before, app, pid, tid, from, to, round);
      LogOrdered(h, Leg(round, to));
      ok := true;
    }

    /** Sends a thread to the master: consistent exactly if it is new or is at the master already. */
    method InitTauToMaster(c: Codec<I, K>, pid: I, tid: I, key: K, round: nat)
      requires Consistent(c) && c.ok(pid, tid) && key == c.enc(pid, tid)
      modifies this
      ensures Sound(app) && (Consistent(c) <==> old(Latest(app, pid, tid)) in {None, Some(MASTER)})
      ensures Latest(app, pid, tid) == Some(MASTER) && LastRound(app, pid, tid) == (round - 1) % U64
      ensures HistoryOf(app, pid, tid) == [Leg((round - 1) % U64, MASTER)]
      ensures forall p, t :: !(p == pid && t == tid) ==> HistoryOf(app, p, t) == old(HistoryOf(app, p, t))
      ensures dst == Emplace(old(dst), MASTER, key)
    {
      app := app[pid := Threads(app, pid)[tid := [Leg((round - 1) % U64, MASTER)]]];
      TauStarts(c, dst, old(app), app, pid, tid, (round - 1) % U64);
      dst := Emplace(dst, MASTER, key);
    }
  }

  /** A thread that is moved twice in one round: the history keeps the worker of the first move, while
      the sets have the thread at the worker of the second. */
  method MoveTwice<I(==, !new), K(==, !new)>(table: LmWorkerFutureRoutingTable<I, K>, c: Codec<I, K>,
                                             pid: I, tid: I, a: Worker, b: Worker, d: Worker, round: nat)
    requires table.Consistent(c) && c.ok(pid, tid) && a != b && b != d
    requires Latest(table.app, pid, tid) == Some(a) && LastRound(table.app, pid, tid) < round
    modifies table
    ensures Latest(table.app, pid, tid) == Some(b) && In(table.dst, d, c.enc(pid, tid)) && !table.Consistent(c)
  {
    var ok := table.UpdateTauDstWid(c, pid, tid, c.enc(pid, tid), a, b, round);
    ok := table.UpdateTauDstWid(c, pid, tid, c.enc(pid, tid), b, d, round);
  }

  /** From an empty table: a thread sent to the master in round 5 and moved twice in that round. */
  method Disagreement<I(==, !new), K(==, !new)>(c: Codec<I, K>, pid: I, tid: I)
    returns (table: LmWorkerFutureRoutingTable<I, K>)
    requires RoundTrips(c) && c.ok(pid, tid)
    ensures Latest(table.app, pid, tid) == Some(1) && In(table.dst, 2, c.enc(pid, tid)) && !table.Consistent(c)
  {
    table := new LmWorkerFutureRoutingTable(c);
    table.InitTauToMaster(c, pid, tid, c.enc(pid, tid), 5);
    MoveTwice(table, c, pid, tid, MASTER, 1, 2, 5);
  }
}
