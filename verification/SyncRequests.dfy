/** Requests to sync the unlinked inodes of one worker (`processSyncunlinked`, `submitSyncBatches` and
    `onBatchedJournalWriteComplete` in cfs/src/FsProc_FileMng.cc).

    One request is meant to run at a time; the others wait in a queue. A request object comes from a pool
    and keeps its state and its batch counters from one use to the next: `resetReq` (cfs/src/FsProc.cc)
    does not clear them. A batch that finds no space in the journal comes back as failed inside the call
    that submits it. Calls the worker makes without returning to its event loop are split into steps;
    `pending` counts the completions whose last lines, which start the next request, are still to run. */
module SyncRequests {

  import opened NatLists

  /** SYNCUNLINKED_GUARD, SYNC_BATCHES_INPROGRESS and SYNC_BATCHES_COMPLETE. */
  datatype State = Guard | Busy | Done

  /** A request object; `outstanding`, `batches` and `lost` are its batches that have not come back, and
      how many batches its present use made and lost. */
  datatype Obj = Obj(
    state: State, created: nat, completed: nat, failed: nat, outstanding: set<nat>, batches: nat, lost: nat)

  /** A completion: the object, how many batches it made, how many of them failed, what it reports. */
  datatype Fin = Fin(obj: nat, batches: nat, failures: nat, error: bool)

  datatype World = World(
    objs: map<nat, Obj>,
    inProgress: bool,
    queue: seq<nat>,               // syncunlinked_requests_
    ready: seq<nat>,               // the requests of this kind in the worker's ready queue
    pending: nat,
    live: set<nat>,                // objects out of the pool
    running: seq<nat>,             // requests begun and not completed
    arrived: seq<nat>,
    finished: seq<Fin>)

  /** A step that may begin a request says into how many batches its set is packed, and how many of them
      the journal refuses while they are submitted. */
  datatype Step =
    | Arrive(obj: nat, batches: nat, refused: nat)
    | BatchDone(obj: nat, batch: nat, success: bool)
    | RunReady(batches: nat, refused: nat)
    | Release(batches: nat, refused: nat)

  function ObjOf(m: map<nat, Obj>, obj: nat): (o: Obj)
  {
    if obj in m then m[obj] else Obj(Guard, 0, 0, 0, {}, 0, 0)
  }

  function Numbers(n: nat): (s: set<nat>)
    ensures |s| == n && forall k :: k in s ==> k < n
  {
    if n == 0 then {} else Numbers(n - 1) + {n - 1}
  }

  function Removed(q: seq<nat>, x: nat): (r: seq<nat>)
  {
    if q == [] then [] else if q[0] == x then q[1..] else [q[0]] + Removed(q[1..], x)
  }

  /** `submitSyncBatches`: with every batch refused the last one makes the request complete and ready. */
  function Submit(o: Obj, batches: nat, refused: nat): (r: Obj)
    requires refused <= batches
  {
    if batches == 0 then o.(state := Done, batches := 0, lost := 0)
    else Obj(if refused == batches then Done else Busy,
             batches, refused, refused, Numbers(batches - refused), batches, refused)
  }

  /** Completion of `obj`: it reports an error when its counters show a failed batch. */
  function Finish(w: World, obj: nat): (r: World)
  {
    var o := ObjOf(w.objs, obj);
    w.(pending := w.pending + 1, live := w.live - {obj}, running := Removed(w.running, obj),
       finished := w.finished + [Fin(obj, o.batches, o.lost, o.failed != 0)])
  }

  /** The guard has been passed: the set is submitted, and the request completes at once if it is
      complete then. */
  function Begin(w: World, obj: nat, batches: nat, refused: nat): (r: World)
    requires refused <= batches
  {
    var o := Submit(ObjOf(w.objs, obj), batches, refused);
    var w' := w.(inProgress := true, objs := w.objs[obj := o], running := w.running + [obj],
                 ready := if batches > 0 && refused == batches then w.ready + [obj] else w.ready);
    if o.state.Done? then Finish(w', obj) else w'
  }

  /** `processSyncunlinked`. */
  function Process(w: World, obj: nat, batches: nat, refused: nat): (r: World)
    requires refused <= batches
  {
    match ObjOf(w.objs, obj).state
    case Guard => if w.inProgress then w.(queue := w.queue + [obj]) else Begin(w, obj, batches, refused)
    case Busy => w
    case Done => Finish(w, obj)
  }

  predicate Enabled(w: World, s: Step)
  {
    match s
    case Arrive(obj, batches, refused) => obj !in w.live && refused <= batches
    case BatchDone(obj, batch, _) => batch in ObjOf(w.objs, obj).outstanding
    case RunReady(batches, refused) => w.pending == 0 && w.ready != [] && refused <= batches
    case Release(batches, refused) => w.pending > 0 && refused <= batches
  }

  function Arrived(w: World, obj: nat): (r: World)
  {
    w.(objs := w.objs[obj := ObjOf(w.objs, obj).(state := Guard)], live := w.live + {obj},
       arrived := w.arrived + [obj])
  }

  /** `onBatchedJournalWriteComplete`, from the event loop. */
  function CameBack(o: Obj, batch: nat, success: bool): (r: Obj)
  {
    var last := o.completed + 1 == o.created;
    Obj(if last then Done else o.state, o.created, o.completed + 1, if success then o.failed else o.failed + 1,
        o.outstanding - {batch}, o.batches, if success then o.lost else o.lost + 1)
  }

  /** The world in which the first waiting request is taken from the queue. */
  function Taken(w: World): (r: World)
    requires w.pending > 0 && w.queue != []
  {
    w.(pending := w.pending - 1, inProgress := false, queue := w.queue[1..])
  }

  function Next(w: World, s: Step): (r: World)
    requires Enabled(w, s)
  {
    match s
    case Arrive(obj, batches, refused) => Process(Arrived(w, obj), obj, batches, refused)
    case BatchDone(obj, batch, success) =>
      var o := CameBack(ObjOf(w.objs, obj), batch, success);
      w.(objs := w.objs[obj := o], ready := if o.completed == o.created then w.ready + [obj] else w.ready)
    case RunReady(batches, refused) => Process(w.(ready := w.ready[1..]), w.ready[0], batches, refused)
    case Release(batches, refused) =>
      if w.queue == [] then w.(pending := w.pending - 1, inProgress := false)
      else Process(Taken(w), w.queue[0], batches, refused)
  }

  ghost predicate Runs(w: World, steps: seq<Step>, w': World)
    decreases steps
  {
    if steps == [] then w' == w else Enabled(w, steps[0]) && Runs(Next(w, steps[0]), steps[1..], w')
  }

  const START: World := World(map[], false, [], [], 0, {}, [], [], [])

  // ---------------------------------------------------------------- what is promised

  function Objs(fs: seq<Fin>): (r: seq<nat>)
    ensures |r| == |fs| && forall i :: 0 <= i < |fs| ==> r[i] == fs[i].obj
  {
    seq(|fs|, i requires 0 <= i < |fs| => fs[i].obj)
  }

  /** Requests complete once each, in the order in which they came, and at most one runs. */
  predicate Orderly(w: World)
  {
    && w.arrived == Objs(w.finished) + w.running + w.queue
    && NoDup(w.running + w.queue) && |w.running| <= 1
  }

  /** The request that a step begins, if it does. */
  predicate Begins(w: World, s: Step)
    requires Enabled(w, s)
  {
    match s
    case Arrive(_, _, _) => !w.inProgress
    case BatchDone(_, _, _) => false
    case RunReady(_, _) => !w.inProgress && ObjOf(w.objs, w.ready[0]).state.Guard?
    case Release(_, _) => w.queue != [] && ObjOf(w.objs, w.queue[0]).state.Guard?
  }

  /** The step begins a request with batches, all of which the journal refuses while they are submitted. */
  predicate AllRefused(w: World, s: Step)
    requires Enabled(w, s)
  {
    Begins(w, s) && s.batches > 0 && s.refused == s.batches
  }

  predicate NeverAllRefused(w: World, steps: seq<Step>)
    decreases steps
  {
    steps == [] ||
    (Enabled(w, steps[0]) && !AllRefused(w, steps[0]) && NeverAllRefused(Next(w, steps[0]), steps[1..]))
  }

  // ---------------------------------------------------------------- what every other step keeps

  /** A request waits only while another one is being served, and then before the guard. */
  ghost predicate Serving(w: World)
  {
    && w.live == Elems(w.running + w.queue)
    && w.pending <= 1 && (w.pending == 1 ==> w.running == [])
    && (w.inProgress <==> w.running != [] || w.pending == 1)
    && (w.queue != [] ==> w.inProgress)
    && (forall o :: o in w.queue ==> ObjOf(w.objs, o).state.Guard?)
  }

  /** The counters of the running request account for its batches, and it is made ready once, by the last. */
  predicate Counting(w: World)
  {
    if w.running == [] then w.ready == []
    else
      var o := ObjOf(w.objs, w.running[0]);
      && o.created == o.batches > 0 && o.created == o.completed + |o.outstanding|
      && o.failed == o.lost <= o.completed
      && o.state == (if o.outstanding == {} then Done else Busy)
      && w.ready == if o.outstanding == {} then [w.running[0]] else []
  }

  /** Whether the last use of the object that made batches ended with an error. */
  predicate LastUseFailed(fs: seq<Fin>, obj: nat)
  {
    fs != [] &&
    var f := fs[|fs| - 1];
    if f.obj == obj && f.batches > 0 then f.error else LastUseFailed(fs[..|fs| - 1], obj)
  }

  /** An object that is not running has no batches out, and its counters are those of its last use. */
  predicate AtRest(fs: seq<Fin>, o: Obj, obj: nat)
  {
    o.outstanding == {} && o.completed == o.created && (o.failed != 0 <==> LastUseFailed(fs, obj))
  }

  ghost predicate Resting(w: World)
  {
    forall obj :: obj !in w.running ==> AtRest(w.finished, ObjOf(w.objs, obj), obj)
  }

  /** A request with batches reports its own failures; one without reports those of the last use of its object. */
  predicate Report(before: seq<Fin>, f: Fin)
  {
    f.error <==> if f.batches > 0 then f.failures > 0 else LastUseFailed(before, f.obj)
  }

  predicate Reports(fs: seq<Fin>)
  {
    forall i :: 0 <= i < |fs| ==> Report(fs[..i], fs[i])
  }

  ghost predicate Inv(w: World)
  {
    Orderly(w) && Serving(w) && Counting(w) && Resting(w) && Reports(w.finished)
  }

  lemma ObjsSnoc(fs: seq<Fin>, f: Fin)
    ensures Objs(fs + [f]) == Objs(fs) + [f.obj]
  {
  }

  lemma ReportsSnoc(fs: seq<Fin>, f: Fin)
    requires Reports(fs) && Report(fs, f)
    ensures Reports(fs + [f])
  {
    var fs' := fs + [f];
    forall i | 0 <= i < |fs'| ensures Report(fs'[..i], fs'[i]) {
      assert fs'[..i] == fs[..i];
    }
  }

  lemma LastUseSnoc(fs: seq<Fin>, f: Fin, obj: nat)
    ensures LastUseFailed(fs + [f], obj) ==
            if f.obj == obj && f.batches > 0 then f.error else LastUseFailed(fs, obj)
  {
    assert (fs + [f])[..|fs|] == fs;
  }

  /** The running request completes. */
  lemma FinishKeeps(w: World, obj: nat)
    requires Orderly(w) && w.running == [obj] && w.ready == [] && w.pending == 0 && w.inProgress
    requires w.live == Elems(w.running + w.queue) && Resting(w) && Reports(w.finished)
    requires forall o :: o in w.queue ==> ObjOf(w.objs, o).state.Guard?
    requires var o := ObjOf(w.objs, obj);
             && o.outstanding == {} && o.completed == o.created
             && (if o.batches > 0 then o.failed == o.lost else o.failed != 0 <==> LastUseFailed(w.finished, obj))
    ensures Inv(Finish(w, obj))
  {
    var w', o := Finish(w, obj), ObjOf(w.objs, obj);
    var f := Fin(obj, o.batches, o.lost, o.failed != 0);
    ObjsSnoc(w.finished, f);
    ReportsSnoc(w.finished, f);
    FinishOrder(w, obj, f);
    forall x ensures AtRest(w'.finished, ObjOf(w'.objs, x), x) {
      LastUseSnoc(w.finished, f, x);
      assert x != obj ==> AtRest(w.finished, ObjOf(w.objs, x), x);
    }
  }

  lemma FinishOrder(w: World, obj: nat, f: Fin)
    requires Orderly(w) && w.running == [obj] && f.obj == obj && w.live == Elems(w.running + w.queue)
    requires Objs(w.finished + [f]) == Objs(w.finished) + [obj]
    ensures Removed(w.running, obj) == []
    ensures w.arrived == Objs(w.finished + [f]) + [] + w.queue && NoDup([] + w.queue)
    ensures w.live - {obj} == Elems([] + w.queue)
  {
    NoDupCons(obj, w.queue);
    assert [] + w.queue == w.queue;
    assert Elems([obj] + w.queue) == {obj} + Elems(w.queue);
  }

  /** A world in which nothing runs and `obj` is about to pass the guard. */
  ghost predicate Before(w: World, obj: nat)
  {
    && w.running == [] && w.ready == [] && w.pending == 0
    && w.arrived == Objs(w.finished) + [obj] + w.queue && NoDup([obj] + w.queue)
    && w.live == Elems([obj] + w.queue) && Resting(w) && Reports(w.finished)
    && (forall o :: o in w.queue ==> ObjOf(w.objs, o).state.Guard?)
  }

  lemma BeginKeeps(w: World, obj: nat, batches: nat, refused: nat)
    requires Before(w, obj) && refused <= batches && !(batches > 0 && refused == batches)
    ensures Inv(Begin(w, obj, batches, refused))
  {
    var o := Submit(ObjOf(w.objs, obj), batches, refused);
    var w' := w.(inProgress := true, objs := w.objs[obj := o], running := w.running + [obj]);
    assert w'.running == [obj];
    NoDupCons(obj, w.queue);
    assert forall x :: x != obj ==> ObjOf(w'.objs, x) == ObjOf(w.objs, x);
    assert AtRest(w.finished, ObjOf(w.objs, obj), obj);
    if batches == 0 {
      FinishKeeps(w', obj);
    }
  }

  lemma StepKeeps(w: World, s: Step)
    requires Inv(w) && Enabled(w, s) && !AllRefused(w, s)
    ensures Inv(Next(w, s))
  {
    match s
    case Arrive(obj, batches, refused) => ArriveKeeps(w, obj, batches, refused);
    case BatchDone(obj, batch, success) => BatchDoneKeeps(w, obj, batch, success);
    case RunReady(batches, refused) => RunReadyKeeps(w, batches, refused);
    case Release(batches, refused) => ReleaseKeeps(w, batches, refused);
  }

  lemma ArrivedBefore(w: World, obj: nat)
    requires Inv(w) && obj !in w.live && !w.inProgress
    ensures Before(Arrived(w, obj), obj)
  {
    assert w.running == [] && w.queue == [];
    assert AtRest(w.finished, ObjOf(w.objs, obj), obj);
    var w' := Arrived(w, obj);
    assert forall x :: x != obj ==> ObjOf(w'.objs, x) == ObjOf(w.objs, x);
  }

  lemma ArriveKeeps(w: World, obj: nat, batches: nat, refused: nat)
    requires Inv(w) && Enabled(w, Arrive(obj, batches, refused)) && !AllRefused(w, Arrive(obj, batches, refused))
    ensures Inv(Next(w, Arrive(obj, batches, refused)))
  {
    if w.inProgress {
      QueuedKeeps(w, obj);
    } else {
      ArrivedBefore(w, obj);
      BeginKeeps(Arrived(w, obj), obj, batches, refused);
    }
  }

  lemma QueuedKeeps(w: World, obj: nat)
    requires Inv(w) && obj !in w.live && w.inProgress
    ensures Inv(Arrived(w, obj).(queue := w.queue + [obj]))
  {
    var w' := Arrived(w, obj).(queue := w.queue + [obj]);
    assert w'.running + w'.queue == w.running + w.queue + [obj];
    assert obj !in w.running + w.queue;
    assert forall x :: x != obj ==> ObjOf(w'.objs, x) == ObjOf(w.objs, x);
    assert AtRest(w.finished, ObjOf(w.objs, obj), obj);
    assert w'.arrived == Objs(w'.finished) + w'.running + w'.queue;
    assert Elems(w'.running + w'.queue) == Elems(w.running + w.queue) + {obj};
  }

  lemma BatchDoneKeeps(w: World, obj: nat, batch: nat, success: bool)
    requires Inv(w) && Enabled(w, BatchDone(obj, batch, success))
    ensures Inv(Next(w, BatchDone(obj, batch, success)))
  {
    var w', o := Next(w, BatchDone(obj, batch, success)), ObjOf(w.objs, obj);
    assert obj in w.running by {
      assert obj !in w.running ==> AtRest(w.finished, o, obj);
    }
    var o' := ObjOf(w'.objs, obj);
    assert |o'.outstanding| == |o.outstanding| - 1;
    assert o'.outstanding == {} <==> |o'.outstanding| == 0;
    assert forall x :: x != obj ==> ObjOf(w'.objs, x) == ObjOf(w.objs, x);
    RunningIsNotQueued(w, obj);
  }

  lemma RunningIsNotQueued(w: World, obj: nat)
    requires Orderly(w) && obj in w.running
    ensures w.running == [obj] && obj !in w.queue
  {
    NoDupCons(obj, w.queue);
  }

  /** Requests that are done finish in the order in which their last batches came back. */
  lemma ServedInTurn(w: World, obj: nat, batch: nat, success: bool)
    requires w.pending == 0 && w.ready != [] && w.ready[0] != obj && ObjOf(w.objs, w.ready[0]).state.Done?
    requires Enabled(w, BatchDone(obj, batch, success))
    ensures var w1 := Next(w, BatchDone(obj, batch, success)); Enabled(w1, RunReady(0, 0))
    ensures var w2 := Next(Next(w, BatchDone(obj, batch, success)), RunReady(0, 0)); var o := ObjOf(w.objs, obj);
      && Objs(w2.finished) == Objs(w.finished) + [w.ready[0]]
      && w2.ready == w.ready[1..] + (if o.completed + 1 == o.created then [obj] else [])
  {
    var w1 := Next(w, BatchDone(obj, batch, success));
    var w2 := Next(w1, RunReady(0, 0));
    assert w2.ready == w1.ready[1..] && w2.finished == w.finished + [w2.finished[|w.finished|]];
  }

  lemma RunReadyKeeps(w: World, batches: nat, refused: nat)
    requires Inv(w) && Enabled(w, RunReady(batches, refused))
    ensures Inv(Next(w, RunReady(batches, refused)))
  {
    FinishKeeps(w.(ready := []), w.ready[0]);
  }

  lemma TakenOrder(arrived: seq<nat>, done: seq<nat>, queue: seq<nat>)
    requires queue != [] && arrived == done + [] + queue && NoDup([] + queue)
    ensures arrived == done + [queue[0]] + queue[1..] && NoDup([queue[0]] + queue[1..])
    ensures Elems([] + queue) == Elems([queue[0]] + queue[1..])
  {
    assert [queue[0]] + queue[1..] == queue == [] + queue;
  }

  lemma ReleasedBefore(w: World)
    requires Inv(w) && w.pending > 0 && w.queue != []
    ensures Before(Taken(w), w.queue[0])
  {
    TakenOrder(w.arrived, Objs(w.finished), w.queue);
    assert forall x :: x in w.queue[1..] ==> x in w.queue;
  }

  lemma ReleaseKeeps(w: World, batches: nat, refused: nat)
    requires Inv(w) && Enabled(w, Release(batches, refused)) && !AllRefused(w, Release(batches, refused))
    ensures Inv(Next(w, Release(batches, refused)))
  {
    if w.queue != [] {
      ReleasedBefore(w);
      assert w.queue[0] in w.queue;
      BeginKeeps(Taken(w), w.queue[0], batches, refused);
    }
  }

  /** Every run in which no request has all its batches refused on submission: requests complete once, in
      order and one at a time; the running one is made ready exactly once, when its last batch comes back;
      reports are as `Report` says; the two assertions, that the counters agree on completion and that a
      request taken from the queue is before the guard, hold; no request is left waiting. */
  lemma {:induction false} SyncRuns(w: World, steps: seq<Step>, w': World)
    requires Inv(w) && Runs(w, steps, w') && NeverAllRefused(w, steps)
    ensures Inv(w')
    ensures w'.ready == [] || (w'.ready == w'.running && ObjOf(w'.objs, w'.ready[0]).outstanding == {})
    ensures w'.ready != [] ==>
              ObjOf(w'.objs, w'.ready[0]).completed == ObjOf(w'.objs, w'.ready[0]).created
    ensures w'.pending > 0 && w'.queue != [] ==> ObjOf(w'.objs, w'.queue[0]).state.Guard?
    ensures w'.pending == 0 && w'.ready == [] && (forall o :: ObjOf(w'.objs, o).outstanding == {}) ==>
              w'.queue == [] && w'.arrived == Objs(w'.finished)
    decreases steps
  {
    if steps != [] {
      StepKeeps(w, steps[0]);
      SyncRuns(Next(w, steps[0]), steps[1..], w');
    } else {
      assert w.queue != [] ==> w.queue[0] in w.queue;
    }
  }

  lemma StartInv()
    ensures Inv(START)
  {
    assert Objs(START.finished) == [];
  }

  // ---------------------------------------------------------------- all batches refused

  /** A request has completed and is still in the ready queue; the others wait before the guard. */
  ghost predicate LeftBehind(w: World, obj: nat)
  {
    && w.pending == 1 && w.running == [] && w.ready == [obj] && ObjOf(w.objs, obj).state.Done? && obj !in w.queue
    && NoDup(w.queue) && (forall o :: o in w.queue ==> ObjOf(w.objs, o).state.Guard?)
    && |w.arrived| == |w.finished| + |w.queue|
  }

  lemma RefusedLeft(w: World, obj: nat, batches: nat)
    requires Before(w, obj) && batches > 0
    ensures LeftBehind(Begin(w, obj, batches, batches), obj)
  {
    NoDupCons(obj, w.queue);
    var objs := w.objs[obj := Submit(ObjOf(w.objs, obj), batches, batches)];
    assert forall x :: x != obj ==> ObjOf(objs, x) == ObjOf(w.objs, x);
    assert w.running + [obj] == [obj];
  }

  /** One request with an empty set after the other completes. */
  lemma DrainOne(w: World, obj: nat)
    requires LeftBehind(w, obj) && w.queue != []
    ensures Enabled(w, Release(0, 0)) && LeftBehind(Next(w, Release(0, 0)), obj)
    ensures Next(w, Release(0, 0)).queue == w.queue[1..]
  {
    var x, w' := w.queue[0], Next(w, Release(0, 0));
    assert x in w.queue && w.queue == [x] + w.queue[1..];
    NoDupCons(x, w.queue[1..]);
    assert w.running + [x] == [x];
    assert forall o :: o != x ==> ObjOf(w'.objs, o) == ObjOf(w.objs, o);
    assert forall o :: o in w.queue[1..] ==> o in w.queue;
  }

  lemma RunsCons(w: World, s: Step, steps: seq<Step>, w': World)
    requires Enabled(w, s) && Runs(Next(w, s), steps, w')
    ensures Runs(w, [s] + steps, w')
    ensures !AllRefused(w, s) && NeverAllRefused(Next(w, s), steps) ==> NeverAllRefused(w, [s] + steps)
  {
    assert ([s] + steps)[1..] == steps;
  }

  /** When the queue is empty the object is drained, and completes a second time. */
  lemma CompletesAgain(w: World, obj: nat) returns (steps: seq<Step>, w': World)
    requires LeftBehind(w, obj) && w.queue == []
    ensures Runs(w, steps, w') && NeverAllRefused(w, steps) && |w'.finished| == |w'.arrived| + 1
  {
    var w1 := Next(w, Release(0, 0));
    w' := Next(w1, RunReady(0, 0));
    RunsCons(w1, RunReady(0, 0), [], w');
    RunsCons(w, Release(0, 0), [RunReady(0, 0)] + [], w');
    steps := [Release(0, 0)] + ([RunReady(0, 0)] + []);
  }

  lemma {:induction false} Drains(w: World, obj: nat) returns (steps: seq<Step>, w': World)
    requires LeftBehind(w, obj)
    ensures Runs(w, steps, w') && NeverAllRefused(w, steps) && |w'.finished| == |w'.arrived| + 1
    decreases |w.queue|
  {
    if w.queue == [] {
      steps, w' := CompletesAgain(w, obj);
    } else {
      DrainOne(w, obj);
      var rest;
      rest, w' := Drains(Next(w, Release(0, 0)), obj);
      RunsCons(w, Release(0, 0), rest, w');
      steps := [Release(0, 0)] + rest;
    }
  }

  lemma AllRefusedLeaves(w: World, s: Step) returns (obj: nat)
    requires Inv(w) && Enabled(w, s) && AllRefused(w, s)
    ensures LeftBehind(Next(w, s), obj)
  {
    assert s.Arrive? || s.Release?;
    if s.Arrive? {
      obj := s.obj;
      ArrivedBefore(w, obj);
      RefusedLeft(Arrived(w, obj), obj, s.batches);
    } else {
      obj := w.queue[0];
      ReleasedBefore(w);
      RefusedLeft(Taken(w), obj, s.batches);
    }
  }

  /** However the run goes on, as long as no further request has all its batches refused on submission,
      requests complete once, in order and one at a time. */
  ghost predicate Safe(w: World)
  {
    forall steps: seq<Step>, w' :: Runs(w, steps, w') && NeverAllRefused(w, steps) ==> Orderly(w')
  }

  lemma InvSafe(w: World)
    requires Inv(w)
    ensures Safe(w)
  {
    forall steps: seq<Step>, w' | Runs(w, steps, w') && NeverAllRefused(w, steps) ensures Orderly(w') {
      SyncRuns(w, steps, w');
    }
  }

  /** A step leaves the worker safe if and only if it does not begin a request whose batches are all
      refused while they are submitted. */
  lemma SafeStepIff(w: World, s: Step)
    requires Inv(w) && Enabled(w, s)
    ensures Safe(Next(w, s)) <==> !AllRefused(w, s)
  {
    if AllRefused(w, s) {
      var obj := AllRefusedLeaves(w, s);
      var steps, w' := Drains(Next(w, s), obj);
      assert !Orderly(w');
    } else {
      StepKeeps(w, s);
      InvSafe(Next(w, s));
    }
  }

  ghost predicate AlwaysSafe(w: World, steps: seq<Step>)
    decreases steps
  {
    Safe(w) && (steps == [] || (Enabled(w, steps[0]) && AlwaysSafe(Next(w, steps[0]), steps[1..])))
  }

  /** A run is safe all along if and only if no request of it has all its batches refused on submission. */
  lemma {:induction false} SafeRunsIff(w: World, steps: seq<Step>, w': World)
    requires Inv(w) && Runs(w, steps, w')
    ensures AlwaysSafe(w, steps) <==> NeverAllRefused(w, steps)
    decreases steps
  {
    InvSafe(w);
    if steps != [] {
      SafeStepIff(w, steps[0]);
      if !AllRefused(w, steps[0]) {
        StepKeeps(w, steps[0]);
        SafeRunsIff(Next(w, steps[0]), steps[1..], w');
      }
    }
  }

  // ---------------------------------------------------------------- two runs from the start

  /** A request object that is running with its only batch out. */
  function OneOut(): (o: Obj)
  {
    Obj(Busy, 1, 0, 0, {0}, 1, 0)
  }

  lemma SubmitOne(o: Obj)
    ensures Submit(o, 1, 0) == OneOut() && Submit(o, 1, 1) == Obj(Done, 1, 1, 1, {}, 1, 1)
  {
    assert Numbers(1) == Numbers(0) + {0} == {0};
    assert Numbers(0) == {};
  }

  /** One request alone: its only batch is refused while it is submitted. */
  lemma RefusedAlone(a: nat) returns (w: World)
    ensures Runs(START, [Arrive(a, 1, 1)] + ([Release(0, 0)] + []), w)
    ensures !w.inProgress && w.queue == [] && w.ready == [a] && w.pending == 0 && w.live == {} && w.running == []
    ensures ObjOf(w.objs, a).state.Done? && |w.finished| == |w.arrived| == 1
  {
    SubmitOne(ObjOf(Arrived(START, a).objs, a));
    var w1 := Next(START, Arrive(a, 1, 1));
    assert w1.ready == [a] && w1.pending == 1 && w1.queue == [];
    w := Next(w1, Release(0, 0));
    RunsCons(w1, Release(0, 0), [], w);
    RunsCons(START, Arrive(a, 1, 1), [Release(0, 0)] + [], w);
  }

  /** A request that runs, and one that waits for it. */
  lemma OneWaits(w: World, a: nat, b: nat, c: nat) returns (w2: World)
    requires !w.inProgress && w.queue == [] && w.ready == [a] && w.pending == 0 && w.live == {} && w.running == []
    requires a != b && a != c && b != c && ObjOf(w.objs, a).state.Done?
    ensures Enabled(w, Arrive(b, 1, 0)) && Enabled(Next(w, Arrive(b, 1, 0)), Arrive(c, 1, 0))
    ensures w2 == Next(Next(w, Arrive(b, 1, 0)), Arrive(c, 1, 0))
    ensures w2.inProgress && w2.queue == [c] && w2.ready == [a] && w2.pending == 0 && w2.running == [b]
    ensures ObjOf(w2.objs, a).state.Done? && ObjOf(w2.objs, b) == OneOut() && ObjOf(w2.objs, c).state.Guard?
    ensures w2.finished == w.finished && w2.arrived == w.arrived + [b] + [c]
  {
    SubmitOne(ObjOf(Arrived(w, b).objs, b));
    var w1 := Next(w, Arrive(b, 1, 0));
    assert w1.running == [b] && w1.live == {b} && ObjOf(w1.objs, b) == OneOut();
    w2 := Next(w1, Arrive(c, 1, 0));
  }

  /** The object left in the ready queue is drained, and the waiting request begins beside the running one. */
  lemma BothRun(w: World, a: nat, b: nat, c: nat) returns (w2: World)
    requires w.inProgress && w.queue == [c] && w.ready == [a] && w.pending == 0 && w.running == [b]
    requires a != b && a != c && b != c
    requires ObjOf(w.objs, a).state.Done? && ObjOf(w.objs, b) == OneOut() && ObjOf(w.objs, c).state.Guard?
    ensures Runs(w, [RunReady(0, 0)] + ([Release(1, 0)] + []), w2)
    ensures w2.running == [b, c] && ObjOf(w2.objs, b) == OneOut() && ObjOf(w2.objs, c) == OneOut()
    ensures |w2.finished| == |w.finished| + 1 && w2.arrived == w.arrived
  {
    var w1 := Next(w, RunReady(0, 0));
    assert Removed([b], a) == [b] + Removed([], a) == [b] by {
      assert [b][1..] == [];
    }
    assert w1.running == [b] && w1.pending == 1 && w1.objs == w.objs;
    SubmitOne(ObjOf(w1.objs, c));
    w2 := Next(w1, Release(1, 0));
    assert [b] + [c] == [b, c];
    RunsCons(w1, Release(1, 0), [], w2);
    RunsCons(w, RunReady(0, 0), [Release(1, 0)] + [], w2);
  }

  lemma TwoArrive(w: World, b: nat, c: nat, steps: seq<Step>, w2: World, w': World)
    requires Enabled(w, Arrive(b, 1, 0)) && Enabled(Next(w, Arrive(b, 1, 0)), Arrive(c, 1, 0))
    requires w2 == Next(Next(w, Arrive(b, 1, 0)), Arrive(c, 1, 0)) && Runs(w2, steps, w')
    ensures Runs(w, [Arrive(b, 1, 0)] + ([Arrive(c, 1, 0)] + steps), w')
  {
    RunsCons(Next(w, Arrive(b, 1, 0)), Arrive(c, 1, 0), steps, w');
    RunsCons(w, Arrive(b, 1, 0), [Arrive(c, 1, 0)] + steps, w');
  }

  /** Three requests. The only batch of the first is refused on submission; it completes, stays in the
      ready queue, completes again when the queue is drained, and the third begins beside the second. */
  lemma TwoAtOnce(a: nat, b: nat, c: nat) returns (w: World)
    requires a != b && a != c && b != c
    ensures Runs(START, ([Arrive(a, 1, 1)] + ([Release(0, 0)] + [])) +
                        ([Arrive(b, 1, 0)] + ([Arrive(c, 1, 0)] + ([RunReady(0, 0)] + ([Release(1, 0)] + [])))), w)
    ensures w.running == [b, c] && ObjOf(w.objs, b).state.Busy? && ObjOf(w.objs, c).state.Busy?
    ensures |w.arrived| == 3 && |w.finished| == 2
  {
    var w0 := RefusedAlone(a);
    var w2 := OneWaits(w0, a, b, c);
    w := BothRun(w2, a, b, c);
    TwoArrive(w0, b, c, [RunReady(0, 0)] + ([Release(1, 0)] + []), w2, w);
    RunsJoin(START, [Arrive(a, 1, 1)] + ([Release(0, 0)] + []), w0,
             [Arrive(b, 1, 0)] + ([Arrive(c, 1, 0)] + ([RunReady(0, 0)] + ([Release(1, 0)] + []))), w);
  }

  lemma {:induction false} RunsJoin(w: World, a: seq<Step>, w1: World, b: seq<Step>, w2: World)
    requires Runs(w, a, w1) && Runs(w1, b, w2)
    ensures Runs(w, a + b, w2)
    decreases a
  {
    if a == [] {
      assert a + b == b;
    } else {
      RunsJoin(Next(w, a[0]), a[1..], w1, b, w2);
      assert (a + b)[1..] == a[1..] + b;
    }
  }

  lemma BeginOne(a: nat) returns (w: World)
    ensures Enabled(START, Arrive(a, 1, 0)) && w == Next(START, Arrive(a, 1, 0)) && w.running == [a] && w.inProgress
    ensures w.ready == [] && w.queue == [] && w.pending == 0 && ObjOf(w.objs, a) == OneOut()
    ensures w.live == {a} && w.finished == []
  {
    SubmitOne(ObjOf(Arrived(START, a).objs, a));
    w := Next(START, Arrive(a, 1, 0));
  }

  /** The only batch fails, and the request completes. */
  lemma FailOne(w: World, a: nat) returns (w': World)
    requires w.running == [a] && w.inProgress && w.ready == [] && w.queue == [] && w.pending == 0
    requires ObjOf(w.objs, a) == OneOut() && w.live == {a} && w.finished == []
    ensures Runs(w, [BatchDone(a, 0, false)] + ([RunReady(0, 0)] + ([Release(0, 0)] + [])), w')
    ensures !w'.inProgress && a !in w'.live && ObjOf(w'.objs, a).failed == 1 && |w'.finished| == 1
  {
    var w2 := Next(w, BatchDone(a, 0, false));
    assert ObjOf(w2.objs, a) == Obj(Done, 1, 1, 1, {}, 1, 1) && w2.ready == [a];
    var w3 := Next(w2, RunReady(0, 0));
    w' := Next(w3, Release(0, 0));
    RunsCons(w3, Release(0, 0), [], w');
    RunsCons(w2, RunReady(0, 0), [Release(0, 0)] + [], w');
    RunsCons(w, BatchDone(a, 0, false), [RunReady(0, 0)] + ([Release(0, 0)] + []), w');
  }

  /** A request over an empty set reports an error if its object was last used for a batch that failed. */
  lemma EmptySetError(a: nat) returns (w: World)
    ensures Runs(START, [Arrive(a, 1, 0)] + (([BatchDone(a, 0, false)] + ([RunReady(0, 0)] + ([Release(0, 0)] + []))) +
                        ([Arrive(a, 0, 0)] + [])), w)
    ensures |w.finished| == 2 && w.finished[1] == Fin(a, 0, 0, true)
  {
    var w1 := BeginOne(a);
    var w4 := FailOne(w1, a);
    w := Next(w4, Arrive(a, 0, 0));
    RunsCons(w4, Arrive(a, 0, 0), [], w);
    var mid := [BatchDone(a, 0, false)] + ([RunReady(0, 0)] + ([Release(0, 0)] + []));
    RunsJoin(w1, mid, w4, [Arrive(a, 0, 0)] + [], w);
    RunsCons(START, Arrive(a, 1, 0), mid + ([Arrive(a, 0, 0)] + []), w);
  }
}
