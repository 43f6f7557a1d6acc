/** How the journal manager uses the superblock (`tryNextTransaction`, `WriteJSuper` and
    `onCheckpointSuccess` in cfs/src/FsProc_Journal.cc): entries wait in a queue for space, for memory, or
    for a superblock write to end. */
module JournalManager {

  import opened Options
  import opened JournalRing

  const POOL: nat := 100   // MAX_INFLIGHT_JOURNAL_TRANSACTIONS

  /** The superblock with its write in flight, the sizes of the waiting entries in blocks, and how many
      buffers of pinned memory are free. */
  datatype Mgr = Mgr(s: Sys, queue: seq<nat>, pinned: nat)

  /** There is nothing to try. */
  predicate Idle(m: Mgr)
  {
    m.queue == [] || m.pinned == 0
  }

  /** An entry that fails as soon as it is tried. */
  predicate Fails(s: Sys, n: nat)
    requires Shape(s.j)
  {
    n > MAX_ENTRY || Acquire(s.j, n).1.noSpace
  }

  /** The first entry is sent back to wait for a superblock write. */
  predicate Waits(m: Mgr)
    requires Shape(m.s.j)
  {
    !Idle(m) && !Fails(m.s, m.queue[0]) && Acquire(m.s.j, m.queue[0]).1.retry
  }

  /** `WriteJSuper`, if it is called. */
  function Written(s: Sys, call: bool): (s': Sys)
    requires Inv(s)
    ensures Inv(s')
  {
    StepInv(s, StartWrite);
    if call then Next(s, StartWrite) else s
  }

  /** An entry gets its blocks, and a superblock write is started if the answer asks for it. */
  function Taken(s: Sys, n: nat): (s': Sys)
    requires Inv(s)
    ensures Inv(s')
  {
    StepInv(s, AcquireStep(n));
    Written(Next(s, AcquireStep(n)), Acquire(s.j, n).1.writeSuper)
  }

  /** `tryNextTransaction`: an entry that fails is dropped, and its failure tries the next. */
  function Attempt(m: Mgr): (r: Mgr)
    requires Inv(m.s)
    ensures Inv(r.s)
    decreases m.queue
  {
    if Idle(m) || Waits(m) then m
    else if Fails(m.s, m.queue[0]) then Attempt(m.(queue := m.queue[1..]))
    else Mgr(Taken(m.s, m.queue[0]), m.queue[1..], m.pinned - 1)
  }

  /** The loop at the end of a superblock write, after k rounds. */
  function Rounds(m: Mgr, k: nat): (r: Mgr)
    requires Inv(m.s)
    ensures Inv(r.s)
    decreases k
  {
    if k == 0 then m else Rounds(Attempt(m), k - 1)
  }

  lemma {:induction false} AttemptShrinks(m: Mgr)
    requires Inv(m.s)
    ensures |Attempt(m).queue| <= |m.queue| && Attempt(m).pinned <= m.pinned
    ensures !Idle(m) && !Waits(m) ==> |Attempt(m).queue| < |m.queue|
    decreases m.queue
  {
    if !Idle(m) && !Waits(m) && Fails(m.s, m.queue[0]) {
      AttemptShrinks(m.(queue := m.queue[1..]));
    }
  }

  /** The loop comes to an entry that is sent back to wait. */
  predicate Hangs(m: Mgr)
    requires Inv(m.s)
    decreases |m.queue|
  {
    !Idle(m) && (Waits(m) || (AttemptShrinks(m); Hangs(Attempt(m))))
  }

  /** An attempt serves the entries in order: it passes over those that find no room, and grants at most the
      first that does; it stops without a grant only with nothing left to serve or told to wait. */
  lemma {:induction false} AttemptServes(m: Mgr) returns (k: nat)
    requires Inv(m.s)
    ensures k <= |m.queue| && Attempt(m).queue == m.queue[k..]
    ensures var r := Attempt(m);
      || (r.s == m.s && r.pinned == m.pinned && (Idle(r) || Waits(r))
          && forall i :: 0 <= i < k ==> Fails(m.s, m.queue[i]))
      || (k > 0 && !Fails(m.s, m.queue[k - 1]) && r.s == Taken(m.s, m.queue[k - 1]) && r.pinned == m.pinned - 1
          && forall i :: 0 <= i < k - 1 ==> Fails(m.s, m.queue[i]))
    decreases m.queue
  {
    if Idle(m) || Waits(m) {
      k := 0;
    } else if Fails(m.s, m.queue[0]) {
      var rest := m.queue[1..];
      var k' := AttemptServes(m.(queue := rest));
      k := k' + 1;
      assert rest[k'..] == m.queue[k..];
      assert forall i :: 0 < i < |m.queue| ==> m.queue[i] == rest[i - 1];
    } else {
      k := 1;
    }
  }

  lemma {:induction false} WaitsForever(m: Mgr, k: nat)
    requires Inv(m.s) && Waits(m)
    ensures Rounds(m, k) == m
  {
    if k > 0 {
      WaitsForever(m, k - 1);
    }
  }

  lemma {:induction false} HangsStay(m: Mgr, k: nat)
    requires Inv(m.s) && Hangs(m)
    ensures !Idle(Rounds(m, k))
    decreases k
  {
    if Waits(m) {
      WaitsForever(m, k);
    } else if k > 0 {
      HangsStay(Attempt(m), k - 1);
    }
  }

  lemma {:induction false} EndsAfter(m: Mgr) returns (k: nat)
    requires Inv(m.s) && !Hangs(m)
    ensures Idle(Rounds(m, k)) && Rounds(m, k) == LoopEnd(m)
    decreases |m.queue|
  {
    if Idle(m) {
      k := 0;
    } else {
      AttemptShrinks(m);
      var j := EndsAfter(Attempt(m));
      k := j + 1;
    }
  }

  /** Where the loop ends, if it does. */
  function LoopEnd(m: Mgr): (r: Mgr)
    requires Inv(m.s) && !Hangs(m)
    ensures Inv(r.s)
    decreases |m.queue|
  {
    if Idle(m) then m else (AttemptShrinks(m); LoopEnd(Attempt(m)))
  }

  /** The loop never ends exactly if it comes to an entry that is sent back to wait: the write it would wait
      for ends only when the worker has left the loop. */
  lemma LoopEndsIff(m: Mgr)
    requires Inv(m.s)
    ensures Hangs(m) <==> forall k: nat :: !Idle(Rounds(m, k))
  {
    if Hangs(m) {
      forall k: nat ensures !Idle(Rounds(m, k)) {
        HangsStay(m, k);
      }
    } else {
      var k := EndsAfter(m);
    }
  }

  // ---------------------------------------------------------------- events

  datatype Event =
    | Submit(n: nat)
    | EntryDone
    | SuperDone
    | Checkpointed(n: nat, ts: nat)

  predicate Possible(m: Mgr, e: Event)
  {
    match e
    case Submit(_) => true
    case EntryDone => m.pinned < POOL
    case SuperDone => m.s.flight.Some?
    case Checkpointed(n, _) => n <= m.s.j.nUsed
  }

  function Checked(s: Sys, n: nat, ts: nat): (s': Sys)
    requires Inv(s) && n <= s.j.nUsed
    ensures Inv(s')
  {
    StepInv(s, ReleaseStep(n));
    var s1 := Next(s, ReleaseStep(n));
    StepInv(s1, CheckpointStep(ts));
    Written(Next(s1, CheckpointStep(ts)), true)
  }

  /** The superblock write has ended; the waiting entries have not been tried yet. */
  function Ended(m: Mgr): (r: Mgr)
    requires Inv(m.s) && m.s.flight.Some?
    ensures Inv(r.s)
  {
    StepInv(m.s, FinishWrite);
    m.(s := Next(m.s, FinishWrite))
  }

  /** What an event leaves; None if the worker does not come back from it. */
  function Handle(m: Mgr, e: Event): (r: Option<Mgr>)
    requires Inv(m.s) && Possible(m, e)
    ensures r.Some? ==> Inv(r.value.s)
  {
    match e
    case Submit(n) => Some(Attempt(m.(queue := m.queue + [n])))
    case EntryDone => Some(Attempt(m.(pinned := m.pinned + 1)))
    case Checkpointed(n, ts) => Some(m.(s := Checked(m.s, n, ts)))
    case SuperDone =>
      var m1 := Ended(m);
      if Hangs(m1) then None
      else
        var m2 := LoopEnd(m1);
        Some(m2.(s := Written(m2.s, Idle(m1) && ShouldWrite(m2.s.j))))
  }

  /** Past the soft limit a superblock write is in flight: whoever waits for one is tried again. */
  predicate Flowing(m: Mgr)
  {
    m.s.j.unaccounted > SOFT_MAX ==> m.s.flight.Some?
  }

  lemma TakenFlows(s: Sys, n: nat)
    requires Inv(s) && Granted(Acquire(s.j, n).1)
    ensures var s' := Taken(s, n);
      && (s'.j.unaccounted > SOFT_MAX ==> s'.flight.Some?)
      && s.j.unaccounted <= s'.j.unaccounted <= s.j.unaccounted + n + MAX_ENTRY
      && (s.flight.Some? ==> s'.flight == s.flight)
      && (s.flight.None? && s'.flight.Some? ==> s'.flight.value.counted == s'.j.unaccounted > SOFT_MAX)
  {
    AcquireIsLog(s, n);
    StepInv(s, AcquireStep(n));
  }

  /** A try takes one entry in, and then the superblock flows; or it takes none, and the superblock is as it
      was. */
  lemma {:induction false} AttemptFlows(m: Mgr)
    requires Inv(m.s)
    ensures var r := Attempt(m);
      || (r.pinned == m.pinned && r.s == m.s)
      || (r.pinned == m.pinned - 1 && Flowing(r) && m.s.j.unaccounted < MAX_UNACCOUNTED
          && r.s.j.unaccounted <= m.s.j.unaccounted + 2 * MAX_ENTRY
          && (m.s.flight.Some? ==> r.s.flight == m.s.flight)
          && (m.s.flight.None? && r.s.flight.Some? ==> r.s.flight.value.counted > SOFT_MAX))
    decreases m.queue
  {
    if !Idle(m) && !Waits(m) {
      if Fails(m.s, m.queue[0]) {
        AttemptFlows(m.(queue := m.queue[1..]));
      } else {
        TakenFlows(m.s, m.queue[0]);
      }
    }
  }

  lemma {:induction false} LoopFlows(m: Mgr)
    requires Inv(m.s) && !Hangs(m)
    ensures var r := LoopEnd(m);
      r.pinned <= m.pinned && (r.pinned < m.pinned ==> Flowing(r)) && (r.pinned == m.pinned ==> r.s == m.s)
    decreases |m.queue|
  {
    if !Idle(m) {
      AttemptShrinks(m);
      AttemptFlows(m);
      LoopFlows(Attempt(m));
    }
  }

  /** The end of a superblock write leaves the superblock flowing if and only if nothing was waiting, or the
      loop ends and has taken an entry in or has found the rest of the counter within the soft limit. */
  lemma SuperDoneFlowsIff(m: Mgr)
    requires Inv(m.s) && m.s.flight.Some?
    ensures var m1, r := Ended(m), Handle(m, SuperDone);
      (r.Some? && Flowing(r.value)) <==>
        Idle(m1) || (!Hangs(m1) && (m1.s.j.unaccounted <= SOFT_MAX || LoopEnd(m1).pinned < m1.pinned))
  {
    var m1 := Ended(m);
    if !Hangs(m1) {
      LoopFlows(m1);
    }
  }

  /** With the rest of the counter at the hard limit, no entry can be taken in: the loop never ends exactly
      if there is memory and one of the waiting entries does not fail. */
  lemma {:induction false} HangsAtLimitIff(m: Mgr)
    requires Inv(m.s) && m.s.j.unaccounted >= MAX_UNACCOUNTED
    ensures Hangs(m) <==> m.pinned > 0 && exists i :: 0 <= i < |m.queue| && !Fails(m.s, m.queue[i])
    decreases |m.queue|
  {
    if !Idle(m) && !Waits(m) {
      var m' := m.(queue := m.queue[1..]);
      HangsAtLimitIff(m');
      HangsSame(m, m');
      assert Fails(m.s, m.queue[0]);
      if i :| 0 <= i < |m.queue| && !Fails(m.s, m.queue[i]) {
        assert m'.queue[i - 1] == m.queue[i];
      }
    } else if Waits(m) {
      assert !Fails(m.s, m.queue[0]);
    }
  }

  /** An entry that fails makes no difference to the loop. */
  lemma HangsSame(m: Mgr, m': Mgr)
    requires Inv(m.s) && !Idle(m) && !Waits(m) && Fails(m.s, m.queue[0]) && m' == m.(queue := m.queue[1..])
    ensures Hangs(m) <==> Hangs(m')
  {
    assert Attempt(m) == Attempt(m');
    AttemptShrinks(m);
    AttemptShrinks(m');
    if Waits(m') {
      assert Attempt(m') == m';
    }
  }

  // ---------------------------------------------------------------- without checkpoints

  /** The counter is near the hard limit at most, and a write in flight accounts for more than the soft one. */
  predicate Calm(m: Mgr)
  {
    && Flowing(m) && m.pinned <= POOL && m.s.j.unaccounted < MAX_UNACCOUNTED + 2 * MAX_ENTRY
    && (m.s.flight.Some? ==> m.s.flight.value.counted > SOFT_MAX)
  }

  lemma AttemptCalm(m: Mgr)
    requires Inv(m.s) && Calm(m)
    ensures Calm(Attempt(m))
  {
    AttemptFlows(m);
  }

  /** With room in the counter for an entry and a padding per buffer the loop ends. */
  lemma {:induction false} RoomEnds(m: Mgr)
    requires Inv(m.s) && m.s.j.unaccounted + m.pinned * (2 * MAX_ENTRY) < MAX_UNACCOUNTED
    ensures !Hangs(m)
    decreases |m.queue|
  {
    if !Idle(m) {
      AttemptShrinks(m);
      AttemptFlows(m);
      RoomEnds(Attempt(m));
    }
  }

  lemma {:induction false} LoopCalm(m: Mgr)
    requires Inv(m.s) && Calm(m) && !Hangs(m)
    ensures Calm(LoopEnd(m))
    decreases |m.queue|
  {
    if !Idle(m) {
      AttemptShrinks(m);
      AttemptCalm(m);
      LoopCalm(Attempt(m));
    }
  }

  lemma EndedCalm(m: Mgr)
    requires Inv(m.s) && Calm(m) && m.s.flight.Some?
    ensures var m1 := Ended(m); Calm(m1) && !Hangs(m1) && m1.s.j.unaccounted <= SOFT_MAX
  {
    RoomEnds(Ended(m));
  }

  lemma EventCalm(m: Mgr, e: Event)
    requires Inv(m.s) && Calm(m) && Possible(m, e) && !e.Checkpointed?
    ensures Handle(m, e).Some? && Calm(Handle(m, e).value)
  {
    match e {
      case Submit(n) => AttemptCalm(m.(queue := m.queue + [n]));
      case EntryDone => AttemptCalm(m.(pinned := m.pinned + 1));
      case SuperDone =>
        EndedCalm(m);
        LoopCalm(Ended(m));
    }
  }

  ghost predicate Runs(m: Mgr, es: seq<Event>, r: Option<Mgr>)
    requires Inv(m.s)
    decreases es
  {
    if es == [] then r == Some(m)
    else
      && Possible(m, es[0])
      && (match Handle(m, es[0])
          case None => r == None && |es| == 1
          case Some(m') => Runs(m', es[1..], r))
  }

  /** Nothing waits but for memory or for a superblock write. */
  predicate Served(m: Mgr)
    requires Shape(m.s.j)
  {
    Idle(m) || Waits(m)
  }

  lemma SubmitServed(m: Mgr, n: nat)
    requires Inv(m.s) && Served(m)
    ensures Served(Attempt(m.(queue := m.queue + [n])))
  {
    var m' := m.(queue := m.queue + [n]);
    var k := AttemptServes(m');
    if Waits(m) {
      assert Waits(m') && Attempt(m') == m';
    }
  }

  lemma DoneServed(m: Mgr)
    requires Inv(m.s) && Served(m)
    ensures Served(Attempt(m.(pinned := m.pinned + 1)))
  {
    var m' := m.(pinned := m.pinned + 1);
    var k := AttemptServes(m');
    if Waits(m) {
      assert Waits(m') && Attempt(m') == m';
    }
  }

  lemma CheckedServed(m: Mgr, n: nat, ts: nat)
    requires Inv(m.s) && Served(m) && n <= m.s.j.nUsed
    ensures Served(m.(s := Checked(m.s, n, ts)))
  {
    StepInv(m.s, ReleaseStep(n));
    StepInv(Next(m.s, ReleaseStep(n)), CheckpointStep(ts));
    var s' := Checked(m.s, n, ts);
    assert s'.j.unaccounted >= m.s.j.unaccounted && s'.j.nUsed <= m.s.j.nUsed && s'.j.capacity == m.s.j.capacity;
  }

  /** In every run, checkpoints included, an entry is left waiting only for memory or for a superblock write. */
  lemma {:induction false} ServedRuns(m: Mgr, es: seq<Event>, r: Option<Mgr>)
    requires Inv(m.s) && Served(m) && Runs(m, es, r)
    ensures r.Some? ==> Inv(r.value.s) && Served(r.value)
    decreases es
  {
    if es != [] && Handle(m, es[0]).Some? {
      match es[0] {
        case Submit(n) => SubmitServed(m, n);
        case EntryDone => DoneServed(m);
        case Checkpointed(n, ts) => CheckedServed(m, n, ts);
        case SuperDone => var k := EndsAfter(Ended(m));
      }
      ServedRuns(Handle(m, es[0]).value, es[1..], r);
    }
  }

  /** In every run without a checkpoint the worker comes back from every event, and an entry that is sent back
      to wait has a superblock write in flight, whose end tries it again. */
  lemma {:induction false} CalmRuns(m: Mgr, es: seq<Event>, r: Option<Mgr>)
    requires Inv(m.s) && Calm(m) && Runs(m, es, r) && (forall e :: e in es ==> !e.Checkpointed?)
    ensures r.Some? && Inv(r.value.s) && Calm(r.value)
    ensures Waits(r.value) ==> r.value.s.flight.Some?
    decreases es
  {
    if es != [] {
      assert es[0] in es && forall e :: e in es[1..] ==> e in es;
      EventCalm(m, es[0]);
      CalmRuns(Handle(m, es[0]).value, es[1..], r);
    }
  }

  // ---------------------------------------------------------------- a checkpoint during a superblock write

  lemma CheckedCounts(s: Sys, n: nat, ts: nat)
    requires Inv(s) && n <= s.j.nUsed && s.flight.Some?
    ensures var s' := Checked(s, n, ts);
      && s'.flight == s.flight && s'.j.unaccounted == s.j.unaccounted + n + SOFT_MAX
      && s'.j.nUsed == s.j.nUsed - n && s'.j.capacity == s.j.capacity
  {
    StepInv(s, ReleaseStep(n));
    StepInv(Next(s, ReleaseStep(n)), CheckpointStep(ts));
  }

  /** A checkpoint of 10240 blocks or more that succeeds while a superblock write is in flight: the next entry
      has to wait for that write, and the worker does not come back from its end. */
  lemma CheckpointHangs(m: Mgr, n: nat, ts: nat)
    requires Inv(m.s) && m.s.flight.Some? && m.queue == [] && m.pinned > 0
    requires MAX_UNACCOUNTED - SOFT_MAX <= n <= m.s.j.nUsed
    ensures Runs(m, [Checkpointed(n, ts)] + ([Submit(2)] + ([SuperDone] + [])), None)
  {
    var m1 := m.(s := Checked(m.s, n, ts));
    CheckedCounts(m.s, n, ts);
    var m2 := m1.(queue := [] + [2]);
    assert m2.queue == [2];
    AttemptWaits(m2);
    EndHangs(m2);
    RunsCons(m2, SuperDone, [], None);
    RunsCons(m1, Submit(2), [SuperDone] + [], None);
    RunsCons(m, Checkpointed(n, ts), [Submit(2)] + ([SuperDone] + []), None);
  }

  lemma AttemptWaits(m: Mgr)
    requires Inv(m.s) && m.queue == [2] && m.pinned > 0
    requires m.s.j.unaccounted >= MAX_UNACCOUNTED && m.s.j.nUsed + 2 <= m.s.j.capacity
    ensures Waits(m) && Attempt(m) == m
  {
  }

  lemma EndHangs(m: Mgr)
    requires Inv(m.s) && m.queue == [2] && m.pinned > 0 && m.s.flight.Some?
    requires m.s.j.unaccounted - m.s.flight.value.counted >= MAX_UNACCOUNTED && m.s.j.nUsed + 2 <= m.s.j.capacity
    ensures Handle(m, SuperDone) == None
  {
    AttemptWaits(Ended(m));
  }

  lemma RunsCons(m: Mgr, e: Event, es: seq<Event>, r: Option<Mgr>)
    requires Inv(m.s) && Possible(m, e)
    requires match Handle(m, e) case None => r == None && es == [] case Some(m') => Runs(m', es, r)
    ensures Runs(m, [e] + es, r)
  {
    assert ([e] + es)[1..] == es;
  }

  /** k entries of the largest size are in the journal, and the superblock on disk knows of none. */
  predicate Filled(m: Mgr, k: nat)
  {
    && m.queue == [] && m.pinned == POOL && m.s.flight.None? && Shape(m.s.j)
    && m.s.j.nUsed == m.s.j.head == m.s.j.unaccounted == k * MAX_ENTRY && m.s.j.capacity > 60000
  }

  lemma GrantMax(j: Super)
    requires Shape(j) && j.nUsed == j.head == j.unaccounted <= SOFT_MAX && j.capacity > 60000
    ensures var (j', a) := Acquire(j, MAX_ENTRY);
      && !a.noSpace && !a.retry && j'.nUsed == j'.head == j'.unaccounted == j.nUsed + MAX_ENTRY
      && j'.capacity == j.capacity && (a.writeSuper <==> j'.unaccounted > SOFT_MAX && !j.writing)
  {
  }

  /** One more entry is taken in at once; a superblock write is started when the soft limit is passed. */
  lemma SubmitMax(m: Mgr, k: nat) returns (m': Mgr)
    requires Inv(m.s) && Filled(m, k) && k * MAX_ENTRY <= SOFT_MAX
    ensures Handle(m, Submit(MAX_ENTRY)) == Some(m') && Inv(m'.s)
    ensures m'.queue == [] && m'.pinned == POOL - 1 && m'.s.j.capacity == m.s.j.capacity
    ensures m'.s.j.nUsed == m'.s.j.head == m'.s.j.unaccounted == k * MAX_ENTRY + MAX_ENTRY
    ensures m'.s.flight.Some? <==> k * MAX_ENTRY + MAX_ENTRY > SOFT_MAX
  {
    GrantMax(m.s.j);
    var m1 := m.(queue := m.queue + [MAX_ENTRY]);
    assert m1.queue == [MAX_ENTRY] && m1.queue[1..] == [];
    m' := Attempt(m1);
    assert m' == Mgr(Taken(m.s, MAX_ENTRY), [], POOL - 1);
    StepInv(m.s, AcquireStep(MAX_ENTRY));
  }

  lemma NextFilled(m: Mgr, k: nat) returns (m': Mgr)
    requires Inv(m.s) && Filled(m, k) && (k + 1) * MAX_ENTRY <= SOFT_MAX
    ensures Inv(m'.s) && Filled(m', k + 1)
    ensures forall es, r :: Runs(m', es, r) ==> Runs(m, [Submit(MAX_ENTRY)] + ([EntryDone] + es), r)
  {
    var m1 := SubmitMax(m, k);
    m' := Attempt(m1.(pinned := POOL));
    forall es, r | Runs(m', es, r) ensures Runs(m, [Submit(MAX_ENTRY)] + ([EntryDone] + es), r) {
      RunsCons(m1, EntryDone, es, r);
      RunsCons(m, Submit(MAX_ENTRY), [EntryDone] + es, r);
    }
  }

  lemma {:induction false} FillThenHang(m: Mgr, k: nat) returns (es: seq<Event>)
    requires Inv(m.s) && Filled(m, k) && k <= 1280
    ensures Runs(m, es, None)
    decreases 1280 - k
  {
    if k < 1280 {
      var m' := NextFilled(m, k);
      var rest := FillThenHang(m', k + 1);
      es := [Submit(MAX_ENTRY)] + ([EntryDone] + rest);
    } else {
      var m' := SubmitMax(m, k);
      CheckpointHangs(m', 40992, 1);
      var rest := [Checkpointed(40992, 1)] + ([Submit(2)] + ([SuperDone] + []));
      RunsCons(m, Submit(MAX_ENTRY), rest, None);
      es := [Submit(MAX_ENTRY)] + rest;
    }
  }

  /** Such a run from an empty journal. */
  lemma HangReached(capacity: nat) returns (es: seq<Event>)
    requires capacity > 60000
    ensures Inv(Fresh(capacity)) && Calm(Mgr(Fresh(capacity), [], POOL))
    ensures Runs(Mgr(Fresh(capacity), [], POOL), es, None)
  {
    es := FillThenHang(Mgr(Fresh(capacity), [], POOL), 0);
  }
}
