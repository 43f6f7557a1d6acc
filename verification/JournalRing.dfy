/** The journal superblock (`JSuper`): a ring allocator that pads at the wrap, a staleness counter,
    and a superblock write that runs beside it.  Each public call is one atomic step, since the
    source takes the lock for its whole body. */
module JournalRing {

  import opened Options

  const BSIZE: nat := 4096
  const MAX_ENTRY: nat := 32            // kMaxJournalEntrySize / BSIZE
  const MAX_UNACCOUNTED: nat := 51200   // MAX_UNACCOUNTED_JOURNAL_BYTES / BSIZE
  const SOFT_MAX: nat := 40960          // 0.8 of it

  /** JSuperOnDisk and the two in-memory fields of JSuper. */
  datatype Super = Super(
    jstart: nat, jend: nat, capacity: nat,
    nUsed: nat, head: nat, tail: nat, lastChkpt: nat,
    unaccounted: nat, writing: bool)

  /** The layout: the ring is longer than the longest entry. */
  predicate Layout(j: Super)
  {
    j.capacity > MAX_ENTRY && j.jend == j.jstart + j.capacity - 1
  }

  predicate Shape(j: Super)
  {
    Layout(j) && j.nUsed <= j.capacity && j.head < j.capacity && j.tail < j.capacity
  }

  function IdxToBlockNo(j: Super, idx: nat): (b: nat)
    requires j.capacity > 0
  {
    j.jstart + idx % j.capacity
  }

  predicate NoLoopArounds(j: Super, start: nat, n: nat)
    requires j.capacity > 0 && n > 0
  {
    IdxToBlockNo(j, start) < IdxToBlockNo(j, start + n - 1)
  }

  predicate CanAllocate(j: Super, n: nat)
  {
    j.nUsed + n <= j.capacity
  }

  /** The remainder by m of a number below 2m (WrapIsMod), which is all the ring needs. */
  function Wrap(a: nat, m: nat): (r: nat)
    requires a < 2 * m
  {
    if a < m then a else a - m
  }

  function Enqueued(j: Super, n: nat): (r: Super)
    requires Shape(j) && CanAllocate(j, n)
  {
    j.(head := Wrap(j.head + n, j.capacity), nUsed := j.nUsed + n)
  }

  function TillEnd(j: Super): (n: nat)
    requires Shape(j)
  {
    j.capacity - j.head
  }

  /** UnsafeEnsureNextContiguousRegion: how many blocks it fills. */
  function Padding(j: Super): (n: nat)
    requires Shape(j)
  {
    if TillEnd(j) > MAX_ENTRY then 0 else if CanAllocate(j, TillEnd(j)) then TillEnd(j) else 0
  }

  datatype Slot = Slot(start: nat, noSpace: bool, writeSuper: bool, retry: bool)

  predicate Granted(s: Slot)
  {
    !s.noSpace && !s.retry
  }

  predicate ShouldWrite(j: Super)
  {
    j.unaccounted > SOFT_MAX && !j.writing
  }

  /** AcquireNextNSlots. `start` and `writeSuper` are left unset by the source when it aborts. */
  function Acquire(j: Super, n: nat): (r: (Super, Slot))
    requires Shape(j)
  {
    var retry := j.unaccounted >= MAX_UNACCOUNTED;
    var noSpace := !CanAllocate(j, n);
    if retry || noSpace then (j, Slot(0, noSpace, false, retry))
    else
      var j1 := Enqueued(j, n);
      var pad := Padding(j1);
      var j2 := if pad == 0 then j1 else Enqueued(j1, pad);
      var j3 := j2.(unaccounted := j.unaccounted + n + pad);
      (j3, Slot(j.head, false, ShouldWrite(j3), false))
  }

  function Release(j: Super, n: nat): (r: Super)
    requires Shape(j) && n <= j.nUsed
  {
    j.(tail := Wrap(j.tail + n, j.capacity), nUsed := j.nUsed - n, unaccounted := j.unaccounted + n)
  }

  function MarkCheckpoint(j: Super, ts: nat): (r: Super)
  {
    j.(lastChkpt := ts, unaccounted := j.unaccounted + SOFT_MAX)
  }

  /** The effect on the superblock of TrySetWriteInProgress, when it succeeds, and of OnWriteComplete. */
  function WriteStarted(j: Super): (r: Super)
  {
    j.(writing := true)
  }

  function WriteEnded(j: Super, counted: nat): (r: Super)
    requires counted <= j.unaccounted
  {
    j.(writing := false, unaccounted := j.unaccounted - counted)
  }

  // ---------------------------------------------------------------- remainders

  lemma ModIs(a: int, m: int, q: int, r: int)
    requires 0 <= r < m && a == q * m + r
    ensures a % m == r
  {
    var q', r' := a / m, a % m;
    assert a == q' * m + r';
    assert (q - q') * m == q * m - q' * m == r' - r;
    assert (q' - q) * m == r - r';
    if q' < q {
      MulGrows(q - q', m);
    } else if q' > q {
      MulGrows(q' - q, m);
    }
  }

  lemma MulGrows(k: int, m: int)
    requires k >= 1 && m > 0
    ensures k * m >= m
  {
    assert (k - 1) * m >= 0;
    assert k * m == (k - 1) * m + m;
  }

  lemma WrapIsMod(a: nat, m: nat)
    requires m > 0 && a < 2 * m
    ensures Wrap(a, m) == a % m
  {
    if a < m {
      ModIs(a, m, 0, a);
    } else {
      ModIs(a, m, 1, a - m);
    }
  }

  lemma WrapAdd(a: nat, n: nat, m: nat)
    requires m > 0 && n <= m
    ensures Wrap(a % m + n, m) == (a + n) % m
  {
    var x := a % m + n;
    WrapIsMod(x, m);
    assert x == (x / m) * m + x % m;
    assert a == (a / m) * m + a % m;
    assert (a / m + x / m) * m == (a / m) * m + (x / m) * m;
    ModIs(a + n, m, a / m + x / m, x % m);
  }

  /** Two numbers less than m apart have different remainders. */
  lemma ModDiffers(p: nat, q: nat, m: nat)
    requires p < q < p + m
    ensures p % m != q % m
  {
    assert p == (p / m) * m + p % m && q == (q / m) * m + q % m;
    if p % m == q % m {
      assert (q / m - p / m) * m == q - p;
      if q / m > p / m {
        MulGrows(q / m - p / m, m);
      }
    }
  }

  // ---------------------------------------------------------------- one call

  /** TillEnd is the source's expression for the blocks left to the end. */
  lemma TillEndIsSource(j: Super)
    requires Shape(j)
    ensures TillEnd(j) == j.jend - IdxToBlockNo(j, j.head) + 1
  {
    WrapIsMod(j.head, j.capacity);
  }

  /** The padding fills exactly the rest of the ring, so the next slot is the first one. */
  lemma PaddingFillsTheEnd(j: Super)
    requires Shape(j)
    ensures Padding(j) <= MAX_ENTRY && CanAllocate(j, Padding(j))
    ensures Padding(j) > 0 ==> j.head + Padding(j) == j.capacity && Enqueued(j, Padding(j)).head == 0
  {
  }

  lemma AcquireShape(j: Super, n: nat)
    requires Shape(j)
    ensures Shape(Acquire(j, n).0)
  {
    if Granted(Acquire(j, n).1) {
      PaddingFillsTheEnd(Enqueued(j, n));
    }
  }

  /** For an entry of 1 to capacity blocks, NoLoopArounds holds exactly when the entry has at least
      two blocks and does not run over the end of the ring. */
  lemma NoLoopAroundsIff(j: Super, start: nat, n: nat)
    requires Layout(j) && start < j.capacity && 1 <= n <= j.capacity
    ensures NoLoopArounds(j, start, n) <==> n >= 2 && start + n <= j.capacity
  {
    WrapIsMod(start, j.capacity);
    WrapIsMod(start + n - 1, j.capacity);
  }

  /** Exactly when no grant of at most MAX_ENTRY blocks can run over the end. */
  predicate NextGrantFits(j: Super)
  {
    j.capacity - j.head >= MAX_ENTRY || j.nUsed >= j.head
  }

  lemma NextGrantFitsIff(j: Super)
    requires Shape(j)
    ensures NextGrantFits(j) <==> forall n :: 1 <= n <= MAX_ENTRY && CanAllocate(j, n) ==> j.head + n <= j.capacity
  {
    if !NextGrantFits(j) {
      var n := j.capacity - j.head + 1;
      assert 1 <= n <= MAX_ENTRY && CanAllocate(j, n);
    }
  }

  /** What each grant re-establishes. */
  predicate Roomy(j: Super)
  {
    j.capacity - j.head > MAX_ENTRY || j.nUsed > j.head
  }

  lemma AcquireKeepsRoomy(j: Super, n: nat)
    requires Shape(j) && (Roomy(j) || j.head == 0) && 1 <= n <= MAX_ENTRY && Granted(Acquire(j, n).1)
    ensures Roomy(Acquire(j, n).0)
    ensures j.head + n < j.capacity
    ensures n >= 2 ==> NoLoopArounds(j, Acquire(j, n).1.start, n)
  {
    var j1 := Enqueued(j, n);
    PaddingFillsTheEnd(j1);
    NoLoopAroundsIff(j, j.head, n);
  }

  // ---------------------------------------------------------------- the ring as a log

  /** The superblock, the number of blocks ever put in and taken out of the log, what the superblock
      on disk says of these two, and the superblock write in flight. */
  datatype Snap = Snap(put: nat, taken: nat)
  datatype Flight = Flight(snap: Snap, counted: nat)
  datatype Sys = Sys(j: Super, put: nat, taken: nat, disk: Snap, flight: Option<Flight>)

  datatype Step =
    | AcquireStep(n: nat)
    | ReleaseStep(n: nat)
    | CheckpointStep(ts: nat)
    | StartWrite
    | FinishWrite

  predicate Enabled(s: Sys, step: Step)
  {
    match step
    case ReleaseStep(n) => n <= s.j.nUsed
    case FinishWrite => s.flight.Some?
    case _ => true
  }

  /** The assertions of OnWriteComplete, for the write in flight. */
  predicate WriteAssertions(s: Sys)
  {
    s.flight.Some? ==> s.j.writing && s.flight.value.counted <= s.j.unaccounted
  }

  function Next(s: Sys, step: Step): (s': Sys)
    requires Shape(s.j) && Enabled(s, step) && WriteAssertions(s)
  {
    match step
    case AcquireStep(n) =>
      var j' := Acquire(s.j, n).0;
      s.(j := j', put := s.put + j'.unaccounted - s.j.unaccounted)
    case ReleaseStep(n) => s.(j := Release(s.j, n), taken := s.taken + n)
    case CheckpointStep(ts) => s.(j := MarkCheckpoint(s.j, ts))
    case StartWrite =>
      if s.j.writing then s
      else s.(j := WriteStarted(s.j), flight := Some(Flight(Snap(s.put, s.taken), s.j.unaccounted)))
    case FinishWrite =>
      s.(j := WriteEnded(s.j, s.flight.value.counted),
         disk := s.flight.value.snap, flight := None)
  }

  /** The ring holds exactly the log positions taken..put. */
  predicate RingIsLog(s: Sys)
  {
    && Shape(s.j)
    && s.taken <= s.put && s.j.nUsed == s.put - s.taken
    && s.j.head == s.put % s.j.capacity && s.j.tail == s.taken % s.j.capacity
  }

  /** The counter bounds how far the disk, or the write in flight, lags behind. */
  predicate CounterCovers(s: Sys)
  {
    && s.disk.put <= s.put && s.disk.taken <= s.taken
    && (s.put - s.disk.put) + (s.taken - s.disk.taken) <= s.j.unaccounted
    && (s.flight.None? <==> !s.j.writing)
    && (s.flight.Some? ==>
          var f := s.flight.value;
          && s.disk.put <= f.snap.put <= s.put && s.disk.taken <= f.snap.taken <= s.taken
          && f.counted + (s.put - f.snap.put) + (s.taken - f.snap.taken) <= s.j.unaccounted)
  }

  predicate Inv(s: Sys)
  {
    RingIsLog(s) && CounterCovers(s)
  }

  lemma AcquireIsLog(s: Sys, n: nat)
    requires RingIsLog(s) && WriteAssertions(s)
    ensures RingIsLog(Next(s, AcquireStep(n)))
    ensures s.put <= Next(s, AcquireStep(n)).put <= s.put + n + MAX_ENTRY
  {
    if Granted(Acquire(s.j, n).1) {
      var j1 := Enqueued(s.j, n);
      PaddingFillsTheEnd(j1);
      WrapAdd(s.put, n, s.j.capacity);
      WrapAdd(s.put + n, Padding(j1), s.j.capacity);
    }
  }

  lemma StepInv(s: Sys, step: Step)
    requires Inv(s) && Enabled(s, step)
    ensures WriteAssertions(s) && Inv(Next(s, step))
  {
    match step {
      case AcquireStep(n) => AcquireIsLog(s, n);
      case ReleaseStep(n) => WrapAdd(s.taken, n, s.j.capacity);
      case _ =>
    }
  }

  // ---------------------------------------------------------------- runs

  predicate EntrySized(step: Step)
  {
    step.AcquireStep? ==> 1 <= step.n <= MAX_ENTRY
  }

  ghost predicate Runs(s: Sys, steps: seq<Step>, s': Sys)
    decreases steps
  {
    if steps == [] then s' == s
    else Shape(s.j) && Enabled(s, steps[0]) && WriteAssertions(s) && Runs(Next(s, steps[0]), steps[1..], s')
  }

  /** How many log blocks the superblock on disk does not know of. */
  function Lag(s: Sys): (n: int)
  {
    s.put - s.disk.put
  }

  lemma StepLag(s: Sys, step: Step)
    requires Inv(s) && Enabled(s, step) && EntrySized(step) && Lag(s) < MAX_UNACCOUNTED + 2 * MAX_ENTRY
    ensures WriteAssertions(s) && Lag(Next(s, step)) < MAX_UNACCOUNTED + 2 * MAX_ENTRY
  {
    if step.AcquireStep? {
      AcquireIsLog(s, step.n);
    }
  }

  /** In every interleaving the ring is the log, the counter covers the lag, the assertions of
      OnWriteComplete hold whenever a write can complete, and the lag stays below the hard
      watermark plus one entry plus one padding. */
  lemma {:induction false} JournalRuns(s: Sys, steps: seq<Step>, s': Sys)
    requires Inv(s) && Runs(s, steps, s')
    ensures Inv(s') && WriteAssertions(s')
    ensures Lag(s) < MAX_UNACCOUNTED + 2 * MAX_ENTRY && (forall step :: step in steps ==> EntrySized(step)) ==>
      Lag(s') < MAX_UNACCOUNTED + 2 * MAX_ENTRY
    decreases steps
  {
    if steps != [] {
      assert steps == [steps[0]] + steps[1..];
      StepInv(s, steps[0]);
      if Lag(s) < MAX_UNACCOUNTED + 2 * MAX_ENTRY && EntrySized(steps[0]) {
        StepLag(s, steps[0]);
      }
      JournalRuns(Next(s, steps[0]), steps[1..], s');
    }
  }

  /** Two live log positions are different blocks of the journal region. */
  lemma LivePositionsDistinct(s: Sys, p: nat, q: nat)
    requires RingIsLog(s) && s.taken <= p < q < s.put
    ensures IdxToBlockNo(s.j, p) != IdxToBlockNo(s.j, q)
    ensures s.j.jstart <= IdxToBlockNo(s.j, p) <= s.j.jend && s.j.jstart <= IdxToBlockNo(s.j, q) <= s.j.jend
  {
    ModDiffers(p, q, s.j.capacity);
  }

  /** A grant is exactly the next n log positions: block k of the entry is log position put + k. */
  lemma GrantIsNextPositions(s: Sys, n: nat, k: nat)
    requires RingIsLog(s) && WriteAssertions(s) && Granted(Acquire(s.j, n).1) && k < n
    ensures var s' := Next(s, AcquireStep(n));
      && s'.taken <= s.put + k < s'.put
      && IdxToBlockNo(s.j, Acquire(s.j, n).1.start + k) == IdxToBlockNo(s'.j, s.put + k)
  {
    AcquireIsLog(s, n);
    WrapAdd(s.put, k, s.j.capacity);
    WrapIsMod(s.j.head + k, s.j.capacity);
  }

  /** What an acquire answers. There is no space exactly when the log would be longer than the ring; a retry
      is asked for exactly when the counter has reached the hard limit; in both cases the superblock is as
      before. Otherwise the entry starts at the next position of the log, and the tail, the timestamp and the
      write in flight stay. */
  lemma AcquireAnswer(s: Sys, n: nat)
    requires Inv(s)
    ensures var (j', a) := Acquire(s.j, n);
      && (a.noSpace <==> (s.put - s.taken) + n > s.j.capacity)
      && (a.retry <==> s.j.unaccounted >= MAX_UNACCOUNTED)
      && (!Granted(a) ==> j' == s.j && !a.writeSuper)
      && (Granted(a) ==>
            && a.start == s.put % s.j.capacity
            && j' == s.j.(head := j'.head, nUsed := j'.nUsed, unaccounted := j'.unaccounted)
            && j'.unaccounted - s.j.unaccounted == j'.nUsed - s.j.nUsed >= n)
  {
  }

  /** What it says about the superblock: a write is asked for exactly when the entry is granted, none is in
      flight and the counter is past the soft limit then. So after a grant that asks for none, one is in
      flight or the disk lags by no more than the soft limit. */
  lemma WriteAsked(s: Sys, n: nat)
    requires Inv(s)
    ensures WriteAssertions(s)
    ensures var (j', a) := Acquire(s.j, n);
      && (a.writeSuper <==> Granted(a) && s.flight.None? && j'.unaccounted > SOFT_MAX)
      && (Granted(a) && !a.writeSuper ==> s.flight.Some? || Lag(Next(s, AcquireStep(n))) <= SOFT_MAX)
  {
    StepInv(s, AcquireStep(n));
  }

  /** A release takes the first n positions out of the log, counts them, and touches nothing else. */
  lemma ReleaseCounts(s: Sys, n: nat)
    requires Inv(s) && n <= s.j.nUsed
    ensures var j' := Release(s.j, n);
      && j' == s.j.(tail := j'.tail, nUsed := j'.nUsed, unaccounted := j'.unaccounted)
      && j'.nUsed == s.put - (s.taken + n) && j'.tail == (s.taken + n) % s.j.capacity
      && j'.unaccounted - s.j.unaccounted == n
  {
    WrapAdd(s.taken, n, s.j.capacity);
  }

  /** A checkpoint mark sets the timestamp and is meant to force a superblock write even if one is in flight.
      When that one ends, another is due if and only if something was counted since its snapshot; without one
      in flight, if and only if anything is unaccounted for. */
  lemma MarkForcesIff(j: Super, ts: nat, counted: nat)
    requires counted <= j.unaccounted
    ensures var j' := MarkCheckpoint(j, ts);
      && j' == j.(lastChkpt := ts, unaccounted := j'.unaccounted)
      && (ShouldWrite(WriteEnded(j', counted)) <==> j.unaccounted > counted)
      && (!j.writing ==> (ShouldWrite(j') <==> j.unaccounted > 0))
  {
  }

  /** Recovery: every live position lies between the tail on disk and the counter's distance past
      the head on disk. */
  lemma RecoveryWindow(s: Sys, p: nat)
    requires Inv(s) && s.taken <= p < s.put
    ensures s.disk.taken <= p < s.disk.put + s.j.unaccounted
    ensures s.flight.Some? ==>
      s.flight.value.snap.taken <= p < s.flight.value.snap.put + (s.j.unaccounted - s.flight.value.counted)
  {
  }

  // ---------------------------------------------------------------- the recovery window is exceeded

  /** What a grant of n blocks puts into the log: the entry and the padding behind it. */
  function Growth(j: Super, n: nat): (k: nat)
    requires Shape(j)
  {
    if Granted(Acquire(j, n).1) then n + Padding(Enqueued(j, n)) else 0
  }

  lemma AcquireGrows(s: Sys, n: nat)
    requires Inv(s)
    ensures WriteAssertions(s) && Lag(Next(s, AcquireStep(n))) == Lag(s) + Growth(s.j, n)
    ensures Acquire(s.j, n).0.unaccounted == s.j.unaccounted + Growth(s.j, n)
  {
  }

  function Repeat(step: Step, k: nat): (steps: seq<Step>)
  {
    if k == 0 then [] else [step] + Repeat(step, k - 1)
  }

  /** k grants of the largest entry in the middle of the ring. */
  lemma {:induction false} FillUp(s: Sys, k: nat) returns (s': Sys)
    requires Inv(s) && s.j.head + k * MAX_ENTRY + MAX_ENTRY < s.j.capacity && s.j.nUsed == s.j.head
    requires k > 0 ==> s.j.unaccounted + k * MAX_ENTRY < MAX_UNACCOUNTED + MAX_ENTRY
    ensures Runs(s, Repeat(AcquireStep(MAX_ENTRY), k), s') && Lag(s') == Lag(s) + k * MAX_ENTRY
    decreases k
  {
    if k == 0 {
      s' := s;
    } else {
      var step := AcquireStep(MAX_ENTRY);
      StepInv(s, step);
      AcquireGrows(s, MAX_ENTRY);
      var s1 := Next(s, step);
      FillStep(s);
      s' := FillUp(s1, k - 1);
      assert Repeat(step, k)[1..] == Repeat(step, k - 1);
    }
  }

  lemma FillStep(s: Sys)
    requires Inv(s) && s.j.head + 2 * MAX_ENTRY < s.j.capacity && s.j.nUsed == s.j.head
    requires s.j.unaccounted < MAX_UNACCOUNTED
    ensures Growth(s.j, MAX_ENTRY) == MAX_ENTRY
    ensures var j := Acquire(s.j, MAX_ENTRY).0; j.head == j.nUsed == s.j.head + MAX_ENTRY && j.capacity == s.j.capacity
  {
  }

  function Fresh(capacity: nat): (s: Sys)
    requires capacity > MAX_ENTRY
  {
    Sys(Super(0, capacity - 1, capacity, 0, 0, 0, 0, 0, false), 0, 0, Snap(0, 0), None)
  }

  /** The offline checkpointer reads MAX_UNACCOUNTED blocks past the head on disk.  A run of entries
      that fit, with no superblock write completed, puts more than that into the journal. */
  lemma WindowExceeded(capacity: nat)
    requires capacity > 60000
    ensures exists steps: seq<Step>, s' ::
      Runs(Fresh(capacity), steps, s') && (forall step :: step in steps ==> step.AcquireStep? && EntrySized(step))
      && Lag(s') > MAX_UNACCOUNTED
  {
    var s := Fresh(capacity);
    StepInv(s, AcquireStep(2));
    var s1 := Next(s, AcquireStep(2));
    PaddingFillsTheEnd(Enqueued(s.j, 2));
    assert s1.j.head == 2 && s1.j.nUsed == 2 && s1.j.unaccounted == 2;
    var s' := FillUp(s1, 1600);
    var steps := [AcquireStep(2)] + Repeat(AcquireStep(MAX_ENTRY), 1600);
    assert steps[1..] == Repeat(AcquireStep(MAX_ENTRY), 1600);
    RepeatOnly(AcquireStep(MAX_ENTRY), 1600);
    assert Runs(s, steps, s');
  }

  lemma {:induction false} RepeatOnly(step: Step, k: nat)
    ensures forall x :: x in Repeat(step, k) ==> x == step
  {
    if k > 0 {
      RepeatOnly(step, k - 1);
    }
  }

  // ---------------------------------------------------------------- when the window suffices

  /** A grant keeps the lag within what the offline checkpointer reads if and only if the lag, the
      entry and its padding are together within it. */
  lemma GrantWithinIff(s: Sys, n: nat)
    requires Inv(s) && Granted(Acquire(s.j, n).1)
    ensures WriteAssertions(s)
    ensures Lag(Next(s, AcquireStep(n))) <= MAX_UNACCOUNTED <==>
            Lag(s) + n + Padding(Enqueued(s.j, n)) <= MAX_UNACCOUNTED
  {
    AcquireGrows(s, n);
  }

  /** A state with the given superblock whose disk lags behind by as much as the counter allows. */
  function Furthest(j: Super): (s: Sys)
    requires Shape(j) && j.head == Wrap(j.tail + j.nUsed, j.capacity)
    ensures s.j == j && Inv(s) && Lag(s) == j.unaccounted
  {
    var turns := j.unaccounted + 1;
    var taken := j.tail + turns * j.capacity;
    var put := taken + j.nUsed;
    MulGrows(turns, j.capacity);
    ModIs(taken, j.capacity, turns, j.tail);
    WrapAdd(taken, j.nUsed, j.capacity);
    MulAtLeast(turns, j.capacity);
    Sys(j, put, taken, Snap(put - j.unaccounted, taken),
        if j.writing then Some(Flight(Snap(put, taken), 0)) else None)
  }

  lemma MulAtLeast(k: nat, m: nat)
    requires m > 0
    ensures k * m >= k
  {
  }

  function LagAfter(s: Sys, n: nat): (k: int)
    requires Inv(s)
  {
    Lag(Next(s, AcquireStep(n)))
  }

  /** What a caller can check: a superblock grants n blocks within the window, whatever the disk
      says, if and only if its own counter leaves room for the entry and its padding. */
  lemma CounterWithinIff(j: Super, n: nat)
    requires Shape(j) && j.head == Wrap(j.tail + j.nUsed, j.capacity) && Granted(Acquire(j, n).1)
    ensures (forall s: Sys :: s.j == j && Inv(s) ==> LagAfter(s, n) <= MAX_UNACCOUNTED) <==>
            j.unaccounted + n + Padding(Enqueued(j, n)) <= MAX_UNACCOUNTED
  {
    forall s: Sys | s.j == j && Inv(s) ensures LagAfter(s, n) == Lag(s) + Growth(j, n) {
      AcquireGrows(s, n);
    }
    var s := Furthest(j);
    assert LagAfter(s, n) == j.unaccounted + Growth(j, n);
  }

  /** The lag is within the window in every state of the run. */
  ghost predicate AlwaysWithin(s: Sys, steps: seq<Step>)
    decreases steps
  {
    && Lag(s) <= MAX_UNACCOUNTED
    && (steps != [] ==>
          Shape(s.j) && Enabled(s, steps[0]) && WriteAssertions(s) && AlwaysWithin(Next(s, steps[0]), steps[1..]))
  }

  /** Every acquire of the run finds room: in the lag, or in the counter. */
  ghost predicate EveryGrantFits(s: Sys, steps: seq<Step>, byCounter: bool)
    decreases steps
  {
    steps != [] ==>
      && Shape(s.j) && Enabled(s, steps[0]) && WriteAssertions(s)
      && (steps[0].AcquireStep? && Granted(Acquire(s.j, steps[0].n).1) ==>
            (if byCounter then s.j.unaccounted else Lag(s)) + Growth(s.j, steps[0].n) <= MAX_UNACCOUNTED)
      && EveryGrantFits(Next(s, steps[0]), steps[1..], byCounter)
  }

  /** A run stays within the window if and only if each of its grants fits when it is made. */
  lemma {:induction false} WindowRunsIff(s: Sys, steps: seq<Step>, s': Sys)
    requires Inv(s) && Runs(s, steps, s') && Lag(s) <= MAX_UNACCOUNTED
    ensures AlwaysWithin(s, steps) <==> EveryGrantFits(s, steps, false)
    decreases steps
  {
    if steps != [] {
      StepInv(s, steps[0]);
      if steps[0].AcquireStep? {
        AcquireGrows(s, steps[0].n);
      }
      var s1 := Next(s, steps[0]);
      if Lag(s1) <= MAX_UNACCOUNTED {
        WindowRunsIff(s1, steps[1..], s');
      }
    }
  }

  /** Nothing but entries and superblock writes: no release and no checkpoint mark. */
  predicate Plain(step: Step)
  {
    step.AcquireStep? || step.StartWrite? || step.FinishWrite?
  }

  /** The counter is the lag, and what the write in flight counted is what it will make known. */
  predicate Exact(s: Sys)
  {
    && s.j.unaccounted == Lag(s)
    && (s.flight.Some? ==> s.flight.value.counted == s.flight.value.snap.put - s.disk.put)
  }

  lemma PlainExact(s: Sys, step: Step)
    requires Inv(s) && Exact(s) && Enabled(s, step) && Plain(step)
    ensures WriteAssertions(s) && Exact(Next(s, step))
  {
    if step.AcquireStep? {
      AcquireGrows(s, step.n);
    }
  }

  /** A run whose grants fit by the counter stays within the window; without releases and checkpoint
      marks the counter is exact, and the converse holds too. */
  lemma {:induction false} CounterRuns(s: Sys, steps: seq<Step>, s': Sys)
    requires Inv(s) && Runs(s, steps, s') && Lag(s) <= MAX_UNACCOUNTED
    ensures EveryGrantFits(s, steps, true) ==> AlwaysWithin(s, steps)
    ensures Exact(s) && (forall step :: step in steps ==> Plain(step)) ==>
            (AlwaysWithin(s, steps) <==> EveryGrantFits(s, steps, true))
    decreases steps
  {
    if steps != [] {
      StepInv(s, steps[0]);
      if steps[0].AcquireStep? {
        AcquireGrows(s, steps[0].n);
      }
      if Exact(s) && Plain(steps[0]) {
        PlainExact(s, steps[0]);
      }
      var s1 := Next(s, steps[0]);
      assert forall step :: step in steps[1..] ==> step in steps;
      if Lag(s1) <= MAX_UNACCOUNTED {
        CounterRuns(s1, steps[1..], s');
      }
    }
  }

  // ---------------------------------------------------------------- contiguous entries

  /** Every grant in the run is one piece of the ring. */
  predicate GrantsFit(j: Super, sizes: seq<nat>)
    requires Shape(j)
    decreases sizes
  {
    AcquireShape(j, if sizes == [] then 0 else sizes[0]);
    sizes == [] ||
    ((Granted(Acquire(j, sizes[0]).1) ==> j.head + sizes[0] <= j.capacity) &&
     GrantsFit(Acquire(j, sizes[0]).0, sizes[1..]))
  }

  /** A run of acquires from head 0, with no release between, never wraps an entry. */
  lemma {:induction false} AcquireRunsFit(j: Super, sizes: seq<nat>)
    requires Shape(j) && (Roomy(j) || j.head == 0)
    requires forall n :: n in sizes ==> 1 <= n <= MAX_ENTRY
    ensures GrantsFit(j, sizes)
    decreases sizes
  {
    if sizes != [] {
      assert sizes[0] in sizes && forall n :: n in sizes[1..] ==> n in sizes;
      AcquireShape(j, sizes[0]);
      if Granted(Acquire(j, sizes[0]).1) {
        AcquireKeepsRoomy(j, sizes[0]);
      }
      AcquireRunsFit(Acquire(j, sizes[0]).0, sizes[1..]);
    }
  }

  /** Checkpointing reads the size when it starts and releases that many blocks when it has succeeded,
      with acquires in between; one that fails releases nothing, and another may start.  `Counter` stands
      for anything that moves the staleness counter. */
  datatype Action =
    | Entry(n: nat)
    | BeginCheckpoint
    | EndCheckpoint(ts: nat)
    | FailCheckpoint
    | Counter(unaccounted: nat, writing: bool)

  datatype Journal = Journal(j: Super, captured: Option<nat>)

  predicate Possible(w: Journal, a: Action)
  {
    match a
    case Entry(n) => 1 <= n <= MAX_ENTRY
    case BeginCheckpoint => w.captured.None?
    case EndCheckpoint(_) => w.captured.Some? && w.captured.value <= w.j.nUsed
    case FailCheckpoint => w.captured.Some?
    case Counter(_, _) => true
  }

  function Act(w: Journal, a: Action): (w': Journal)
    requires Shape(w.j) && Possible(w, a)
  {
    match a
    case Entry(n) => w.(j := Acquire(w.j, n).0)
    case BeginCheckpoint => w.(captured := Some(w.j.nUsed))
    case EndCheckpoint(ts) => Journal(MarkCheckpoint(Release(w.j, w.captured.value), ts), None)
    case FailCheckpoint => w.(captured := None)
    case Counter(u, b) => w.(j := w.j.(unaccounted := u, writing := b))
  }

  /** The head, the tail and the captured position all leave room for one more entry. */
  predicate Aligned(w: Journal)
  {
    && Shape(w.j) && w.j.head == Wrap(w.j.tail + w.j.nUsed, w.j.capacity)
    && w.j.capacity - w.j.head > MAX_ENTRY && w.j.capacity - w.j.tail > MAX_ENTRY
    && (w.captured.Some? ==>
          w.captured.value <= w.j.nUsed && w.j.capacity - Wrap(w.j.tail + w.captured.value, w.j.capacity) > MAX_ENTRY)
  }

  /** When both ends leave room for an entry, padding is always possible when it is needed. */
  lemma PaddingPossible(j: Super)
    requires Shape(j) && j.head == Wrap(j.tail + j.nUsed, j.capacity)
    requires j.capacity - j.tail > MAX_ENTRY && j.capacity - j.head <= MAX_ENTRY
    ensures Padding(j) == j.capacity - j.head
  {
    if j.tail + j.nUsed < j.capacity {
    } else {
    }
  }

  lemma EntryAligned(w: Journal, n: nat)
    requires Aligned(w) && 1 <= n <= MAX_ENTRY
    ensures Aligned(Act(w, Entry(n)))
    ensures Granted(Acquire(w.j, n).1) ==> w.j.head + n <= w.j.capacity
  {
    if Granted(Acquire(w.j, n).1) {
      var m := w.j.capacity;
      var j1 := Enqueued(w.j, n);
      PaddingFillsTheEnd(j1);
      if m - j1.head <= MAX_ENTRY {
        PaddingPossible(j1);
      }
    }
  }

  lemma ActAligned(w: Journal, a: Action)
    requires Aligned(w) && Possible(w, a)
    ensures Aligned(Act(w, a))
  {
    match a {
      case Entry(n) => EntryAligned(w, n);
      case EndCheckpoint(_) =>
        var c := w.captured.value;
      case _ =>
    }
  }

  ghost predicate EntriesFit(w: Journal, acts: seq<Action>)
    decreases acts
  {
    acts == [] ||
    (Shape(w.j) && (Possible(w, acts[0]) ==>
      (acts[0].Entry? && Granted(Acquire(w.j, acts[0].n).1) ==> w.j.head + acts[0].n <= w.j.capacity)
      && EntriesFit(Act(w, acts[0]), acts[1..])))
  }

  /** With releases as checkpointing makes them, successful or not, no entry ever wraps, in any run. */
  lemma {:induction false} CheckpointedRunsFit(w: Journal, acts: seq<Action>)
    requires Aligned(w)
    ensures EntriesFit(w, acts)
    decreases acts
  {
    if acts != [] && Possible(w, acts[0]) {
      ActAligned(w, acts[0]);
      if acts[0].Entry? {
        EntryAligned(w, acts[0].n);
      }
      CheckpointedRunsFit(Act(w, acts[0]), acts[1..]);
    }
  }

  /** A ring of 34 blocks. */
  predicate Small(j: Super, head: nat, tail: nat, used: nat)
  {
    Shape(j) && j.capacity == 34 && j.head == head && j.tail == tail && j.nUsed == used
  }

  /** With releases of any other size an entry can wrap.  In an empty ring of 34 blocks an entry of
      2 blocks is padded to the end; a release of 33 ends inside the padding; the next entry, of 3
      blocks, ends near the end of the ring, which can no longer be padded; and when 3 blocks are
      released, there is space for an entry of 32 blocks, which runs over the end. */
  lemma AnyReleaseCanWrap(j0: Super) returns (j1: Super, j2: Super, j3: Super, j4: Super)
    requires Small(j0, 0, 0, 0) && j0.unaccounted == 0
    ensures j1 == Acquire(j0, 2).0 && Small(j1, 0, 0, 34)
    ensures j2 == Release(j1, 33) && Small(j2, 0, 33, 1)
    ensures j3 == Acquire(j2, 3).0 && Small(j3, 3, 33, 4)
    ensures j4 == Release(j3, 3) && Small(j4, 3, 2, 1)
    ensures Granted(Acquire(j4, 32).1) && j4.head + 32 > j4.capacity
  {
    j1 := Acquire(j0, 2).0;
    assert Small(j1, 0, 0, 34) && j1.unaccounted == 34;
    j2 := Release(j1, 33);
    assert Small(j2, 0, 33, 1) && j2.unaccounted == 67;
    j3 := Acquire(j2, 3).0;
    assert Small(j3, 3, 33, 4) && j3.unaccounted == 70;
    j4 := Release(j3, 3);
    assert Small(j4, 3, 2, 1) && j4.unaccounted == 73;
  }

  /** The assertion the source makes on such an entry fails. */
  lemma WrappedEntryFailsAssertion(j: Super, n: nat)
    requires Shape(j) && 1 <= n <= MAX_ENTRY && j.head + n > j.capacity
    ensures !NoLoopArounds(j, j.head, n)
  {
    NoLoopAroundsIff(j, j.head, n);
  }

  /** A release keeps every next grant in one piece exactly when the head is far from the end or
      what remains still reaches past the head. */
  lemma ReleaseFitsIff(j: Super, n: nat)
    requires Shape(j) && n <= j.nUsed
    ensures (forall k :: 1 <= k <= MAX_ENTRY && CanAllocate(Release(j, n), k) ==> j.head + k <= j.capacity)
      <==> (j.capacity - j.head >= MAX_ENTRY || j.nUsed - n >= j.head)
  {
    NextGrantFitsIff(Release(j, n));
  }

  // ---------------------------------------------------------------- the object

  /** JSuper as the source writes it; each method body runs under the lock. */
  class JSuper {
    const jstart: nat
    const jend: nat
    const capacity: nat
    var nUsed: nat
    var head: nat
    var tail: nat
    var lastChkpt: nat
    var unaccounted: nat
    var writing: bool

    ghost function State(): (j: Super)
      reads this
    {
      Super(jstart, jend, capacity, nUsed, head, tail, lastChkpt, unaccounted, writing)
    }

    constructor (start: nat, blocks: nat)
      requires blocks > MAX_ENTRY
      ensures State() == Super(start, start + blocks - 1, blocks, 0, 0, 0, 0, 0, false)
    {
      jstart, jend, capacity := start, start + blocks - 1, blocks;
      nUsed, head, tail, lastChkpt, unaccounted, writing := 0, 0, 0, 0, 0, false;
    }

    method ItemsEnqueued(n: nat)
      requires Shape(State()) && CanAllocate(State(), n)
      modifies this`head, this`nUsed
      ensures State() == Enqueued(old(State()), n)
    {
      WrapIsMod(head + n, capacity);
      head := (head + n) % capacity;
      nUsed := nUsed + n;
    }

    method EnsureNextContiguousRegion() returns (filled: nat)
      requires Shape(State())
      modifies this`head, this`nUsed
      ensures filled == Padding(old(State()))
      ensures State() == if filled == 0 then old(State()) else Enqueued(old(State()), filled)
    {
      TillEndIsSource(State());
      var tillEnd := jend - (jstart + head % capacity) + 1;
      if tillEnd > MAX_ENTRY {
        return 0;
      }
      if nUsed + tillEnd <= capacity {
        ItemsEnqueued(tillEnd);
        return tillEnd;
      }
      return 0;
    }

    method AcquireNextNSlots(n: nat) returns (slot: Slot)
      requires Shape(State())
      modifies this`head, this`nUsed, this`unaccounted
      ensures (State(), slot) == Acquire(old(State()), n) && Shape(State())
    {
      AcquireShape(State(), n);
      var retry := unaccounted >= MAX_UNACCOUNTED;
      var noSpace := nUsed + n > capacity;
      if retry || noSpace {
        return Slot(0, noSpace, false, retry);
      }
      var start := head;
      ItemsEnqueued(n);
      unaccounted := unaccounted + n;
      var filled := EnsureNextContiguousRegion();
      unaccounted := unaccounted + filled;
      return Slot(start, false, unaccounted > SOFT_MAX && !writing, false);
    }

    method ReleaseFirstNSlots(n: nat)
      requires Shape(State()) && n <= nUsed
      modifies this`tail, this`nUsed, this`unaccounted
      ensures State() == Release(old(State()), n) && Shape(State())
    {
      WrapIsMod(tail + n, capacity);
      tail := (tail + n) % capacity;
      nUsed := nUsed - n;
      unaccounted := unaccounted + n;
    }

    /** Returns the snapshot to write and the count it accounts for, unless a write is in flight. */
    method TrySetWriteInProgress() returns (snapshot: Option<(nat, nat, nat, nat)>, counted: nat)
      modifies this`writing
      ensures old(writing) ==> snapshot == None && State() == old(State())
      ensures !old(writing) ==>
        snapshot == Some((nUsed, head, tail, lastChkpt)) && counted == unaccounted &&
        State() == WriteStarted(old(State()))
    {
      if writing {
        return None, 0;
      }
      writing := true;
      return Some((nUsed, head, tail, lastChkpt)), unaccounted;
    }

    method OnWriteComplete(counted: nat)
      requires writing && counted <= unaccounted
      modifies this`writing, this`unaccounted
      ensures State() == WriteEnded(old(State()), counted)
    {
      writing := false;
      unaccounted := unaccounted - counted;
    }

    method SetLastCheckpoint(ts: nat)
      modifies this`lastChkpt, this`unaccounted
      ensures State() == MarkCheckpoint(old(State()), ts)
    {
      lastChkpt := ts;
      unaccounted := unaccounted + SOFT_MAX;
    }
  }
}
