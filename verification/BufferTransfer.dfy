/** Operations of `BlockBuffer` that work on all slots of one inode at once: freeing an unlinked
    inode's slots, and handing an inode's slots over to another worker's buffer. */
module BufferTransfer {
  import opened NatLists
  import opened BlockBuffers

  // ---------------------------------------------------------------- taking slots off the list

  function Without(q: seq<Slot>, ss: set<Slot>): (r: seq<Slot>)
  {
    if q == [] then [] else (if q[0] in ss then [] else [q[0]]) + Without(q[1..], ss)
  }

  lemma {:induction false} WithoutNothing(q: seq<Slot>)
    ensures Without(q, {}) == q
  {
    if q != [] {
      WithoutNothing(q[1..]);
    }
  }

  lemma TailOfConcat(a: seq<Slot>, b: seq<Slot>)
    requires a != []
    ensures (a + b)[0] == a[0] && (a + b)[1..] == a[1..] + b
  {
  }

  /** What is left keeps its order: the elements are judged one by one. */
  lemma {:induction false} WithoutConcat(a: seq<Slot>, b: seq<Slot>, ss: set<Slot>)
    ensures Without(a + b, ss) == Without(a, ss) + Without(b, ss)
    decreases a
  {
    if a == [] {
      assert a + b == b;
    } else {
      WithoutConcat(a[1..], b, ss);
      TailOfConcat(a, b);
      Associate(if a[0] in ss then [] else [a[0]], Without(a[1..], ss), Without(b, ss));
    }
  }

  lemma WithoutOne(s: Slot, ss: set<Slot>)
    ensures Without([s], ss) == if s in ss then [] else [s]
  {
    assert [s][1..] == [];
  }

  lemma {:induction false} WithoutErases(q: seq<Slot>, ss: set<Slot>)
    requires NoDup(q)
    ensures NoDup(Without(q, ss))
    ensures Elems(Without(q, ss)) == Elems(q) - ss
  {
    if q != [] {
      assert q == [q[0]] + q[1..];
      WithoutErases(q[1..], ss);
      assert Elems(q) == {q[0]} + Elems(q[1..]);
      assert q[0] !in Elems(q[1..]);
      var r := Without(q[1..], ss);
      assert q[0] !in Elems(r);
      if q[0] in ss {
        assert Without(q, ss) == r;
      } else {
        assert Without(q, ss) == [q[0]] + r;
        assert Elems([q[0]] + r) == {q[0]} + Elems(r);
      }
    }
  }

  function DropKeys(cache: map<nat, Slot>, ss: set<Slot>): (r: map<nat, Slot>)
  {
    map k | k in cache && cache[k] !in ss :: cache[k]
  }

  // ---------------------------------------------------------------- an unlinked inode

  function Cleared(items: map<Slot, Item>, ss: set<Slot>): (r: map<Slot, Item>)
  {
    map s | s in items :: if s in ss then items[s].(dirty := false) else items[s]
  }

  function ForgetDirty(dirtyBy: map<nat, set<Slot>>, i: nat): (r: map<nat, set<Slot>>)
  {
    if SetOf(dirtyBy, i) != {} then dirtyBy - {i} else dirtyBy
  }

  /** releaseUnlinkedInodeDirtyBlocks: the slots listed under `i`, visited in the order `order`,
      are cleaned and put back on the free list.  Their index field is left as it was. */
  function Unlink(b: Buf, i: nat, order: seq<Slot>): (r: Buf)
  {
    var ss := SetOf(b.byIndex, i);
    b.(items := Cleared(b.items, ss),
       lru := Without(b.lru, ss),
       cache := DropKeys(b.cache, ss),
       free := b.free + order,
       dirtyNum := b.dirtyNum - |DirtySlots(b.items) * ss|,
       byIndex := b.byIndex - {i},
       dirtyBy := ForgetDirty(b.dirtyBy, i))
  }

  /** The assertion at the end of the source's function. */
  ghost predicate UnlinkAssertion(b: Buf, i: nat)
  {
    |SetOf(b.dirtyBy, i)| == |DirtySlots(b.items) * SetOf(b.byIndex, i)|
  }

  lemma ListsAppend(slots: set<Slot>, lru: seq<Slot>, free: seq<Slot>, order: seq<Slot>)
    requires Lists(slots, lru, free) && NoDup(order) && Elems(order) <= Elems(lru)
    ensures Lists(slots, Without(lru, Elems(order)), free + order)
    ensures Elems(Without(lru, Elems(order))) == Elems(lru) - Elems(order)
  {
    WithoutErases(lru, Elems(order));
    NoDupAppend(free, order);
  }

  lemma MappedDrop(items: map<Slot, Item>, cached: set<Slot>, cache: map<nat, Slot>, ss: set<Slot>)
    requires Mapped(items, cached, cache)
    ensures Mapped(items, cached - ss, DropKeys(cache, ss))
  {
  }

  lemma IndexDrop(items: map<Slot, Item>, cached: set<Slot>, byIndex: map<nat, set<Slot>>, i: nat)
    requires IndexSound(items, cached, byIndex)
    ensures IndexSound(items, cached - SetOf(byIndex, i), byIndex - {i})
    ensures IndexComplete(items, cached, byIndex) ==>
      IndexComplete(items, cached - SetOf(byIndex, i), byIndex - {i})
  {
  }

  lemma UnlinkLists(b: Buf, i: nat, order: seq<Slot>)
    requires Placed(b) && Enumerates(order, SetOf(b.byIndex, i))
    ensures var r := Unlink(b, i, order); Lists(r.items.Keys, r.lru, r.free)
    ensures Unlink(b, i, order).items.Keys == b.items.Keys
    ensures Elems(Unlink(b, i, order).lru) == Elems(b.lru) - SetOf(b.byIndex, i)
  {
    assert SetOf(b.byIndex, i) <= Elems(b.lru);
    ListsAppend(b.items.Keys, b.lru, b.free, order);
  }

  lemma UnlinkPlaced(b: Buf, i: nat, order: seq<Slot>)
    requires Placed(b) && Enumerates(order, SetOf(b.byIndex, i))
    ensures Placed(Unlink(b, i, order))
    ensures Unlink(b, i, order).items.Keys == b.items.Keys
    ensures Elems(Unlink(b, i, order).lru) == Elems(b.lru) - SetOf(b.byIndex, i)
    ensures IndexComplete(b.items, Elems(b.lru), b.byIndex) ==>
      var r := Unlink(b, i, order); IndexComplete(r.items, Elems(r.lru), r.byIndex)
  {
    var ss := SetOf(b.byIndex, i);
    var r := Unlink(b, i, order);
    UnlinkLists(b, i, order);
    MappedDrop(b.items, Elems(b.lru), b.cache, ss);
    IndexDrop(b.items, Elems(b.lru), b.byIndex, i);
    assert SameNames(b.items, r.items);
    Reflagged(b.items, r.items, Elems(b.lru) - ss, r.cache, r.byIndex);
  }

  /** The dirty set of an inode is exactly its dirty slots, all of them listed under the inode. */
  lemma DirtyOfIndex(b: Buf, i: nat)
    requires Placed(b) && DirtyExact(b) && i != 0
    requires IndexComplete(b.items, Elems(b.lru), b.byIndex)
    ensures SetOf(b.dirtyBy, i) == DirtySlots(b.items) * SetOf(b.byIndex, i)
  {
  }

  /** The source's assertion holds exactly when every slot in the inode's dirty set is also listed
      under the inode. */
  lemma UnlinkAssertionIff(b: Buf, i: nat)
    requires Placed(b) && DirtyExact(b)
    ensures UnlinkAssertion(b, i) <==> SetOf(b.dirtyBy, i) <= SetOf(b.byIndex, i)
  {
    var listed := DirtySlots(b.items) * SetOf(b.byIndex, i);
    assert listed <= SetOf(b.dirtyBy, i);
    assert SetOf(b.dirtyBy, i) == listed + (SetOf(b.dirtyBy, i) - listed);
    if SetOf(b.dirtyBy, i) <= SetOf(b.byIndex, i) {
      assert SetOf(b.dirtyBy, i) == listed;
    }
  }

  lemma DirtyDrop(items: map<Slot, Item>, cached: set<Slot>, dirtyBy: map<nat, set<Slot>>, ss: set<Slot>, i: nat)
    requires DirtyIndexed(items, cached, dirtyBy)
    requires SetOf(dirtyBy, i) <= ss && forall s :: s in ss && s in items ==> items[s].index == i
    ensures DirtyIndexed(Cleared(items, ss), cached - ss, ForgetDirty(dirtyBy, i))
    ensures DirtySlots(Cleared(items, ss)) == DirtySlots(items) - ss
  {
  }

  lemma UnlinkDirty(b: Buf, i: nat, order: seq<Slot>)
    requires DirtyExact(b) && NoDup(b.lru)
    requires SetOf(b.dirtyBy, i) <= SetOf(b.byIndex, i)
    requires forall s :: s in SetOf(b.byIndex, i) && s in b.items ==> b.items[s].index == i
    ensures DirtyExact(Unlink(b, i, order))
  {
    var ss := SetOf(b.byIndex, i);
    var r := Unlink(b, i, order);
    WithoutErases(b.lru, ss);
    DirtyDrop(b.items, Elems(b.lru), b.dirtyBy, ss, i);
    CountSplit(DirtySlots(b.items), ss);
  }

  lemma CountSplit(d: set<Slot>, ss: set<Slot>)
    ensures |d| == |d - ss| + |d * ss|
  {
    assert d == (d - ss) + (d * ss);
  }

  lemma UnlinkConsistent(b: Buf, i: nat, order: seq<Slot>)
    requires Consistent(b) && i > 1 && Enumerates(order, SetOf(b.byIndex, i))
    ensures UnlinkAssertion(b, i)
    ensures Consistent(Unlink(b, i, order))
    ensures forall s :: s in Elems(Unlink(b, i, order).lru) ==> s in b.items && b.items[s].index != i
  {
    DirtyOfIndex(b, i);
    UnlinkPlaced(b, i, order);
    UnlinkDirty(b, i, order);
  }

  /** The slots listed under the inode are clean afterwards and otherwise as they were; the others are as
      they were. */
  lemma UnlinkCleans(b: Buf, i: nat, order: seq<Slot>)
    ensures var r := Unlink(b, i, order);
      && r.items.Keys == b.items.Keys
      && (forall s :: s in b.items ==>
            r.items[s] == if s in SetOf(b.byIndex, i) then b.items[s].(dirty := false) else b.items[s])
  {
  }

  /** They are on the free list, behind those that were there, in the order visited, and no longer on the
      list, where the others keep their order. */
  lemma UnlinkFrees(b: Buf, i: nat, order: seq<Slot>, s: Slot)
    requires NoDup(b.lru) && Enumerates(order, SetOf(b.byIndex, i))
    ensures var r := Unlink(b, i, order);
      && r.free == b.free + order && r.lru == Without(b.lru, Elems(order))
      && (s in SetOf(b.byIndex, i) ==> s in r.free && s !in r.lru)
      && (s !in SetOf(b.byIndex, i) ==> (s in r.free <==> s in b.free) && (s in r.lru <==> s in b.lru))
  {
    WithoutErases(b.lru, SetOf(b.byIndex, i));
    assert s in Elems(order) <==> s in order;
    assert s in Elems(b.lru) <==> s in b.lru;
    var r := Unlink(b, i, order);
    assert s in Elems(r.lru) <==> s in r.lru;
  }

  /** Only the inode's own entries of the two indexes go, and the flush flags stay. */
  lemma UnlinkForgets(b: Buf, i: nat, order: seq<Slot>, k: nat)
    ensures var r := Unlink(b, i, order);
      && SetOf(r.byIndex, k) == (if k == i then {} else SetOf(b.byIndex, k))
      && SetOf(r.dirtyBy, k) == (if k == i then {} else SetOf(b.dirtyBy, k))
      && r.bgSent == b.bgSent && r.fgNum == b.fgNum
  {
  }

  // ---------------------------------------------------------------- handing an inode over

  datatype SplitResult = NotFound | Threw | Done(buf: Buf, moved: map<Slot, Item>)

  function Restrict(items: map<Slot, Item>, ss: set<Slot>): (r: map<Slot, Item>)
  {
    map s | s in items && s in ss :: items[s]
  }

  /** splitBufferItemsByIndex: it refuses an index nobody lists, and throws on a locked slot. */
  function Split(b: Buf, i: nat): (r: SplitResult)
  {
    if i !in b.byIndex then NotFound
    else
      var ss := b.byIndex[i];
      if exists s :: s in ss && s in b.items && b.items[s].status == Locked then Threw
      else Done(
        b.(items := b.items - ss,
           lru := Without(b.lru, ss),
           cache := DropKeys(b.cache, ss),
           byIndex := b.byIndex - {i},
           dirtyBy := b.dirtyBy - {i},
           dirtyNum := b.dirtyNum - |SetOf(b.dirtyBy, i)|),
        Restrict(b.items, ss))
  }

  /** What a throw in the middle of a split leaves: the slots of `done` are off the list and the block
      map, the inode's dirty entry and its share of the counter are gone, and nothing else has changed. */
  function Thrown(b: Buf, i: nat, done: set<Slot>): (r: Buf)
  {
    b.(lru := Without(b.lru, done),
       cache := DropKeys(b.cache, done),
       dirtyBy := b.dirtyBy - {i},
       dirtyNum := b.dirtyNum - |SetOf(b.dirtyBy, i)|)
  }

  function Rev(q: seq<Slot>): (r: seq<Slot>)
  {
    if q == [] then [] else Rev(q[1..]) + [q[0]]
  }

  function AddKeys(cache: map<nat, Slot>, moved: map<Slot, Item>, order: seq<Slot>): (r: map<nat, Slot>)
    requires forall s :: s in order ==> s in moved
    decreases order
  {
    if order == [] then cache
    else AddKeys(cache[moved[order[0]].blockNo := order[0]], moved, order[1..])
  }

  /** installBufferItemsOfIndex, visiting the set in the order `order`.  The dirty set is emplaced,
      so an entry that is already there stays. */
  function Install(b: Buf, i: nat, moved: map<Slot, Item>, order: seq<Slot>): (r: Buf)
    requires forall s :: s in order ==> s in moved
  {
    var d := DirtySlots(moved);
    b.(items := b.items + moved,
       lru := Rev(order) + b.lru,
       cache := AddKeys(b.cache, moved, order),
       byIndex := b.byIndex[i := SetOf(b.byIndex, i) + moved.Keys],
       dirtyBy := JoinDirty(b.dirtyBy, i, d),
       dirtyNum := b.dirtyNum + |d|)
  }

  /** A set of slots as split hands it out. */
  ghost predicate Bundle(i: nat, moved: map<Slot, Item>)
  {
    && (forall s :: s in moved ==> moved[s].index == i && moved[s].status != Locked)
    && (forall s, s' :: s in moved && s' in moved && s != s' ==> moved[s].blockNo != moved[s'].blockNo)
  }

  lemma {:induction false} RevAt(q: seq<Slot>, k: nat)
    requires k < |q|
    ensures |Rev(q)| == |q| && Rev(q)[k] == q[|q| - 1 - k]
  {
    if |q| > 1 {
      RevAt(q[1..], if k < |q| - 1 then k else 0);
    }
  }

  lemma {:induction false} RevEnumerates(q: seq<Slot>)
    requires NoDup(q)
    ensures NoDup(Rev(q)) && Elems(Rev(q)) == Elems(q)
  {
    if q != [] {
      assert q == [q[0]] + q[1..];
      RevEnumerates(q[1..]);
      assert Elems(q) == {q[0]} + Elems(q[1..]);
      assert q[0] !in Elems(Rev(q[1..]));
      assert Elems(Rev(q[1..]) + [q[0]]) == Elems(Rev(q[1..])) + {q[0]};
    }
  }

  /** Adding the slots one by one maps each of their block numbers to its slot and nothing else. */
  lemma {:induction false} AddKeysMaps(cache: map<nat, Slot>, moved: map<Slot, Item>, order: seq<Slot>)
    requires NoDup(order) && forall s :: s in order ==> s in moved
    requires forall s, s' :: s in order && s' in order && s != s' ==> moved[s].blockNo != moved[s'].blockNo
    ensures var r := AddKeys(cache, moved, order);
      && (forall s :: s in order ==> moved[s].blockNo in r && r[moved[s].blockNo] == s)
      && (forall k :: k in cache && (forall s :: s in order ==> moved[s].blockNo != k) ==> k in r && r[k] == cache[k])
      && (forall k :: k in r ==> (k in cache && r[k] == cache[k]) || (r[k] in order && moved[r[k]].blockNo == k))
    decreases order
  {
    if order != [] {
      var s := order[0];
      assert order == [s] + order[1..];
      assert s !in order[1..];
      AddKeysMaps(cache[moved[s].blockNo := s], moved, order[1..]);
    }
  }

  /** What a split answers: it finds nothing exactly if the inode is not listed, and then no cached slot is
      the inode's; it throws exactly if a cached slot of the inode is locked. */
  lemma SplitAnswer(b: Buf, i: nat)
    requires Consistent(b) && i != 0
    ensures Split(b, i).NotFound? <==> i !in b.byIndex
    ensures Split(b, i).NotFound? ==> forall s :: s in b.lru ==> s in b.items && b.items[s].index != i
    ensures Split(b, i).Threw? <==>
            exists s :: s in b.lru && s in b.items && b.items[s].index == i && b.items[s].status == Locked
  {
    assert forall s :: s in b.lru <==> s in Elems(b.lru);
    if Split(b, i).Threw? {
      var s :| s in b.byIndex[i] && s in b.items && b.items[s].status == Locked;
      assert s in b.lru && b.items[s].index == i;
    }
  }

  /** Splitting moves exactly the inode's cached slots, unchanged, and leaves none of them, nor the
      inode itself, reachable in the source. */
  lemma SplitTakesInode(b: Buf, i: nat)
    requires Consistent(b) && i != 0 && Split(b, i).Done?
    ensures var Done(a, moved) := Split(b, i);
      && Consistent(a)
      && Bundle(i, moved)
      && moved.Keys == (set s | s in Elems(b.lru) && s in b.items && b.items[s].index == i)
      && (forall s :: s in moved ==> s in b.items && moved[s] == b.items[s])
      && a.items == b.items - moved.Keys
      && a.free == b.free
      && a.dirtyNum == b.dirtyNum - |DirtySlots(moved)|
      && i !in a.byIndex && i !in a.dirtyBy
      && (forall k :: k in a.cache ==> a.cache[k] !in moved && b.items[a.cache[k]].index != i)
  {
    var ss := b.byIndex[i];
    var Done(a, moved) := Split(b, i);
    assert ss <= Elems(b.lru);
    assert moved.Keys == ss;
    SplitPlaced(b, i);
    SplitDirty(b, i);
  }

  lemma SplitPlaced(b: Buf, i: nat)
    requires Placed(b) && Split(b, i).Done?
    ensures var a := Split(b, i).buf;
      && Placed(a)
      && Elems(a.lru) == Elems(b.lru) - b.byIndex[i]
      && (IndexComplete(b.items, Elems(b.lru), b.byIndex) ==> IndexComplete(a.items, Elems(a.lru), a.byIndex))
  {
    var ss := b.byIndex[i];
    var a := Split(b, i).buf;
    assert ss <= Elems(b.lru);
    WithoutErases(b.lru, ss);
    MappedDrop(b.items, Elems(b.lru), b.cache, ss);
    IndexDrop(b.items, Elems(b.lru), b.byIndex, i);
    SlotsDrop(b.items, Elems(b.lru), ss, a.cache, a.byIndex);
    assert a.items.Keys == b.items.Keys - ss;
  }

  lemma SlotsDrop(items: map<Slot, Item>, cached: set<Slot>, ss: set<Slot>, cache: map<nat, Slot>,
                  byIndex: map<nat, set<Slot>>)
    ensures Mapped(items, cached - ss, cache) ==> Mapped(items - ss, cached - ss, cache)
    ensures IndexSound(items, cached - ss, byIndex) ==> IndexSound(items - ss, cached - ss, byIndex)
    ensures IndexComplete(items, cached - ss, byIndex) ==> IndexComplete(items - ss, cached - ss, byIndex)
  {
  }

  lemma DirtyTake(items: map<Slot, Item>, cached: set<Slot>, dirtyBy: map<nat, set<Slot>>, ss: set<Slot>, i: nat)
    requires DirtyIndexed(items, cached, dirtyBy) && SetOf(dirtyBy, i) == DirtySlots(items) * ss
    requires forall s :: s in ss && s in items ==> items[s].index == i
    ensures DirtyIndexed(items - ss, cached - ss, dirtyBy - {i})
    ensures DirtySlots(items - ss) == DirtySlots(items) - ss
  {
  }

  lemma SplitDirty(b: Buf, i: nat)
    requires Consistent(b) && i != 0 && Split(b, i).Done?
    ensures DirtyExact(Split(b, i).buf)
    ensures |SetOf(b.dirtyBy, i)| == |DirtySlots(Split(b, i).moved)|
  {
    var ss := b.byIndex[i];
    DirtyOfIndex(b, i);
    WithoutErases(b.lru, ss);
    DirtyTake(b.items, Elems(b.lru), b.dirtyBy, ss, i);
    CountSplit(DirtySlots(b.items), ss);
    assert DirtySlots(Split(b, i).moved) == DirtySlots(b.items) * ss;
  }

  lemma ThrownUnlisted(b: Buf, i: nat, done: set<Slot>)
    requires Placed(b) && i in b.byIndex && done <= b.byIndex[i] && done != {}
    ensures !Structure(Thrown(b, i, done))
  {
    var s :| s in done;
    assert s in Elems(b.lru);
    WithoutErases(b.lru, done);
    assert s !in Elems(Thrown(b, i, done).lru) && s !in Elems(b.free);
  }

  lemma ThrownCount(b: Buf, i: nat)
    requires DirtyExact(b)
    ensures DirtyExact(Thrown(b, i, {})) <==> SetOf(b.dirtyBy, i) == {}
  {
    WithoutNothing(b.lru);
    var r := Thrown(b, i, {});
    if SetOf(b.dirtyBy, i) != {} {
      assert r.dirtyNum != b.dirtyNum && r.items == b.items;
    } else {
      assert DirtyIndexed(r.items, Elems(r.lru), r.dirtyBy);
    }
  }

  /** A throw leaves the six structures in agreement if and only if the first slot visited was the
      locked one and the inode had no dirty slot. */
  lemma ThrownConsistentIff(b: Buf, i: nat, done: set<Slot>)
    requires Consistent(b) && i in b.byIndex && done <= b.byIndex[i]
    ensures Consistent(Thrown(b, i, done)) <==> done == {} && SetOf(b.dirtyBy, i) == {}
  {
    if done != {} {
      ThrownUnlisted(b, i, done);
    } else {
      WithoutNothing(b.lru);
      assert DropKeys(b.cache, {}) == b.cache;
      ThrownCount(b, i);
    }
  }

  // ---------------------------------------------------------------- installing

  ghost predicate FreshBlocks(b: Buf, moved: map<Slot, Item>)
  {
    forall s :: s in moved ==> moved[s].blockNo !in b.cache
  }

  lemma InstallLists(b: Buf, moved: map<Slot, Item>, order: seq<Slot>)
    requires Lists(b.items.Keys, b.lru, b.free)
    requires Enumerates(order, moved.Keys) && moved.Keys !! b.items.Keys
    ensures Lists((b.items + moved).Keys, Rev(order) + b.lru, b.free)
    ensures Elems(Rev(order) + b.lru) == Elems(b.lru) + moved.Keys
  {
    RevEnumerates(order);
    NoDupAppend(Rev(order), b.lru);
  }

  lemma InstallMappedIff(b: Buf, i: nat, moved: map<Slot, Item>, order: seq<Slot>)
    requires Mapped(b.items, Elems(b.lru), b.cache) && Bundle(i, moved)
    requires Enumerates(order, moved.Keys) && moved.Keys !! b.items.Keys
    ensures forall s :: s in order ==> s in moved
    ensures Mapped(b.items + moved, Elems(b.lru) + moved.Keys, AddKeys(b.cache, moved, order)) <==>
            FreshBlocks(b, moved)
  {
    assert forall s :: s in order <==> s in Elems(order);
    AddKeysMaps(b.cache, moved, order);
    var c := AddKeys(b.cache, moved, order);
    var items := b.items + moved;
    if !FreshBlocks(b, moved) {
      var s :| s in moved && moved[s].blockNo in b.cache;
      var t := b.cache[moved[s].blockNo];
      assert t in Elems(b.lru) && t != s && items[t].blockNo == items[s].blockNo;
    }
  }

  lemma InstallIndexed(items: map<Slot, Item>, cached: set<Slot>, byIndex: map<nat, set<Slot>>, i: nat,
                       moved: map<Slot, Item>)
    requires IndexSound(items, cached, byIndex)
    requires Bundle(i, moved) && i != 0 && moved.Keys !! items.Keys && cached <= items.Keys
    ensures var m := byIndex[i := SetOf(byIndex, i) + moved.Keys];
      && IndexSound(items + moved, cached + moved.Keys, m)
      && (IndexComplete(items, cached, byIndex) ==> IndexComplete(items + moved, cached + moved.Keys, m))
  {
  }

  /** The lists, the map and the soundness of the index survive an install of blocks that are not
      cached in the target. */
  lemma InstallPlaced(b: Buf, i: nat, moved: map<Slot, Item>, order: seq<Slot>)
    requires Placed(b) && Bundle(i, moved) && i != 0 && moved.Keys !! b.items.Keys
    requires Enumerates(order, moved.Keys) && FreshBlocks(b, moved)
    ensures forall s :: s in order ==> s in moved
    ensures Placed(Install(b, i, moved, order))
  {
    InstallLists(b, moved, order);
    InstallMappedIff(b, i, moved, order);
    InstallIndexed(b.items, Elems(b.lru), b.byIndex, i, moved);
  }

  function JoinDirty(dirtyBy: map<nat, set<Slot>>, i: nat, d: set<Slot>): (r: map<nat, set<Slot>>)
  {
    if d == {} || i in dirtyBy then dirtyBy else dirtyBy[i := d]
  }

  lemma DirtyJoin(items: map<Slot, Item>, cached: set<Slot>, dirtyBy: map<nat, set<Slot>>, i: nat,
                  moved: map<Slot, Item>)
    requires DirtyIndexed(items, cached, dirtyBy) && Bundle(i, moved) && moved.Keys !! items.Keys
    ensures DirtyIndexed(items + moved, cached + moved.Keys, JoinDirty(dirtyBy, i, DirtySlots(moved)))
      <==> (DirtySlots(moved) == {} || i !in dirtyBy)
    ensures DirtySlots(items + moved) == DirtySlots(items) + DirtySlots(moved)
  {
    var d := DirtySlots(moved);
    if d != {} && i in dirtyBy {
      var s :| s in d;
      assert s in moved && (items + moved)[s].dirty && (items + moved)[s].index == i && s !in dirtyBy[i];
    } else {
      forall s | s in moved && moved[s].dirty ensures s in d && i !in dirtyBy {
        assert s in d;
      }
    }
  }

  lemma InstallDirtyIff(b: Buf, i: nat, moved: map<Slot, Item>, order: seq<Slot>)
    requires DirtyExact(b) && Bundle(i, moved) && moved.Keys !! b.items.Keys
    requires Elems(Rev(order) + b.lru) == Elems(b.lru) + moved.Keys
    requires forall s :: s in order ==> s in moved
    ensures DirtyExact(Install(b, i, moved, order)) <==> (DirtySlots(moved) == {} || i !in b.dirtyBy)
  {
    DirtyJoin(b.items, Elems(b.lru), b.dirtyBy, i, moved);
    var r := Install(b, i, moved, order);
    assert |DirtySlots(r.items)| == |DirtySlots(b.items)| + |DirtySlots(moved)|;
  }

  /** Installing a bundle keeps all structures in agreement exactly when none of its blocks is
      cached in the target already, and either nothing in it is dirty or the target has no entry,
      not even an empty one, in its dirty index for the inode. */
  lemma InstallConsistentIff(b: Buf, i: nat, moved: map<Slot, Item>, order: seq<Slot>)
    requires Consistent(b) && Bundle(i, moved) && i != 0 && moved.Keys !! b.items.Keys
    requires Enumerates(order, moved.Keys)
    ensures forall s :: s in order ==> s in moved
    ensures Consistent(Install(b, i, moved, order)) <==>
      FreshBlocks(b, moved) && (DirtySlots(moved) == {} || i !in b.dirtyBy)
  {
    InstallLists(b, moved, order);
    InstallMappedIff(b, i, moved, order);
    InstallIndexed(b.items, Elems(b.lru), b.byIndex, i, moved);
    InstallDirtyIff(b, i, moved, order);
  }

  lemma InstallFinds(b: Buf, i: nat, moved: map<Slot, Item>, order: seq<Slot>)
    requires Lists(b.items.Keys, b.lru, b.free) && moved.Keys !! b.items.Keys
    requires Enumerates(order, moved.Keys) && forall s :: s in order ==> s in moved
    requires Structure(Install(b, i, moved, order))
    ensures var r := Install(b, i, moved, order);
      && (forall s :: s in moved ==>
            s in r.items && r.items[s] == moved[s]
            && moved[s].blockNo in r.cache && r.cache[moved[s].blockNo] == s)
      && (forall s :: s in b.items ==> s in r.items && r.items[s] == b.items[s])
      && |r.items| == |b.items| + |moved|
      && r.dirtyNum == b.dirtyNum + |DirtySlots(moved)|
  {
    InstallLists(b, moved, order);
    var r := Install(b, i, moved, order);
    assert forall s :: s in moved ==> s in Elems(r.lru);
    assert r.items.Keys == b.items.Keys + moved.Keys;
    assert |r.items.Keys| == |b.items.Keys| + |moved.Keys|;
  }

  /** Installed slots come to the front of the list, the last one visited first; behind them the list is as
      it was. The free list and the flush flags stay. */
  lemma InstallFront(b: Buf, i: nat, moved: map<Slot, Item>, order: seq<Slot>)
    requires forall s :: s in order ==> s in moved
    ensures var r := Install(b, i, moved, order);
      && |r.lru| == |order| + |b.lru| && r.lru[|order|..] == b.lru
      && (forall k :: 0 <= k < |order| ==> r.lru[k] == order[|order| - 1 - k])
      && SetOf(r.byIndex, i) == SetOf(b.byIndex, i) + moved.Keys
      && (forall k :: k != i ==> SetOf(r.byIndex, k) == SetOf(b.byIndex, k))
      && r.free == b.free && r.bgSent == b.bgSent && r.fgNum == b.fgNum
  {
    if order != [] {
      RevAt(order, 0);
    }
    assert |Rev(order)| == |order|;
    forall k | 0 <= k < |order| ensures Rev(order)[k] == order[|order| - 1 - k] {
      RevAt(order, k);
    }
  }

  lemma Partition(items: map<Slot, Item>, ss: set<Slot>)
    requires ss <= items.Keys
    ensures |items| == |items - ss| + |ss|
  {
    assert items.Keys == (items - ss).Keys + ss;
    assert |items.Keys| == |(items - ss).Keys| + |ss|;
  }

  /** What the hand-over of inode `i` from buffer `a` to buffer `c` needs. */
  ghost predicate CanHandOver(a: Buf, c: Buf, i: nat, order: seq<Slot>)
  {
    && i != 0 && a.items.Keys !! c.items.Keys
    && Split(a, i).Done? && Enumerates(order, Split(a, i).moved.Keys)
    && FreshBlocks(c, Split(a, i).moved)
    && (DirtySlots(Split(a, i).moved) == {} || i !in c.dirtyBy)
  }

  /** Both buffers stay consistent when an inode's slots move from one to the other. */
  lemma HandOverConsistent(a: Buf, c: Buf, i: nat, order: seq<Slot>)
    requires Consistent(a) && Consistent(c) && CanHandOver(a, c, i, order)
    ensures forall s :: s in order ==> s in Split(a, i).moved
    ensures Consistent(Split(a, i).buf)
    ensures Consistent(Install(c, i, Split(a, i).moved, order))
  {
    SplitTakesInode(a, i);
    InstallConsistentIff(c, i, Split(a, i).moved, order);
  }

  /** Each moved slot is in the target with its fields and data unchanged, and is found by its
      block number. */
  ghost predicate Arrived(a: Buf, moved: map<Slot, Item>, c: Buf)
  {
    forall s :: s in moved ==>
      && s in a.items && s in c.items && c.items[s] == a.items[s]
      && a.items[s].blockNo in c.cache && c.cache[a.items[s].blockNo] == s
  }

  /** The hand-over moves exactly the inode's cached slots, conserves the slots and the dirty slots
      of the pair, and leaves nothing of the inode reachable in the source. */
  lemma HandOver(a: Buf, c: Buf, i: nat, order: seq<Slot>)
    requires Consistent(a) && Consistent(c) && CanHandOver(a, c, i, order)
    ensures forall s :: s in order ==> s in Split(a, i).moved
    ensures var Done(a', moved) := Split(a, i); var c' := Install(c, i, moved, order);
      && moved.Keys == (set s | s in Elems(a.lru) && s in a.items && a.items[s].index == i)
      && Arrived(a, moved, c')
      && a'.items == a.items - moved.Keys
      && a'.dirtyNum + c'.dirtyNum == a.dirtyNum + c.dirtyNum
      && |a'.items| + |c'.items| == |a.items| + |c.items|
      && i !in a'.byIndex && i !in a'.dirtyBy
      && (forall k :: k in a'.cache ==> a'.cache[k] !in moved)
  {
    HandOverConsistent(a, c, i, order);
    SplitTakesInode(a, i);
    var Done(a', moved) := Split(a, i);
    InstallFinds(c, i, moved, order);
    Partition(a.items, moved.Keys);
  }
}
