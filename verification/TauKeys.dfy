/** An application thread packed into one number (`AssembleTwo32B` and `DessembleOne64B` in
    cfs/include/util.h). */
module TauKeys {

  import opened Routing

  /** A 64-bit word whose low half holds a 32-bit number in two's complement. */
  type Id = bv64
  type Key = bv64

  predicate Small(x: Id)
  {
    x < 0x1_0000_0000
  }

  const MINUS_ONE: Id := 0xFFFF_FFFF

  predicate Negative(x: Id)
  {
    x >= 0x8000_0000
  }

  function SignExtend(x: Id): (r: bv64)
  {
    if Negative(x) then x | 0xFFFF_FFFF_0000_0000 else x
  }

  function Join(high: bv64, low: bv64): (k: Key)
  {
    (high << 32) | low
  }

  function Assemble(pid: Id, tid: Id): (k: Key)
  {
    Join(SignExtend(pid), SignExtend(tid))
  }

  function PidOf(k: Key): (pid: Id)
  {
    (k & 0xFFFF_FFFF_0000_0000) >> 32
  }

  function TidOf(k: Key): (tid: Id)
  {
    k & 0x0000_0000_FFFF_FFFF
  }

  lemma LowHalfPlain(y: bv64)
    requires y < 0x1_0000_0000
    ensures y & 0x0000_0000_FFFF_FFFF == y
  {
  }

  lemma LowHalfExtended(y: bv64)
    requires y < 0x1_0000_0000
    ensures (y | 0xFFFF_FFFF_0000_0000) & 0x0000_0000_FFFF_FFFF == y
  {
  }

  lemma TidOfExtended(y: Id)
    requires Small(y)
    ensures TidOf(SignExtend(y)) == y
  {
    LowHalfPlain(y);
    LowHalfExtended(y);
    assert SignExtend(y) == y || SignExtend(y) == y | 0xFFFF_FFFF_0000_0000;
  }

  lemma TidOfJoin(x: bv64, y: bv64)
    ensures TidOf(Join(x, y)) == TidOf(y)
  {
  }

  lemma PidOfJoin(x: bv64, y: bv64)
    requires Small(y)
    ensures PidOf(Join(x, y)) == TidOf(x)
  {
  }

  lemma HighHalfLost(x: bv64, y: bv64)
    ensures ((x | (y | 0xFFFF_FFFF_0000_0000)) & 0xFFFF_FFFF_0000_0000) >> 32 == 0xFFFF_FFFF
  {
  }

  lemma PidLost(pid: Id, tid: Id)
    requires Negative(tid)
    ensures PidOf(Assemble(pid, tid)) == MINUS_ONE
  {
    HighHalfLost(SignExtend(pid) << 32, tid);
  }

  /** A pair is unpacked as it was packed exactly if the tid is not negative or the pid is -1: the
      sign of a negative tid spreads over the pid. */
  lemma PackingIff(pid: Id, tid: Id)
    requires Small(pid) && Small(tid)
    ensures TidOf(Assemble(pid, tid)) == tid
    ensures PidOf(Assemble(pid, tid)) == pid <==> !Negative(tid) || pid == MINUS_ONE
  {
    TidOfJoin(SignExtend(pid), SignExtend(tid));
    TidOfExtended(tid);
    if Negative(tid) {
      PidLost(pid, tid);
    } else {
      PidOfJoin(SignExtend(pid), tid);
      TidOfExtended(pid);
    }
  }

  /** The packing of threads with a non-negative tid. */
  function Packing(): (c: Codec<Id, Key>)
  {
    Codec((p, t) => Assemble(p, t), k => PidOf(k), k => TidOf(k), (p, t) => Small(p) && Small(t) && !Negative(t))
  }

  lemma PackingRoundTrips()
    ensures RoundTrips(Packing())
  {
    var c := Packing();
    forall p, t | c.ok(p, t) ensures c.pid(c.enc(p, t)) == p && c.tid(c.enc(p, t)) == t {
      PackingIff(p, t);
    }
  }
}
