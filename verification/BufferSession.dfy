/**
 A program using pooled buffers, against one whose buffers are plain byte strings.

 Whatever the sequence of operations, and however slices are reused, the two cannot
 be told apart: pooling is unobservable.
 */
module BufferSessions {
  import opened Bytes
  import opened Wrappers
  import opened BufferPooling

  /** Operations name a buffer by the order of its creation; `miss` and `extra` are the runtime's choices. */
  datatype Op =
    | New(size: int, miss: bool)
    | Append(h: nat, data: Bytes, extra: nat)
    | Reset(h: nat)
    | Release(h: nat)
    | ToBytes(h: nat)

  /** The plain program: the contents of each buffer not given up, and the byte slices returned so far. */
  datatype Model = Model(bufs: seq<Option<Bytes>>, outs: seq<Bytes>)

  predicate Usable(m: Model, h: nat) {
    h < |m.bufs| && m.bufs[h].Some?
  }

  /** A buffer is not used after it is given up. */
  predicate Legal(m: Model, op: Op) {
    op.New? || Usable(m, op.h)
  }

  function Next(m: Model, op: Op): Model
    requires Legal(m, op)
  {
    match op
    case New(_, _) => m.(bufs := m.bufs + [Some([])])
    case Append(h, data, _) => m.(bufs := m.bufs[h := Some(m.bufs[h].value + data)])
    case Reset(h) => m.(bufs := m.bufs[h := Some([])])
    case Release(h) => m.(bufs := m.bufs[h := None])
    case ToBytes(h) => Model(m.bufs[h := None], m.outs + [m.bufs[h].value])
  }

  predicate AllLegal(m: Model, ops: seq<Op>)
    decreases |ops|
  {
    ops == [] || (Legal(m, ops[0]) && AllLegal(Next(m, ops[0]), ops[1..]))
  }

  function Final(m: Model, ops: seq<Op>): Model
    requires AllLegal(m, ops)
    decreases |ops|
  {
    if ops == [] then m else Final(Next(m, ops[0]), ops[1..])
  }

  /** The buffers of the model are live, different, and hold what the model says. */
  ghost predicate BufsOk(pool: BufferPool, hs: seq<PooledBuffer>, bufs: seq<Option<Bytes>>)
    reads pool, pool.live, pool.free, pool.owner.Keys, pool.owner.Values, pool.home.Keys
  {
    && pool.Valid()
    && |hs| == |bufs|
    && (forall i :: 0 <= i < |bufs| && bufs[i].Some? ==> hs[i] in pool.live && hs[i].Contents() == bufs[i].value)
    && (forall i, j :: 0 <= i < j < |bufs| && bufs[i].Some? && bufs[j].Some? ==> hs[i] != hs[j])
  }

  /** The returned slices are outside the pool's memory and hold what the model says. */
  ghost predicate OutsOk(pool: BufferPool, outs: seq<array<byte>>, os: seq<Bytes>)
    reads pool, outs
  {
    && |outs| == |os|
    && forall k :: 0 <= k < |os| ==> outs[k] !in pool.home && outs[k][..] == os[k]
  }

  /** Everything the pool may touch. */
  ghost function Footprint(pool: BufferPool): set<object>
    reads pool
  {
    {pool} + pool.live + pool.free + pool.owner.Keys + pool.home.Keys
  }

  lemma AddHandle(pool: BufferPool, hs: seq<PooledBuffer>, p: PooledBuffer, bufs: seq<Option<Bytes>>)
    requires BufsOk(pool, hs, bufs) && p in pool.live && p.Contents() == [] && p !in hs
    ensures BufsOk(pool, hs + [p], bufs + [Some([])])
  {
    forall i | 0 <= i < |hs|
      ensures (hs + [p])[i] == hs[i] && hs[i] != p
    {
      assert hs[i] in hs;
    }
  }

  lemma AddOut(pool: BufferPool, outs: seq<array<byte>>, out: array<byte>, os: seq<Bytes>)
    requires OutsOk(pool, outs, os) && out !in pool.home
    ensures OutsOk(pool, outs + [out], os + [out[..]])
  {
  }

  method Make(pool: BufferPool, size: int, miss: bool,
              ghost hs: seq<PooledBuffer>, ghost outs: seq<array<byte>>, ghost m: Model)
    returns (p: PooledBuffer)
    requires BufsOk(pool, hs, m.bufs) && OutsOk(pool, outs, m.outs)
    modifies pool
    ensures BufsOk(pool, hs, m.bufs) && OutsOk(pool, outs, m.outs)
    ensures fresh(p) && p in pool.live && p.Contents() == []
    ensures fresh(Footprint(pool) - old(Footprint(pool)))
  {
    p := pool.NewPooledBuffer(size, miss);
  }

  method DoNew(pool: BufferPool, size: int, miss: bool,
               hs: seq<PooledBuffer>, ghost outs: seq<array<byte>>, ghost m: Model)
    returns (hs': seq<PooledBuffer>)
    requires BufsOk(pool, hs, m.bufs) && OutsOk(pool, outs, m.outs)
    modifies pool
    ensures var m' := Next(m, New(size, miss)); BufsOk(pool, hs', m'.bufs) && OutsOk(pool, outs, m'.outs)
    ensures fresh(Footprint(pool) - old(Footprint(pool)))
  {
    var p := Make(pool, size, miss, hs, outs, m);
    AddHandle(pool, hs, p, m.bufs);
    hs' := hs + [p];
  }

  method DoAppend(pool: BufferPool, h: nat, data: Bytes, extra: nat,
                  hs: seq<PooledBuffer>, ghost outs: seq<array<byte>>, ghost m: Model)
    requires BufsOk(pool, hs, m.bufs) && OutsOk(pool, outs, m.outs) && Usable(m, h)
    modifies pool, hs[h].buf, hs[h].buf.arr
    ensures var m' := Next(m, Append(h, data, extra)); BufsOk(pool, hs, m'.bufs) && OutsOk(pool, outs, m'.outs)
    ensures fresh(Footprint(pool) - old(Footprint(pool)))
  {
    pool.Append(hs[h], data, extra);
  }

  method DoReset(pool: BufferPool, h: nat, hs: seq<PooledBuffer>, ghost outs: seq<array<byte>>, ghost m: Model)
    requires BufsOk(pool, hs, m.bufs) && OutsOk(pool, outs, m.outs) && Usable(m, h)
    modifies hs[h].buf
    ensures var m' := Next(m, Reset(h)); BufsOk(pool, hs, m'.bufs) && OutsOk(pool, outs, m'.outs)
  {
    pool.Reset(hs[h]);
  }

  method DoRelease(pool: BufferPool, h: nat, hs: seq<PooledBuffer>, ghost outs: seq<array<byte>>, ghost m: Model)
    requires BufsOk(pool, hs, m.bufs) && OutsOk(pool, outs, m.outs) && Usable(m, h)
    modifies pool, hs[h], hs[h].buf
    ensures var m' := Next(m, Release(h)); BufsOk(pool, hs, m'.bufs) && OutsOk(pool, outs, m'.outs)
    ensures fresh(Footprint(pool) - old(Footprint(pool)))
  {
    pool.Release(hs[h]);
  }

  method Take(pool: BufferPool, h: nat, hs: seq<PooledBuffer>, ghost outs: seq<array<byte>>, ghost m: Model)
    returns (out: array<byte>)
    requires BufsOk(pool, hs, m.bufs) && OutsOk(pool, outs, m.outs) && Usable(m, h)
    modifies pool, hs[h], hs[h].buf
    ensures BufsOk(pool, hs, m.bufs[h := None]) && OutsOk(pool, outs, m.outs)
    ensures fresh(out) && out !in pool.home && out[..] == m.bufs[h].value
    ensures fresh(Footprint(pool) - old(Footprint(pool)))
  {
    out := pool.ToBytes(hs[h]);
  }

  method DoToBytes(pool: BufferPool, h: nat, hs: seq<PooledBuffer>, outs: seq<array<byte>>, ghost m: Model)
    returns (outs': seq<array<byte>>)
    requires BufsOk(pool, hs, m.bufs) && OutsOk(pool, outs, m.outs) && Usable(m, h)
    modifies pool, hs[h], hs[h].buf
    ensures var m' := Next(m, ToBytes(h)); BufsOk(pool, hs, m'.bufs) && OutsOk(pool, outs', m'.outs)
    ensures fresh(Footprint(pool) - old(Footprint(pool)))
  {
    assert Next(m, ToBytes(h)) == Model(m.bufs[h := None], m.outs + [m.bufs[h].value]);
    var out := Take(pool, h, hs, outs, m);
    AddOut(pool, outs, out, m.outs);
    outs' := outs + [out];
  }

  /** Any operation keeps the two programs in agreement. */
  method Do(pool: BufferPool, op: Op, hs: seq<PooledBuffer>, outs: seq<array<byte>>, ghost m: Model)
    returns (hs': seq<PooledBuffer>, outs': seq<array<byte>>)
    requires BufsOk(pool, hs, m.bufs) && OutsOk(pool, outs, m.outs) && Legal(m, op)
    modifies Footprint(pool)
    ensures BufsOk(pool, hs', Next(m, op).bufs) && OutsOk(pool, outs', Next(m, op).outs)
    ensures fresh(Footprint(pool) - old(Footprint(pool)))
  {
    hs', outs' := hs, outs;
    match op
    case New(size, miss) => hs' := DoNew(pool, size, miss, hs, outs, m);
    case Append(h, data, extra) => DoAppend(pool, h, data, extra, hs, outs, m);
    case Reset(h) => DoReset(pool, h, hs, outs, m);
    case Release(h) => DoRelease(pool, h, hs, outs, m);
    case ToBytes(h) => outs' := DoToBytes(pool, h, hs, outs, m);
  }

  /**
   Pooling is unobservable: after any legal operations every returned slice and every
   buffer still in use is as in the plain program.
   */
  method Serve(pool: BufferPool, ops: seq<Op>, hs: seq<PooledBuffer>, outs: seq<array<byte>>, ghost m: Model)
    returns (hs': seq<PooledBuffer>, outs': seq<array<byte>>)
    requires BufsOk(pool, hs, m.bufs) && OutsOk(pool, outs, m.outs) && AllLegal(m, ops)
    modifies Footprint(pool)
    ensures BufsOk(pool, hs', Final(m, ops).bufs) && OutsOk(pool, outs', Final(m, ops).outs)
    decreases |ops|
  {
    if ops == [] {
      return hs, outs;
    }
    hs', outs' := Do(pool, ops[0], hs, outs, m);
    hs', outs' := Serve(pool, ops[1..], hs', outs', Next(m, ops[0]));
  }

  /** The same from an empty pool. */
  method ServeAll(ops: seq<Op>) returns (pool: BufferPool, hs: seq<PooledBuffer>, outs: seq<array<byte>>)
    requires AllLegal(Model([], []), ops)
    ensures BufsOk(pool, hs, Final(Model([], []), ops).bufs)
    ensures OutsOk(pool, outs, Final(Model([], []), ops).outs)
  {
    pool := new BufferPool();
    hs, outs := Serve(pool, ops, [], [], Model([], []));
  }
}
