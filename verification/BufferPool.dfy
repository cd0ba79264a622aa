/**
 The pooled byte buffers of internal/converter/bufferpool.go, with their aliasing.

 A `Slice` is the object that a `*[]byte` points to.  The ghosts of `BufferPool` record
 who owns which slice and which slice owns which memory.
 */
module BufferPooling {

  import opened Bytes

  const SMALL := 64 * 1024
  const MEDIUM := 512 * 1024
  const LARGE := 5 * 1024 * 1024
  const XLARGE := 10 * 1024 * 1024

  const CLASSES: set<nat> := {SMALL, MEDIUM, LARGE, XLARGE}

  /** The capacity that a request for `size` bytes gets. */
  function ClassOf(size: int): (c: nat)
    ensures c in CLASSES
    ensures c >= size <==> size <= 10 * 1024 * 1024
    ensures size > 10 * 1024 * 1024 ==> c == 10 * 1024 * 1024
  {
    if size <= SMALL then SMALL else if size <= MEDIUM then MEDIUM else if size <= LARGE then LARGE else XLARGE
  }

  /** The classes are 64 KB, 512 KB, 5 MB and 10 MB, and none that is large enough is smaller than the one chosen. */
  lemma ClassIsLeast(size: int, d: nat)
    requires d in {64 * 1024, 512 * 1024, 5 * 1024 * 1024, 10 * 1024 * 1024}
    ensures d in CLASSES && (size <= d ==> ClassOf(size) <= d)
    ensures ClassOf(size) in {64 * 1024, 512 * 1024, 5 * 1024 * 1024, 10 * 1024 * 1024}
  {
  }

  class Slice {
    var arr: array<byte>
    var len: nat

    constructor (capacity: nat)
      ensures len == 0 && arr.Length == capacity && fresh(arr)
    {
      arr := new byte[capacity];
      len := 0;
    }
  }

  class PooledBuffer {
    var buf: Slice?

    constructor (buf: Slice)
      ensures this.buf == buf
    {
      this.buf := buf;
    }

    /** What the buffer holds. */
    ghost function Contents(): seq<byte>
      reads this, buf, if buf == null then {} else {buf.arr}
    {
      if buf == null || buf.len > buf.arr.Length then [] else buf.arr[..buf.len]
    }
  }

  class BufferPool {
    /** The four pools, by the capacity of their slices. */
    var pools: map<nat, set<Slice>>
    /** The pooled slices. */
    ghost var free: set<Slice>
    /** The buffers in use, and the one that each slice in use belongs to. */
    ghost var live: set<PooledBuffer>
    ghost var owner: map<Slice, PooledBuffer>
    /** The slice that each piece of memory belongs to. */
    ghost var home: map<array<byte>, Slice>

    /** A pooled slice is empty, has exactly the capacity of its pool, and is in no other. */
    ghost predicate PoolsOk()
      reads this, free
    {
      && pools.Keys == CLASSES
      && (forall s :: s in free ==> s.len == 0 && s.arr.Length in CLASSES && s in pools[s.arr.Length])
      && (forall c, s :: c in CLASSES && s in pools[c] ==> s in free && s.arr.Length == c)
    }

    /** A slice in use belongs to one buffer, and is not pooled. */
    ghost predicate OwnersOk()
      reads this, live, owner.Values
    {
      && free !! owner.Keys
      && (forall p :: p in live ==> p.buf != null && p.buf in owner && owner[p.buf] == p)
      && (forall s :: s in owner ==> owner[s] in live && owner[s].buf == s)
    }

    /** No two slices share memory. */
    ghost predicate MemoryOk()
      reads this, free, owner.Keys
    {
      forall s :: s in free + owner.Keys ==> s.arr in home && home[s.arr] == s && s.len <= s.arr.Length
    }

    ghost predicate Valid()
      reads this, live, free, owner.Keys, owner.Values
    {
      PoolsOk() && OwnersOk() && MemoryOk()
    }

    constructor ()
      ensures Valid() && live == {} && free == {} && home == map[]
    {
      pools := map[SMALL := {}, MEDIUM := {}, LARGE := {}, XLARGE := {}];
      free, live, owner, home := {}, {}, map[], map[];
    }

    /** Two buffers in use share neither slice nor memory. */
    lemma Separate(p: PooledBuffer, q: PooledBuffer)
      requires Valid() && p in live && q in live && p != q
      ensures p.buf != q.buf && p.buf.arr != q.buf.arr
    {
    }

    /** A slice that is the caller's alone. */
    ghost predicate Loose(b: Slice)
      reads this, b
    {
      b !in free && b !in owner && (b.arr in home ==> home[b.arr] == b) && b.len <= b.arr.Length
    }

    /** `sync.Pool.Get`, from a pool that has something. */
    method TakePooled(c: nat) returns (b: Slice)
      requires Valid() && c in CLASSES && pools[c] != {}
      modifies this`pools, this`free
      ensures Valid() && Loose(b) && b in old(free) && free == old(free) - {b}
      ensures b.arr in home && b.len == 0 && b.arr.Length == c
    {
      b :| b in pools[c];
      pools := pools[c := pools[c] - {b}];
      free := free - {b};
    }

    /** The `New` function of a pool. */
    method MakeNew(c: nat) returns (b: Slice)
      requires Valid()
      modifies this`home
      ensures Valid() && fresh(b) && fresh(b.arr) && Loose(b) && home == old(home)[b.arr := b]
      ensures b.len == 0 && b.arr.Length == c
    {
      b := new Slice(c);
      home := home[b.arr := b];
    }

    /**
     The slice leaves the pool of the smallest sufficient class.  The runtime may also have
     let go of the pooled slices: then, as when there are none, a new one is made.
     */
    method GetBuffer(size: int, miss: bool) returns (b: Slice)
      requires Valid()
      modifies this`pools, this`free, this`home
      ensures Valid() && Loose(b) && home == old(home)[b.arr := b]
      ensures free == old(free) - {b} && (b in old(free) || (fresh(b) && fresh(b.arr)))
      ensures b in old(free) <==> !miss && exists s :: s in old(free) && old(s.arr.Length) == ClassOf(size)
      ensures b.len == 0 && b.arr.Length == ClassOf(size)
    {
      var c := if size <= 64 * 1024 then SMALL
               else if size <= 512 * 1024 then MEDIUM
               else if size <= 5 * 1024 * 1024 then LARGE
               else XLARGE;
      if pools[c] != {} && !miss {
        b := TakePooled(c);
      } else {
        b := MakeNew(c);
      }
    }

    /** Takes note of a slice that may not have come from here. */
    ghost method Register(b: Slice)
      requires Valid() && Loose(b)
      modifies this`home
      ensures Valid() && Loose(b) && home == old(home)[b.arr := b]
    {
      home := home[b.arr := b];
    }

    /** `sync.Pool.Put` on the pool of the slice's capacity. */
    method Put(b: Slice)
      requires Valid() && Loose(b) && b.arr in home && b.len == 0 && b.arr.Length in CLASSES
      modifies this`pools, this`free
      ensures Valid() && free == old(free) + {b}
    {
      var c := b.arr.Length;
      pools := pools[c := pools[c] + {b}];
      free := free + {b};
    }

    /** A slice of the caller's is emptied and goes to the pool of exactly its capacity; there may be none. */
    method PutBuffer(b: Slice)
      requires Valid() && Loose(b)
      modifies this`pools, this`free, this`home, b`len
      ensures Valid() && b.len == 0
      ensures free == old(free) + if b.arr.Length in CLASSES then {b} else {}
      ensures home == if b.arr.Length in CLASSES then old(home)[b.arr := b] else old(home)
      ensures forall q :: q in live ==> q.Contents() == old(q.Contents())
    {
      b.len := 0;
      var capacity := b.arr.Length;
      var known := capacity == 64 * 1024 || capacity == 512 * 1024
                || capacity == 5 * 1024 * 1024 || capacity == 10 * 1024 * 1024;
      if known {
        Register(b);
        Put(b);
      }
    }

    /** Records that the loose slice of a new buffer belongs to it. */
    ghost method Adopt(p: PooledBuffer)
      requires Valid() && p !in live && p.buf != null && Loose(p.buf) && p.buf.arr in home
      modifies this`live, this`owner
      ensures Valid() && live == old(live) + {p} && owner == old(owner)[p.buf := p]
    {
      live := live + {p};
      owner := owner[p.buf := p];
    }

    method NewPooledBuffer(size: int, miss: bool) returns (p: PooledBuffer)
      requires Valid()
      modifies this
      ensures Valid() && fresh(p) && live == old(live) + {p} && p.Contents() == []
      ensures p.buf.arr.Length == ClassOf(size)
      ensures owner == old(owner)[p.buf := p] && p.buf !in old(owner) && free == old(free) - {p.buf}
      ensures p.buf in old(free) || (fresh(p.buf) && fresh(p.buf.arr))
      ensures p.buf in old(free) <==> !miss && exists s :: s in old(free) && old(s.arr.Length) == ClassOf(size)
      ensures home == old(home)[p.buf.arr := p.buf]
      ensures forall q :: q in live && q != p ==> q.Contents() == old(q.Contents())
    {
      var b := GetBuffer(size, miss);
      p := new PooledBuffer(b);
      Adopt(p);
    }

    /** New memory that starts with the contents of a buffer. */
    method CopyOut(p: PooledBuffer, capacity: nat) returns (copy: array<byte>)
      requires Valid() && p in live && p.buf.len <= capacity
      ensures fresh(copy) && copy.Length == capacity && copy[..p.buf.len] == p.Contents() && copy !in home
    {
      copy := new byte[capacity];
      forall i | 0 <= i < p.buf.len {
        copy[i] := p.buf.arr[i];
      }
    }

    /** Moves the contents to new memory of the given capacity. */
    method Grow(p: PooledBuffer, capacity: nat)
      requires Valid() && p in live && p.buf.len <= capacity
      modifies this`home, p.buf`arr
      ensures Valid() && p.buf == old(p.buf) && p.Contents() == old(p.Contents())
      ensures fresh(p.buf.arr) && p.buf.arr.Length == capacity && p.buf.len == old(p.buf.len)
      ensures home == old(home)[p.buf.arr := p.buf]
      ensures forall q :: q in live && q != p ==> q.Contents() == old(q.Contents())
    {
      forall q | q in live && q != p
        ensures q.buf != p.buf
      {
        Separate(p, q);
      }
      var grown := CopyOut(p, capacity);
      home := home[grown := p.buf];
      p.buf.arr := grown;
    }

    static method CopyInto(arr: array<byte>, from: nat, data: seq<byte>)
      requires from + |data| <= arr.Length
      modifies arr
      ensures arr[..from + |data|] == old(arr[..from]) + data
    {
      forall i | 0 <= i < |data| {
        arr[from + i] := data[i];
      }
    }

    /** Writes behind the contents, in place. */
    method Write(p: PooledBuffer, data: seq<byte>)
      requires Valid() && p in live && p.buf.len + |data| <= p.buf.arr.Length
      modifies p.buf`len, p.buf.arr
      ensures Valid() && p.buf == old(p.buf) && p.buf.arr == old(p.buf.arr)
      ensures p.Contents() == old(p.Contents()) + data
      ensures forall q :: q in live && q != p ==> q.Contents() == old(q.Contents())
    {
      forall q | q in live && q != p
        ensures q.buf != p.buf && q.buf.arr != p.buf.arr
      {
        Separate(p, q);
      }
      CopyInto(p.buf.arr, p.buf.len, data);
      p.buf.len := p.buf.len + |data|;
    }

    /** Go's append: in place if it fits, else into new memory of at least the size needed. */
    method Append(p: PooledBuffer, data: seq<byte>, extra: nat)
      requires Valid() && p in live
      modifies this`home, p.buf, p.buf.arr
      ensures Valid() && p.buf == old(p.buf) && (p.buf.arr == old(p.buf.arr) || fresh(p.buf.arr))
      ensures p.Contents() == old(p.Contents()) + data
      ensures p.buf.arr == old(p.buf.arr) <==> old(p.buf.len) + |data| <= old(p.buf.arr.Length)
      ensures home == old(home)[p.buf.arr := p.buf]
      ensures forall q :: q in live && q != p ==> q.Contents() == old(q.Contents())
    {
      var n := p.buf.len + |data|;
      if n > p.buf.arr.Length {
        Grow(p, n + extra);
      }
      Write(p, data);
    }

    method Reset(p: PooledBuffer)
      requires Valid() && p in live
      modifies p.buf`len
      ensures Valid() && p.buf == old(p.buf) && p.buf.arr == old(p.buf.arr) && p.Contents() == []
      ensures forall q :: q in live && q != p ==> q.Contents() == old(q.Contents())
    {
      forall q | q in live && q != p
        ensures q.buf != p.buf && q.buf.arr != p.buf.arr
      {
        Separate(p, q);
      }
      p.buf.len := 0;
    }

    /** Records that a buffer no longer has its slice. */
    method Disown(p: PooledBuffer) returns (b: Slice)
      requires Valid() && p in live
      modifies this`live, this`owner, p
      ensures Valid() && live == old(live) - {p} && p.buf == null && b == old(p.buf)
      ensures owner == old(owner) - {b} && Loose(b) && b.arr in home
      ensures forall q :: q in live ==> q.buf != b && q.buf == old(q.buf)
      ensures forall q :: q in live ==> q.Contents() == old(q.Contents())
    {
      b := p.buf;
      live := live - {p};
      owner := owner - {b};
      p.buf := null;
    }

    /** The buffer is given up; its slice may be pooled. */
    method Release(p: PooledBuffer)
      requires Valid() && p in live
      modifies this, p, p.buf`len
      ensures Valid() && live == old(live) - {p} && p.buf == null && home == old(home)
      ensures owner == old(owner) - {old(p.buf)}
      ensures free == old(free) + if old(p.buf.arr.Length) in CLASSES then {old(p.buf)} else {}
      ensures forall q :: q in live ==> q.Contents() == old(q.Contents())
    {
      var b := Disown(p);
      PutBuffer(b);
    }

    /** The contents in memory of their own; the buffer is given up. */
    method ToBytes(p: PooledBuffer) returns (result: array<byte>)
      requires Valid() && p in live
      modifies this, p, p.buf`len
      ensures Valid() && live == old(live) - {p} && p.buf == null && home == old(home)
      ensures owner == old(owner) - {old(p.buf)}
      ensures free == old(free) + if old(p.buf.arr.Length) in CLASSES then {old(p.buf)} else {}
      ensures fresh(result) && result[..] == old(p.Contents()) && result !in home
      ensures forall q :: q in live ==> q.Contents() == old(q.Contents())
    {
      result := CopyOut(p, p.buf.len);
      assert result[..] == result[..p.buf.len];
      Release(p);
    }
  }
}
