/** The server's byte buffer: a block from a shared pool with the unread bytes somewhere inside it. */
module RawCache {
  import opened WireCodec

  // The pool hands out blocks that are at least as long as asked for, from its free list or new ones; it
  // may have none.
  class MemPool {
    var free: seq<array<byte>>
    ghost var held: set<array<byte>>

    ghost predicate Valid()
      reads this
    {
      (forall i :: 0 <= i < |free| ==> free[i] !in held) && forall i, j :: 0 <= i < j < |free| ==> free[i] != free[j]
    }

    ghost function Blocks(): set<array<byte>>
      reads this
    {
      set b | b in free
    }

    constructor ()
      ensures Valid() && held == {} && free == []
    {
      free, held := [], {};
    }

    method Allocate(size: nat) returns (mem: array?<byte>)
      requires Valid()
      modifies this
      ensures Valid()
      ensures mem == null ==> held == old(held) && free == old(free)
      ensures mem != null ==> size <= mem.Length && mem !in old(held) && held == old(held) + {mem}
      ensures mem != null ==> mem in old(Blocks()) || fresh(mem)
      ensures Blocks() <= old(Blocks())
    {
      mem := null;
      if * {
        return;
      }
      var i := 0;
      while i < |free| && free[i].Length < size
        invariant i <= |free|
      {
        i := i + 1;
      }
      if i < |free| {
        mem := free[i];
        free := free[..i] + free[i + 1..];
      } else {
        mem := new byte[size];
      }
      held := held + {mem};
    }

    method Recycle(mem: array<byte>)
      requires Valid() && mem in held
      modifies this
      ensures Valid() && held == old(held) - {mem} && Blocks() == old(Blocks()) + {mem}
    {
      free := [mem] + free;
      held := held - {mem};
    }
  }

  class Cache {
    const pool: MemPool
    var mem: array?<byte>
    var head: nat
    var len: nat

    ghost predicate Valid()
      reads this, pool, mem
    {
      && pool.Valid() && (mem == null ==> head == 0 && len == 0)
      && (mem != null ==> mem in pool.held && head + len <= mem.Length)
    }

    // The bytes waiting to be read, oldest first.
    ghost function Contents(): seq<byte>
      reads this, mem
    {
      if mem == null || mem.Length < head + len then [] else mem[head..head + len]
    }

    // The one block in use.
    ghost function Block(): set<array<byte>>
      reads this
    {
      if mem == null then {} else {mem}
    }

    constructor (p: MemPool)
      requires p.Valid()
      ensures Valid() && pool == p && Contents() == [] && mem == null
    {
      pool, mem, head, len := p, null, 0, 0;
    }

    method Append(data: seq<byte>) returns (ok: bool)
      requires Valid()
      modifies this, pool, mem, pool.Blocks()
      ensures Valid() && (ok ==> mem != null)
      ensures Contents() == if ok then old(Contents()) + data else old(Contents())
      ensures pool.held == old(pool.held) - old(Block()) + Block()
      ensures Block() <= old(Block()) + old(pool.Blocks()) || fresh(Block())
      ensures pool.Blocks() <= old(pool.Blocks()) + old(Block())
    {
      if mem == null {
        mem := pool.Allocate(|data|);
        if mem == null {
          return false;
        }
        Copy(mem, 0, data);
        head, len := 0, |data|;
        ok := true;
      } else if |data| + head + len <= mem.Length {
        AppendDirectly(data);
        ok := true;
      } else if |data| + len > mem.Length {
        ok := MoveToBigger(data);
      } else {
        MoveToFront(data);
        ok := true;
      }
    }

    // Behind the unread bytes.
    method AppendDirectly(data: seq<byte>)
      requires Valid() && mem != null && |data| + head + len <= mem.Length
      modifies this`len, mem
      ensures Valid() && Contents() == old(Contents()) + data
    {
      Copy(mem, head + len, data);
      assert mem[head..head + len] == mem[..head + len][head..];
      assert mem[head..head + len + |data|] == mem[head..head + len] + mem[head + len..head + len + |data|];
      len := len + |data|;
    }

    // To a new block, when the old one is too short for both.
    method MoveToBigger(data: seq<byte>) returns (ok: bool)
      requires Valid() && mem != null
      modifies this, pool, pool.Blocks()
      ensures Valid() && mem != null
      ensures Contents() == if ok then old(Contents()) + data else old(Contents())
      ensures pool.held == old(pool.held) - old(Block()) + Block()
      ensures mem == old(mem) || mem in old(pool.Blocks()) || fresh(mem)
      ensures pool.Blocks() <= old(pool.Blocks()) + old(Block())
    {
      var bigger := pool.Allocate(|data| + len);
      if bigger == null {
        return false;
      }
      CopyBoth(bigger, mem[head..head + len], data);
      pool.Recycle(mem);
      mem := bigger;
      head := 0;
      len := len + |data|;
      ok := true;
    }

    // To the front of the block, when only the room behind the unread bytes is too short.
    method MoveToFront(data: seq<byte>)
      requires Valid() && mem != null && |data| + len <= mem.Length
      modifies this`len, this`head, mem
      ensures Valid() && Contents() == old(Contents()) + data
    {
      ghost var was := Contents();
      Copy(mem, 0, mem[head..head + len]);
      assert mem[..len] == mem[0..len] == was;
      Copy(mem, len, data);
      assert mem[0..len + |data|] == mem[..len] + mem[len..len + |data|];
      head := 0;
      len := len + |data|;
    }

    method Skip(length: nat)
      requires Valid()
      modifies this, pool
      ensures Valid()
      ensures Contents() == if length <= |old(Contents())| then old(Contents())[length..] else []
      ensures pool.held == old(pool.held) - old(Block()) + Block() && Block() <= old(Block())
      ensures pool.Blocks() <= old(pool.Blocks()) + old(Block())
      ensures length >= |old(Contents())| ==> mem == null
    {
      if mem == null {
        return;
      }
      if length >= len {
        pool.Recycle(mem);
        mem := null;
        head, len := 0, 0;
      } else {
        head := head + length;
        len := len - length;
      }
    }

    // data() and data_len()
    method Data() returns (s: seq<byte>)
      requires Valid()
      ensures s == Contents()
    {
      s := if len == 0 || mem == null then [] else mem[head..head + len];
    }
  }

  method Copy(a: array<byte>, at: nat, s: seq<byte>)
    requires at + |s| <= a.Length
    modifies a
    ensures a[..at] == old(a[..at]) && a[at..at + |s|] == s && a[at + |s|..] == old(a[at + |s|..])
  {
    for i := 0 to |s|
      invariant forall k :: 0 <= k < a.Length ==> a[k] == if at <= k < at + i then s[k - at] else old(a[k])
    {
      a[at + i] := s[i];
    }
  }

  method CopyBoth(a: array<byte>, s: seq<byte>, t: seq<byte>)
    requires |s| + |t| <= a.Length
    modifies a
    ensures a[0..|s| + |t|] == s + t
  {
    Copy(a, 0, s);
    Copy(a, |s|, t);
    assert a[0..|s| + |t|] == a[..|s|] + a[|s|..|s| + |t|];
  }
}
