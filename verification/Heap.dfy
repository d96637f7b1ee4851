/** The mutable state behind all byte values: the allocator, the shared blocks and the handles. */
module Heap {
  import opened Memory

  class Arena {
    var allocs: Allocs
    var shareds: Shareds
    var handles: Handles
    var nextAlloc: nat
    var nextId: nat
    ghost var freed: multiset<Id>

    ghost function State(): World
      reads this
    {
      World(allocs, shareds, handles, nextAlloc, nextId, freed)
    }

    ghost predicate Valid()
      reads this
    {
      Inv(State())
    }

    /** One byte string per live value. */
    ghost function Bytes(): map<Id, seq<byte>>
      reads this
    {
      Abs(allocs, handles)
    }

    constructor ()
      ensures Valid() && handles == map[] && allocs == map[]
    {
      allocs, shareds, handles, nextAlloc, nextId, freed := map[], map[], map[], 0, 0, multiset{};
    }

    /** `dealloc` must be told the size the block was allocated with. */
    method Dealloc(a: Id, size: nat)
      requires a in allocs && size == |allocs[a]|
      modifies this`allocs, this`freed
      ensures allocs == old(allocs) - {a}
      ensures freed == old(freed) + multiset{a}
    {
      allocs := allocs - {a};
      freed := freed + multiset{a};
    }

    /** A new block of at least `min` bytes; neither its exact size, which the caller records as the capacity,
        nor its bytes are promised. */
    method Alloc(min: nat) returns (a: Id, cap: nat)
      modifies this`allocs, this`nextAlloc
      ensures a == old(nextAlloc) && nextAlloc == a + 1
      ensures a in allocs && |allocs[a]| == cap >= min && allocs == old(allocs)[a := allocs[a]]
    {
      cap :| min <= cap;
      assert |seq<byte>(cap, _ => 0)| == cap;
      var junk: seq<byte> :| |junk| == cap;
      a := nextAlloc;
      nextAlloc := nextAlloc + 1;
      allocs := allocs[a := junk];
    }

    /** `ptr::copy`. */
    method Copy(a: Id, from: nat, b: Id, to: nat, len: nat)
      requires a in allocs && b in allocs
      requires from + len <= |allocs[a]| && to + len <= |allocs[b]|
      modifies this`allocs
      ensures allocs == old(allocs)[b := Overwrite(old(allocs[b]), to, old(allocs[a])[from..from + len])]
    {
      allocs := allocs[b := Overwrite(allocs[b], to, allocs[a][from..from + len])];
    }

    /** `ptr::copy_nonoverlapping`: the two ranges must not share a byte. */
    method CopyNonoverlapping(a: Id, from: nat, b: Id, to: nat, len: nat)
      requires a in allocs && b in allocs
      requires from + len <= |allocs[a]| && to + len <= |allocs[b]|
      requires a != b || len == 0 || from + len <= to || to + len <= from
      modifies this`allocs
      ensures allocs == old(allocs)[b := Overwrite(old(allocs[b]), to, old(allocs[a])[from..from + len])]
    {
      Copy(a, from, b, to, len);
    }

    /** `slice.to_vec()`: a new block whose first bytes are the given ones. */
    method ToVec(src: seq<byte>) returns (a: Id, cap: nat)
      requires nextAlloc !in allocs
      modifies this`allocs, this`nextAlloc
      ensures a == old(nextAlloc) && nextAlloc == a + 1
      ensures a in allocs && |allocs[a]| == cap >= |src| && allocs[a][..|src|] == src
      ensures allocs == old(allocs)[a := allocs[a]]
    {
      a, cap := Alloc(|src|);
      allocs := allocs[a := Overwrite(allocs[a], 0, src)];
    }

    /** `Vec::reserve` on a vector of length `len` and capacity `cap` in block `a`: the block is kept when
        it is large enough, and otherwise replaced by one that holds the same first `len` bytes. */
    method VecReserve(a: Id, len: nat, cap: nat, additional: nat) returns (b: Id, newCap: nat)
      requires a in allocs && len <= cap == |allocs[a]| && nextAlloc !in allocs
      modifies this`allocs, this`nextAlloc, this`freed
      ensures b == a || b == old(nextAlloc)
      ensures b == a ==> allocs == old(allocs) && nextAlloc == old(nextAlloc) && freed == old(freed)
      ensures b == a <==> cap >= len + additional
      ensures b != a ==>
                && nextAlloc == b + 1 && freed == old(freed) + multiset{a}
                && b in allocs && allocs == (old(allocs) - {a})[b := allocs[b]]
      ensures b in allocs && |allocs[b]| == newCap >= len + additional
      ensures allocs[b][..len] == old(allocs[a])[..len]
    {
      b, newCap := a, cap;
      if cap - len < additional {
        b, newCap := Alloc(len + additional);
        CopyNonoverlapping(a, 0, b, 0, len);
        Dealloc(a, cap);
      }
    }

    /** The reference count goes down by one; whoever takes it to zero frees the block and its
        buffer. The size given to the allocator is the recorded one. */
    method ReleaseShared(s: Id)
      requires s in shareds && shareds[s].count > 0
      requires shareds[s].alloc in allocs && OriginOk(allocs[shareds[s].alloc], shareds[s].origin)
      modifies this`shareds, this`allocs, this`freed
      ensures old(shareds[s].count) > 1 ==>
                && allocs == old(allocs) && freed == old(freed)
                && shareds == old(shareds)[s := OneLess(old(shareds[s]))]
      ensures old(shareds[s].count) == 1 ==>
                && allocs == old(allocs) - {old(shareds[s].alloc)} && shareds == old(shareds) - {s}
                && freed == old(freed) + multiset{old(shareds[s].alloc)}
    {
      var sh := shareds[s];
      shareds := shareds[s := OneLess(sh)];
      if sh.count != 1 {
        return;
      }
      match sh.origin {
        case FromMut(_, cap, _) => Dealloc(sh.alloc, cap);
        case FromView(size) => Dealloc(sh.alloc, size);
      }
      shareds := shareds - {s};
    }
  }
}
