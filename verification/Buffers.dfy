/** Readers: any nesting of `Chain` and `Take` over buffers cut into arbitrary chunks, read as one byte sequence. */
module Buffers {
  import opened Arithmetic
  import opened Wrappers
  import opened IntCodec
  import opened Memory

  /** A leaf holds its unread bytes in chunks; a chain reads one buffer after the other; a take stops at a limit. */
  datatype Buf =
    | Leaf(chunks: seq<seq<byte>>)
    | Chain(a: Buf, b: Buf)
    | Take(inner: Buf, limit: nat)

  function Flat(chunks: seq<seq<byte>>): seq<byte> {
    if chunks == [] then [] else chunks[0] + Flat(chunks[1..])
  }

  /** A leaf has no empty chunk and counts its bytes in a machine word, as does the limit of a take. */
  ghost predicate WellFormed(b: Buf) {
    match b
    case Leaf(chunks) => |Flat(chunks)| <= USIZE_MAX && forall i :: 0 <= i < |chunks| ==> chunks[i] != []
    case Chain(x, y) => WellFormed(x) && WellFormed(y)
    case Take(inner, limit) => WellFormed(inner) && limit <= USIZE_MAX
  }

  /** The bytes that are left to read. */
  function Bytes(b: Buf): seq<byte> {
    match b
    case Leaf(chunks) => Flat(chunks)
    case Chain(x, y) => Bytes(x) + Bytes(y)
    case Take(inner, limit) => Bytes(inner)[..Min(|Bytes(inner)|, limit)]
  }

  // ---- The three required operations ----

  function Remaining(b: Buf): nat {
    match b
    case Leaf(chunks) => |Flat(chunks)|
    case Chain(x, y) => Min(Remaining(x) + Remaining(y), USIZE_MAX)
    case Take(inner, limit) => Min(Remaining(inner), limit)
  }

  function Chunk(b: Buf): seq<byte> {
    match b
    case Leaf(chunks) => if chunks == [] then [] else chunks[0]
    case Chain(x, y) => if Remaining(x) > 0 then Chunk(x) else Chunk(y)
    case Take(inner, limit) => Chunk(inner)[..Min(|Chunk(inner)|, limit)]
  }

  function AdvanceChunks(chunks: seq<seq<byte>>, cnt: nat): Option<seq<seq<byte>>> {
    if cnt == 0 then Some(chunks)
    else if chunks == [] then None
    else if cnt < |chunks[0]| then Some([chunks[0][cnt..]] + chunks[1..])
    else AdvanceChunks(chunks[1..], cnt - |chunks[0]|)
  }

  /** Moves past a number of bytes; none is the panic of moving past the end. */
  function Advance(b: Buf, cnt: nat): Option<Buf> {
    match b
    case Leaf(chunks) =>
      var r := AdvanceChunks(chunks, cnt);
      if r.Some? then Some(Leaf(r.value)) else None
    case Chain(x, y) =>
      var rem := Remaining(x);
      if rem > cnt then
        var r := Advance(x, cnt);
        if r.Some? then Some(Chain(r.value, y)) else None
      else
        var r := if rem != 0 then Advance(x, rem) else Some(x);
        var s := Advance(y, cnt - rem);
        if r.Some? && s.Some? then Some(Chain(r.value, s.value)) else None
    case Take(inner, limit) =>
      if cnt > limit then None
      else
        var r := Advance(inner, cnt);
        if r.Some? then Some(Take(r.value, limit - cnt)) else None
  }

  /** The count of the bytes left is exact up to the largest machine word. */
  lemma {:induction false} RemainingCounts(b: Buf)
    requires WellFormed(b)
    ensures Remaining(b) == Min(|Bytes(b)|, USIZE_MAX)
  {
    match b
    case Leaf(_) =>
    case Chain(x, y) =>
      RemainingCounts(x);
      RemainingCounts(y);
    case Take(inner, _) =>
      RemainingCounts(inner);
  }

  /** The chunk is the start of the bytes left, and is empty only when nothing is left. */
  lemma {:induction false} ChunkIsPrefix(b: Buf)
    requires WellFormed(b)
    ensures Chunk(b) <= Bytes(b) && |Chunk(b)| <= USIZE_MAX && (Bytes(b) != [] ==> Chunk(b) != [])
  {
    match b
    case Leaf(_) =>
    case Chain(x, y) =>
      RemainingCounts(x);
      ChunkIsPrefix(x);
      ChunkIsPrefix(y);
    case Take(inner, _) =>
      ChunkIsPrefix(inner);
  }

  lemma {:induction false} ChunksAdvance(chunks: seq<seq<byte>>, cnt: nat)
    requires forall i :: 0 <= i < |chunks| ==> chunks[i] != []
    ensures var r := AdvanceChunks(chunks, cnt);
            && (r.Some? <==> cnt <= |Flat(chunks)|)
            && (r.Some? ==> Flat(r.value) == Flat(chunks)[cnt..] &&
                            forall i :: 0 <= i < |r.value| ==> r.value[i] != [])
  {
    if cnt == 0 {
      assert Flat(chunks)[0..] == Flat(chunks);
    } else if chunks != [] {
      if cnt < |chunks[0]| {
        var r := [chunks[0][cnt..]] + chunks[1..];
        assert r[1..] == chunks[1..];
        assert Flat(chunks)[cnt..] == chunks[0][cnt..] + Flat(chunks[1..]);
      } else {
        ChunksAdvance(chunks[1..], cnt - |chunks[0]|);
      }
    }
  }

  lemma DropOfSum(x: seq<byte>, y: seq<byte>, cnt: nat)
    ensures cnt <= |x| ==> (x + y)[cnt..] == x[cnt..] + y
    ensures |x| <= cnt <= |x| + |y| ==> (x + y)[cnt..] == y[cnt - |x|..]
  {
  }

  lemma TakeOfSum(x: seq<byte>, y: seq<byte>, cnt: nat)
    ensures cnt <= |x| ==> (x + y)[..cnt] == x[..cnt]
    ensures |x| <= cnt <= |x| + |y| ==> (x + y)[..cnt] == x + y[..cnt - |x|]
  {
  }

  lemma DropOfTake(x: seq<byte>, limit: nat, cnt: nat)
    requires cnt <= limit && cnt <= |x|
    ensures x[..Min(|x|, limit)][cnt..] == x[cnt..][..Min(|x| - cnt, limit - cnt)]
    ensures x[..Min(|x|, limit)][..cnt] == x[..cnt]
  {
  }

  /** What advancing should give: enough bytes are needed, and they go from the front. */
  ghost predicate Drops(b: Buf, cnt: nat, r: Option<Buf>) {
    && (r.Some? <==> cnt <= |Bytes(b)|)
    && (r.Some? ==> WellFormed(r.value) && Bytes(r.value) == Bytes(b)[cnt..])
  }

  lemma NothingDrops(b: Buf)
    requires WellFormed(b)
    ensures Drops(b, 0, Some(b))
  {
  }

  lemma LeafDrops(chunks: seq<seq<byte>>, cnt: nat)
    requires WellFormed(Leaf(chunks))
    ensures Drops(Leaf(chunks), cnt, Advance(Leaf(chunks), cnt))
  {
    ChunksAdvance(chunks, cnt);
  }

  lemma ChainDrops(x: Buf, y: Buf, cnt: nat, n: nat, x': Option<Buf>, y': Option<Buf>, r: Option<Buf>)
    requires WellFormed(x) && WellFormed(y) && n <= cnt && n <= |Bytes(x)| && (n < |Bytes(x)| ==> n == cnt)
    requires Drops(x, n, x') && Drops(y, cnt - n, y')
    requires r == if y'.Some? then Some(Chain(x'.value, y'.value)) else None
    ensures Drops(Chain(x, y), cnt, r)
  {
    DropOfSum(Bytes(x), Bytes(y), cnt);
  }

  lemma TakeDrops(inner: Buf, limit: nat, cnt: nat, r: Option<Buf>)
    requires WellFormed(Take(inner, limit)) && cnt <= limit && Drops(inner, cnt, r)
    ensures Drops(Take(inner, limit), cnt, if r.Some? then Some(Take(r.value, limit - cnt)) else None)
  {
    if r.Some? {
      DropOfTake(Bytes(inner), limit, cnt);
    }
  }

  /** Advancing works exactly when enough bytes are left, and drops them from the front. */
  lemma {:induction false} AdvanceDrops(b: Buf, cnt: nat)
    requires WellFormed(b) && cnt <= USIZE_MAX
    ensures Drops(b, cnt, Advance(b, cnt))
    decreases b, 1
  {
    match b
    case Leaf(chunks) =>
      LeafDrops(chunks, cnt);
    case Chain(x, y) =>
      AdvanceOverChain(x, y, cnt, Advance(b, cnt));
    case Take(inner, limit) =>
      if cnt <= limit {
        AdvanceDrops(inner, cnt);
        TakeDrops(inner, limit, cnt, Advance(inner, cnt));
      }
  }

  lemma {:induction false} AdvanceOverChain(x: Buf, y: Buf, cnt: nat, r: Option<Buf>)
    requires WellFormed(x) && WellFormed(y) && cnt <= USIZE_MAX && r == Advance(Chain(x, y), cnt)
    ensures Drops(Chain(x, y), cnt, r)
    decreases Chain(x, y), 0
  {
    RemainingCounts(x);
    var rem := Remaining(x);
    if rem > cnt {
      AdvanceDrops(x, cnt);
      NothingDrops(y);
      ChainDrops(x, y, cnt, cnt, Advance(x, cnt), Some(y), r);
    } else {
      var rest := cnt - rem;
      AdvanceDrops(y, rest);
      if rem == 0 {
        NothingDrops(x);
        ChainDrops(x, y, cnt, 0, Some(x), Advance(y, rest), r);
      } else {
        AdvanceDrops(x, rem);
        ChainDrops(x, y, cnt, rem, Advance(x, rem), Advance(y, rest), r);
      }
    }
  }

  // ---- Copying out ----

  lemma DropTwice(s: seq<byte>, n: nat, m: nat)
    requires n + m <= |s|
    ensures s[n..][m..] == s[n + m..]
  {
  }

  lemma AppendChunk(out: seq<byte>, chunk: seq<byte>, rest: seq<byte>)
    ensures out + (chunk + rest) == (out + chunk) + rest
  {
  }

  /** One turn of a reading loop: the chunk is the start of the bytes left, and the rest is left after it. */
  lemma ChunkThenRest(b: Buf)
    requires WellFormed(b) && Bytes(b) != []
    ensures var chunk := Chunk(b);
            var r := Advance(b, |chunk|);
            && chunk != [] && r.Some? && WellFormed(r.value) && Bytes(b) == chunk + Bytes(r.value)
            && (b.Take? ==> r.value.Take? && |chunk| <= |Bytes(b.inner)| &&
                            Bytes(r.value.inner) == Bytes(b.inner)[|chunk|..])
  {
    ChunkIsPrefix(b);
    AdvanceDrops(b, |Chunk(b)|);
    if b.Take? {
      AdvanceDrops(b.inner, |Chunk(b)|);
    }
  }

  /** The loop of `put` into a growing buffer: chunk after chunk until nothing is left. */
  method Drain(b: Buf) returns (out: seq<byte>, rest: Buf)
    requires WellFormed(b)
    ensures out == Bytes(b) && WellFormed(rest) && Bytes(rest) == []
    ensures b.Take? ==> rest.Take? && WellFormed(rest.inner) && Bytes(rest.inner) == Bytes(b.inner)[|out|..]
  {
    out, rest := [], b;
    RemainingCounts(rest);
    while Remaining(rest) > 0
      invariant WellFormed(rest) && Remaining(rest) == Min(|Bytes(rest)|, USIZE_MAX)
      invariant out + Bytes(rest) == Bytes(b)
      invariant b.Take? ==> rest.Take? && |out| <= |Bytes(b.inner)| && Bytes(rest.inner) == Bytes(b.inner)[|out|..]
      decreases |Bytes(rest)|
    {
      ChunkThenRest(rest);
      var chunk := Chunk(rest);
      var rest' := Advance(rest, |chunk|).value;
      AppendChunk(out, chunk, Bytes(rest'));
      if b.Take? {
        DropTwice(Bytes(b.inner), |out|, |chunk|);
      }
      out, rest := out + chunk, rest';
      RemainingCounts(rest);
    }
  }

  /** `copy_to_bytes` with the forms of `Chain` and of `Take`; the default form reads through a take.  None is the
      panic for more bytes than are left. */
  method CopyToBytes(b: Buf, len: nat) returns (r: Option<(seq<byte>, Buf)>)
    requires WellFormed(b) && len <= USIZE_MAX
    ensures r.Some? <==> len <= |Bytes(b)|
    ensures r.Some? ==> r.value.0 == Bytes(b)[..len]
    ensures r.Some? ==> WellFormed(r.value.1) && Bytes(r.value.1) == Bytes(b)[len..]
    decreases b
  {
    RemainingCounts(b);
    match b
    case Leaf(_) =>
      if Remaining(b) < len {
        return None;
      }
      var out, rest := Drain(Take(b, len));
      r := Some((out, rest.inner));
    case Chain(x, y) =>
      r := CopyFromChain(x, y, len);
    case Take(inner, limit) =>
      if len > Remaining(b) {
        return None;
      }
      DropOfTake(Bytes(inner), limit, len);
      var s := CopyToBytes(inner, len);
      r := Some((s.value.0, Take(s.value.1, limit - len)));
  }

  /** All of one buffer and the start of another. */
  method DrainBoth(x: Buf, y: Buf, n: nat) returns (out: seq<byte>, x': Buf, y': Buf)
    requires WellFormed(x) && WellFormed(y) && n <= |Bytes(y)| && n <= USIZE_MAX
    ensures out == Bytes(x) + Bytes(y)[..n]
    ensures WellFormed(x') && Bytes(x') == [] && WellFormed(y') && Bytes(y') == Bytes(y)[n..]
  {
    var first, restX := Drain(x);
    var second, restY := Drain(Take(y, n));
    out, x', y' := first + second, restX, restY.inner;
  }

  method CopyFromChain(x: Buf, y: Buf, len: nat) returns (r: Option<(seq<byte>, Buf)>)
    requires WellFormed(x) && WellFormed(y) && len <= USIZE_MAX
    ensures r.Some? <==> len <= |Bytes(x)| + |Bytes(y)|
    ensures r.Some? ==> r.value.0 == (Bytes(x) + Bytes(y))[..len]
    ensures r.Some? ==> WellFormed(r.value.1) && Bytes(r.value.1) == (Bytes(x) + Bytes(y))[len..]
    decreases Chain(x, y), 0
  {
    RemainingCounts(x);
    RemainingCounts(y);
    DropOfSum(Bytes(x), Bytes(y), len);
    TakeOfSum(Bytes(x), Bytes(y), len);
    var rem := Remaining(x);
    if rem >= len {
      var s := CopyToBytes(x, len);
      r := Some((s.value.0, Chain(s.value.1, y)));
    } else if rem == 0 {
      var s := CopyToBytes(y, len);
      if s.None? {
        return None;
      }
      r := Some((s.value.0, Chain(x, s.value.1)));
    } else {
      var rest := len - rem;
      if rest > Remaining(y) {
        return None;
      }
      var out, x', y' := DrainBoth(x, y, rest);
      r := Some((out, Chain(x', y')));
    }
  }

  /** That the first bytes of the data stand between two indices of a sequence, in place of what was there. */
  ghost predicate Patched(was: seq<byte>, lo: nat, hi: nat, data: seq<byte>, now: seq<byte>) {
    lo <= hi <= |was| && hi - lo <= |data| && now == was[..lo] + data[..hi - lo] + was[hi..]
  }

  lemma NothingPatched(was: seq<byte>, lo: nat, data: seq<byte>)
    requires lo <= |was|
    ensures Patched(was, lo, lo, data, was)
  {
  }

  lemma PatchedParts(was: seq<byte>, lo: nat, pos: nat, hi: nat, data: seq<byte>, now: seq<byte>)
    requires Patched(was, lo, pos, data, now) && pos <= hi <= |now|
    ensures |now| == |was| && now[..pos] == was[..lo] + data[..pos - lo] && now[hi..] == was[hi..]
  {
  }

  lemma Regroup(front: seq<byte>, back: seq<byte>, data: seq<byte>, n: nat, m: nat)
    requires n <= m <= |data|
    ensures (front + data[..n]) + data[n..][..m - n] + back == front + data[..m] + back
    ensures data[n..][m - n..] == data[m..]
  {
    assert data[..n] + data[n..][..m - n] == data[..m];
  }

  lemma MorePatched(was: seq<byte>, lo: nat, pos: nat, hi: nat, data: seq<byte>, now: seq<byte>, left: seq<byte>,
                    next: seq<byte>)
    requires Patched(was, lo, pos, data, now) && left == data[pos - lo..] && Patched(now, pos, hi, left, next)
    ensures Patched(was, lo, hi, data, next) && left[hi - pos..] == data[hi - lo..]
  {
    PatchedParts(was, lo, pos, hi, data, now);
    Regroup(was[..lo], was[hi..], data, pos - lo, hi - lo);
    assert (hi - lo) - (pos - lo) == hi - pos;
  }

  /** A buffer that is read in place. */
  class Reader {
    var buf: Buf

    ghost predicate Valid()
      reads this
    {
      WellFormed(buf)
    }

    ghost function Left(): seq<byte>
      reads this
    {
      Bytes(buf)
    }

    constructor (b: Buf)
      requires WellFormed(b)
      ensures Valid() && buf == b
    {
      buf := b;
    }

    /** Fills part of an array with the next bytes, chunk by chunk; fails without reading when there are too few. */
    method CopyToSlice(dst: array<byte>, lo: nat, hi: nat) returns (ok: bool)
      requires Valid() && lo <= hi <= dst.Length && hi - lo <= USIZE_MAX
      modifies this, dst
      ensures Valid() && (ok <==> hi - lo <= |old(Left())|)
      ensures ok ==> dst[..] == old(dst[..])[..lo] + old(Left())[..hi - lo] + old(dst[..])[hi..]
      ensures ok ==> Left() == old(Left())[hi - lo..]
      ensures !ok ==> buf == old(buf) && dst[..] == old(dst[..])
    {
      RemainingCounts(buf);
      if Remaining(buf) < hi - lo {
        return false;
      }
      ghost var was, all := dst[..], Left();
      var pos := lo;
      NothingPatched(was, lo, all);
      while pos < hi
        invariant Valid() && lo <= pos <= hi && hi - lo <= |all|
        invariant Left() == all[pos - lo..] && Patched(was, lo, pos, all, dst[..])
      {
        ghost var now, left := dst[..], Left();
        var next := CopySome(dst, pos, hi);
        MorePatched(was, lo, pos, next, all, now, left, dst[..]);
        pos := next;
      }
      ok := true;
    }

    /** One turn: as much as the chunk has. */
    method CopySome(dst: array<byte>, pos: nat, hi: nat) returns (next: nat)
      requires Valid() && pos < hi <= dst.Length && hi - pos <= |Left()| && hi - pos <= USIZE_MAX
      modifies this, dst
      ensures Valid() && pos < next <= hi && Left() == old(Left())[next - pos..]
      ensures Patched(old(dst[..]), pos, next, old(Left()), dst[..])
    {
      ChunkIsPrefix(buf);
      var chunk := Chunk(buf);
      var cnt := Min(|chunk|, hi - pos);
      assert chunk[..cnt] == Left()[..cnt];
      CopyChunk(dst, pos, chunk[..cnt]);
      AdvanceDrops(buf, cnt);
      buf := Advance(buf, cnt).value;
      next := pos + cnt;
    }

    /** The next byte, or none at the end. */
    method Next() returns (r: Option<byte>)
      requires Valid()
      modifies this
      ensures Valid()
      ensures r == if old(Left()) == [] then None else Some(old(Left())[0])
      ensures Left() == if old(Left()) == [] then [] else old(Left())[1..]
    {
      RemainingCounts(buf);
      if Remaining(buf) == 0 {
        return None;
      }
      ChunkIsPrefix(buf);
      AdvanceDrops(buf, 1);
      r := Some(Chunk(buf)[0]);
      buf := Advance(buf, 1).value;
    }

    /** `size_hint`: both bounds are the number of bytes that iterating will still yield, exact up to the largest
        machine word. */
    method SizeHint() returns (lower: nat, upper: Option<nat>)
      requires Valid()
      ensures upper == Some(lower) && lower == Min(|Left()|, USIZE_MAX)
    {
      RemainingCounts(buf);
      lower := Remaining(buf);
      upper := Some(lower);
    }

    /** Iterating to the end yields the bytes in order and terminates. */
    method Collect() returns (out: seq<byte>)
      requires Valid()
      modifies this
      ensures Valid() && out == old(Left()) && Left() == []
    {
      out := [];
      var next := Next();
      while next.Some?
        invariant Valid()
        invariant next.None? ==> Left() == []
        invariant out + (if next.Some? then [next.value] + Left() else []) == old(Left())
        decreases next.Some?, |Left()|
      {
        out := out + [next.value];
        next := Next();
      }
    }

    /** A fixed-width integer: straight from the chunk when it is long enough, through a copy otherwise.  Either way
        the value is that of the next bytes. */
    method GetFixed(order: Order, size: nat) returns (r: Option<nat>)
      requires Valid() && size <= 16
      modifies this
      ensures Valid() && (r.Some? <==> size <= |old(Left())|)
      ensures r.Some? ==> r.value == Decode(order, old(Left())[..size]) && Left() == old(Left())[size..]
      ensures r.None? ==> buf == old(buf)
    {
      RemainingCounts(buf);
      if Remaining(buf) < size {
        return None;
      }
      ChunkIsPrefix(buf);
      var chunk := Chunk(buf);
      if |chunk| >= size {
        AdvanceDrops(buf, size);
        r := Some(Decode(order, chunk[..size]));
        assert chunk[..size] == Left()[..size];
        buf := Advance(buf, size).value;
      } else {
        var tmp := new byte[size](_ => 0);
        var ok := CopyToSlice(tmp, 0, size);
        assert tmp[..] == old(Left())[..size];
        r := Some(Decode(order, tmp[..]));
      }
    }

    /** An unsigned integer of up to eight bytes, read into an eight-byte field of zeros. */
    method GetUint(order: Order, n: nat) returns (r: Option<nat>)
      requires Valid()
      modifies this
      ensures Valid() && (r.Some? <==> n <= 8 && n <= |old(Left())|)
      ensures r.Some? ==> r.value == Decode(order, old(Left())[..n]) && Left() == old(Left())[n..]
      ensures r.None? ==> buf == old(buf)
    {
      if n > 8 {
        return None;
      }
      var field := new byte[8](_ => 0);
      var lo := if order.Big? then 8 - n else 0;
      var ok := CopyToSlice(field, lo, lo + n);
      if !ok {
        return None;
      }
      ghost var s := old(Left())[..n];
      assert order.Big? ==> field[..] == Zeros(8 - n) + s;
      assert order.Little? ==> field[..] == s + Zeros(8 - n);
      DecodeUintIsDecode(order, s);
      r := Some(Decode(order, field[..]));
    }

    /** A signed integer of one to eight bytes; for none the shift of the sign extension panics. */
    method GetInt(order: Order, n: nat) returns (r: Option<int>)
      requires Valid()
      modifies this
      ensures Valid() && (r.Some? <==> 1 <= n <= 8 && n <= |old(Left())|)
      ensures r.Some? ==> r.value == SignExtend(Decode(order, old(Left())[..n]), n) && Left() == old(Left())[n..]
      ensures r.None? ==> Left() == old(Left())
    {
      var val := GetUint(order, n);
      if val.None? || n == 0 {
        return None;
      }
      r := Some(SignExtend(val.value, n));
    }
  }

  method CopyChunk(dst: array<byte>, at: nat, chunk: seq<byte>)
    requires at + |chunk| <= dst.Length
    modifies dst
    ensures dst[..] == old(dst[..])[..at] + chunk + old(dst[..])[at + |chunk|..]
  {
    forall i | 0 <= i < |chunk| {
      dst[at + i] := chunk[i];
    }
  }
}
