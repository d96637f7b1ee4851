/** Writers: any nesting of `Chain` and `Limit` over fixed spaces cut into arbitrary chunks and over growing vectors,
    written as one byte sequence. */
module Sinks {
  import opened Arithmetic
  import opened Memory
  import opened Wrappers
  import opened IntCodec
  import opened Buffers

  /** A fixed space holds its unwritten part in chunks, a vector in its spare capacity; both hold bytes there
      already, which mean nothing yet.  A chain writes to one sink after the other; a limit stops early. */
  datatype Sink =
    | Slots(done: seq<byte>, spaces: seq<seq<byte>>)
    | Vector(done: seq<byte>, spare: seq<byte>)
    | Both(a: Sink, b: Sink)
    | Limited(inner: Sink, limit: nat)

  ghost predicate Sound(s: Sink) {
    match s
    case Slots(_, spaces) => |Flat(spaces)| <= USIZE_MAX && forall i :: 0 <= i < |spaces| ==> spaces[i] != []
    case Vector(done, spare) => |done| + |spare| <= ISIZE_MAX
    case Both(x, y) => Sound(x) && Sound(y)
    case Limited(inner, limit) => Sound(inner) && limit <= USIZE_MAX
  }

  // ---- The plain writer: what was written and how much more fits, without chunks ----

  datatype View =
    | Plain(done: seq<byte>, room: nat, grows: bool)
    | BothView(a: View, b: View)
    | LimitedView(inner: View, limit: nat)

  function ViewOf(s: Sink): View
    requires Sound(s)
  {
    match s
    case Slots(done, spaces) => Plain(done, |Flat(spaces)|, false)
    case Vector(done, _) => Plain(done, ISIZE_MAX - |done|, true)
    case Both(x, y) => BothView(ViewOf(x), ViewOf(y))
    case Limited(inner, limit) => LimitedView(ViewOf(inner), limit)
  }

  function Space(v: View): nat {
    match v
    case Plain(_, room, _) => room
    case BothView(x, y) => Space(x) + Space(y)
    case LimitedView(inner, limit) => Min(Space(inner), limit)
  }

  /** Writes data: the first buffer of a chain is filled before the second. */
  function Fill(v: View, data: seq<byte>): View
    requires |data| <= Space(v)
  {
    match v
    case Plain(done, room, grows) => Plain(done + data, room - |data|, grows)
    case BothView(x, y) =>
      var n := Min(Space(x), |data|);
      BothView(Fill(x, data[..n]), Fill(y, data[n..]))
    case LimitedView(inner, limit) => LimitedView(Fill(inner, data), limit - |data|)
  }

  lemma {:induction false} FillTakesSpace(v: View, data: seq<byte>)
    requires |data| <= Space(v)
    ensures Space(Fill(v, data)) == Space(v) - |data|
  {
    match v
    case Plain(_, _, _) =>
    case BothView(x, y) =>
      var n := Min(Space(x), |data|);
      FillTakesSpace(x, data[..n]);
      FillTakesSpace(y, data[n..]);
    case LimitedView(inner, _) =>
      FillTakesSpace(inner, data);
  }

  /** How data falls on the two buffers of a chain. */
  lemma FillBoth(x: View, y: View, first: seq<byte>, second: seq<byte>)
    requires |first| == Min(Space(x), |first| + |second|) && |second| <= Space(y)
    ensures Fill(BothView(x, y), first + second) == BothView(Fill(x, first), Fill(y, second))
  {
    assert (first + second)[..|first|] == first && (first + second)[|first|..] == second;
  }

  /** How two parts fall on the two buffers of a chain. */
  lemma SplitParts(first: seq<byte>, second: seq<byte>, n: nat, m: nat)
    requires n <= |first| && n <= m && m - n <= |second| && (n < |first| ==> m == n)
    ensures first == first[..n] + first[n..] && second == second[..m - n] + second[m - n..]
    ensures first + second == (first[..n] + second[..m - n]) + (first[n..] + second[m - n..])
  {
  }

  /** Writing in two parts is writing the whole. */
  lemma {:induction false} FillTwice(v: View, first: seq<byte>, second: seq<byte>)
    requires |first| + |second| <= Space(v)
    ensures Space(Fill(v, first)) == Space(v) - |first|
    ensures Fill(Fill(v, first), second) == Fill(v, first + second)
    decreases v, 1
  {
    FillTakesSpace(v, first);
    match v
    case Plain(done, _, _) =>
      assert done + first + second == done + (first + second);
    case BothView(x, y) =>
      FillTwiceBoth(x, y, first, second);
    case LimitedView(inner, _) =>
      FillTwice(inner, first, second);
  }

  lemma {:induction false} FillTwiceBoth(x: View, y: View, first: seq<byte>, second: seq<byte>)
    requires |first| + |second| <= Space(BothView(x, y))
    requires Space(Fill(BothView(x, y), first)) == Space(BothView(x, y)) - |first|
    ensures Fill(Fill(BothView(x, y), first), second) == Fill(BothView(x, y), first + second)
    decreases BothView(x, y), 0
  {
    var n, m := Min(Space(x), |first|), Min(Space(x), |first + second|);
    SplitParts(first, second, n, m);
    var a, b, c, d := first[..n], first[n..], second[..m - n], second[m - n..];
    FillTwice(x, a, c);
    FillTwice(y, b, d);
    FillBoth(x, y, a, b);
    FillBoth(Fill(x, a), Fill(y, b), c, d);
    FillBoth(x, y, a + c, b + d);
  }

  /** The bytes that arrived between two states, in the order of the leaves. */
  function Delivered(was: View, now: View): seq<byte> {
    match (was, now)
    case (Plain(done, _, _), Plain(done', _, _)) => if done <= done' then done'[|done|..] else []
    case (BothView(x, y), BothView(x', y')) => Delivered(x, x') + Delivered(y, y')
    case (LimitedView(inner, _), LimitedView(inner', _)) => Delivered(inner, inner')
    case _ => []
  }

  /** Whether nothing written earlier was lost, and nothing but the writing changed. */
  predicate Extends(was: View, now: View) {
    match (was, now)
    case (Plain(done, room, grows), Plain(done', room', grows')) =>
      done <= done' && |done'| - |done| == room - room' && grows == grows'
    case (BothView(x, y), BothView(x', y')) => Extends(x, x') && Extends(y, y')
    case (LimitedView(inner, limit), LimitedView(inner', limit')) =>
      Extends(inner, inner') && limit - limit' == |Delivered(inner, inner')|
    case _ => false
  }

  /** Exactly the data arrives, in order, and everything written before stays. */
  lemma {:induction false} FillDelivers(v: View, data: seq<byte>)
    requires |data| <= Space(v)
    ensures Delivered(v, Fill(v, data)) == data && Extends(v, Fill(v, data))
  {
    match v
    case Plain(_, _, _) =>
    case BothView(x, y) =>
      var n := Min(Space(x), |data|);
      FillDelivers(x, data[..n]);
      FillDelivers(y, data[n..]);
      assert data == data[..n] + data[n..];
    case LimitedView(inner, _) =>
      FillDelivers(inner, data);
  }

  /** Whether every growing vector can take so many more bytes and still grow by the 64 it asks for. */
  predicate CanGrow(v: View, n: nat) {
    match v
    case Plain(done, _, grows) => grows ==> |done| + n + 64 <= ISIZE_MAX
    case BothView(x, y) => CanGrow(x, n) && CanGrow(y, n)
    case LimitedView(inner, _) => CanGrow(inner, n)
  }

  lemma {:induction false} FillCanGrow(v: View, data: seq<byte>, n: nat)
    requires |data| <= Space(v) && |data| <= n && CanGrow(v, n)
    ensures CanGrow(Fill(v, data), n - |data|)
  {
    match v
    case Plain(_, _, _) =>
    case BothView(x, y) =>
      var k := Min(Space(x), |data|);
      FillCanGrow(x, data[..k], n);
      FillCanGrow(y, data[k..], n);
      CanGrowLess(Fill(x, data[..k]), n - k, n - |data|);
      CanGrowLess(Fill(y, data[k..]), n - (|data| - k), n - |data|);
    case LimitedView(inner, _) =>
      FillCanGrow(inner, data, n);
  }

  lemma {:induction false} CanGrowLess(v: View, n: nat, m: nat)
    requires CanGrow(v, n) && m <= n
    ensures CanGrow(v, m)
  {
    match v
    case Plain(_, _, _) =>
    case BothView(x, y) =>
      CanGrowLess(x, n, m);
      CanGrowLess(y, n, m);
    case LimitedView(inner, _) =>
      CanGrowLess(inner, n, m);
  }

  // ---- The three required operations ----

  function RemainingMut(s: Sink): nat
    requires Sound(s)
  {
    match s
    case Slots(_, spaces) => |Flat(spaces)|
    case Vector(done, _) => ISIZE_MAX - |done|
    case Both(x, y) => Min(RemainingMut(x) + RemainingMut(y), USIZE_MAX)
    case Limited(inner, limit) => Min(RemainingMut(inner), limit)
  }

  /** A slice of unwritten space: which leaf it lies in, as turns to the first (true) or second buffer of each chain,
      and its bounds within the leaf's chunk. */
  datatype Spot = Spot(path: seq<bool>, lo: nat, hi: nat)

  /** The slice that `chunk_mut` returns. */
  function ChunkPlace(s: Sink): (p: Spot)
    requires Sound(s)
    ensures p.lo <= p.hi
  {
    match s
    case Slots(_, spaces) => Spot([], 0, if spaces == [] then 0 else |spaces[0]|)
    case Vector(_, spare) => Spot([], 0, |spare|)
    case Both(x, y) =>
      if RemainingMut(x) > 0 then
        var p := ChunkPlace(x);
        p.(path := [true] + p.path)
      else
        var p := ChunkPlace(y);
        p.(path := [false] + p.path)
    case Limited(inner, limit) =>
      var p := ChunkPlace(inner);
      p.(hi := p.lo + Min(p.hi - p.lo, limit))
  }

  function ChunkLen(s: Sink): nat
    requires Sound(s)
  {
    ChunkPlace(s).hi - ChunkPlace(s).lo
  }

  /** Writes bytes into unwritten space, wherever it lies; a place that does not exist is left alone. */
  function Poke(s: Sink, path: seq<bool>, at: nat, data: seq<byte>): Sink {
    match s
    case Slots(done, spaces) =>
      if spaces != [] && at + |data| <= |spaces[0]| then
        Slots(done, [Overwrite(spaces[0], at, data)] + spaces[1..])
      else s
    case Vector(done, spare) =>
      if at + |data| <= |spare| then Vector(done, Overwrite(spare, at, data)) else s
    case Both(x, y) =>
      if path == [] then s
      else if path[0] then Both(Poke(x, path[1..], at, data), y)
      else Both(x, Poke(y, path[1..], at, data))
    case Limited(inner, limit) => Limited(Poke(inner, path, at, data), limit)
  }

  /** Takes the next bytes of the space as written, whatever they are; none is the panic of moving past it. */
  function AdvanceMut(s: Sink, cnt: nat): Option<Sink>
    requires Sound(s)
  {
    match s
    case Slots(done, spaces) =>
      var r := AdvanceChunks(spaces, cnt);
      if r.Some? && cnt <= |Flat(spaces)| then Some(Slots(done + Flat(spaces)[..cnt], r.value)) else None
    case Vector(done, spare) =>
      if cnt > |spare| then None else Some(Vector(done + spare[..cnt], spare[cnt..]))
    case Both(x, y) =>
      var rem := RemainingMut(x);
      if rem >= cnt && rem != 0 then
        var r := AdvanceMut(x, cnt);
        if r.Some? then Some(Both(r.value, y)) else None
      else
        var r := if rem != 0 then AdvanceMut(x, rem) else Some(x);
        var t := AdvanceMut(y, cnt - rem);
        if r.Some? && t.Some? then Some(Both(r.value, t.value)) else None
    case Limited(inner, limit) =>
      if cnt > limit then None
      else
        var r := AdvanceMut(inner, cnt);
        if r.Some? then Some(Limited(r.value, limit - cnt)) else None
  }

  /** The next bytes of the space, in the order in which advancing takes them. */
  function Held(s: Sink, cnt: nat): seq<byte>
    requires Sound(s)
  {
    match s
    case Slots(_, spaces) => Flat(spaces)[..Min(cnt, |Flat(spaces)|)]
    case Vector(_, spare) => spare[..Min(cnt, |spare|)]
    case Both(x, y) =>
      var n := Min(RemainingMut(x), cnt);
      Held(x, n) + Held(y, cnt - n)
    case Limited(inner, _) => Held(inner, cnt)
  }

  lemma {:induction false} RemainingMutCounts(s: Sink)
    requires Sound(s)
    ensures RemainingMut(s) == Min(Space(ViewOf(s)), USIZE_MAX)
  {
    match s
    case Slots(_, _) =>
    case Vector(_, _) =>
    case Both(x, y) =>
      RemainingMutCounts(x);
      RemainingMutCounts(y);
    case Limited(inner, _) =>
      RemainingMutCounts(inner);
  }

  lemma FillNothing(v: View)
    ensures Fill(v, []) == v
  {
    match v
    case Plain(done, _, _) =>
      assert done + [] == done;
    case BothView(x, y) =>
      FillNothing(x);
      FillNothing(y);
    case LimitedView(inner, _) =>
      FillNothing(inner);
  }

  lemma {:induction false} HeldNothing(s: Sink)
    requires Sound(s)
    ensures Held(s, 0) == []
  {
    match s
    case Slots(_, _) =>
    case Vector(_, _) =>
    case Both(x, y) =>
      HeldNothing(x);
      HeldNothing(y);
    case Limited(inner, _) =>
      HeldNothing(inner);
  }

  /** That a buffer became another one by taking so many bytes of its space. */
  ghost predicate Became(s: Sink, cnt: nat, s': Sink)
    requires Sound(s)
  {
    |Held(s, cnt)| == cnt <= Space(ViewOf(s)) && Sound(s') && ViewOf(s') == Fill(ViewOf(s), Held(s, cnt))
  }

  lemma BecameItself(s: Sink)
    requires Sound(s)
    ensures Became(s, 0, s)
  {
    HeldNothing(s);
    FillNothing(ViewOf(s));
  }

  lemma HeldBoth(x: Sink, y: Sink, cnt: nat, n: nat, rest: nat)
    requires Sound(x) && Sound(y) && n == Min(RemainingMut(x), cnt) && rest == cnt - n
    ensures Held(Both(x, y), cnt) == Held(x, n) + Held(y, rest)
  {
  }

  lemma BothFilled(x: Sink, y: Sink, x': Sink, y': Sink, first: seq<byte>, second: seq<byte>, data: seq<byte>)
    requires Sound(x) && Sound(y) && Sound(x') && Sound(y') && data == first + second
    requires |first| == Min(Space(ViewOf(x)), |data|) && |second| <= Space(ViewOf(y))
    requires ViewOf(x') == Fill(ViewOf(x), first) && ViewOf(y') == Fill(ViewOf(y), second)
    ensures |data| <= Space(ViewOf(Both(x, y))) && ViewOf(Both(x', y')) == Fill(ViewOf(Both(x, y)), data)
  {
    FillBoth(ViewOf(x), ViewOf(y), first, second);
  }

  /** A chain of two buffers that took their parts of the bytes, the first one n of them. */
  lemma BothBecame(x: Sink, y: Sink, cnt: nat, n: nat, x': Sink, y': Sink)
    requires Sound(x) && Sound(y) && n == Min(RemainingMut(x), cnt) && cnt <= USIZE_MAX
    requires Became(x, n, x') && Became(y, cnt - n, y')
    ensures Became(Both(x, y), cnt, Both(x', y'))
  {
    RemainingMutCounts(x);
    var rest := cnt - n;
    HeldBoth(x, y, cnt, n, rest);
    BothFilled(x, y, x', y', Held(x, n), Held(y, rest), Held(Both(x, y), cnt));
  }

  lemma SlotsBecame(done: seq<byte>, spaces: seq<seq<byte>>, cnt: nat)
    requires Sound(Slots(done, spaces)) && AdvanceMut(Slots(done, spaces), cnt).Some?
    ensures Became(Slots(done, spaces), cnt, AdvanceMut(Slots(done, spaces), cnt).value)
  {
    ChunksAdvance(spaces, cnt);
  }

  lemma VectorBecame(done: seq<byte>, spare: seq<byte>, cnt: nat)
    requires Sound(Vector(done, spare)) && cnt <= |spare|
    ensures Became(Vector(done, spare), cnt, Vector(done + spare[..cnt], spare[cnt..]))
  {
  }

  lemma LimitedBecame(s: Sink, limit: nat, cnt: nat, s': Sink)
    requires Sound(Limited(s, limit)) && cnt <= limit && Became(s, cnt, s')
    ensures Became(Limited(s, limit), cnt, Limited(s', limit - cnt))
  {
  }

  /** Advancing writes what the space holds to the plain writer, whatever the chunks. */
  lemma {:induction false} AdvanceFills(s: Sink, cnt: nat)
    requires Sound(s) && cnt <= USIZE_MAX && AdvanceMut(s, cnt).Some?
    ensures Became(s, cnt, AdvanceMut(s, cnt).value)
    decreases s, 1
  {
    match s
    case Slots(done, spaces) =>
      SlotsBecame(done, spaces, cnt);
    case Vector(done, spare) =>
      VectorBecame(done, spare, cnt);
    case Both(x, y) =>
      AdvanceBoth(x, y, cnt, AdvanceMut(s, cnt).value);
    case Limited(inner, limit) =>
      AdvanceFills(inner, cnt);
      LimitedBecame(inner, limit, cnt, AdvanceMut(inner, cnt).value);
  }

  lemma {:induction false} AdvanceBoth(x: Sink, y: Sink, cnt: nat, s': Sink)
    requires Sound(x) && Sound(y) && cnt <= USIZE_MAX && AdvanceMut(Both(x, y), cnt) == Some(s')
    ensures Became(Both(x, y), cnt, s')
    decreases Both(x, y), 0
  {
    var rem := RemainingMut(x);
    if rem >= cnt && rem != 0 {
      AdvanceFills(x, cnt);
      BecameItself(y);
      BothBecame(x, y, cnt, cnt, s'.a, y);
    } else if rem == 0 {
      BecameItself(x);
      AdvanceFills(y, cnt);
      BothBecame(x, y, cnt, 0, x, s'.b);
    } else {
      AdvanceFills(x, rem);
      AdvanceFills(y, cnt - rem);
      BothBecame(x, y, cnt, rem, s'.a, s'.b);
    }
  }

  // ---- The chunk is where the next advance goes ----

  /** Writing into unwritten space changes neither what is written nor how much fits. */
  lemma {:induction false} PokeKeeps(s: Sink, path: seq<bool>, at: nat, data: seq<byte>)
    requires Sound(s)
    ensures Sound(Poke(s, path, at, data)) && ViewOf(Poke(s, path, at, data)) == ViewOf(s)
    ensures RemainingMut(Poke(s, path, at, data)) == RemainingMut(s)
  {
    match s
    case Slots(_, spaces) =>
      if spaces != [] && at + |data| <= |spaces[0]| {
        assert ([Overwrite(spaces[0], at, data)] + spaces[1..])[1..] == spaces[1..];
      }
    case Vector(_, _) =>
    case Both(x, y) =>
      if path != [] {
        PokeKeeps(x, path[1..], at, data);
        PokeKeeps(y, path[1..], at, data);
      }
    case Limited(inner, _) =>
      PokeKeeps(inner, path, at, data);
  }

  /** The sink after data was written to the start of its chunk. */
  function Poked(s: Sink, data: seq<byte>): Sink
    requires Sound(s)
  {
    Poke(s, ChunkPlace(s).path, ChunkPlace(s).lo, data)
  }

  /** Data written to the start of the chunk is what the next advance takes. */
  lemma {:induction false} PokedIsHeld(s: Sink, data: seq<byte>)
    requires Sound(s) && |data| <= ChunkLen(s)
    ensures Sound(Poked(s, data)) && Held(Poked(s, data), |data|) == data
    ensures AdvanceMut(Poked(s, data), |data|).Some?
    decreases s
  {
    PokeKeeps(s, ChunkPlace(s).path, ChunkPlace(s).lo, data);
    match s
    case Slots(_, spaces) =>
      PokedSpaces(spaces, data);
      ChunksAdvance(Poked(s, data).spaces, |data|);
    case Vector(_, spare) =>
      assert Overwrite(spare, 0, data)[..|data|] == data;
    case Both(x, y) =>
      PokedBoth(x, y, data);
      if RemainingMut(x) > 0 {
        ChunkFits(x);
        PokeKeeps(x, ChunkPlace(x).path, ChunkPlace(x).lo, data);
        PokedIsHeld(x, data);
        TakesFirst(Poked(x, data), y, data);
      } else {
        PokedIsHeld(y, data);
        TakesSecond(x, Poked(y, data), data);
      }
    case Limited(inner, _) =>
      PokedIsHeld(inner, data);
  }

  lemma PokedSpaces(spaces: seq<seq<byte>>, data: seq<byte>)
    requires |data| <= if spaces == [] then 0 else |spaces[0]|
    ensures var now := if spaces == [] then [] else [Overwrite(spaces[0], 0, data)] + spaces[1..];
            |Flat(now)| >= |data| && Flat(now)[..|data|] == data
  {
    if spaces != [] {
      var now := [Overwrite(spaces[0], 0, data)] + spaces[1..];
      assert now[1..] == spaces[1..];
      assert Flat(now)[..|data|] == data;
    }
  }

  /** Whether the next advance takes exactly the data. */
  ghost predicate Takes(s: Sink, data: seq<byte>) {
    Sound(s) && Held(s, |data|) == data && AdvanceMut(s, |data|).Some?
  }

  lemma TakesFirst(x: Sink, y: Sink, data: seq<byte>)
    requires Sound(y) && Takes(x, data) && |data| <= RemainingMut(x) != 0
    ensures Takes(Both(x, y), data)
  {
    HeldNothing(y);
  }

  lemma TakesSecond(x: Sink, y: Sink, data: seq<byte>)
    requires Sound(x) && Takes(y, data) && RemainingMut(x) == 0
    ensures Takes(Both(x, y), data)
  {
    HeldNothing(x);
  }

  /** The slice of a chain lies in the buffer whose turn it is. */
  lemma PokedBoth(x: Sink, y: Sink, data: seq<byte>)
    requires Sound(x) && Sound(y)
    ensures Poked(Both(x, y), data) == if RemainingMut(x) > 0 then Both(Poked(x, data), y) else Both(x, Poked(y, data))
    ensures ChunkLen(Both(x, y)) == if RemainingMut(x) > 0 then ChunkLen(x) else ChunkLen(y)
  {
    var p := ChunkPlace(Both(x, y));
    if RemainingMut(x) > 0 {
      assert p.path[1..] == ChunkPlace(x).path;
    } else {
      assert p.path[1..] == ChunkPlace(y).path;
    }
  }

  lemma {:induction false} ChunkFits(s: Sink)
    requires Sound(s)
    ensures ChunkLen(s) <= RemainingMut(s)
  {
    match s
    case Slots(_, _) =>
    case Vector(_, _) =>
    case Both(x, y) =>
      ChunkFits(x);
      ChunkFits(y);
      RemainingMutCounts(s);
      RemainingMutCounts(x);
      RemainingMutCounts(y);
    case Limited(inner, _) =>
      ChunkFits(inner);
  }

  /** The contract between `chunk_mut` and `advance_mut`: data written to the start of the chunk and then advanced
      over is written to the plain writer. */
  lemma ChunkThenAdvance(s: Sink, data: seq<byte>)
    requires Sound(s) && |data| <= ChunkLen(s) && |data| <= USIZE_MAX
    ensures Sound(Poked(s, data)) && AdvanceMut(Poked(s, data), |data|).Some?
    ensures |data| <= Space(ViewOf(s)) && Sound(AdvanceMut(Poked(s, data), |data|).value)
    ensures ViewOf(AdvanceMut(Poked(s, data), |data|).value) == Fill(ViewOf(s), data)
  {
    PokeKeeps(s, ChunkPlace(s).path, ChunkPlace(s).lo, data);
    PokedIsHeld(s, data);
    AdvanceFills(Poked(s, data), |data|);
  }

  // ---- Writing in place ----

  /** Whether the vector that `chunk_mut` comes to is full and cannot grow by the 64 bytes it asks for. */
  predicate Stuck(s: Sink)
    requires Sound(s)
  {
    match s
    case Slots(_, _) => false
    case Vector(done, spare) => spare == [] && |done| + 64 > ISIZE_MAX
    case Both(x, y) => if RemainingMut(x) > 0 then Stuck(x) else Stuck(y)
    case Limited(inner, _) => Stuck(inner)
  }

  lemma {:induction false} StuckCannotGrow(s: Sink)
    requires Sound(s) && Stuck(s)
    ensures !CanGrow(ViewOf(s), 0)
  {
    match s
    case Vector(_, _) =>
    case Both(x, y) =>
      if RemainingMut(x) > 0 {
        StuckCannotGrow(x);
      } else {
        StuckCannotGrow(y);
      }
    case Limited(inner, _) =>
      StuckCannotGrow(inner);
  }

  /** `chunk_mut`: the slice to write to, after a full vector has grown by at least 64 bytes; none is a vector that
      cannot.  What was written does not change, and the slice is empty only when no space is left. */
  method ChunkMut(s: Sink) returns (r: Option<Sink>, place: Spot)
    requires Sound(s)
    ensures r.None? <==> Stuck(s)
    ensures r.Some? ==> Sound(r.value) && ViewOf(r.value) == ViewOf(s) && place == ChunkPlace(r.value)
    ensures r.Some? && Space(ViewOf(s)) > 0 ==> place.lo < place.hi
    decreases s
  {
    RemainingMutCounts(s);
    place := Spot([], 0, 0);
    match s
    case Slots(_, spaces) =>
      r, place := Some(s), Spot([], 0, if spaces == [] then 0 else |spaces[0]|);
    case Vector(done, spare) =>
      if spare != [] {
        return Some(s), Spot([], 0, |spare|);
      }
      if |done| + 64 > ISIZE_MAX {
        return None, place;
      }
      assert |Zeros(64)| == 64;
      var grown: seq<byte> :| 64 <= |grown| <= ISIZE_MAX - |done|;
      r, place := Some(Vector(done, grown)), Spot([], 0, |grown|);
    case Both(x, y) =>
      r, place := ChunkMutOfBoth(x, y);
    case Limited(inner, limit) =>
      var t, p := ChunkMut(inner);
      if t.None? {
        return None, place;
      }
      r, place := Some(Limited(t.value, limit)), p.(hi := p.lo + Min(p.hi - p.lo, limit));
  }

  method ChunkMutOfBoth(x: Sink, y: Sink) returns (r: Option<Sink>, place: Spot)
    requires Sound(x) && Sound(y)
    ensures r.None? <==> Stuck(Both(x, y))
    ensures r.Some? ==> Sound(r.value) && ViewOf(r.value) == ViewOf(Both(x, y)) && place == ChunkPlace(r.value)
    ensures r.Some? && Space(ViewOf(Both(x, y))) > 0 ==> place.lo < place.hi
    decreases Both(x, y), 0
  {
    RemainingMutCounts(x);
    place := Spot([], 0, 0);
    if RemainingMut(x) > 0 {
      var t, p := ChunkMut(x);
      if t.None? {
        return None, place;
      }
      RemainingMutCounts(t.value);
      r, place := Some(Both(t.value, y)), p.(path := [true] + p.path);
    } else {
      var t, p := ChunkMut(y);
      if t.None? {
        return None, place;
      }
      r, place := Some(Both(x, t.value)), p.(path := [false] + p.path);
    }
  }

  function Repeat(val: byte, n: nat): (s: seq<byte>)
    ensures |s| == n
  {
    if n == 0 then [] else Repeat(val, n - 1) + [val]
  }

  lemma {:induction false} RepeatIs(val: byte, n: nat, i: nat)
    requires i < n
    ensures Repeat(val, n)[i] == val
  {
    if i < n - 1 {
      RepeatIs(val, n - 1, i);
    }
  }

  lemma {:induction false} RepeatTail(val: byte, left: nat, n: nat)
    requires n <= left
    ensures Repeat(val, left)[n..] == Repeat(val, left - n)
  {
    if n < left {
      RepeatTail(val, left - 1, n);
    }
  }

  /** That the first n bytes of the data, and nothing else, were written. */
  ghost predicate Wrote(was: View, data: seq<byte>, n: nat, now: View) {
    n <= |data| && n <= Space(was) && now == Fill(was, data[..n])
  }

  lemma WroteNothing(was: View, data: seq<byte>)
    ensures Wrote(was, data, 0, was)
  {
    FillNothing(was);
    assert data[..0] == [];
  }

  lemma TakeTwice(data: seq<byte>, n: nat, cnt: nat)
    requires n + cnt <= |data|
    ensures data[..n] + data[n..][..cnt] == data[..n + cnt] && data[n..][cnt..] == data[n + cnt..]
  {
  }

  /** What was written so far and a part of the rest. */
  lemma WroteMore(was: View, data: seq<byte>, n: nat, now: View, rest: seq<byte>, cnt: nat, later: View)
    requires Wrote(was, data, n, now) && rest == data[n..] && Wrote(now, rest, cnt, later)
    ensures Wrote(was, data, n + cnt, later) && rest[cnt..] == data[n + cnt..]
  {
    WroteLeaves(was, data, n, now);
    TakeTwice(data, n, cnt);
    var first, second := data[..n], rest[..cnt];
    FillTwice(was, first, second);
  }

  lemma WroteLeaves(was: View, data: seq<byte>, n: nat, now: View)
    requires Wrote(was, data, n, now)
    ensures Space(now) == Space(was) - n
  {
    FillTakesSpace(was, data[..n]);
  }

  lemma CannotGrow(was: View, data: seq<byte>, n: nat, s: Sink)
    requires Sound(s) && Wrote(was, data, n, ViewOf(s)) && Stuck(s)
    ensures !CanGrow(was, |data|)
  {
    StuckCannotGrow(s);
    if CanGrow(was, |data|) {
      FillCanGrow(was, data[..n], |data|);
      CanGrowLess(ViewOf(s), |data| - n, 0);
    }
  }

  /** One turn of a write loop: as much of the data as the chunk takes.  Nothing is written only if no data or no
      space is left. */
  method WriteChunk(s: Sink, data: seq<byte>) returns (r: Option<Sink>, cnt: nat)
    requires Sound(s) && |data| <= USIZE_MAX
    ensures r.None? <==> Stuck(s)
    ensures r.Some? ==> Sound(r.value) && Wrote(ViewOf(s), data, cnt, ViewOf(r.value))
    ensures r.Some? && cnt == 0 ==> data == [] || Space(ViewOf(s)) == 0
  {
    cnt := 0;
    var place;
    r, place := ChunkMut(s);
    if r.None? {
      return;
    }
    cnt := Min(|data|, place.hi - place.lo);
    ChunkThenAdvance(r.value, data[..cnt]);
    var written := Poke(r.value, place.path, place.lo, data[..cnt]);
    r := AdvanceMut(written, cnt);
  }

  /** One turn of the loop of `put`: as much as fits both chunks.  The first n bytes of everything came before. */
  method MoveChunk(s: Sink, src: Buf, ghost was: View, ghost all: seq<byte>, ghost n: nat)
    returns (r: Option<Sink>, rest: Buf, cnt: nat)
    requires Sound(s) && WellFormed(src) && Wrote(was, all, n, ViewOf(s)) && Bytes(src) == all[n..] != []
    ensures r.None? <==> Stuck(s)
    ensures r.None? ==> !CanGrow(was, |all|)
    ensures r.Some? ==> Sound(r.value) && Wrote(was, all, n + cnt, ViewOf(r.value))
    ensures r.Some? ==> WellFormed(rest) && Bytes(rest) == all[n + cnt..] && (Remaining(rest) > 0 <==> n + cnt < |all|)
    ensures r.Some? && cnt == 0 ==> Space(was) == n
  {
    ChunkIsPrefix(src);
    WroteLeaves(was, all, n, ViewOf(s));
    var chunk := Chunk(src);
    r, cnt := WriteChunk(s, chunk);
    rest := src;
    if r.None? {
      CannotGrow(was, all, n, s);
      return;
    }
    assert chunk[..cnt] == Bytes(src)[..cnt];
    WroteMore(was, all, n, ViewOf(s), Bytes(src), cnt, ViewOf(r.value));
    AdvanceDrops(src, cnt);
    rest := Advance(src, cnt).value;
    RemainingCounts(rest);
  }

  /** How a `put` ends: all written, a panic, or a loop that goes on forever because no space is left for the rest. */
  datatype Ending = Written | Panicked | Spinning

  /** A buffer that is written in place.  A write that fails is a panic; `n` counts the bytes written by then. */
  class Writer {
    var sink: Sink

    ghost predicate Valid()
      reads this
    {
      Sound(sink)
    }

    ghost function State(): View
      reads this
      requires Valid()
    {
      ViewOf(sink)
    }

    constructor (s: Sink)
      requires Sound(s)
      ensures Valid() && sink == s
    {
      sink := s;
    }

    /** Writes a slice, chunk by chunk.  Without the space nothing changes; with it, the write fails only on a vector
        that cannot grow. */
    method PutSlice(src: seq<byte>) returns (ok: bool, ghost n: nat)
      requires Valid() && |src| <= USIZE_MAX
      modifies this
      ensures Valid() && Wrote(old(State()), src, n, State()) && (ok <==> n == |src|)
      ensures |src| > Space(old(State())) ==> n == 0 && sink == old(sink)
      ensures !ok && |src| <= Space(old(State())) ==> Stuck(sink) && !CanGrow(old(State()), |src|)
    {
      RemainingMutCounts(sink);
      n := 0;
      WroteNothing(State(), src);
      if RemainingMut(sink) < |src| {
        return false, 0;
      }
      var rest := src;
      while rest != []
        invariant Valid() && Wrote(old(State()), src, n, State()) && rest == src[n..]
        decreases |rest|
      {
        WroteLeaves(old(State()), src, n, State());
        var r, cnt := WriteChunk(sink, rest);
        if r.None? {
          CannotGrow(old(State()), src, n, sink);
          return false, n;
        }
        WroteMore(old(State()), src, n, State(), rest, cnt, ViewOf(r.value));
        sink, rest, n := r.value, rest[cnt..], n + cnt;
      }
      ok := true;
    }

    /** Writes everything a reader has left, over the chunks of both.  The check before the loop compares counts that
        stop at the largest machine word: past it, the loop can run out of space. */
    method Put(src: Buf) returns (end: Ending, rest: Buf, ghost n: nat)
      requires Valid() && WellFormed(src)
      modifies this
      ensures Valid() && Wrote(old(State()), Bytes(src), n, State()) && (end.Written? <==> n == |Bytes(src)|)
      ensures WellFormed(rest) && Bytes(rest) == Bytes(src)[n..]
      ensures Min(|Bytes(src)|, USIZE_MAX) > Space(old(State())) ==> end.Panicked? && n == 0 && sink == old(sink)
      ensures end.Panicked? && Min(|Bytes(src)|, USIZE_MAX) <= Space(old(State())) ==>
                Stuck(sink) && !CanGrow(old(State()), |Bytes(src)|)
      ensures end.Spinning? ==> USIZE_MAX <= n == Space(old(State())) < |Bytes(src)| && !Stuck(sink)
    {
      rest, n := src, 0;
      ghost var was, all := State(), Bytes(src);
      RemainingMutCounts(sink);
      RemainingCounts(src);
      WroteNothing(was, all);
      if RemainingMut(sink) < Remaining(src) {
        return Panicked, src, 0;
      }
      while Remaining(rest) > 0
        invariant Valid() && Wrote(was, all, n, State())
        invariant WellFormed(rest) && Bytes(rest) == all[n..] && (Remaining(rest) > 0 <==> n < |all|)
        decreases |all| - n
      {
        var r, rest', cnt := MoveChunk(sink, rest, was, all, n);
        if r.None? {
          return Panicked, rest, n;
        }
        if cnt == 0 {
          return Spinning, rest, n;
        }
        sink, rest, n := r.value, rest', n + cnt;
      }
      end := Written;
    }

    /** Writes one byte over and over. */
    method PutBytes(val: byte, cnt: nat) returns (ok: bool, ghost n: nat)
      requires Valid() && cnt <= USIZE_MAX
      modifies this
      ensures Valid() && Wrote(old(State()), Repeat(val, cnt), n, State()) && (ok <==> n == cnt)
      ensures cnt > Space(old(State())) ==> n == 0 && sink == old(sink)
      ensures !ok && cnt <= Space(old(State())) ==> Stuck(sink) && !CanGrow(old(State()), cnt)
    {
      RemainingMutCounts(sink);
      n := 0;
      ghost var all := Repeat(val, cnt);
      WroteNothing(State(), all);
      if RemainingMut(sink) < cnt {
        return false, 0;
      }
      var left := cnt;
      while left > 0
        invariant Valid() && Wrote(old(State()), all, n, State())
        invariant 0 <= left && n + left == cnt && all[n..] == Repeat(val, left)
      {
        WroteLeaves(old(State()), all, n, State());
        var r, len := WriteChunk(sink, Repeat(val, left));
        if r.None? {
          CannotGrow(old(State()), all, n, sink);
          return false, n;
        }
        WroteMore(old(State()), all, n, State(), Repeat(val, left), len, ViewOf(r.value));
        RepeatTail(val, left, len);
        sink, left, n := r.value, left - len, n + len;
      }
      ok := true;
    }

    /** Writes an unsigned integer in up to eight bytes. */
    method PutUint(order: Order, v: nat, k: nat) returns (ok: bool, ghost n: nat)
      requires Valid() && v < WORD
      modifies this
      ensures k > 8 ==> !ok && n == 0 && sink == old(sink)
      ensures Valid() && (k <= 8 ==> Wrote(old(State()), EncodeUint(order, v, k), n, State()) && (ok <==> n == k))
      ensures k > Space(old(State())) ==> n == 0 && sink == old(sink)
      ensures !ok && k <= 8 && k <= Space(old(State())) ==> Stuck(sink) && !CanGrow(old(State()), k)
    {
      if k > 8 {
        return false, 0;
      }
      ok, n := PutSlice(EncodeUint(order, v, k));
    }

    /** Writes a signed integer in up to eight bytes. */
    method PutInt(order: Order, v: int, k: nat) returns (ok: bool, ghost n: nat)
      requires Valid() && Within(v, HALF)
      modifies this
      ensures k > 8 ==> !ok && n == 0 && sink == old(sink)
      ensures Valid()
      ensures k <= 8 ==>
                Wrote(old(State()), EncodeUint(order, Unsigned(v), k), n, State()) && (ok <==> n == k)
      ensures k > Space(old(State())) ==> n == 0 && sink == old(sink)
      ensures !ok && k <= 8 && k <= Space(old(State())) ==> Stuck(sink) && !CanGrow(old(State()), k)
    {
      ok, n := PutUint(order, Unsigned(v), k);
    }
  }

  /** A signed integer written in k bytes, read back from the bytes that arrived, is the integer exactly when it
      fits. */
  lemma WrittenIntReadsBack(order: Order, n: int, k: nat, was: View)
    requires 1 <= k <= 8 && k <= Space(was)
    ensures var arrived := Delivered(was, Fill(was, EncodeUint(order, Unsigned(n), k)));
            |arrived| == k && (SignExtend(Decode(order, arrived), k) == n <==> FitsBytes(n, k))
  {
    var data := EncodeUint(order, Unsigned(n), k);
    FillDelivers(was, data);
    DecodeUintIsDecode(order, data);
    IntRoundTrip(order, n, k);
  }

  /** Written through any nesting of sinks and read back across any cut of the bytes that arrived. */
  method WriteThenRead(w: Writer, order: Order, v: int, k: nat, cut: nat) returns (r: Option<int>)
    requires w.Valid() && Within(v, HALF) && 1 <= k <= 8 && cut <= k
    modifies w
    ensures w.Valid()
    ensures r.Some? ==> (r.value == v <==> FitsBytes(v, k))
    ensures k > Space(old(w.State())) ==> r.None? && w.sink == old(w.sink)
    ensures r.None? && k <= Space(old(w.State())) ==> Stuck(w.sink) && !CanGrow(old(w.State()), k)
  {
    ghost var was, data := w.State(), EncodeUint(order, Unsigned(v), k);
    var before := w.sink;
    var ok, n := w.PutInt(order, v, k);
    if !ok {
      return None;
    }
    WrittenIntReadsBack(order, v, k, was);
    var arrived := Delivered(ViewOf(before), ViewOf(w.sink));
    assert arrived == Delivered(was, Fill(was, data)) by {
      assert data[..k] == data;
    }
    r := ReadCut(arrived, order, k, cut);
  }

  /** Reads an integer that a cut divides. */
  method ReadCut(arrived: seq<byte>, order: Order, k: nat, cut: nat) returns (r: Option<int>)
    requires 1 <= k == |arrived| <= 8 && cut <= k
    ensures r == Some(SignExtend(Decode(order, arrived), k))
  {
    var b := Chain(Pieces(arrived[..cut]), Pieces(arrived[cut..]));
    assert Bytes(b) == arrived;
    var reader := new Reader(b);
    r := reader.GetInt(order, k);
    assert arrived[..k] == arrived;
  }

  /** A buffer with one byte per chunk. */
  function Pieces(s: seq<byte>): (b: Buf)
    requires |s| <= USIZE_MAX
    ensures WellFormed(b) && Bytes(b) == s
  {
    SinglesAreFlat(s);
    Leaf(Singles(s))
  }

  function Singles(s: seq<byte>): (r: seq<seq<byte>>)
    ensures forall i :: 0 <= i < |r| ==> r[i] != []
  {
    if s == [] then [] else [[s[0]]] + Singles(s[1..])
  }

  lemma {:induction false} SinglesAreFlat(s: seq<byte>)
    ensures Flat(Singles(s)) == s
  {
    if s != [] {
      SinglesAreFlat(s[1..]);
      assert Singles(s)[1..] == Singles(s[1..]);
    }
  }
}
