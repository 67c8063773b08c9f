/**
 * The fixed-capacity circular store of key samples (src/ring.rs).
 *
 * The store is a vector of booleans with two cursors. `start` is the oldest
 * visible slot; `end` is the slot one behind `start` (modulo the length), which
 * receives the next sample. Iteration walks from `start` up to, but not
 * including, `end`, so only `len - 1` of the `len` slots are ever visible.
 */
module Ring {
  import opened Options

  /** The value held by a `RingBuffer`: its slots and its two cursors. */
  datatype RingState = RingState(buf: seq<bool>, start: nat, end: nat)

  /** The cursor invariant that construction establishes and `sample` keeps:
      `end == (start + len - 1) % len`, and the slot under `end` is clear. */
  predicate Invariant(r: RingState) {
    && |r.buf| > 0
    && r.start < |r.buf|
    && r.end == Advance(r.start, |r.buf| - 1, |r.buf|)
    && !r.buf[r.end]
  }

  /** Physical slot reached from slot `i` after `k < n` steps of `(cur + 1) % n`. */
  function Advance(i: nat, k: nat, n: nat): (j: nat)
    requires i < n && k < n
    ensures j < n
  {
    if i + k < n then i + k else i + k - n
  }

  /** The single wrap-around step of the source's `% len` cursor arithmetic. */
  lemma ModOnce(i: int, n: int)
    requires 0 < n && 0 <= i < 2 * n
    ensures i % n == if i < n then i else i - n
  {
  }

  /** `count` slots read from physical index `from` onwards, wrapping around. */
  function Span(buf: seq<bool>, from: nat, count: nat): (s: seq<bool>)
    requires from < |buf| && count <= |buf|
    ensures |s| == count
  {
    seq(count, k requires 0 <= k < count => buf[Advance(from, k, |buf|)])
  }

  /** Number of `(cur + 1) % n` steps that lead from `from` to `to`. */
  function Dist(from: nat, to: nat, n: nat): (d: nat)
    requires from < n && to < n
    ensures d < n && Advance(from, d, n) == to
  {
    if from <= to then to - from else n - from + to
  }

  /** What an iterator cursor `cur` yields before it meets `stop`: the value
      under the cursor, then the rest after the step `(cur + 1) % len`. */
  function Walk(buf: seq<bool>, cur: nat, stop: nat): seq<bool>
    requires cur < |buf| && stop < |buf|
    decreases Dist(cur, stop, |buf|)
  {
    ModOnce(cur + 1, |buf|);
    if cur == stop then [] else [buf[cur]] + Walk(buf, (cur + 1) % |buf|, stop)
  }

  /** One step of a cursor that has not met `stop`: it yields `buf[cur]`
      and comes closer to `stop`. */
  lemma WalkStep(buf: seq<bool>, cur: nat, stop: nat)
    requires cur < |buf| && stop < |buf| && cur != stop
    ensures (cur + 1) % |buf| < |buf|
    ensures Walk(buf, cur, stop) == [buf[cur]] + Walk(buf, (cur + 1) % |buf|, stop)
    ensures Dist((cur + 1) % |buf|, stop, |buf|) < Dist(cur, stop, |buf|)
  {
    ModOnce(cur + 1, |buf|);
  }

  /** The drain-loop invariant `taken + Walk(..) == all` survives one step. */
  lemma DrainStep(taken: seq<bool>, buf: seq<bool>, cur: nat, stop: nat, all: seq<bool>)
    requires cur < |buf| && stop < |buf| && cur != stop
    requires taken + Walk(buf, cur, stop) == all
    ensures (cur + 1) % |buf| < |buf|
    ensures taken + [buf[cur]] + Walk(buf, (cur + 1) % |buf|, stop) == all
    ensures Dist((cur + 1) % |buf|, stop, |buf|) < Dist(cur, stop, |buf|)
  {
    WalkStep(buf, cur, stop);
  }

  /** The walk reads `Dist(cur, stop)` consecutive slots. */
  lemma {:induction false} WalkIsSpan(buf: seq<bool>, cur: nat, stop: nat)
    requires cur < |buf| && stop < |buf|
    ensures Walk(buf, cur, stop) == Span(buf, cur, Dist(cur, stop, |buf|))
    decreases Dist(cur, stop, |buf|)
  {
    var n := |buf|;
    if cur != stop {
      var next := (cur + 1) % n;
      ModOnce(cur + 1, n);
      WalkIsSpan(buf, next, stop);
      var d := Dist(cur, stop, n);
      var w, w' := Span(buf, cur, d), Span(buf, next, d - 1);
      forall k | 0 <= k < d
        ensures w[k] == ([buf[cur]] + w')[k]
      {
        if k > 0 {
          assert Advance(next, k - 1, n) == Advance(cur, k, n);
        }
      }
      assert w == [buf[cur]] + w';
    }
  }

  /** The slots that `iter` yields, oldest first: `len - 1` of them. */
  function Visible(r: RingState): (s: seq<bool>)
    requires Invariant(r)
    ensures |s| == |r.buf| - 1
  {
    Span(r.buf, r.start, |r.buf| - 1)
  }

  lemma VisibleIsWalk(r: RingState)
    requires Invariant(r)
    ensures Visible(r) == Walk(r.buf, r.start, r.end)
  {
    var n := |r.buf|;
    assert Dist(r.start, r.end, n) == n - 1;
    WalkIsSpan(r.buf, r.start, r.end);
  }

  /** The state `RingBuffer::new(n)` builds. */
  function Initial(n: nat): (r: RingState)
    requires n > 0
    ensures Invariant(r) && |r.buf| == n
    ensures Visible(r) == seq(n - 1, _ => false)
  {
    RingState(seq(n, _ => false), 0, n - 1)
  }

  /** The state after `sample(pressed)`. */
  function Sampled(r: RingState, pressed: bool): (r': RingState)
    requires Invariant(r)
    ensures Invariant(r') && |r'.buf| == |r.buf|
    ensures r'.start == (r.start + 1) % |r.buf| && r'.end == r.start
    ensures !r'.buf[r.start]
    ensures |r.buf| > 1 ==> r'.buf[r.end] == pressed
    ensures forall i :: 0 <= i < |r.buf| && i != r.start && i != r.end ==> r'.buf[i] == r.buf[i]
  {
    var n := |r.buf|;
    ModOnce(r.start + 1, n);
    ModOnce(r.end + 1, n);
    RingState(r.buf[r.end := pressed][r.start := false], (r.start + 1) % n, (r.end + 1) % n)
  }

  /** The state after sampling each of `ps` in order. */
  function SampleAll(r: RingState, ps: seq<bool>): (r': RingState)
    requires Invariant(r)
    ensures Invariant(r') && |r'.buf| == |r.buf|
    decreases |ps|
  {
    if ps == [] then r else SampleAll(Sampled(r, ps[0]), ps[1..])
  }

  lemma SampleAllSnoc(r: RingState, ps: seq<bool>, p: bool)
    requires Invariant(r)
    ensures SampleAll(r, ps + [p]) == Sampled(SampleAll(r, ps), p)
    decreases |ps|
  {
    if ps != [] {
      assert (ps + [p])[1..] == ps[1..] + [p];
      SampleAllSnoc(Sampled(r, ps[0]), ps[1..], p);
    }
  }

  /** A sample drops the oldest visible value and appends the new one. */
  lemma {:induction false} SampleShiftsVisible(r: RingState, pressed: bool)
    requires Invariant(r) && |r.buf| >= 2
    ensures Visible(Sampled(r, pressed)) == Visible(r)[1..] + [pressed]
  {
    var n := |r.buf|;
    var r' := Sampled(r, pressed);
    var v, v' := Visible(r), Visible(r');
    forall k | 0 <= k < n - 1
      ensures v'[k] == (v[1..] + [pressed])[k]
    {
      assert Advance(r'.start, k, n) == Advance(r.start, k + 1, n);
      if k < n - 2 {
        assert Advance(r.start, k + 1, n) != r.start;
        assert Advance(r.start, k + 1, n) != r.end;
      } else {
        assert Advance(r.start, k + 1, n) == r.end;
      }
    }
  }

  lemma AppendAfterDrop(v: seq<bool>, p: bool, rest: seq<bool>)
    requires |v| >= 1
    ensures v[1..] + [p] + rest == (v + ([p] + rest))[1..]
  {
  }

  lemma DropTwice(x: seq<bool>, k: nat)
    requires 1 + k <= |x|
    ensures x[1..][k..] == x[1 + k..]
  {
  }

  /** One sample, followed by any further values. */
  lemma SlideOnce(r: RingState, p: bool, rest: seq<bool>)
    requires Invariant(r)
    ensures Visible(Sampled(r, p)) + rest == (Visible(r) + ([p] + rest))[1..]
  {
    if |r.buf| >= 2 {
      SampleShiftsVisible(r, p);
      AppendAfterDrop(Visible(r), p, rest);
    }
  }

  /** The visible window is always the last `len - 1` values fed to `sample`. */
  lemma {:induction false} SlidingWindow(r: RingState, ps: seq<bool>)
    requires Invariant(r)
    ensures Visible(SampleAll(r, ps)) == (Visible(r) + ps)[|ps|..]
    decreases |ps|
  {
    if ps != [] {
      var r1, rest := Sampled(r, ps[0]), ps[1..];
      SlidingWindow(r1, rest);
      assert ps == [ps[0]] + rest;
      SlideOnce(r, ps[0], rest);
      DropTwice(Visible(r) + ps, |rest|);
    }
  }

  /** `len` samples of a held key fill the whole visible window with `true`. */
  lemma HeldKeyFillsWindow(r: RingState, k: nat)
    requires Invariant(r) && k >= |r.buf| - 1
    ensures Visible(SampleAll(r, seq(k, _ => true))) == seq(|r.buf| - 1, _ => true)
  {
    SlidingWindow(r, seq(k, _ => true));
  }

  /** `sample(false)` clears the oldest slot and changes no other slot. */
  lemma ReleasedSampleClearsOldest(r: RingState)
    requires Invariant(r)
    ensures Sampled(r, false).buf == r.buf[r.start := false]
  {
  }

  /** What `window(size, offset)` yields. */
  function WindowOf(r: RingState, size: nat, offset: nat): (s: seq<bool>)
    requires Invariant(r) && size <= |r.buf|
    ensures |s| == if size == |r.buf| then 0 else size
  {
    var n := |r.buf|;
    if size == n then [] else Span(r.buf, (r.start + offset + 1) % n, size)
  }

  lemma WindowIsWalk(r: RingState, size: nat, offset: nat)
    requires Invariant(r) && size <= |r.buf|
    ensures var n := |r.buf|;
            var cur := (r.start + offset + 1) % n;
            WindowOf(r, size, offset) == Walk(r.buf, cur, (cur + size) % n)
  {
    var n := |r.buf|;
    var cur := (r.start + offset + 1) % n;
    ModOnce(cur + size, n);
    WalkIsSpan(r.buf, cur, (cur + size) % n);
    if size < n {
      assert Dist(cur, (cur + size) % n, n) == size;
    }
  }

  /** A window that fits inside the visible slots is the slice of them that
      starts `offset + 1` positions after the oldest. */
  lemma WindowInsideVisible(r: RingState, size: nat, offset: nat)
    requires Invariant(r) && offset + 1 + size <= |r.buf| - 1
    ensures WindowOf(r, size, offset) == Visible(r)[offset + 1 .. offset + 1 + size]
  {
    var n := |r.buf|;
    var w := WindowOf(r, size, offset);
    ModOnce(r.start + offset + 1, n);
    forall k | 0 <= k < size
      ensures w[k] == Visible(r)[offset + 1 + k]
    {
      assert Advance((r.start + offset + 1) % n, k, n) == Advance(r.start, offset + 1 + k, n);
    }
  }

  /** The Rust `RingBuffer` (src/ring.rs:2-6): slots updated in place. */
  class RingBuffer {
    const buf: array<bool>
    var start: nat
    var end: nat

    ghost function Model(): RingState
      reads this, buf
    {
      RingState(buf[..], start, end)
    }

    ghost predicate Valid()
      reads this, buf
    {
      Invariant(Model())
    }

    /** `RingBuffer::new(points)`; `points - 1` underflows for 0 points. */
    constructor (points: nat)
      requires points > 0
      ensures Valid() && fresh(buf) && Model() == Initial(points)
    {
      buf := new bool[points](_ => false);
      start, end := 0, points - 1;
    }

    function Len(): (n: nat)
      requires Valid()
      reads this, buf
      ensures n == |Model().buf| && n > 0
    {
      buf.Length
    }

    /** `Index`: the physical slot, which is not a logical window position. */
    function At(index: nat): (b: bool)
      requires index < buf.Length
      reads buf
      ensures b == buf[..][index]
    {
      buf[index]
    }

    method Sample(pressed: bool)
      requires Valid()
      modifies this, buf
      ensures Valid() && Model() == Sampled(old(Model()), pressed)
    {
      ghost var before := Model();
      buf[end] := pressed;
      buf[start] := false;
      start := (start + 1) % buf.Length;
      end := (end + 1) % buf.Length;
      ModOnce(before.start + 1, buf.Length);
      ModOnce(before.end + 1, buf.Length);
      assert buf[..] == before.buf[before.end := pressed][before.start := false];
    }

    method Iter() returns (it: RingBufferIter)
      requires Valid()
      ensures fresh(it) && it.Valid() && it.ring == this && it.cur == start
      ensures it.Remaining() == Visible(Model())
    {
      it := new RingBufferIter(this);
      VisibleIsWalk(Model());
    }

    method Window(size: nat, offset: nat) returns (it: RingBufferWindowIter)
      requires Valid() && size <= buf.Length
      ensures fresh(it) && it.Valid() && it.ring == this
      ensures it.cur == (start + offset + 1) % buf.Length && it.end == (it.cur + size) % buf.Length
      ensures it.Remaining() == WindowOf(Model(), size, offset)
    {
      var cur := (start + offset + 1) % buf.Length;
      var stop := (cur + size) % buf.Length;
      it := new RingBufferWindowIter(this, cur, stop);
      WindowIsWalk(Model(), size, offset);
    }

    /** Drains `iter()`, as the renderers do with `collect` and `enumerate`. */
    method Snapshot() returns (samples: seq<bool>)
      requires Valid()
      ensures samples == Visible(Model())
    {
      var it := Iter();
      ghost var slots, all := buf[..], it.Remaining();
      samples := [];
      var done := false;
      while !done
        invariant it.Valid() && it.ring == this
        invariant samples + Walk(slots, it.cur, end) == all
        invariant done ==> it.cur == end
        decreases Dist(it.cur, end, buf.Length), !done
      {
        ghost var before := it.cur;
        var item := it.Next();
        match item {
          case None => done := true;
          case Some(b) =>
            DrainStep(samples, slots, before, end, all);
            samples := samples + [b];
        }
      }
    }

    /** Drains `window(size, offset)`. */
    method CollectWindow(size: nat, offset: nat) returns (samples: seq<bool>)
      requires Valid() && size <= buf.Length
      ensures samples == WindowOf(Model(), size, offset)
    {
      var it := Window(size, offset);
      ghost var slots, all := buf[..], it.Remaining();
      samples := [];
      var done := false;
      while !done
        invariant it.Valid() && it.ring == this
        invariant samples + Walk(slots, it.cur, it.end) == all
        invariant done ==> it.cur == it.end
        decreases Dist(it.cur, it.end, buf.Length), !done
      {
        ghost var before := it.cur;
        var item := it.Next();
        match item {
          case None => done := true;
          case Some(b) =>
            DrainStep(samples, slots, before, it.end, all);
            samples := samples + [b];
        }
      }
    }
  }

  /** `Index` addresses physical slots, not positions in the trace: the `k`-th
      visible sample, oldest first, sits `k` slots after `start`, and the one
      slot that is never visible, `end`, is always clear. */
  lemma AtIsVisible(b: RingBuffer, k: nat)
    requires b.Valid() && k < b.buf.Length - 1
    ensures Advance(b.start, k, b.buf.Length) < b.buf.Length
    ensures Visible(b.Model())[k] == b.At(Advance(b.start, k, b.buf.Length))
    ensures b.end < b.buf.Length && !b.At(b.end)
  {
  }

  /** `RingBufferIter`: a cursor that stops at the buffer's own `end`. */
  class RingBufferIter {
    const ring: RingBuffer
    var cur: nat

    ghost predicate Valid()
      reads this, ring, ring.buf
    {
      ring.Valid() && cur < ring.buf.Length
    }

    /** The values the remaining calls of `Next` yield. */
    ghost function Remaining(): seq<bool>
      requires Valid()
      reads this, ring, ring.buf
    {
      Walk(ring.buf[..], cur, ring.end)
    }

    constructor (ring: RingBuffer)
      requires ring.Valid()
      ensures Valid() && this.ring == ring && cur == ring.start
    {
      this.ring := ring;
      cur := ring.start;
    }

    method Next() returns (item: Option<bool>)
      requires Valid()
      modifies this
      ensures Valid()
      ensures old(cur) == ring.end ==> item == None && cur == old(cur)
      ensures old(cur) != ring.end ==>
                item == Some(ring.buf[old(cur)]) && cur == (old(cur) + 1) % ring.buf.Length
    {
      if cur != ring.end {
        item := Some(ring.buf[cur]);
        cur := (cur + 1) % ring.buf.Length;
      } else {
        item := None;
      }
    }
  }

  /** `RingBufferWindowIter`: a cursor that stops at its own `end`. */
  class RingBufferWindowIter {
    const ring: RingBuffer
    var cur: nat
    const end: nat

    ghost predicate Valid()
      reads this, ring, ring.buf
    {
      ring.Valid() && cur < ring.buf.Length && end < ring.buf.Length
    }

    ghost function Remaining(): seq<bool>
      requires Valid()
      reads this, ring, ring.buf
    {
      Walk(ring.buf[..], cur, end)
    }

    constructor (ring: RingBuffer, cur: nat, end: nat)
      requires ring.Valid() && cur < ring.buf.Length && end < ring.buf.Length
      ensures Valid() && this.ring == ring && this.cur == cur && this.end == end
    {
      this.ring := ring;
      this.cur := cur;
      this.end := end;
    }

    method Next() returns (item: Option<bool>)
      requires Valid()
      modifies this
      ensures Valid()
      ensures old(cur) == end ==> item == None && cur == old(cur)
      ensures old(cur) != end ==>
                item == Some(ring.buf[old(cur)]) && cur == (old(cur) + 1) % ring.buf.Length
    {
      if cur != end {
        item := Some(ring.buf[cur]);
        cur := (cur + 1) % ring.buf.Length;
      } else {
        item := None;
      }
    }
  }
}
