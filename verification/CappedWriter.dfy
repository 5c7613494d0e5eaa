/** The writers an archive is packed through: a cap on what reaches the output, then a hash and a size counter that
    see a write only when the cap let all of it through. */
module CappedWriter {
  import opened Bytes

  datatype WriteError = TarballTooLarge | SinkFailed | ShortWrite

  /** The output, the capped writer's count of it, and what went into the hash and the size counter. */
  datatype Pipe = Pipe(sink: Bytes, capped: nat, hashed: Bytes, size: nat)

  const EMPTY := Pipe([], 0, [], 0)

  function Min(a: int, b: int): int {
    if a < b then a else b
  }

  // ---- the writers ----

  /** An output that takes as many bytes of a write as it has room for, and reports a failure if that is not all. */
  class Sink {
    var data: Bytes

    constructor ()
      ensures data == []
    {
      data := [];
    }

    method Write(p: Bytes, room: nat) returns (n: nat, err: Option<WriteError>)
      modifies this
      ensures n == Min(|p|, room) && data == old(data) + p[..n]
      ensures err == if n < |p| then Some(SinkFailed) else None
    {
      n := if room < |p| then room else |p|;
      data := data + p[..n];
      err := if n < |p| then Some(SinkFailed) else None;
    }
  }

  class CapWriter {
    const w: Sink
    const max: int
    var bytes: nat

    constructor (w: Sink, max: int)
      ensures this.w == w && this.max == max && bytes == 0
    {
      this.w, this.max, bytes := w, max, 0;
    }

    /** With a cap, what is left of it is written and the rest refused; a full cap refuses even an empty write. */
    method Write(p: Bytes, room: nat) returns (n: nat, err: Option<WriteError>)
      requires max > 0 ==> bytes <= max
      modifies this, w
      ensures max > 0 ==> bytes <= max
      ensures n == (if max <= 0 then Min(|p|, room) else Min(Min(|p|, max - old(bytes)), room))
      ensures w.data == old(w.data) + p[..n]
      ensures bytes == if max <= 0 then old(bytes) else old(bytes) + n
      ensures err == Verdict(max, old(bytes), p, room)
    {
      if max <= 0 {
        n, err := w.Write(p, room);
        return;
      }
      var remaining := max - bytes;
      if remaining <= 0 {
        assert p[..0] == [];
        return 0, Some(TarballTooLarge);
      }
      if |p| > remaining {
        n, err := w.Write(p[..remaining], room);
        assert p[..remaining][..n] == p[..n];
        bytes := bytes + n;
        if err.Some? {
          return;
        }
        return n, Some(TarballTooLarge);
      }
      n, err := w.Write(p, room);
      bytes := bytes + n;
    }
  }

  /** What a capped write reports. */
  function Verdict(max: int, bytes: nat, p: Bytes, room: nat): Option<WriteError> {
    if max <= 0 then (if room < |p| then Some(SinkFailed) else None)
    else if max <= bytes then Some(TarballTooLarge)
    else if room < Min(|p|, max - bytes) then Some(SinkFailed)
    else if |p| > max - bytes then Some(TarballTooLarge)
    else None
  }

  /** How much of a write reaches the output. */
  function Taken(max: int, bytes: nat, p: Bytes, room: nat): (n: nat)
    requires max > 0 ==> bytes <= max
    ensures n <= |p|
  {
    if max <= 0 then Min(|p|, room) else Min(Min(|p|, max - bytes), room)
  }

  predicate Sound(max: int, s: Pipe) {
    max > 0 ==> s.capped <= max
  }

  /** One write through all three writers. */
  function Step(max: int, s: Pipe, p: Bytes, room: nat): (next: Pipe)
    requires Sound(max, s)
    ensures Sound(max, next)
  {
    var n := Taken(max, s.capped, p, room);
    var ok := Verdict(max, s.capped, p, room).None?;
    Pipe(s.sink + p[..n], if max <= 0 then s.capped else s.capped + n,
         if ok then s.hashed + p else s.hashed, if ok then s.size + |p| else s.size)
  }

  class MultiWriter {
    const cap: CapWriter
    var hashed: Bytes
    var size: nat

    constructor (out: Sink, max: int)
      ensures fresh(cap) && cap.w == out && cap.max == max && cap.bytes == 0 && hashed == [] && size == 0
    {
      cap := new CapWriter(out, max);
      hashed, size := [], 0;
    }

    function State(): Pipe
      reads this, cap, cap.w
    {
      Pipe(cap.w.data, cap.bytes, hashed, size)
    }

    /** The first writer's error keeps the write from the other two. */
    method Write(p: Bytes, room: nat) returns (n: nat, err: Option<WriteError>)
      requires Sound(cap.max, State())
      modifies this, cap, cap.w
      ensures Sound(cap.max, State())
      ensures State() == Step(cap.max, old(State()), p, room)
      ensures err == Verdict(cap.max, old(cap.bytes), p, room)
      ensures err.None? ==> n == |p|
    {
      n, err := cap.Write(p, room);
      if err.Some? {
        return;
      }
      if n != |p| {
        return n, Some(ShortWrite);
      }
      hashed := hashed + p;
      size := size + |p|;
    }
  }

  // ---- any number of writes ----

  /** Writes go on even after one has failed; the output here always has room. */
  function Writes(max: int, s: Pipe, ps: seq<Bytes>): (next: Pipe)
    requires Sound(max, s)
    ensures Sound(max, next)
    decreases |ps|
  {
    if ps == [] then s else Writes(max, Step(max, s, ps[0], |ps[0]|), ps[1..])
  }

  function Concat(ps: seq<Bytes>): Bytes {
    if ps == [] then [] else ps[0] + Concat(ps[1..])
  }

  /** The first n bytes, or all there are. */
  function Prefix(t: Bytes, n: nat): Bytes {
    if n < |t| then t[..n] else t
  }

  lemma PrefixConcat(a: Bytes, b: Bytes, n: nat)
    ensures Prefix(a + b, n) == Prefix(a, n) + Prefix(b, if n < |a| then 0 else n - |a|)
  {
    if n < |a| {
      assert (a + b)[..n] == a[..n];
    } else if n < |a| + |b| {
      assert (a + b)[..n] == a + b[..n - |a|];
    }
  }

  lemma StepSink(max: int, s: Pipe, p: Bytes)
    requires max > 0 && Sound(max, s)
    ensures var next := Step(max, s, p, |p|);
            && next.sink == s.sink + Prefix(p, max - s.capped)
            && next.capped == Min(s.capped + |p|, max)
  {
    assert p[..|p|] == p;
  }

  /** The output is exactly what was written, cut off at the cap. */
  lemma {:induction false} SinkIsPrefix(max: int, s: Pipe, ps: seq<Bytes>)
    requires max > 0 && Sound(max, s)
    ensures Writes(max, s, ps).sink == s.sink + Prefix(Concat(ps), max - s.capped)
    decreases |ps|
  {
    if ps != [] {
      StepSink(max, s, ps[0]);
      SinkIsPrefix(max, Step(max, s, ps[0], |ps[0]|), ps[1..]);
      AppendPrefix(s.sink, ps[0], Concat(ps[1..]), max - s.capped);
    } else {
      assert s.sink + [] == s.sink;
    }
  }

  lemma AppendPrefix(sink: Bytes, a: Bytes, b: Bytes, n: nat)
    ensures (sink + Prefix(a, n)) + Prefix(b, if n < |a| then 0 else n - |a|) == sink + Prefix(a + b, n)
  {
    PrefixConcat(a, b, n);
    Associate(sink, Prefix(a, n), Prefix(b, if n < |a| then 0 else n - |a|));
  }

  lemma Associate(a: Bytes, b: Bytes, c: Bytes)
    ensures (a + b) + c == a + (b + c)
  {
  }

  lemma {:induction false} CappedIsTotal(max: int, s: Pipe, ps: seq<Bytes>)
    requires max > 0 && Sound(max, s)
    ensures Writes(max, s, ps).capped == Min(s.capped + |Concat(ps)|, max)
    decreases |ps|
  {
    if ps == [] {
    } else {
      StepSink(max, s, ps[0]);
      CappedIsTotal(max, Step(max, s, ps[0], |ps[0]|), ps[1..]);
    }
  }

  /** A write that reaches across the cap. */
  predicate Straddles(max: int, before: nat, p: Bytes) {
    before < max < before + |p|
  }

  predicate AnyStraddles(max: int, before: nat, ps: seq<Bytes>)
    decreases |ps|
  {
    ps != [] && (Straddles(max, before, ps[0]) || AnyStraddles(max, before + |ps[0]|, ps[1..]))
  }

  /** The hash and the counter agree with each other, on a first part of the output. */
  predicate CountsPart(s: Pipe) {
    s.size == |s.hashed| <= |s.sink| && s.hashed == s.sink[..s.size]
  }

  /** They have seen all of the output. */
  predicate CountsAll(s: Pipe) {
    s.size == |s.hashed| && s.hashed == s.sink
  }

  lemma StepCounts(max: int, s: Pipe, p: Bytes)
    requires max > 0 && Sound(max, s) && s.capped == |s.sink| && CountsAll(s)
    ensures var next := Step(max, s, p, |p|);
            && next.capped == |next.sink| == Min(s.capped + |p|, max) && CountsPart(next)
            && (CountsAll(next) <==> !Straddles(max, s.capped, p))
  {
    var next := Step(max, s, p, |p|);
    assert p[..|p|] == p;
    assert Straddles(max, s.capped, p) ==> next.sink[..|s.sink|] == s.sink && |next.sink| > |s.sink|;
  }

  /** Once the cap is full, nothing changes any more. */
  lemma {:induction false} FullStays(max: int, s: Pipe, ps: seq<Bytes>, before: nat)
    requires 0 < max == s.capped <= before
    ensures Writes(max, s, ps) == s && !AnyStraddles(max, before, ps)
    decreases |ps|
  {
    if ps == [] {
    } else {
      assert s.sink + ps[0][..0] == s.sink;
      FullStays(max, s, ps[1..], before + |ps[0]|);
    }
  }

  /** Hash and counter never run ahead of the output or apart from each other; and they fall short of the output
      exactly when some write straddled the cap, of which the output keeps a part. */
  lemma {:induction false} CountersExact(max: int, s: Pipe, ps: seq<Bytes>)
    requires max > 0 && Sound(max, s) && s.capped == |s.sink| && CountsAll(s)
    ensures CountsPart(Writes(max, s, ps))
    ensures CountsAll(Writes(max, s, ps)) <==> !AnyStraddles(max, s.capped, ps)
    decreases |ps|
  {
    assert s.sink[..|s.sink|] == s.sink;
    if s.capped == max {
      FullStays(max, s, ps, max);
    } else if ps != [] {
      var next := Step(max, s, ps[0], |ps[0]|);
      StepCounts(max, s, ps[0]);
      if Straddles(max, s.capped, ps[0]) {
        FullStays(max, next, ps[1..], max);
      } else {
        CountersExact(max, next, ps[1..]);
      }
    }
  }

  /** From the start: what is packed, whatever the writes are cut into. */
  lemma Packed(max: int, ps: seq<Bytes>)
    requires max > 0
    ensures var s := Writes(max, EMPTY, ps); var all := Concat(ps);
            && s.sink == Prefix(all, max)
            && CountsPart(s)
            && (CountsAll(s) <==> !AnyStraddles(max, 0, ps))
  {
    SinkIsPrefix(max, EMPTY, ps);
    CountersExact(max, EMPTY, ps);
  }

  /** A write after `before` bytes have been offered is refused exactly when it would take the total past the cap, or
      finds it full already. */
  lemma RefusedIff(max: int, ps: seq<Bytes>, p: Bytes)
    requires max > 0
    ensures var before := |Concat(ps)|;
            Verdict(max, Writes(max, EMPTY, ps).capped, p, |p|).Some? <==>
            before >= max || before + |p| > max
  {
    CappedIsTotal(max, EMPTY, ps);
  }

  /** Without a cap everything goes through, to all three. */
  lemma {:induction false} NoCap(max: int, s: Pipe, ps: seq<Bytes>)
    requires max <= 0
    ensures var next := Writes(max, s, ps);
            next.sink == s.sink + Concat(ps) && next.hashed == s.hashed + Concat(ps)
            && next.size == s.size + |Concat(ps)|
    decreases |ps|
  {
    if ps == [] {
      assert s.sink + [] == s.sink && s.hashed + [] == s.hashed;
    } else {
      assert ps[0][..|ps[0]|] == ps[0];
      NoCap(max, Step(max, s, ps[0], |ps[0]|), ps[1..]);
      Associate(s.sink, ps[0], Concat(ps[1..]));
      Associate(s.hashed, ps[0], Concat(ps[1..]));
    }
  }
}
