/** Every run of buffer operations gives what the same run gives on plain byte sequences. */
module EvbufferRuns {
  import opened Basics
  import opened Chains
  import EvbufferEnds
  import opened EvbufferMove
  import EvbufferPullup
  import opened EvbufferReserve

  /** What can be done to one buffer. */
  datatype Op = Add(d: seq<byte>) | Prepend(d: seq<byte>) | Drain(n: nat) | Pullup(len: int) | Expand(n: nat)

  /** A step of a run over two buffers: an operation on one of them, or a move; toFirst says which one
      is changed, or receives. */
  datatype Step =
    | Single(toFirst: bool, op: Op)
    | AddAll(toFirst: bool)
    | PrependAll(toFirst: bool)
    | Take(toFirst: bool, n: nat)

  function Min(a: nat, b: nat): nat { if a < b then a else b }

  // ----- the reference: plain byte sequences

  function Effect(s: seq<byte>, op: Op): seq<byte> {
    match op
    case Add(d) => s + d
    case Prepend(d) => d + s
    case Drain(n) => s[Min(n, |s|)..]
    case Pullup(_) => s
    case Expand(_) => s
  }

  /** The receiving and the giving byte sequence after a move. */
  function Moved(dst: seq<byte>, src: seq<byte>, step: Step): (seq<byte>, seq<byte>)
    requires !step.Single?
  {
    match step
    case AddAll(_) => (dst + src, [])
    case PrependAll(_) => (src + dst, [])
    case Take(_, n) => (dst + src[..Min(n, |src|)], src[Min(n, |src|)..])
  }

  function Stepped(a: seq<byte>, b: seq<byte>, step: Step): (seq<byte>, seq<byte>) {
    if step.Single? then
      if step.toFirst then (Effect(a, step.op), b) else (a, Effect(b, step.op))
    else if step.toFirst then Moved(a, b, step)
    else var (x, y) := Moved(b, a, step); (y, x)
  }

  function After(a: seq<byte>, b: seq<byte>, steps: seq<Step>): (seq<byte>, seq<byte>) {
    if steps == [] then (a, b)
    else var (x, y) := After(a, b, steps[..|steps| - 1]); Stepped(x, y, steps[|steps| - 1])
  }

  /** The bytes that a run brings in. */
  function BroughtIn(op: Op): nat {
    if op.Add? || op.Prepend? then |op.d| else 0
  }

  function Brought(steps: seq<Step>): nat {
    if steps == [] then 0
    else Brought(steps[..|steps| - 1]) + if steps[|steps| - 1].Single? then BroughtIn(steps[|steps| - 1].op) else 0
  }

  lemma LengthAfter(a: seq<byte>, b: seq<byte>, steps: seq<Step>)
    ensures |After(a, b, steps).0| + |After(a, b, steps).1| <= |a| + |b| + Brought(steps)
  {}

  lemma BroughtPrefix(steps: seq<Step>, i: nat)
    requires i < |steps|
    ensures Brought(steps[..i + 1]) == Brought(steps[..i]) + (if steps[i].Single? then BroughtIn(steps[i].op) else 0)
    ensures Brought(steps[..i + 1]) <= Brought(steps)
  {
    assert steps[..i + 1][..i] == steps[..i];
    if i + 1 < |steps| {
      BroughtPrefix(steps[..|steps| - 1], i);
      assert steps[..|steps| - 1][..i + 1] == steps[..i + 1] && steps[..|steps| - 1][..i] == steps[..i];
    } else {
      assert steps[..i + 1] == steps;
    }
  }

  // ----- the buffers

  /** Nothing is frozen and no storage is shared. */
  ghost predicate Plain(buf: Evbuffer)
    reads buf
  {
    !buf.freezeStart && !buf.freezeEnd && buf.g.shared == {}
  }

  method DoSingle(buf: Evbuffer, op: Op)
    requires buf.Valid() && Plain(buf) && BroughtIn(op) <= MAX_ALLOC && |buf.Contents()| + BroughtIn(op) <= SIZE_MAX
    modifies buf`first, buf`last, buf`lastWithDatap, buf`totalLen, buf`g, buf.g.cells, buf.g.mem
    ensures buf.Valid() && Plain(buf) && buf.Contents() == Effect(old(buf.Contents()), op)
    ensures fresh(buf.g.cells - old(buf.g.cells)) && fresh(buf.g.mem - old(buf.g.mem))
  {
    ghost var n, start;
    var r, c;
    match op
    case Add(d) => r := EvbufferEnds.Add(buf, d);
    case Prepend(d) => r, n := EvbufferEnds.Prepend(buf, d, true);
    case Drain(len) => r, n := EvbufferEnds.Drain(buf, len);
    case Pullup(len) =>
      assert SoundAt(buf.g, 0);
      var intrudes;
      c, intrudes, start, n := EvbufferPullup.Pullup(buf, len);
    case Expand(len) => r := EvbufferReserve.Expand(buf, len);
  }

  method DoMove(dst: Evbuffer, src: Evbuffer, step: Step)
    requires dst != src && Pair(dst, src) && Plain(dst) && Plain(src) && !step.Single?
    requires |dst.Contents()| + |src.Contents()| <= SIZE_MAX
    modifies dst`first, dst`last, dst`lastWithDatap, dst`totalLen, dst`g, dst.g.cells, dst.g.mem
    modifies src`first, src`last, src`lastWithDatap, src`totalLen, src`g, src.g.cells, src.g.mem
    ensures Pair(dst, src) && Plain(dst) && Plain(src)
    ensures (dst.Contents(), src.Contents()) == Moved(old(dst.Contents()), old(src.Contents()), step)
    ensures fresh(dst.g.cells - old(dst.g.cells) - old(src.g.cells)) &&
            fresh(dst.g.mem - old(dst.g.mem) - old(src.g.mem))
    ensures src.g.cells <= old(src.g.cells) && src.g.mem <= old(src.g.mem)
  {
    var r;
    match step
    case AddAll(_) => r := AddBuffer(dst, src);
    case PrependAll(_) => r := PrependBuffer(dst, src);
    case Take(_, n) =>
      assert dst.Contents() + src.Contents()[..0] == dst.Contents();
      r := RemoveBuffer(src, dst, n);
  }

  /** A step on one buffer leaves the other one as it is. */
  method DoStep(a: Evbuffer, b: Evbuffer, step: Step)
    requires a != b && Pair(a, b) && Plain(a) && Plain(b)
    requires |a.Contents()| + |b.Contents()| <= SIZE_MAX
    requires step.Single? ==>
               BroughtIn(step.op) <= MAX_ALLOC && |a.Contents()| + |b.Contents()| + BroughtIn(step.op) <= SIZE_MAX
    modifies a`first, a`last, a`lastWithDatap, a`totalLen, a`g, a.g.cells, a.g.mem
    modifies b`first, b`last, b`lastWithDatap, b`totalLen, b`g, b.g.cells, b.g.mem
    ensures Pair(a, b) && Plain(a) && Plain(b)
    ensures (a.Contents(), b.Contents()) == Stepped(old(a.Contents()), old(b.Contents()), step)
    ensures fresh((a.g.cells + b.g.cells) - old(a.g.cells + b.g.cells)) &&
            fresh((a.g.mem + b.g.mem) - old(a.g.mem + b.g.mem))
  {
    if step.Single? {
      DoSingle(if step.toFirst then a else b, step.op);
    } else if step.toFirst {
      DoMove(a, b, step);
    } else {
      DoMove(b, a, step);
    }
  }

  /** Over every run both buffers keep their invariant and hold what the same run gives on byte sequences. */
  method Run(a: Evbuffer, b: Evbuffer, steps: seq<Step>)
    requires a != b && Pair(a, b) && Plain(a) && Plain(b)
    requires |a.Contents()| + |b.Contents()| + Brought(steps) <= SIZE_MAX
    requires forall i | 0 <= i < |steps| && steps[i].Single? :: BroughtIn(steps[i].op) <= MAX_ALLOC
    modifies a, b, a.g.cells, a.g.mem, b.g.cells, b.g.mem
    ensures Pair(a, b) && Plain(a) && Plain(b)
    ensures (a.Contents(), b.Contents()) == After(old(a.Contents()), old(b.Contents()), steps)
  {
    ghost var s, t := a.Contents(), b.Contents();
    assert steps[..0] == [];
    for i := 0 to |steps|
      invariant Pair(a, b) && Plain(a) && Plain(b)
      invariant (a.Contents(), b.Contents()) == After(s, t, steps[..i])
      invariant fresh((a.g.cells + b.g.cells) - old(a.g.cells + b.g.cells)) &&
                fresh((a.g.mem + b.g.mem) - old(a.g.mem + b.g.mem))
    {
      LengthAfter(s, t, steps[..i]);
      BroughtPrefix(steps, i);
      assert steps[..i + 1][..i] == steps[..i];
      DoStep(a, b, steps[i]);
    }
    assert steps[..|steps|] == steps;
  }
}
