/** bufferevent_pair.c: two linked ends, each with an input and an output buffer.
    What is written at one end and read at the other passes through the output buffer of the one and
    the input buffer of the other, and touches no field of the opposite direction: a pair is two
    directions, and enabling both events of an end is Read at one of them and Write at the other. */
module BuffereventPair {
  import opened Basics
  import opened Chains
  import opened EvbufferEnds
  import opened EvbufferMove

  lemma Conserved(i: seq<byte>, o: seq<byte>, n: nat)
    requires n <= |o|
    ensures i + o[..n] + o[n..] == i + o
  {}

  /** How many of o bytes a transfer moves to an input of i bytes with a high watermark (0 for none): as many
      as fit below the watermark; if it has been reached, all for a flush and none otherwise. */
  function Fitting(high: nat, i: nat, o: nat, ignoreWm: bool): (n: nat)
    ensures n <= o && (!ignoreWm && 0 < high && i <= high ==> i + n <= high)
  {
    if high == 0 || (high <= i && ignoreWm) then o
    else if high <= i then 0
    else if high - i < o then high - i
    else o
  }

  /** What a direction holds in its input and its output once it could talk, or could not. */
  ghost predicate Passed(talk: bool, high: nat, i: seq<byte>, o: seq<byte>, i': seq<byte>, o': seq<byte>) {
    var n := if talk then Fitting(high, |i|, |o|, false) else 0;
    i' == i + o[..n] && o' == o[n..]
  }

  lemma PassedNone(talk: bool, high: nat, i: seq<byte>, o: seq<byte>)
    requires talk ==> o == []
    ensures Passed(talk, high, i, o, i, o)
  {
    assert i + o[..0] == i;
  }

  lemma PairSizes(dst: Evbuffer, src: Evbuffer)
    requires Pair(dst, src)
    ensures dst.totalLen == |dst.Contents()| && src.totalLen == |src.Contents()|
  {
  }

  /** The moving part of be_pair_transfer, for a high watermark. */
  method MoveBytes(out: Evbuffer, inp: Evbuffer, high: nat, ignoreWm: bool) returns (moved: bool)
    requires out != inp && Pair(inp, out) && |inp.Contents()| + |out.Contents()| <= SIZE_MAX
    requires !out.freezeStart && !inp.freezeEnd
    modifies out`first, out`last, out`lastWithDatap, out`totalLen, out`g, out.g.cells, out.g.mem
    modifies inp`first, inp`last, inp`lastWithDatap, inp`totalLen, inp`g, inp.g.cells, inp.g.mem
    ensures Pair(inp, out)
    ensures
      var n := Fitting(high, |old(inp.Contents())|, |old(out.Contents())|, ignoreWm);
      && inp.Contents() == old(inp.Contents()) + old(out.Contents())[..n]
      && out.Contents() == old(out.Contents())[n..]
    ensures moved <==> ignoreWm || high == 0 || |old(inp.Contents())| < high
    ensures fresh(inp.g.cells - old(inp.g.cells) - old(out.g.cells)) &&
            fresh(inp.g.mem - old(inp.g.mem) - old(out.g.mem))
    ensures out.g.cells <= old(out.g.cells) && out.g.mem <= old(out.g.mem)
    ensures inp.g.shared <= old(inp.g.shared) + old(out.g.shared) && out.g.shared <= old(out.g.shared)
  {
    hide Pair;
    PairSizes(inp, out);
    ghost var i, o := inp.Contents(), out.Contents();
    assert i + o[..0] == i && o[..|o|] == o;
    moved := true;
    var r;
    if high > 0 {
      if inp.totalLen < high {
        var n := high - inp.totalLen;
        r := RemoveBuffer(out, inp, n);
      } else {
        if !ignoreWm {
          return false;
        }
        r := AddBuffer(inp, out);
      }
    } else {
      r := AddBuffer(inp, out);
    }
  }

  /** evbuffer_unfreeze, or evbuffer_freeze, where data leaves out and enters inp. */
  method SetOpen(out: Evbuffer, inp: Evbuffer, open: bool)
    modifies out`freezeStart, inp`freezeEnd
    ensures out.freezeStart == inp.freezeEnd == !open
  {
    out.freezeStart := !open;
    inp.freezeEnd := !open;
  }

  /** MoveBytes, between evbuffer_unfreeze and evbuffer_freeze. */
  method MoveOpen(out: Evbuffer, inp: Evbuffer, high: nat, ignoreWm: bool) returns (moved: bool)
    requires out != inp && Pair(inp, out) && |inp.Contents()| + |out.Contents()| <= SIZE_MAX
    modifies out`freezeStart, out`first, out`last, out`lastWithDatap, out`totalLen, out`g, out.g.cells, out.g.mem
    modifies inp`freezeEnd, inp`first, inp`last, inp`lastWithDatap, inp`totalLen, inp`g, inp.g.cells, inp.g.mem
    ensures Pair(inp, out) && out.freezeStart && inp.freezeEnd
    ensures
      var n := Fitting(high, |old(inp.Contents())|, |old(out.Contents())|, ignoreWm);
      && inp.Contents() == old(inp.Contents()) + old(out.Contents())[..n]
      && out.Contents() == old(out.Contents())[n..]
    ensures moved <==> ignoreWm || high == 0 || |old(inp.Contents())| < high
    ensures fresh(inp.g.cells + out.g.cells - old(inp.g.cells + out.g.cells))
    ensures fresh(inp.g.mem + out.g.mem - old(inp.g.mem + out.g.mem))
  {
    SetOpen(out, inp, true);
    moved := MoveBytes(out, inp, high, ignoreWm);
    SetOpen(out, inp, false);
  }

  /** evbuffer_add to out leaves inp alone. */
  method AddOut(out: Evbuffer, inp: Evbuffer, d: seq<byte>) returns (r: int)
    requires out != inp && Pair(inp, out) && !out.freezeEnd && |out.Contents()| + |d| <= SIZE_MAX
    modifies out`first, out`last, out`lastWithDatap, out`totalLen, out`g, out.g.cells, out.g.mem
    ensures Pair(inp, out) && r == if |d| > MAX_ALLOC then -1 else 0
    ensures out.Contents() == old(out.Contents()) + if r == 0 then d else []
    ensures fresh(out.g.cells - old(out.g.cells)) && fresh(out.g.mem - old(out.g.mem))
  {
    r := Add(out, d);
  }

  /** evbuffer_drain of inp leaves out alone. */
  method DrainIn(out: Evbuffer, inp: Evbuffer, n: nat) returns (ghost d: seq<byte>)
    requires out != inp && Pair(inp, out) && !inp.freezeStart
    modifies inp`first, inp`last, inp`lastWithDatap, inp`totalLen, inp`g
    modifies inp.g.cells`misalign, inp.g.cells`off, inp.g.cells`refcnt
    ensures Pair(inp, out) && old(inp.Contents()) == d + inp.Contents()
    ensures d == old(inp.Contents())[..if n < |old(inp.Contents())| then n else |old(inp.Contents())|]
    ensures inp.g.cells == old(inp.g.cells) && inp.g.mem == old(inp.g.mem)
  {
    ghost var s := inp.Contents();
    ghost var freed;
    d := s[..if n < |s| then n else |s|];
    var r;
    r, freed := Drain(inp, n);
  }

  /** One direction of a pair: from the user of one end, src, to the user of the other one, dst. */
  class Direction {
    /** src->output and dst->input */
    const output: Evbuffer
    const input: Evbuffer
    /** EV_WRITE in src->enabled and EV_READ in dst->enabled */
    var writing: bool
    var reading: bool
    /** write_suspended of src and read_suspended of dst */
    var writeSuspended: set<Reason>
    var readSuspended: set<Reason>
    /** wm_read.high of dst, 0 for none; the callback for it is enabled when it is not 0 */
    var high: nat
    /** What has been written at src and consumed at dst so far. */
    ghost var written: seq<byte>
    ghost var consumed: seq<byte>

    /** be_pair_wants_to_talk */
    predicate WantsToTalk()
      reads this, output
    {
      Open() && output.totalLen > 0
    }

    predicate Open()
      reads this
    {
      writing && reading && readSuspended == {}
    }

    /** Nothing is lost, doubled or reordered on its way. */
    ghost predicate Piped()
      reads this, output, input
    {
      && written == consumed + (input.Contents() + output.Contents())
      && |input.Contents()| + |output.Contents()| <= SIZE_MAX
    }

    /** Reading is suspended for the watermark exactly while the input has reached it. */
    ghost predicate Marked()
      reads this, input
    {
      Watermark in readSuspended <==> 0 < high <= |input.Contents()|
    }

    ghost function Cells(): set<Chain>
      reads this, output, input
    {
      input.g.cells + output.g.cells
    }

    ghost function Mem(): set<array<byte>>
      reads this, output, input
    {
      input.g.mem + output.g.mem
    }

    /** The buffers, and their fronts and ends that are not for the users. */
    ghost predicate Buffers()
      reads this, output, input, output.g.cells, output.g.mem, output.g.shared, input.g.cells, input.g.mem,
            input.g.shared
    {
      && output != input && Pair(input, output)
      && output.freezeStart && !output.freezeEnd && !input.freezeStart && input.freezeEnd
    }

    /** Data waits in the output only while src is suspended, or one side is not enabled, or dst is suspended. */
    ghost predicate Quiet()
      reads this, output
    {
      WantsToTalk() ==> writeSuspended != {}
    }

    ghost predicate Valid()
      reads this, output, input, output.g.cells, output.g.mem, output.g.shared, input.g.cells, input.g.mem,
            input.g.shared
    {
      Buffers() && Piped() && Marked() && Quiet()
    }

    /** One direction of what bufferevent_pair_new makes. */
    constructor ()
      ensures Valid() && written == consumed == [] && writing && !reading && high == 0
      ensures readSuspended == writeSuspended == {} && input.Contents() == output.Contents() == []
      ensures fresh(input) && fresh(output) && fresh(Cells()) && fresh(Mem())
    {
      var i := new Evbuffer();
      var o := new Evbuffer();
      i.freezeEnd := true;
      o.freezeStart := true;
      input, output := i, o;
      writing, reading, readSuspended, writeSuspended, high := true, false, {}, {}, 0;
      written, consumed := [], [];
    }

    /** bufferevent_inbuf_wm_cb, up to the call of the enable function. */
    method InputCallback() returns (enable: bool)
      requires Buffers()
      modifies `readSuspended
      ensures Buffers() && (high > 0 || old(Marked()) ==> Marked())
      ensures readSuspended - {Watermark} == old(readSuspended) - {Watermark}
      ensures enable <==> high > 0 && |input.Contents()| < high && readSuspended == {} && reading
      ensures !enable && WantsToTalk() ==> old(WantsToTalk()) && high == 0
    {
      enable := false;
      if high == 0 {
        return;
      }
      if input.totalLen >= high {
        readSuspended := readSuspended + {Watermark};
      } else {
        readSuspended := readSuspended - {Watermark};
        enable := readSuspended == {} && reading;
      }
    }

    /** be_pair_transfer up to the callbacks: moves what fits. */
    method Move(ignoreWm: bool) returns (moved: bool)
      requires Buffers() && Piped()
      modifies output`freezeStart, input`freezeEnd
      modifies output`first, output`last, output`lastWithDatap, output`totalLen, output`g, output.g.cells, output.g.mem
      modifies input`first, input`last, input`lastWithDatap, input`totalLen, input`g, input.g.cells, input.g.mem
      ensures Buffers() && Piped()
      ensures moved <==> ignoreWm || high == 0 || |old(input.Contents())| < high
      ensures
        var n := Fitting(high, |old(input.Contents())|, |old(output.Contents())|, ignoreWm);
        && input.Contents() == old(input.Contents()) + old(output.Contents())[..n]
        && output.Contents() == old(output.Contents())[n..]
      ensures fresh(Cells() - old(Cells())) && fresh(Mem() - old(Mem()))
    {
      ghost var i, o := input.Contents(), output.Contents();
      Conserved(i, o, Fitting(high, |i|, |o|, ignoreWm));
      moved := MoveOpen(output, input, high, ignoreWm);
    }

    /** be_pair_transfer, with the watermark callback of the input that it sets off. That callback may
        call be_pair_enable, which finds nothing more to move. */
    method Transfer(ignoreWm: bool)
      requires Buffers() && Piped() && Marked()
      modifies `readSuspended, output`freezeStart, input`freezeEnd
      modifies output`first, output`last, output`lastWithDatap, output`totalLen, output`g, output.g.cells, output.g.mem
      modifies input`first, input`last, input`lastWithDatap, input`totalLen, input`g, input.g.cells, input.g.mem
      ensures Valid() && !WantsToTalk()
      ensures !ignoreWm ==>
                Passed(true, high, old(input.Contents()), old(output.Contents()), input.Contents(), output.Contents())
      ensures
        var n := Fitting(high, |old(input.Contents())|, |old(output.Contents())|, ignoreWm);
        && input.Contents() == old(input.Contents()) + old(output.Contents())[..n]
        && output.Contents() == old(output.Contents())[n..]
      ensures readSuspended - {Watermark} == old(readSuspended) - {Watermark}
      ensures fresh(Cells() - old(Cells())) && fresh(Mem() - old(Mem()))
    {
      var before := output.totalLen;
      var moved := Move(ignoreWm);
      if output.totalLen != before {
        var enable := InputCallback();
        if enable && WantsToTalk() {
          assert false;
        }
      }
    }

    /** bufferevent_write at src, and be_pair_outbuf_cb. */
    method Write(d: seq<byte>) returns (r: int)
      requires Valid() && |input.Contents()| + |output.Contents()| + |d| <= SIZE_MAX
      modifies `readSuspended, `written, output`freezeStart, input`freezeEnd
      modifies output`first, output`last, output`lastWithDatap, output`totalLen, output`g, output.g.cells, output.g.mem
      modifies input`first, input`last, input`lastWithDatap, input`totalLen, input`g, input.g.cells, input.g.mem
      ensures Valid() && r == (if |d| > MAX_ALLOC then -1 else 0)
      ensures written == old(written) + if r == 0 then d else []
      ensures readSuspended - {Watermark} == old(readSuspended) - {Watermark}
      ensures fresh(Cells() - old(Cells())) && fresh(Mem() - old(Mem()))
      ensures high > 0 && |old(input.Contents())| <= high ==> |input.Contents()| <= high
      ensures
        var o := old(output.Contents()) + if r == 0 then d else [];
        Passed(r == 0 && d != [] && old(Open()), high, old(input.Contents()), o, input.Contents(), output.Contents())
    {
      hide Pair, Fitting, Passed;
      ghost var i, o := input.Contents(), output.Contents();
      PassedNone(false, high, i, o);
      Sizes(this);
      r := Put(d);
      PassedNone(false, high, i, o + d);
      assert o + [] == o;
      Sizes(this);
      if r == 0 && |d| > 0 && WantsToTalk() {
        Transfer(false);
      }
    }

    /** evbuffer_add to the output. */
    method Put(d: seq<byte>) returns (r: int)
      requires Buffers() && Piped() && |input.Contents()| + |output.Contents()| + |d| <= SIZE_MAX
      modifies `written, output`first, output`last, output`lastWithDatap, output`totalLen, output`g, output.g.cells,
               output.g.mem
      ensures Buffers() && Piped() && r == (if |d| > MAX_ALLOC then -1 else 0)
      ensures output.Contents() == old(output.Contents()) + if r == 0 then d else []
      ensures written == old(written) + if r == 0 then d else []
      ensures fresh(output.g.cells - old(output.g.cells)) && fresh(output.g.mem - old(output.g.mem))
    {
      ghost var i, o := input.Contents(), output.Contents();
      r := AddOut(output, input, d);
      if r == 0 {
        written := written + d;
        assert consumed + (i + (o + d)) == consumed + (i + o) + d;
      }
    }

    /** The user of dst takes n bytes off the input; then the watermark callback, and be_pair_enable if it says so. */
    method Read(n: nat) returns (ghost d: seq<byte>)
      requires Valid()
      modifies `readSuspended, `consumed, output`freezeStart, input`freezeEnd
      modifies output`first, output`last, output`lastWithDatap, output`totalLen, output`g, output.g.cells, output.g.mem
      modifies input`first, input`last, input`lastWithDatap, input`totalLen, input`g, input.g.cells, input.g.mem
      ensures Valid() &&
              d == old(input.Contents())[..if n < |old(input.Contents())| then n else |old(input.Contents())|]
      ensures consumed == old(consumed) + d
      ensures readSuspended - {Watermark} == old(readSuspended) - {Watermark}
      ensures fresh(Cells() - old(Cells())) && fresh(Mem() - old(Mem()))
      ensures high > 0 && |old(input.Contents())| <= high ==> |input.Contents()| <= high
      ensures
        var i := old(input.Contents())[|d|..];
        var talk := d != [] && 0 < high && |i| < high && writing && reading && old(readSuspended) - {Watermark} == {};
        Passed(talk, high, i, old(output.Contents()), input.Contents(), output.Contents())
    {
      hide Pair, Fitting, Passed;
      var before := input.totalLen;
      Sizes(this);
      d := Take(n);
      Sizes(this);
      PassedNone(false, high, input.Contents(), output.Contents());
      PassedNone(output.Contents() == [], high, input.Contents(), output.Contents());
      if input.totalLen != before {
        assert input.Contents() == old(input.Contents())[|d|..];
        var enable := InputCallback();
        if enable {
          assert old(readSuspended) - {Watermark} == readSuspended - {Watermark} == {};
        }
        if enable && WantsToTalk() {
          Transfer(false);
        }
      }
    }

    /** evbuffer_drain of the input; the user has seen the bytes d. */
    method Take(n: nat) returns (ghost d: seq<byte>)
      requires Buffers() && Piped()
      modifies `consumed, input`first, input`last, input`lastWithDatap, input`totalLen, input`g
      modifies input.g.cells`misalign, input.g.cells`off, input.g.cells`refcnt
      ensures Buffers() && Piped() &&
              d == old(input.Contents())[..if n < |old(input.Contents())| then n else |old(input.Contents())|]
      ensures consumed == old(consumed) + d && old(input.Contents()) == d + input.Contents()
      ensures fresh(input.g.cells - old(input.g.cells)) && input.g.mem == old(input.g.mem)
    {
      ghost var o := output.Contents();
      d := DrainIn(output, input, n);
      assert consumed + (d + input.Contents() + o) == consumed + d + (input.Contents() + o);
      consumed := consumed + d;
    }

    /** bufferevent_enable, EV_READ at dst. */
    method EnableRead()
      requires Valid()
      modifies `reading, `readSuspended, output`freezeStart, input`freezeEnd
      modifies output`first, output`last, output`lastWithDatap, output`totalLen, output`g, output.g.cells, output.g.mem
      modifies input`first, input`last, input`lastWithDatap, input`totalLen, input`g, input.g.cells, input.g.mem
      ensures Valid() && reading
      ensures readSuspended - {Watermark} == old(readSuspended) - {Watermark}
      ensures fresh(Cells() - old(Cells())) && fresh(Mem() - old(Mem()))
      ensures high > 0 && |old(input.Contents())| <= high ==> |input.Contents()| <= high
      ensures Passed(old(readSuspended) == {} && writing, high, old(input.Contents()), old(output.Contents()),
                     input.Contents(), output.Contents())
    {
      hide Pair, Fitting, Passed;
      PassedNone(false, high, input.Contents(), output.Contents());
      PassedNone(output.Contents() == [], high, input.Contents(), output.Contents());
      Sizes(this);
      reading := true;
      if readSuspended == {} && WantsToTalk() {
        Transfer(false);
      }
    }

    /** bufferevent_enable, EV_WRITE at src. */
    method EnableWrite()
      requires Valid()
      modifies `writing, `readSuspended, output`freezeStart, input`freezeEnd
      modifies output`first, output`last, output`lastWithDatap, output`totalLen, output`g, output.g.cells, output.g.mem
      modifies input`first, input`last, input`lastWithDatap, input`totalLen, input`g, input.g.cells, input.g.mem
      ensures Valid() && writing
      ensures readSuspended - {Watermark} == old(readSuspended) - {Watermark}
      ensures fresh(Cells() - old(Cells())) && fresh(Mem() - old(Mem()))
      ensures high > 0 && |old(input.Contents())| <= high ==> |input.Contents()| <= high
      ensures Passed(old(writeSuspended) == {} == old(readSuspended) && reading, high, old(input.Contents()),
                     old(output.Contents()), input.Contents(), output.Contents())
    {
      hide Pair, Fitting, Passed;
      PassedNone(false, high, input.Contents(), output.Contents());
      PassedNone(output.Contents() == [], high, input.Contents(), output.Contents());
      Sizes(this);
      writing := true;
      if writeSuspended == {} && WantsToTalk() {
        Transfer(false);
      }
    }

    /** bufferevent_disable at either end. */
    method Disable(write: bool, read: bool)
      requires Valid()
      modifies `writing, `reading
      ensures Valid() && writing == (old(writing) && !write) && reading == (old(reading) && !read)
    {
      if write { writing := false; }
      if read { reading := false; }
    }

    /** bufferevent_suspend_read_ and bufferevent_suspend_write_, for reasons other than the watermark. */
    method Suspend(reason: Reason, read: bool)
      requires Valid() && reason != Watermark
      modifies `readSuspended, `writeSuspended
      ensures Valid()
      ensures if read then readSuspended == old(readSuspended) + {reason} && writeSuspended == old(writeSuspended)
              else writeSuspended == old(writeSuspended) + {reason} && readSuspended == old(readSuspended)
    {
      if read { readSuspended := readSuspended + {reason}; } else { writeSuspended := writeSuspended + {reason}; }
    }

    /** bufferevent_unsuspend_read_ and bufferevent_unsuspend_write_: what became possible happens at once. */
    method Unsuspend(reason: Reason, read: bool)
      requires Valid() && reason != Watermark
      modifies `readSuspended, `writeSuspended, output`freezeStart, input`freezeEnd
      modifies output`first, output`last, output`lastWithDatap, output`totalLen, output`g, output.g.cells, output.g.mem
      modifies input`first, input`last, input`lastWithDatap, input`totalLen, input`g, input.g.cells, input.g.mem
      ensures Valid()
      ensures
        if read then
          readSuspended - {Watermark} == old(readSuspended) - {Watermark, reason} &&
          writeSuspended == old(writeSuspended)
        else
          writeSuspended == old(writeSuspended) - {reason} &&
          readSuspended - {Watermark} == old(readSuspended) - {Watermark}
      ensures fresh(Cells() - old(Cells())) && fresh(Mem() - old(Mem()))
      ensures high > 0 && |old(input.Contents())| <= high ==> |input.Contents()| <= high
      ensures
        var talk := writing && reading && if read then old(readSuspended) - {reason} == {} else
                      old(writeSuspended) - {reason} == {} == old(readSuspended);
        Passed(talk, high, old(input.Contents()), old(output.Contents()), input.Contents(), output.Contents())
    {
      hide Pair, Fitting, Passed;
      PassedNone(false, high, input.Contents(), output.Contents());
      PassedNone(output.Contents() == [], high, input.Contents(), output.Contents());
      Sizes(this);
      if read {
        readSuspended := readSuspended - {reason};
      } else {
        writeSuspended := writeSuspended - {reason};
      }
      if (if read then readSuspended == {} && reading else writeSuspended == {} && writing) && WantsToTalk() {
        Transfer(false);
      }
    }

    /** bufferevent_setwatermark, EV_READ at dst. */
    method SetWatermark(highmark: nat)
      requires Valid()
      modifies `high, `readSuspended, output`freezeStart, input`freezeEnd
      modifies output`first, output`last, output`lastWithDatap, output`totalLen, output`g, output.g.cells, output.g.mem
      modifies input`first, input`last, input`lastWithDatap, input`totalLen, input`g, input.g.cells, input.g.mem
      ensures Valid() && high == highmark
      ensures readSuspended - {Watermark} == old(readSuspended) - {Watermark}
      ensures fresh(Cells() - old(Cells())) && fresh(Mem() - old(Mem()))
      ensures high > 0 && |old(input.Contents())| <= high ==> |input.Contents()| <= high
      ensures
        var talk := !(0 < high <= |old(input.Contents())|) && old(readSuspended) - {Watermark} == {} &&
                    writing && reading;
        Passed(talk, high, old(input.Contents()), old(output.Contents()), input.Contents(), output.Contents())
    {
      hide Pair, Fitting, Passed;
      PassedNone(false, highmark, input.Contents(), output.Contents());
      PassedNone(output.Contents() == [], highmark, input.Contents(), output.Contents());
      Sizes(this);
      high := highmark;
      if highmark > 0 && input.totalLen >= highmark {
        readSuspended := readSuspended + {Watermark};
      } else {
        readSuspended := readSuspended - {Watermark};
        if readSuspended == {} && reading && WantsToTalk() {
          Transfer(false);
        }
      }
    }

    /** be_pair_flush in this direction. What is written stays in order; with a high watermark that the
        input has not reached, only what fits is moved. */
    method Flush(normal: bool)
      requires Valid()
      modifies `readSuspended, output`freezeStart, input`freezeEnd
      modifies output`first, output`last, output`lastWithDatap, output`totalLen, output`g, output.g.cells, output.g.mem
      modifies input`first, input`last, input`lastWithDatap, input`totalLen, input`g, input.g.cells, input.g.mem
      ensures Valid()
      ensures normal ==> input.Contents() == old(input.Contents()) && output.Contents() == old(output.Contents())
      ensures !normal ==>
        var n := Fitting(high, |old(input.Contents())|, |old(output.Contents())|, true);
        && input.Contents() == old(input.Contents()) + old(output.Contents())[..n]
        && output.Contents() == old(output.Contents())[n..]
      ensures output.Contents() == [] <==> old(Flushes(normal))
      ensures readSuspended - {Watermark} == old(readSuspended) - {Watermark}
      ensures fresh(Cells() - old(Cells())) && fresh(Mem() - old(Mem()))
    {
      if !normal {
        Transfer(true);
      }
    }

    /** A flush moves everything, or there is nothing to move. */
    ghost predicate Flushes(normal: bool)
      reads this, output, input
    {
      || output.Contents() == []
      || (!normal && (high == 0 || |input.Contents()| >= high || |input.Contents()| + |output.Contents()| <= high))
    }
  }

  /** A new pair with a watermark. */
  method NewMarked(highmark: nat) returns (p: Direction)
    ensures fresh(p) && fresh(p.input) && fresh(p.output) && fresh(p.Cells()) && fresh(p.Mem())
    ensures p.Valid() && p.high == highmark && p.input.Contents() == p.output.Contents() == []
    ensures p.readSuspended == p.writeSuspended == {} && p.writing
  {
    hide Pair, Direction.Buffers, Direction.Piped, Direction.Quiet;
    p := new Direction();
    p.SetWatermark(highmark);
  }

  lemma Unmarked(p: Direction)
    requires p.Marked() && |p.input.Contents()| < p.high && p.readSuspended - {Watermark} == {}
    ensures p.readSuspended == {}
  {
    assert p.readSuspended == p.readSuspended - {Watermark};
  }

  lemma PassedWhole(four: seq<byte>, i': seq<byte>, o': seq<byte>)
    requires |four| <= 10 && Passed(true, 10, [], four, i', o')
    ensures i' == four && o' == []
  {
    assert [] + four[..|four|] == four;
  }

  /** A new pair with a watermark of 10, and both sides open. */
  method OpenAtTen() returns (p: Direction)
    ensures fresh(p) && fresh(p.input) && fresh(p.output) && fresh(p.Cells()) && fresh(p.Mem())
    ensures p.Valid() && p.high == 10 && p.input.Contents() == p.output.Contents() == []
    ensures p.readSuspended == p.writeSuspended == {} && p.writing && p.reading
  {
    hide Pair, Direction.Buffers, Direction.Piped, Direction.Quiet, Fitting;
    p := NewMarked(10);
    p.EnableRead();
    assert p.input.Contents() == p.output.Contents() == [];
    Unmarked(p);
  }

  /** Four bytes go through to the input. */
  method FourBytes(four: seq<byte>) returns (p: Direction)
    requires |four| == 4
    ensures fresh(p) && fresh(p.input) && fresh(p.output) && fresh(p.Cells()) && fresh(p.Mem())
    ensures p.Valid() && p.high == 10 && p.input.Contents() == four && p.output.Contents() == []
    ensures p.readSuspended == p.writeSuspended == {} && p.writing && p.reading
  {
    hide Pair, Direction.Buffers, Direction.Piped, Direction.Quiet, Passed, Fitting;
    p := OpenAtTen();
    assert [] + four == four;
    var r := p.Write(four);
    PassedWhole(four, p.input.Contents(), p.output.Contents());
    Unmarked(p);
  }

  /** A flush that leaves 14 bytes behind: the watermark is 10, the input has 4 bytes, and the output 20. */
  method FlushLeaves(four: seq<byte>, twenty: seq<byte>) returns (p: Direction)
    requires |four| == 4 && |twenty| == 20
    ensures fresh(p) && p.Valid() && p.input.Contents() == four + twenty[..6] && p.output.Contents() == twenty[6..]
  {
    hide Pair, Direction.Buffers, Direction.Piped, Direction.Quiet;
    p := FourBytes(four);
    p.Disable(false, true);
    assert four + twenty[..0] == four && [] + twenty == twenty;
    var r := p.Write(twenty);
    assert p.input.Contents() == four && p.output.Contents() == twenty;
    p.Flush(false);
  }

  /** What the invariant promises to the users. */
  lemma Promised(p: Direction)
    requires p.Valid()
    ensures p.written == p.consumed + p.input.Contents() + p.output.Contents()
    ensures p.WantsToTalk() ==> p.writeSuspended != {}
    ensures Watermark in p.readSuspended <==> 0 < p.high <= |p.input.Contents()|
  {
    assert p.consumed + (p.input.Contents() + p.output.Contents()) ==
             p.consumed + p.input.Contents() + p.output.Contents();
  }

  lemma Sizes(p: Direction)
    requires p.Buffers()
    ensures p.input.totalLen == |p.input.Contents()| && p.output.totalLen == |p.output.Contents()|
  {
  }

  datatype Event =
    | Writes(d: seq<byte>)
    | Reads(n: nat)
    | EnablesRead
    | EnablesWrite
    | Disables(write: bool, read: bool)
    | Suspends(reason: Reason, read: bool)
    | Unsuspends(reason: Reason, read: bool)
    | Marks(highmark: nat)
    | Flushes(normal: bool)
  {
    predicate Allowed() { (Suspends? || Unsuspends?) ==> reason != Watermark }
  }

  /** A direction as a value: the bytes, the flags, and what holds each side but for the watermark. */
  datatype Flow = Flow(consumed: seq<byte>, input: seq<byte>, output: seq<byte>, writing: bool, reading: bool,
                       writeHeld: set<Reason>, readHeld: set<Reason>, high: nat)
  {
    predicate Marked() { 0 < high <= |input| }

    predicate Open() { writing && reading && readHeld == {} && !Marked() }

    /** A transfer, if there is one. */
    function Pass(talk: bool, ignoreWm: bool): Flow {
      var n := if talk then Fitting(high, |input|, |output|, ignoreWm) else 0;
      this.(input := input + output[..n], output := output[n..])
    }

    function Take(n: nat): Flow {
      var m := if n < |input| then n else |input|;
      this.(consumed := consumed + input[..m], input := input[m..])
    }

    /** The plain pipe: what each event does. Bytes beyond the range of size_t are not written. */
    function After(event: Event): Flow {
      match event
      case Writes(d) =>
        if |input| + |output| + |d| > SIZE_MAX || |d| > MAX_ALLOC then this
        else this.(output := output + d).Pass(d != [] && Open(), false)
      case Reads(n) =>
        var f := Take(n);
        f.Pass(|f.input| < |input| && high > 0 && f.Open(), false)
      case EnablesRead =>
        var f := this.(reading := true);
        f.Pass(f.Open(), false)
      case EnablesWrite =>
        var f := this.(writing := true);
        f.Pass(writeHeld == {} && f.Open(), false)
      case Disables(write, read) => this.(writing := writing && !write, reading := reading && !read)
      case Suspends(reason, read) =>
        if read then this.(readHeld := readHeld + {reason}) else this.(writeHeld := writeHeld + {reason})
      case Unsuspends(reason, read) =>
        var f := if read then this.(readHeld := readHeld - {reason}) else this.(writeHeld := writeHeld - {reason});
        f.Pass((read || f.writeHeld == {}) && f.Open(), false)
      case Marks(highmark) =>
        var f := this.(high := highmark);
        f.Pass(f.Open(), false)
      case Flushes(normal) => Pass(!normal, true)
    }

    /** What a run of events does. */
    function AfterAll(events: seq<Event>): Flow {
      if events == [] then this else AfterAll(events[..|events| - 1]).After(events[|events| - 1])
    }
  }

  ghost function FlowOf(p: Direction): Flow
    reads p, p.input, p.output
  {
    Flow(p.consumed, p.input.Contents(), p.output.Contents(), p.writing, p.reading, p.writeSuspended,
         p.readSuspended - {Watermark}, p.high)
  }

  const NEW_FLOW := Flow([], [], [], true, false, {}, {}, 0)

  /** No event flushes, and each watermark is no lower than the one before, if there was one. */
  predicate Rising(high: nat, events: seq<Event>)
    decreases |events|
  {
    events == [] ||
    (events[0] != Flushes(false)
     && (events[0].Marks? ==> events[0].highmark == 0 || 0 < high <= events[0].highmark)
     && Rising(if events[0].Marks? then events[0].highmark else high, events[1..]))
  }

  /** Nothing is held by the watermark just when the direction is not marked. */
  lemma HeldOf(p: Direction)
    requires p.Marked()
    ensures p.readSuspended == {} <==> FlowOf(p).readHeld == {} && !FlowOf(p).Marked()
    ensures p.Open() <==> FlowOf(p).Open()
  {
    assert p.readSuspended == p.readSuspended - {Watermark} || Watermark in p.readSuspended;
  }

  method DoWrite(p: Direction, d: seq<byte>)
    requires p.Valid() && |p.input.Contents()| + |p.output.Contents()| + |d| <= SIZE_MAX
    modifies p, p.input, p.output, p.input.g.cells, p.input.g.mem, p.output.g.cells, p.output.g.mem
    ensures p.Valid() && FlowOf(p) == old(FlowOf(p)).After(Writes(d))
    ensures p.written == old(p.written) + if |d| <= MAX_ALLOC then d else []
    ensures fresh(p.Cells() - old(p.Cells())) && fresh(p.Mem() - old(p.Mem()))
  {
    hide Pair, Direction.Buffers, Direction.Piped, Direction.Quiet, Direction.Marked, Fitting;
    HeldNow(p);
    ghost var o := p.output.Contents();
    assert o + [] == o && p.input.Contents() + o[..0] == p.input.Contents();
    var r := p.Write(d);
  }

  lemma HeldNow(p: Direction)
    requires p.Valid()
    ensures p.readSuspended == {} <==> FlowOf(p).readHeld == {} && !FlowOf(p).Marked()
    ensures p.Open() <==> FlowOf(p).Open()
    ensures p.input.totalLen == |p.input.Contents()| && p.output.totalLen == |p.output.Contents()|
  {
    HeldOf(p);
    Sizes(p);
  }

  method DoRead(p: Direction, n: nat)
    requires p.Valid()
    modifies p, p.input, p.output, p.input.g.cells, p.input.g.mem, p.output.g.cells, p.output.g.mem
    ensures p.Valid() && FlowOf(p) == old(FlowOf(p)).After(Reads(n)) && p.written == old(p.written)
    ensures fresh(p.Cells() - old(p.Cells())) && fresh(p.Mem() - old(p.Mem()))
  {
    hide Pair, Direction.Buffers, Direction.Piped, Direction.Quiet, Direction.Marked, Fitting;
    ghost var d := p.Read(n);
    assert d == [] ==> old(p.input.Contents())[|d|..] == old(p.input.Contents());
  }

  method DoUnsuspend(p: Direction, reason: Reason, read: bool)
    requires p.Valid() && reason != Watermark
    modifies p, p.input, p.output, p.input.g.cells, p.input.g.mem, p.output.g.cells, p.output.g.mem
    ensures p.Valid() && FlowOf(p) == old(FlowOf(p)).After(Unsuspends(reason, read)) && p.written == old(p.written)
    ensures fresh(p.Cells() - old(p.Cells())) && fresh(p.Mem() - old(p.Mem()))
  {
    hide Pair, Direction.Buffers, Direction.Piped, Direction.Quiet, Direction.Marked, Fitting;
    HeldWithout(p, reason);
    HeldNow(p);
    p.Unsuspend(reason, read);
    assert read ==> p.readSuspended - {Watermark} == old(p.readSuspended) - {Watermark} - {reason};
  }

  lemma HeldWithout(p: Direction, reason: Reason)
    requires p.Valid() && reason != Watermark
    ensures p.readSuspended - {reason} == {} <==> FlowOf(p).readHeld - {reason} == {} && !FlowOf(p).Marked()
  {
    assert Watermark in p.readSuspended <==> Watermark in p.readSuspended - {reason};
    assert Watermark !in p.readSuspended ==> p.readSuspended - {Watermark} == p.readSuspended;
  }

  /** One event. */
  method Handle(p: Direction, event: Event)
    requires p.Valid() && event.Allowed()
    modifies p, p.input, p.output, p.input.g.cells, p.input.g.mem, p.output.g.cells, p.output.g.mem
    ensures p.Valid() && FlowOf(p) == old(FlowOf(p)).After(event)
    ensures fresh(p.Cells() - old(p.Cells())) && fresh(p.Mem() - old(p.Mem()))
  {
    hide Pair, Direction.Buffers, Direction.Piped, Direction.Quiet, Direction.Marked, Fitting;
    HeldNow(p);
    ghost var i, o := p.input.Contents(), p.output.Contents();
    assert o[..0] == [] && i + [] == i && o[0..] == o;
    match event
    case Writes(d) =>
      if p.input.totalLen + p.output.totalLen + |d| <= SIZE_MAX {
        DoWrite(p, d);
      }
    case Reads(n) => DoRead(p, n);
    case EnablesRead => p.EnableRead();
    case EnablesWrite => p.EnableWrite();
    case Disables(write, read) => p.Disable(write, read);
    case Suspends(reason, read) =>
      p.Suspend(reason, read);
      assert read ==> p.readSuspended - {Watermark} == old(p.readSuspended) - {Watermark} + {reason};
    case Unsuspends(reason, read) => DoUnsuspend(p, reason, read);
    case Marks(highmark) => p.SetWatermark(highmark);
    case Flushes(normal) => p.Flush(normal);
  }

  /** Without a flush, and with watermarks that only rise, the input stays below them. */
  lemma {:induction false} BelowMark(f: Flow, event: Event)
    requires f.high > 0 ==> |f.input| <= f.high
    requires event != Flushes(false)
    requires event.Marks? ==> event.highmark == 0 || 0 < f.high <= event.highmark
    ensures var t := f.After(event); t.high > 0 ==> |t.input| <= t.high
  {
  }

  lemma NewFlow(p: Direction, events: seq<Event>)
    requires p.consumed == [] && p.input.Contents() == p.output.Contents() == [] && p.writing && !p.reading
    requires p.readSuspended == p.writeSuspended == {} && p.high == 0
    ensures FlowOf(p) == NEW_FLOW.AfterAll(events[..0])
  {
  }

  lemma NextFlow(events: seq<Event>, i: nat)
    requires i < |events|
    ensures NEW_FLOW.AfterAll(events[..i + 1]) == NEW_FLOW.AfterAll(events[..i]).After(events[i])
  {
    assert events[..i + 1][..i] == events[..i];
  }

  lemma RisingOn(high: nat, events: seq<Event>, i: nat)
    requires i < |events| && Rising(high, events[i..])
    ensures events[i] != Flushes(false)
    ensures events[i].Marks? ==> events[i].highmark == 0 || 0 < high <= events[i].highmark
    ensures forall f: Flow :: f.high == high ==> Rising(f.After(events[i]).high, events[i + 1..])
  {
    assert events[i..][1..] == events[i + 1..];
  }

  /** Over every run the direction is what the plain pipe is. So the bytes consumed, then the input, then the
      output spell what was written; data waits only while something keeps it; reading is suspended for the
      watermark exactly while the input has reached it, and without a flush it is never longer. */
  method Run(events: seq<Event>) returns (p: Direction)
    requires forall i :: 0 <= i < |events| ==> events[i].Allowed()
    ensures fresh(p) && p.Valid() && FlowOf(p) == NEW_FLOW.AfterAll(events)
    ensures p.written == p.consumed + p.input.Contents() + p.output.Contents()
    ensures p.WantsToTalk() ==> p.writeSuspended != {}
    ensures Watermark in p.readSuspended <==> 0 < p.high <= |p.input.Contents()|
    ensures Rising(0, events) && p.high > 0 ==> |p.input.Contents()| <= p.high
  {
    hide Direction.Valid, Direction.Buffers, Direction.Piped, Direction.Marked, Direction.Quiet, Pair, Fitting, Passed,
         Flow.After, Flow.AfterAll, Rising;
    p := new Direction();
    NewFlow(p, events);
    for i := 0 to |events|
      invariant fresh(p) && fresh(p.input) && fresh(p.output) && fresh(p.Cells()) && fresh(p.Mem())
      invariant p.Valid() && FlowOf(p) == NEW_FLOW.AfterAll(events[..i])
      invariant Rising(0, events) ==> Rising(p.high, events[i..]) && (p.high > 0 ==> |p.input.Contents()| <= p.high)
    {
      NextFlow(events, i);
      if Rising(0, events) {
        RisingOn(p.high, events, i);
        BelowMark(FlowOf(p), events[i]);
      }
      Handle(p, events[i]);
    }
    assert events[..|events|] == events;
    Promised(p);
  }
}
