/** cbench/fakeswitch.c as an object over two message buffers, each handler proved against its
    specification on values and tied to the runs of SwitchRuns. */
module FakeSwitches {
  import opened Bytes
  import opened Framing
  import opened Time
  import opened MsgBufs
  import opened SwitchSpec
  import SwitchRuns

  lemma Cancel(a: seq<byte>, b: seq<byte>, c: seq<byte>)
    requires a + b == a + c
    ensures b == c
  {
    assert b == (a + b)[|a|..] && c == (a + c)[|a|..];
  }

  /** The output buffer holds its old bytes and those of what was said since. */
  lemma SaidIsBuffered(id: int, said: seq<Out>, said': seq<Out>, drained: seq<byte>, out: seq<byte>, out': seq<byte>)
    requires said <= said'
    requires drained + out == Wire(id, said) && drained + out' == Wire(id, said')
    ensures out' == out + Wire(id, said'[|said|..])
  {
    var more := said'[|said|..];
    assert said' == said + more;
    WireAppend(id, said, more);
    Assoc(drained, out, Wire(id, more));
    Cancel(drained, out', out + Wire(id, more));
  }

  lemma HandleAllStep(c: Config, sw: Sw, now: Timeval, handled: seq<seq<byte>>)
    requires Steady(sw.inb) && Complete(sw.inb)
    ensures var sw' := Dispatch(c, sw.(inb := sw.inb[Length(sw.inb)..]), View(sw.inb), now);
            && |sw'.inb| < |sw.inb| && Steady(sw'.inb) && HandleAll(c, sw, now) == HandleAll(c, sw', now)
            && handled + Messages(sw.inb) == handled + [View(sw.inb)] + Messages(sw'.inb)
  {
    Assoc(handled, [View(sw.inb)], Messages(sw.inb[Length(sw.inb)..]));
  }

  lemma HandleAllDone(c: Config, sw: Sw, now: Timeval, handled: seq<seq<byte>>)
    requires Steady(sw.inb) && !Complete(sw.inb)
    ensures HandleAll(c, sw, now) == sw && handled + Messages(sw.inb) == handled
  {
  }

  lemma ReadIsStep(c: Config, w: SwitchRuns.World, w': SwitchRuns.World, chunk: seq<byte>, now: Timeval)
    requires c.Valid() && Steady(w.sw.inb + chunk)
    requires SwitchRuns.WireInv(c, w) && SwitchRuns.WireInv(c, w')
    requires w' == SwitchRuns.World(HandleRead(c, w.sw, chunk, now), w.written, w'.outb, w.fed + chunk,
                                    w.handled + Messages(w.sw.inb + chunk), w.resets, w.all + chunk)
    ensures SwitchRuns.Step(c, w, SwitchRuns.Read(chunk, now), w')
  {
    SwitchRuns.HandleReadIs(c, w.sw, chunk, now);
    SaidIsBuffered(c.id, w.sw.said, w'.sw.said, w.written, w.outb, w'.outb);
    assert w'.outb[..0] == [] && w'.outb[0..] == w'.outb && w.written + [] == w.written;
  }

  /** The write handler: full is the switch when it has queued its probes, w' after the write. */
  lemma WriteIsStep(c: Config, w: SwitchRuns.World, full: SwitchRuns.World, sent: seq<byte>, now: Timeval)
    requires c.Valid() && SwitchRuns.WireInv(c, w) && SwitchRuns.WireInv(c, full)
    requires full == w.(sw := Prepare(c, w.sw, |w.outb|, now), outb := full.outb)
    requires sent <= full.outb
    ensures SwitchRuns.Step(c, w, SwitchRuns.Write(|sent|, now),
                            full.(written := w.written + sent, outb := full.outb[|sent|..]))
  {
    PrepareAdds(c, w.sw, |w.outb|, now);
    SaidIsBuffered(c.id, w.sw.said, full.sw.said, w.written, w.outb, full.outb);
  }

  class FakeSwitch {
    const cfg: Config
    const inbuf: MsgBuf
    const outbuf: MsgBuf
    var count: int
    var probeState: int
    var readyToSend: int
    var delayStart: Timeval
    var currentMac: int
    ghost var said: seq<Out>                 // every message queued
    ghost var fedIn: seq<byte>               // every byte read by fakeswitch_handle_read
    ghost var allIn: seq<byte>               // and by fakeswitch_get_count
    ghost var handled: seq<seq<byte>>        // every message it dispatched
    ghost var resets: nat                    // how often the count was taken

    /** Both buffers are in order, the input buffer can take another read, and everything put into
        the output buffer is the bytes of what was said. */
    ghost predicate Valid()
      reads this, inbuf, outbuf, inbuf.buf, outbuf.buf
    {
      && cfg.Valid()
      && inbuf != outbuf && inbuf.buf != outbuf.buf
      && inbuf.Valid() && outbuf.Valid()
      && inbuf.HasRoom()
      && outbuf.fed == Wire(cfg.id, said)
    }

    /** The value this object stands for. */
    ghost function Model(): Sw
      reads this, inbuf, inbuf.buf
      requires inbuf.Valid()
    {
      Sw(inbuf.Contents(), said, count, probeState, readyToSend, delayStart, currentMac)
    }

    /** The value with its history, as the runs of SwitchRuns see it. */
    ghost function World(): SwitchRuns.World
      reads this, inbuf, outbuf, inbuf.buf, outbuf.buf
      requires Valid()
    {
      SwitchRuns.World(Model(), outbuf.drained, outbuf.Contents(), fedIn, handled, resets, allIn)
    }

    /** fakeswitch_init */
    constructor (cfg: Config, bufsize: int)
      requires cfg.Valid() && bufsize >= 1
      ensures Valid() && fresh(inbuf) && fresh(outbuf) && fresh(inbuf.buf) && fresh(outbuf.buf)
      ensures this.cfg == cfg
      ensures World() == SwitchRuns.Boot(cfg)
    {
      this.cfg := cfg;
      inbuf := new MsgBuf(bufsize);
      outbuf := new MsgBuf(bufsize);
      count, probeState, readyToSend, delayStart, currentMac := 0, 0, 0, Timeval(0, 0), 0;
      said, fedIn, handled, resets, allIn := [Hello], [], [], 0, [];
      new;
      ghost var m := Encode(cfg.id, Hello);
      assert m == Wire(cfg.id, [Hello]) by { WireOne(cfg.id, Hello); }
      outbuf.Push(Encode(cfg.id, Hello));
      assert outbuf.fed == [] + m == m && outbuf.Contents() == [] + m;
    }

    /** Queues a message for the socket. */
    method Say(o: Out)
      requires Valid()
      modifies this`said, outbuf, outbuf.buf
      ensures Valid() && (outbuf.buf == old(outbuf.buf) || fresh(outbuf.buf))
      ensures said == old(said) + [o] && outbuf.drained == old(outbuf.drained)
    {
      outbuf.Push(Encode(cfg.id, o));
      WireAppend(cfg.id, said, [o]);
      WireOne(cfg.id, o);
      said := said + [o];
    }

    /** The switch statement of fakeswitch_handle_read and the check behind it. */
    method DispatchOne(m: seq<byte>, now: Timeval)
      requires Valid() && |m| >= HEADER
      requires Kind(m) == FLOW_MOD ==> |m| >= FLOW_MOD_COMMAND + 2
      modifies this`count, this`probeState, this`readyToSend, this`delayStart, this`said, this`handled
      modifies outbuf, outbuf.buf
      ensures Valid() && (outbuf.buf == old(outbuf.buf) || fresh(outbuf.buf))
      ensures outbuf.drained == old(outbuf.drained)
      ensures Model() == Dispatch(cfg, old(Model()), m, now) && handled == old(handled) + [m]
    {
      ghost var sw := Model();
      handled := handled + [m];
      Account(m, now);
      Answer(m);
      SwitchRuns.DispatchReplies(cfg, sw, m, now);
    }

    /** What a message does to the counters. */
    method Account(m: seq<byte>, now: Timeval)
      requires inbuf.Valid() && |m| >= HEADER
      requires Kind(m) == FLOW_MOD ==> |m| >= FLOW_MOD_COMMAND + 2
      modifies this`count, this`probeState, this`readyToSend, this`delayStart
      ensures Model() == Dispatch(cfg, old(Model()), m, now).(said := said)
    {
      var kind := Kind(m);
      if kind == PACKET_OUT {
        count, probeState := count + 1, probeState - 1;
      } else if kind == FLOW_MOD {
        if Get16(m, FLOW_MOD_COMMAND) == FLOW_ADD || Get16(m, FLOW_MOD_COMMAND) == FLOW_MODIFY_STRICT {
          count, probeState := count + 1, probeState - 1;
        }
      } else if kind == FEATURES_REQUEST {
        if cfg.delay == 0 {
          readyToSend := 1;
        } else {
          readyToSend := 2;
          delayStart := Timeval(now.sec + CDiv(cfg.delay, 1000), now.usec + CMod(cfg.delay, 1000) * 1000);
        }
      } else if kind == VENDOR {
        probeState := 0;
      }
      if probeState < 0 {
        probeState := 0;
      }
    }

    /** The replies of the switch statement: a features reply, a vendor error or an echo reply. */
    method Answer(m: seq<byte>)
      requires Valid() && |m| >= HEADER
      modifies this`said, outbuf, outbuf.buf
      ensures Valid() && (outbuf.buf == old(outbuf.buf) || fresh(outbuf.buf))
      ensures outbuf.drained == old(outbuf.drained)
      ensures said == old(said) + SwitchRuns.ReplyTo(m)
    {
      var kind := Kind(m);
      if kind == FEATURES_REQUEST {
        Say(FeaturesReply(Xid(m)));
      } else if kind == VENDOR {
        Say(VendorError(Xid(m)));
      } else if kind == ECHO_REQUEST {
        Say(EchoReply(Xid(m)));
      }
    }

    /** One turn of the loop of fakeswitch_handle_read: pull the first message, dispatch it. */
    method TakeOne(now: Timeval)
      requires Valid() && Steady(inbuf.Contents()) && Complete(inbuf.Contents())
      modifies this`count, this`probeState, this`readyToSend, this`delayStart, this`said, this`handled
      modifies inbuf, outbuf, outbuf.buf
      ensures Valid() && inbuf.buf == old(inbuf.buf) && handled == old(handled) + [View(old(inbuf.Contents()))]
      ensures outbuf.buf == old(outbuf.buf) || fresh(outbuf.buf)
      ensures outbuf.drained == old(outbuf.drained)
      ensures var sw := old(Model());
              Model() == Dispatch(cfg, sw.(inb := sw.inb[Length(sw.inb)..]), View(sw.inb), now)
    {
      ghost var s := inbuf.Contents();
      var m := View(inbuf.Contents());
      var pulled, bytes := inbuf.Pull(Length(m));
      assert inbuf.Contents() == s[Length(s)..];
      DispatchOne(m, now);
    }

    /** The loop of fakeswitch_handle_read. */
    method TakeAll(now: Timeval)
      requires Valid() && Steady(inbuf.Contents())
      modifies this`count, this`probeState, this`readyToSend, this`delayStart, this`said, this`handled
      modifies inbuf, outbuf, outbuf.buf
      ensures Valid() && outbuf.drained == old(outbuf.drained)
      ensures Model() == HandleAll(cfg, old(Model()), now)
      ensures handled == old(handled) + Messages(old(inbuf.Contents()))
    {
      ghost var sw := Model();
      ghost var goal := HandleAll(cfg, sw, now);
      ghost var all := handled + Messages(sw.inb);
      while inbuf.Buffered() >= HEADER
        invariant Valid() && inbuf.buf == old(inbuf.buf)
        invariant outbuf.buf == old(outbuf.buf) || fresh(outbuf.buf)
        invariant outbuf.drained == old(outbuf.drained)
        invariant Model() == sw && Steady(sw.inb) && HandleAll(cfg, sw, now) == goal
        invariant handled + Messages(sw.inb) == all
        decreases |sw.inb|
      {
        if inbuf.Buffered() < Get16(inbuf.Contents(), 2) {
          HandleAllDone(cfg, sw, now, handled);
          return;
        }
        HandleAllStep(cfg, sw, now, handled);
        TakeOne(now);
        sw := Model();
      }
      HandleAllDone(cfg, sw, now, handled);
    }

    /** fakeswitch_handle_read: rc and chunk are what read() returned; the program exits when the
        connection failed or was closed. */
    method OnReadable(chunk: seq<byte>, rc: int, now: Timeval) returns (exits: bool)
      requires Valid()
      requires if rc > 0 then |chunk| == rc else chunk == []
      requires |chunk| <= inbuf.len - inbuf.end
      requires Steady(inbuf.Contents() + chunk)
      modifies this, inbuf, outbuf, inbuf.buf, outbuf.buf
      ensures Valid()
      ensures exits <==> rc <= 0
      ensures exits ==> World() == old(World())
      ensures !exits ==> SwitchRuns.Step(cfg, old(World()), SwitchRuns.Read(chunk, now), World())
    {
      ghost var w := World();
      exits := Receive(chunk, rc, now);
      if !exits {
        fedIn, allIn := fedIn + chunk, allIn + chunk;
        ReadIsStep(cfg, w, World(), chunk, now);
      }
    }

    /** The read and the loop behind it. */
    method Receive(chunk: seq<byte>, rc: int, now: Timeval) returns (exits: bool)
      requires Valid()
      requires if rc > 0 then |chunk| == rc else chunk == []
      requires |chunk| <= inbuf.len - inbuf.end
      requires Steady(inbuf.Contents() + chunk)
      modifies this`count, this`probeState, this`readyToSend, this`delayStart, this`said, this`handled
      modifies inbuf, outbuf, inbuf.buf, outbuf.buf
      ensures Valid() && outbuf.drained == old(outbuf.drained)
      ensures exits <==> rc <= 0
      ensures exits ==> World() == old(World())
      ensures !exits ==> Model() == HandleRead(cfg, old(Model()), chunk, now)
      ensures !exits ==> handled == old(handled) + Messages(old(inbuf.Contents()) + chunk)
    {
      var got := inbuf.Read(chunk, rc);
      if got <= 0 {
        return true;
      }
      exits := false;
      TakeAll(now);
    }

    /** One turn of the loop of fakeswitch_handle_write. */
    method QueueOne()
      requires Valid()
      modifies this`probeState, this`currentMac, this`said, outbuf, outbuf.buf
      ensures Valid() && (outbuf.buf == old(outbuf.buf) || fresh(outbuf.buf))
      ensures outbuf.drained == old(outbuf.drained)
      ensures Model() == QueueProbe(cfg, old(Model()))
    {
      probeState := probeState + 1;
      Say(Probe(currentMac));
      currentMac := (currentMac + 1) % cfg.totalMacs;
    }

    /** The loop of fakeswitch_handle_write. */
    method QueueMany(sendCount: nat)
      requires Valid()
      modifies this`probeState, this`currentMac, this`said, outbuf, outbuf.buf
      ensures Valid() && (outbuf.buf == old(outbuf.buf) || fresh(outbuf.buf))
      ensures outbuf.drained == old(outbuf.drained)
      ensures Model() == QueueProbes(cfg, old(Model()), sendCount)
    {
      var i := 0;
      while i < sendCount
        invariant 0 <= i <= sendCount && Valid()
        invariant outbuf.buf == old(outbuf.buf) || fresh(outbuf.buf)
        invariant outbuf.drained == old(outbuf.drained)
        invariant QueueProbes(cfg, Model(), sendCount - i) == QueueProbes(cfg, old(Model()), sendCount)
      {
        QueueOne();
        i := i + 1;
      }
    }

    /** fakeswitch_handle_write up to the write. */
    method Fill(now: Timeval)
      requires Valid()
      modifies this`probeState, this`currentMac, this`readyToSend, this`said, outbuf, outbuf.buf
      ensures Valid() && (outbuf.buf == old(outbuf.buf) || fresh(outbuf.buf))
      ensures outbuf.drained == old(outbuf.drained)
      ensures Model() == Prepare(cfg, old(Model()), |old(outbuf.Contents())|, now)
    {
      if readyToSend == 1 {
        var sendCount := 0;
        if cfg.mode == Latency && probeState == 0 {
          sendCount := 1;
        } else if cfg.mode == Throughput && outbuf.Buffered() < THROUGHPUT_BUFFER {
          sendCount := (THROUGHPUT_BUFFER - outbuf.Buffered()) / PROBE_SIZE;
        }
        QueueMany(sendCount);
      } else if readyToSend == 2 {
        if Less(delayStart, now) {
          readyToSend := 1;
        }
      }
    }

    /** fakeswitch_handle_write: accepts is how much the socket would take, or -1; write() takes
        no more than there is. */
    method OnWritable(now: Timeval, accepts: int) returns (sent: seq<byte>)
      requires Valid()
      modifies this, outbuf, outbuf.buf
      ensures Valid()
      ensures SwitchRuns.Step(cfg, old(World()), SwitchRuns.Write(|sent|, now), World())
      ensures outbuf.drained == old(outbuf.drained) + sent
      ensures if accepts > 0 then |sent| == accepts || outbuf.Contents() == [] else sent == []
    {
      ghost var w := World();
      Fill(now);
      ghost var full := World();
      sent := Flush(accepts);
      WriteIsStep(cfg, w, full, sent, now);
      assert World() == full.(written := w.written + sent, outb := full.outb[|sent|..]);
    }

    /** The write at the end of fakeswitch_handle_write. */
    method Flush(accepts: int) returns (sent: seq<byte>)
      requires outbuf.Valid()
      modifies outbuf`start, outbuf`end, outbuf`drained
      ensures outbuf.Valid()
      ensures sent <= old(outbuf.Contents()) && outbuf.Contents() == old(outbuf.Contents())[|sent|..]
      ensures outbuf.drained == old(outbuf.drained) + sent
      ensures if accepts > 0 then |sent| == accepts || outbuf.Contents() == [] else sent == []
    {
      sent := [];
      if outbuf.Buffered() > 0 {
        var count;
        count, sent := outbuf.Write(0, if accepts < outbuf.Buffered() then accepts else outbuf.Buffered());
      }
    }

    /** fakeswitch_get_count before it drains the socket. */
    method ResetCount() returns (was: int)
      requires Valid()
      modifies this`count, this`probeState, this`resets
      ensures Valid() && was == old(count) && count == 0 && probeState == 0
      ensures SwitchRuns.Step(cfg, old(World()), SwitchRuns.Reset, World())
    {
      was := count;
      count, probeState := 0, 0;
      resets := resets + 1;
    }

    /** One turn of the outer loop of fakeswitch_get_count: one read, and the inner loop. */
    method DropOneRead(chunk: seq<byte>)
      requires Valid() && 0 < |chunk| <= inbuf.len - inbuf.end
      requires resets > 0 && Droppable(inbuf.Contents() + chunk, |chunk|)
      modifies this`allIn, inbuf, inbuf.buf
      ensures Valid() && (inbuf.buf == old(inbuf.buf) || fresh(inbuf.buf))
      ensures SwitchRuns.Step(cfg, old(World()), SwitchRuns.Drop(chunk), World())
    {
      allIn := allIn + chunk;
      var got := inbuf.Read(chunk, |chunk|);
      DropBuffered(got);
    }

    /** The inner loop of fakeswitch_get_count: count is how many bytes the read delivered. */
    method DropBuffered(count: int)
      requires inbuf.Valid() && count <= |inbuf.Contents()| && Droppable(inbuf.Contents(), count)
      modifies inbuf`start, inbuf`end, inbuf`drained
      ensures inbuf.Valid() && (old(inbuf.HasRoom()) ==> inbuf.HasRoom())
      ensures inbuf.Contents() == DropWhole(old(inbuf.Contents()), count)
    {
      var left := count;
      ghost var s := inbuf.Contents();
      ghost var t := s;
      while left > 0
        invariant inbuf.Valid() && (old(inbuf.HasRoom()) ==> inbuf.HasRoom())
        invariant inbuf.Contents() == t && left <= |t| && Droppable(t, left)
        invariant DropWhole(t, left) == DropWhole(s, count)
      {
        var length := Get16(inbuf.Contents(), 2);
        if left < length {
          return;
        }
        var pulled, bytes := inbuf.Pull(length);
        t := t[length..];
        left := left - length;
      }
    }
  }
}
