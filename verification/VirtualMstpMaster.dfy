/** The masters and the bus as the objects of the program.  Each method is one atomic
    action of a master's loop and is proved to be the corresponding action of the token ring. */
module VirtualMstp {
  import opened Machine
  import opened MstpFrames
  import opened TokenRing

  /** The broadcast channel: what was sent, oldest first. */
  class VirtualMstpBus {
    var log: seq<Frame>

    constructor ()
      ensures log == []
    {
      log := [];
    }

    method Send(frame: Frame)
      modifies this
      ensures log == old(log) + [frame]
    {
      log := log + [frame];
    }
  }

  class VirtualMstpMaster {
    const address: U8
    const maxMaster: U8
    const nextStation: U8
    const bus: VirtualMstpBus
    var state: MasterState
    var drained: bool
    var cursor: nat
    var tokenReceivedCount: nat
    var pending: seq<Outbound>

    /** This master as a node of the ring. */
    function View(): Node
      reads this
    {
      Node(state, drained, cursor, tokenReceivedCount, pending)
    }

    predicate Valid()
      reads this, bus
    {
      maxMaster < 255 && nextStation == (address + 1) % (maxMaster + 1) && cursor <= |bus.log|
    }

    /** Join a bus and hear what is sent from now on; with `maxMaster` 255 the program's sum overflows. */
    constructor Join(bus: VirtualMstpBus, address: U8, maxMaster: U8)
      requires maxMaster < 255
      ensures Valid() && View() == JOINED.(cursor := |bus.log|)
      ensures View() == Node(Initialize, false, |bus.log|, 0, [])
      ensures this.bus == bus && this.address == address && this.maxMaster == maxMaster
    {
      this.bus := bus;
      this.address := address;
      this.maxMaster := maxMaster;
      nextStation := (address + 1) % (maxMaster + 1);
      state := Initialize;
      drained := false;
      cursor := |bus.log|;
      tokenReceivedCount := 0;
      pending := [];
    }

    /** A caller queues a frame; it waits while the queue is full. */
    method Enqueue(item: Outbound)
      requires Valid() && |pending| < OUTBOUND_CAPACITY
      modifies this`pending
      ensures Valid() && View() == old(View()).(pending := old(pending) + [item])
    {
      pending := pending + [item];
    }

    /** Address 0 puts the first token on the bus. */
    method Bootstrap()
      requires Valid() && address == 0
      modifies bus
      ensures Valid() && bus.log == old(bus.log) + [Frame(Token, 0, 0, [])]
    {
      bus.Send(Frame(Token, 0, 0, []));
    }

    /** One turn of the receive loop. */
    method ReceiveOne() returns (gotToken: bool)
      requires Valid() && !state.UseToken?
      requires cursor < |bus.log| <= cursor + BUS_CHANNEL_CAPACITY
      modifies this, bus
      ensures Valid()
      ensures var e := ReceiveFrame(address, old(View()), old(bus.log)[old(cursor)]);
        View() == e.node && bus.log == old(bus.log) + e.sent
      ensures var frame := old(bus.log)[old(cursor)];
        gotToken == (frame.frameType == Token && frame.destination == address)
        && bus.log == old(bus.log)
          + if frame.frameType == PollForMaster && frame.destination == address
            then [Frame(ReplyToPollForMaster, frame.source, address, [])] else []
    {
      var frame := bus.log[cursor];
      cursor := cursor + 1;
      gotToken := false;
      if frame.frameType == Token && frame.destination == address {
        gotToken := true;
        tokenReceivedCount := tokenReceivedCount + 1;
        state := UseToken;
        drained := false;
      } else if frame.frameType == PollForMaster && frame.destination == address {
        bus.Send(Frame(ReplyToPollForMaster, frame.source, address, []));
      }
    }

    /** The receiver is told that it missed frames and resumes at the oldest one kept. */
    method Lagged() returns (missed: nat)
      requires Valid() && cursor + BUS_CHANNEL_CAPACITY < |bus.log|
      modifies this`cursor
      ensures Valid() && View() == LagSkip(old(View()), |bus.log|) && missed == cursor - old(cursor)
      ensures |bus.log| - cursor == 512
    {
      missed := |bus.log| - BUS_CHANNEL_CAPACITY - cursor;
      cursor := cursor + missed;
    }

    /** Send at most one queued frame. */
    method DrainOne()
      requires Valid() && state.UseToken? && !drained
      modifies this, bus
      ensures Valid()
      ensures var e := DrainPending(address, old(View()));
        View() == e.node && bus.log == old(bus.log) + e.sent
    {
      if pending != [] {
        var item := pending[0];
        pending := pending[1..];
        bus.Send(Frame(BacnetDataNotExpectingReply, item.destination, address, item.npdu));
      }
      drained := true;
    }

    /** Send the token to the next station and wait again. */
    method HandOn()
      requires Valid() && state.UseToken? && drained
      modifies this, bus
      ensures Valid()
      ensures var e := PassToken(address, maxMaster, old(View()));
        View() == e.node && bus.log == old(bus.log) + e.sent
    {
      bus.Send(Frame(Token, nextStation, address, []));
      state := Idle;
    }

    /** The wait for a token timed out. */
    method TimedOut()
      requires Valid() && !state.UseToken?
      modifies bus
      ensures Valid()
      ensures var e := RingTimeout(address, old(View()));
        View() == e.node && bus.log == old(bus.log) + e.sent
      ensures bus.log == old(bus.log) + if address == 0 then [Frame(Token, 0, 0, [])] else []
    {
      if address == 0 {
        bus.Send(Frame(Token, 0, 0, []));
      }
    }

    /** The whole use of a token, when no other task sends meanwhile. */
    method UseTheToken()
      requires Valid() && state.UseToken? && !drained
      modifies this, bus
      ensures Valid() && state == Idle && cursor == old(cursor) && tokenReceivedCount == old(tokenReceivedCount)
      ensures if old(pending) == [] then
          bus.log == old(bus.log) + [Frame(Token, nextStation, address, [])] && pending == []
        else
          var item := old(pending)[0];
          bus.log == old(bus.log) + [Frame(BacnetDataNotExpectingReply, item.destination, address, item.npdu),
            Frame(Token, nextStation, address, [])]
          && pending == old(pending)[1..]
    {
      DrainOne();
      HandOn();
    }
  }
}
