/** The transfers as vsfusbd.c runs them, on a fifo in memory. */
module UsbDevice {
  import opened Wrappers
  import opened Fifos
  import UsbOut
  import UsbIn

  class OutTransfer {
    const port: UsbOut.Port
    const stream: Fifo
    var dataSize: nat
    var idle: bool
    var active: bool
    var rxReady: bool
    var armed: bool
    var packet: Option<seq<Byte>>
    ghost var wakes: nat
    ghost var closes: nat
    ghost var refused: nat
    ghost var unheard: nat
    var linked: bool
    ghost var host: seq<Byte>
    ghost var drained: seq<Byte>
    ghost var twice: bool
    ghost var dropped: Option<seq<Byte>>

    ghost predicate Valid()
      reads this, stream
    {
      stream.Valid() && stream.Capacity() == port.room
    }

    ghost function View(): UsbOut.Out
      reads this, stream, stream.buffer
      requires Valid()
    {
      UsbOut.Out(dataSize, idle, active, linked, stream.Contents(), rxReady, armed, packet, wakes, closes, refused, unheard,
                 host, drained, twice, dropped)
    }

    constructor (ep: nat, s: Fifo)
      requires s.Valid()
      ensures Valid() && stream == s && port == UsbOut.Port(ep, s.Capacity())
    {
      port := UsbOut.Port(ep, s.Capacity());
      stream := s;
      dataSize, idle, active, linked, rxReady, armed, packet := 0, false, false, false, false, false, None;
      wakes, closes, refused, unheard, host, drained, twice, dropped := 0, 0, 0, 0, [], [], false, None;
    }

    method EnableOut()
      requires Valid()
      modifies this
      ensures Valid() && View() == UsbOut.Enable(old(View()))
    {
      twice := twice || armed || packet.Some?;
      armed := true;
    }

    method Transact()
      requires Valid()
      modifies this
      ensures Valid() && View() == UsbOut.TransactOut(old(View()), port)
    {
      if idle {
        var size := Min(port.ep, dataSize);
        var free := stream.AvailLength();
        idle := free < size;
        if !idle {
          EnableOut();
        }
      }
    }

    ghost method Forget()
      requires Valid()
      modifies this
      ensures Valid() && View() == UsbOut.Forgotten(old(View()))
    {
      host, drained, twice, refused, unheard, dropped := stream.Contents(), [], false, 0, 0, None;
    }

    method Prepare(n: nat)
      requires Valid()
      modifies this
      ensures Valid() && View() == UsbOut.Prepare(old(View()), n)
    {
      Forget();
      active, idle, linked := true, true, n > 0;
      dataSize := n;
    }

    /** vsfusbd_ep_recv of n bytes; its history starts anew. */
    method Receive(n: nat)
      requires Valid()
      modifies this
      ensures Valid() && View() == UsbOut.Begin(old(View()), port, n)
    {
      hide UsbOut.TransactOut;
      hide UsbOut.Enable;
      hide UsbOut.Prepare;
      Prepare(n);
      if n > 0 {
        Transact();
      } else {
        EnableOut();
      }
    }

    method CancelReceive()
      requires Valid()
      modifies this
      ensures Valid() && View() == UsbOut.Cancel(old(View()))
    {
      active := false;
    }

    /** The accounts of a packet of n bytes, and the next packet is asked for if there is room for it. */
    method Rearm(n: nat) returns (last: bool)
      requires Valid() && n <= dataSize
      modifies this
      ensures Valid() && (View(), last) == UsbOut.Rearmed(old(View()), port, n)
    {
      dataSize := dataSize - n;
      last := true;
      var free := 0;
      if dataSize > 0 {
        free := stream.AvailLength();
        free := free - n;
        last := n < port.ep || (!rxReady && free < dataSize);
        idle := last;
      }
      if !last {
        var next := Min(dataSize, port.ep);
        idle := free < next;
        if !idle {
          EnableOut();
        }
      }
    }

    /** vsfusbd_on_OUT_do, and nothing when no transfer is set up. The length that is left over in the stream
        is unsigned: a packet that is not too long must fit, as UsbOut.Credit has it. */
    method OnPacket()
      requires Valid() && packet.Some? && (|packet.value| <= dataSize ==> |packet.value| <= UsbOut.Free(View(), port))
      modifies this, stream, stream.buffer
      ensures Valid() && View() == UsbOut.OnOut(old(View()), port)
    {
      hide UsbOut.Rearmed;
      var data := packet.value;
      packet := None;
      if !active || dataSize < |data| {
        return;
      }
      var last := Rearm(|data|);
      if |data| > 0 {
        var n := stream.Push(data);
      }
      if last {
        CancelReceive();
      }
    }

    /** A STREAM_OUT event. */
    method OnStreamOut()
      requires Valid() && wakes > 0
      modifies this
      ensures Valid() && View() == UsbOut.Do(old(View()), port, UsbOut.Wake)
    {
      wakes := wakes - 1;
      if active {
        Transact();
      }
    }

    /** A STREAM_CLOSE_OUT event. */
    method OnStreamClosed()
      requires Valid() && closes > 0
      modifies this
      ensures Valid() && View() == UsbOut.Do(old(View()), port, UsbOut.Closed)
    {
      closes := closes - 1;
      if active && idle {
        CancelReceive();
      }
    }

    /** The reader takes up to n bytes, which asks for more. */
    method ReadStream(n: nat, posted: bool) returns (data: seq<Byte>)
      requires Valid()
      modifies this, stream
      ensures Valid() && View() == UsbOut.Do(old(View()), port, UsbOut.Read(n, posted))
      ensures data == old(stream.Contents())[..Min(n, old(|stream.Contents()|))]
    {
      data := stream.Pop(n);
      drained := drained + data;
      if |data| > 0 && active && linked {
        if posted {
          wakes := wakes + 1;
        } else {
          refused := refused + 1;
        }
      }
    }
  }

  class InTransfer {
    const ep: nat
    const stream: Fifo
    var dataSize: nat
    var zlp: bool
    var idle: bool
    var active: bool
    var linked: bool
    var txReady: bool
    var overflow: bool
    var packet: Option<seq<Byte>>
    var done: bool
    ghost var wakes: nat
    ghost var refused: nat
    ghost var sent: seq<seq<Byte>>
    ghost var produced: seq<Byte>
    ghost var clash: bool

    ghost predicate Valid()
      reads this, stream
    {
      stream.Valid()
    }

    ghost function View(): UsbIn.In
      reads this, stream, stream.buffer
      requires Valid()
    {
      UsbIn.In(dataSize, zlp, idle, active, linked, stream.Contents(), txReady, packet, done, wakes, refused,
               sent, produced, clash)
    }

    constructor (ep: nat, s: Fifo)
      requires s.Valid()
      ensures Valid() && stream == s && this.ep == ep
    {
      this.ep := ep;
      stream := s;
      dataSize, zlp, idle, active, linked, txReady := 0, false, false, false, false, false;
      overflow, packet, done := false, None, false;
      wakes, refused, sent, produced, clash := 0, 0, [], [], false;
    }

    method SetCount(data: seq<Byte>)
      requires Valid()
      modifies this
      ensures Valid() && View() == UsbIn.Hand(old(View()), data)
    {
      clash := clash || packet.Some? || done;
      packet := Some(data);
    }

    /** A packet of n bytes out of the stream. */
    method NextPacket(n: nat)
      requires Valid() && n <= dataSize && n <= |stream.Contents()|
      modifies this, stream
      ensures Valid() && View() == UsbIn.NextPacket(old(View()), ep, n)
    {
      hide UsbIn.Hand;
      dataSize := dataSize - n;
      if dataSize == 0 && n < ep {
        zlp := false;
      }
      var data := stream.Pop(n);
      SetCount(data);
    }

    /** vsfusbd_on_IN_do. */
    method OnInDo()
      requires Valid()
      modifies this, stream
      ensures Valid() && View() == UsbIn.OnIn(old(View()), ep)
    {
      hide UsbIn.Hand;
      hide UsbIn.NextPacket;
      if dataSize > 0 {
        var size := stream.DataLength();
        var cur := Min(dataSize, ep);
        idle := size < cur;
        if idle {
          if !txReady && size < dataSize {
            active := false;
          }
          return;
        }
        NextPacket(cur);
      } else if zlp {
        zlp := false;
        SetCount([]);
      } else {
        active := false;
      }
    }

    ghost method Forget()
      requires Valid()
      modifies this
      ensures Valid() && View() == UsbIn.Forgotten(old(View())) && overflow == old(overflow)
    {
      sent, produced, clash, refused := [], stream.Contents(), false, 0;
    }

    method Prepare(n: nat, closing: bool)
      requires Valid()
      modifies this
      ensures Valid() && View() == UsbIn.Prepare(old(View()), n, closing)
    {
      Forget();
      active, idle, linked := true, true, n > 0;
      dataSize, zlp := n, closing;
    }

    /** vsfusbd_ep_send of n bytes; its history starts anew. */
    method Send(n: nat, closing: bool)
      requires Valid()
      modifies this, stream
      ensures Valid() && View() == UsbIn.Begin(old(View()), ep, n, closing)
    {
      hide UsbIn.OnIn;
      hide UsbIn.Hand;
      hide UsbIn.Prepare;
      Prepare(n, closing);
      if n > 0 {
        OnInDo();
      } else {
        SetCount([]);
      }
    }

    /** The event that the packet went out. */
    method OnSent()
      requires Valid() && done
      modifies this, stream
      ensures Valid() && View() == UsbIn.Do(old(View()), ep, UsbIn.Handle)
    {
      done := false;
      if active {
        OnInDo();
      }
    }

    /** A STREAM_IN or STREAM_CLOSE_IN event. */
    method OnStreamIn()
      requires Valid() && wakes > 0
      modifies this, stream
      ensures Valid() && View() == UsbIn.Do(old(View()), ep, UsbIn.Wake)
    {
      hide UsbIn.OnIn;
      wakes := wakes - 1;
      if active && idle {
        OnInDo();
      }
    }

    /** stream_write: the writer's bytes go in whole or not at all, which is remembered as an overflow. */
    method WriteStream(data: seq<Byte>, posted: bool) returns (n: nat)
      requires Valid()
      modifies this, stream, stream.buffer
      ensures Valid() && (n == |data| || n == 0)
      ensures n == |data| <==> old(|stream.Contents()|) + |data| <= stream.Capacity() || data == []
      ensures n == |data| ==> View() == UsbIn.Do(old(View()), ep, UsbIn.Write(data, posted))
      ensures n < |data| ==> View() == old(View())
      ensures overflow <==> old(overflow) || n < |data|
    {
      n := stream.Push(data);
      if n < |data| {
        overflow := true;
      } else {
        produced := produced + data;
      }
      if n > 0 && active && linked {
        if posted {
          wakes := wakes + 1;
        } else {
          refused := refused + 1;
        }
      }
    }
  }
}
