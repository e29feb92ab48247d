/** A connection of server_sds.cpp: a linear outbound queue [head, tail) in a fixed
    region, compacted to offset 0 when the tail would run past the end and reset
    when it drains. `View` is the same connection as server.cpp holds it. */
module SdsConns {
  import opened Wire
  import opened ChatConn
  import B = RingBuffers

  const RX_RING: nat := 32768
  const TX_REGION: nat := SEND_CAP + MAX_FRAME

  datatype Op = Queue(typ: u16, payload: seq<byte>) | Flush | Send(batch: bool, typ: u16, payload: seq<byte>)

  /** A history of operations on server.cpp's connection. */
  function Apply(c: Conn, ops: seq<Op>): Conn {
    if ops == [] then c
    else
      var d := Apply(c, ops[..|ops| - 1]);
      match ops[|ops| - 1]
      case Queue(typ, payload) => QueueSend(d, typ, payload)
      case Flush => FlushSend(d)
      case Send(batch, typ, payload) => Deliver(batch, d, typ, payload)
  }

  class SdsConn {
    const fd: int
    var nick: seq<byte>
    ghost var room: seq<byte>      // name of the room its slot is linked into
    var armed: bool
    var closing: bool
    var dirty: bool
    const ring: B.RingBuffer       // received bytes not yet parsed
    const tx: array<byte>
    var head: nat
    var tail: nat
    var script: seq<Send>          // the kernel's future send() outcomes
    ghost var sent: seq<byte>
    ghost var queued: seq<RawFrame>

    ghost predicate Valid()
      reads this
    {
      tx.Length == TX_REGION && head <= tail <= TX_REGION && tail - head <= SEND_CAP
    }

    ghost function View(): Conn
      requires Valid()
      reads this, tx
    {
      Conn(nick, room, tx[head..tail], armed, closing, dirty, script, sent, queued)
    }

    constructor (fd: int, script: seq<Send>)
      ensures Valid() && fresh(tx) && View() == NewConn(script) && this.fd == fd
      ensures fresh(ring) && fresh(ring.buf) && ring.buf != tx && ring.Valid() && ring.n == RX_RING
              && ring.Contents() == []
    {
      nick, room, armed, closing, dirty := [], [], false, false, false;
      head, tail := 0, 0;
      this.fd, this.script := fd, script;
      sent, queued := [], [];
      ring := new B.RingBuffer(RX_RING);
      tx := new byte[TX_REGION];
    }

    /** Moves the pending bytes to the front of the region. */
    method Compact()
      requires Valid()
      modifies this`head, this`tail, tx
      ensures Valid() && head == 0 && tail == old(tail - head) && tx[..tail] == old(tx[head..tail])
    {
      var used := tail - head;
      forall i | 0 <= i < used {
        tx[i] := tx[head + i];
      }
      head, tail := 0, used;
    }

    /** Writes header and payload behind the tail. */
    method Append(header: seq<byte>, payload: seq<byte>)
      requires Valid() && tail + |header| + |payload| <= TX_REGION
      requires tail - head + |header| + |payload| <= SEND_CAP
      modifies this`tail, tx
      ensures Valid() && tx[head..tail] == old(tx[head..tail]) + (header + payload)
    {
      forall i | 0 <= i < |header| {
        tx[tail + i] := header[i];
      }
      forall i | 0 <= i < |payload| {
        tx[tail + |header| + i] := payload[i];
      }
      tail := tail + |header| + |payload|;
    }

    method QueueSend(typ: u16, payload: seq<byte>)
      requires Valid()
      modifies this, tx
      ensures Valid() && View() == ChatConn.QueueSend(old(View()), typ, payload)
    {
      if closing || |payload| > MAX_PAYLOAD {
        return;
      }
      var used, frame := tail - head, HEADER + |payload|;
      if used + frame > SEND_CAP {
        closing := true;
        return;
      }
      if tail + frame > TX_REGION {
        Compact();
      }
      Append(Header(|payload|, typ), payload);
      queued := queued + [Frame(typ, payload)];
    }

    /** Consumes `k` sent bytes; a drained queue resets to offset 0. */
    method Advance(k: nat)
      requires Valid() && k <= tail - head
      modifies this`head, this`tail, this`script, this`sent
      ensures Valid() && script == old(if script == [] then [] else script[1..])
      ensures View() == old(View()).(out := old(View().out)[k..], sent := old(sent) + old(View().out)[..k],
                                     script := script)
    {
      sent := sent + tx[head..head + k];
      head := head + k;
      if head == tail {
        head, tail := 0, 0;
      }
      script := if script == [] then [] else script[1..];
    }

    /** One turn of the send loop; `done` means the loop was left. */
    method SendOnce() returns (done: bool)
      requires Valid() && head < tail && script != []
      modifies this
      ensures Valid() && |script| == |old(script)| - 1
      ensures done ==> View() == ChatConn.FlushSend(old(View()))
      ensures !done ==> ChatConn.FlushSend(View()) == ChatConn.FlushSend(old(View()))
    {
      done := true;
      match script[0] {
        case Took(n) =>
          var k := Min(n, tail - head);
          if k == 0 {
            script, closing := script[1..], true;
          } else {
            Advance(k);
            done := false;
          }
        case Interrupted =>
          script, done := script[1..], false;
        case WouldBlock =>
          script, armed := script[1..], head < tail;
        case Failed =>
          script, closing := script[1..], true;
      }
    }

    method FlushSend()
      requires Valid()
      modifies this
      ensures Valid() && View() == ChatConn.FlushSend(old(View()))
    {
      while head < tail && script != []
        invariant Valid() && ChatConn.FlushSend(View()) == ChatConn.FlushSend(old(View()))
        decreases |script|
      {
        var done := SendOnce();
        if done {
          return;
        }
      }
      armed := head < tail;
    }

    method Deliver(batch: bool, typ: u16, payload: seq<byte>)
      requires Valid()
      modifies this, tx
      ensures Valid() && View() == ChatConn.Deliver(batch, old(View()), typ, payload)
    {
      QueueSend(typ, payload);
      Settle(batch);
    }

    /** Send now, or mark for the flush pass. */
    method Settle(batch: bool)
      requires Valid()
      modifies this
      ensures Valid() && View() == ChatConn.Dispatch(batch, old(View()))
    {
      if batch {
        if !dirty && head < tail {
          dirty := true;
        }
      } else {
        FlushSend();
      }
    }

    /** One stop of the flush pass. */
    method FlushOnce()
      requires Valid()
      modifies this
      ensures Valid() && View() == FlushOne(old(View()))
    {
      dirty := false;
      if !closing {
        FlushSend();
      }
    }
  
    /** Over any history the linear queue is the string, with the same dooms. */
    method Replay(ops: seq<Op>)
      requires Valid()
      modifies this, tx
      ensures Valid() && View() == Apply(old(View()), ops)
    {
      for i := 0 to |ops|
        invariant Valid() && View() == Apply(old(View()), ops[..i])
      {
        assert ops[..i + 1][..i] == ops[..i];
        match ops[i] {
          case Queue(typ, payload) => QueueSend(typ, payload);
          case Flush => FlushSend();
          case Send(batch, typ, payload) => Deliver(batch, typ, payload);
        }
      }
      assert ops[..|ops|] == ops;
    }
  }
}
