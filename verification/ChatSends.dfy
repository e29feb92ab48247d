/** What the send path of a connection does with the kernel's outcomes: how many bytes
    leave, which stay, and when the connection is given up. All of it is said of the
    script of outcomes and the number of bytes alone. */
module ChatSends {
  import opened Wire
  import opened ChatConn

  // ---- what a flush sends

  /** The bytes the kernel would take before its first refusal or error. */
  function Offered(script: seq<Send>): nat {
    if script == [] then 0
    else
      match script[0]
      case Took(n) => if n == 0 then 0 else n + Offered(script[1..])
      case Interrupted => Offered(script[1..])
      case WouldBlock => 0
      case Failed => 0
  }

  /** What ends the offer is an error, not a socket that is full. */
  predicate EndsInError(script: seq<Send>) {
    && script != []
    && match script[0]
       case Took(n) => n == 0 || EndsInError(script[1..])
       case Interrupted => EndsInError(script[1..])
       case WouldBlock => false
       case Failed => true
  }

  /** The outcomes a loop with `left` bytes to go uses up. */
  function Used(left: nat, script: seq<Send>): (k: nat)
    ensures k <= |script|
    decreases |script|
  {
    if left == 0 || script == [] then 0
    else
      match script[0]
      case Took(n) => 1 + if n < left && n > 0 then Used(left - n, script[1..]) else 0
      case Interrupted => 1 + Used(left, script[1..])
      case WouldBlock => 1
      case Failed => 1
  }

  /** How many of `left` bytes one flush sends. */
  function Takes(left: nat, script: seq<Send>): nat {
    Min(left, Offered(script))
  }

  /** `d` is `c` with its first `k` pending bytes sent. */
  ghost predicate Sends(c: Conn, d: Conn, k: nat) {
    k <= |c.out| && d.out == c.out[k..] && d.sent == c.sent + c.out[..k] && d.queued == c.queued
  }

  /** One turn of the loop, and the rest of them. */
  lemma SendsOn(c: Conn, mid: Conn, d: Conn, k: nat, more: nat)
    requires Sends(c, mid, k) && Sends(mid, d, more)
    ensures Sends(c, d, k + more)
  {
    assert c.out[..k + more] == c.out[..k] + c.out[k..][..more];
    Assoc(c.sent, c.out[..k], c.out[k..][..more]);
  }

  /** A flush leaves the kernel's later outcomes for later. */
  lemma {:induction false} FlushUses(c: Conn)
    ensures FlushSend(c).script == c.script[Used(|c.out|, c.script)..]
    decreases |c.script|
  {
    if c.out != [] && c.script != [] {
      var rest := c.(script := c.script[1..]);
      match c.script[0] {
        case Took(n) =>
          var k := Min(n, |c.out|);
          if k > 0 {
            FlushUses(rest.(out := c.out[k..], sent := c.sent + c.out[..k]));
          }
        case Interrupted => FlushUses(rest);
        case WouldBlock =>
        case Failed =>
      }
    }
  }

  /** A flush sends what the kernel offers to take, up to all that is pending, and keeps
      the rest in order. */
  lemma {:induction false} FlushTakes(c: Conn)
    ensures Sends(c, FlushSend(c), Takes(|c.out|, c.script))
    decreases |c.script|
  {
    if c.out != [] && c.script != [] {
      var rest := c.(script := c.script[1..]);
      match c.script[0] {
        case Took(n) =>
          var k := Min(n, |c.out|);
          if k > 0 {
            var mid := rest.(out := c.out[k..], sent := c.sent + c.out[..k]);
            FlushTakes(mid);
            SendsOn(c, mid, FlushSend(mid), k, Takes(|mid.out|, mid.script));
          }
        case Interrupted => FlushTakes(rest);
        case WouldBlock =>
        case Failed =>
      }
    }
  }

  /** A flush fails exactly when more is pending than the kernel takes before an error. */
  lemma {:induction false} FailsIff(left: nat, script: seq<Send>)
    ensures SendFails(left, script) <==> left > Offered(script) && EndsInError(script)
    decreases |script|
  {
    if left > 0 && script != [] {
      match script[0] {
        case Took(n) => if 0 < n < left { FailsIff(left - n, script[1..]); }
        case Interrupted => FailsIff(left, script[1..]);
        case WouldBlock =>
        case Failed =>
      }
    }
  }

  // ---- when a delivery dooms

  /** More than the kernel takes before an error. */
  predicate Stops(left: nat, script: seq<Send>) {
    left > Offered(script) && EndsInError(script)
  }

  /** Sending now what is pending, and `extra` bytes more, meets an error. */
  predicate Fails(c: Conn, extra: nat) {
    Stops(|c.out| + extra, c.script)
  }

  /** The bytes a payload adds to the pending ones; one over the limit is dropped. */
  function Extra(payload: seq<byte>): nat {
    if |payload| <= MAX_PAYLOAD then HEADER + |payload| else 0
  }

  predicate Overflows(c: Conn, payload: seq<byte>) {
    |payload| <= MAX_PAYLOAD && |c.out| + HEADER + |payload| > SEND_CAP
  }

  /** The backpressure rule, and in immediate mode the send. */
  predicate Breaks(batch: bool, c: Conn, payload: seq<byte>) {
    Overflows(c, payload) || (!batch && Fails(c, Extra(payload)))
  }

  lemma QueueDoomsIff(c: Conn, typ: u16, payload: seq<byte>)
    ensures QueueSend(c, typ, payload).closing <==> c.closing || Overflows(c, payload)
  {
  }

  /** A live connection is doomed by a delivery exactly when the cap would be exceeded or
      the send it makes at once fails. */
  lemma DeliverDoomsIff(batch: bool, c: Conn, typ: u16, payload: seq<byte>)
    requires !c.closing
    ensures Deliver(batch, c, typ, payload).closing <==> Breaks(batch, c, payload)
  {
    var d := QueueSend(c, typ, payload);
    FlushFails(d);
    FailsIff(|d.out|, d.script);
    FailsIff(|c.out|, c.script);
  }

  /** In immediate mode a dispatch sends what the kernel takes; in batch mode it sends
      nothing, and marks who has bytes pending. */
  lemma DispatchSends(batch: bool, c: Conn)
    ensures var d := Dispatch(batch, c);
            && Sends(c, d, if batch then 0 else Takes(|c.out|, c.script))
            && (batch ==> d.script == c.script && (d.dirty <==> c.dirty || c.out != []))
            && (!batch ==> d.script == c.script[Used(|c.out|, c.script)..] && d.dirty == c.dirty)
  {
    if !batch {
      FlushTakes(c);
      FlushUses(c);
      FlushArms(c);
    }
  }

  /** A stop of the flush pass sends what the kernel takes of a live connection. */
  lemma FlushOneSends(c: Conn)
    ensures var d := FlushOne(c);
            && Sends(c, d, if c.closing then 0 else Takes(|c.out|, c.script)) && !d.dirty
            && (d.closing <==> c.closing || Fails(c, 0))
            && (!d.closing ==> (d.armed <==> d.out != []))
  {
    var d := c.(dirty := false);
    FlushTakes(d);
    FlushArms(d);
    FlushFails(d);
    FailsIff(|d.out|, d.script);
  }
}
