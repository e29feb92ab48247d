/** The payload of a coalesced tick frame: `[u16 len][line]...`, written by the
    server per room and decoded by the client per entry. */
module TickContainer {
  import opened Wire

  function EncodeLine(line: seq<byte>): seq<byte> {
    PutU16(Cast16(|line|)) + line
  }

  function EncodeLines(lines: seq<seq<byte>>): seq<byte> {
    if lines == [] then [] else EncodeLines(lines[..|lines| - 1]) + EncodeLine(lines[|lines| - 1])
  }

  /** The client's walk: the entries it counts, and whether it found a bad one. */
  function DecodeLines(payload: seq<byte>): (seq<seq<byte>>, bool)
    decreases |payload|
  {
    if |payload| < 2 then ([], false)
    else
      var n := GetU16(payload);
      if |payload| - 2 < n then ([], true)
      else
        var (rest, bad) := DecodeLines(payload[2 + n..]);
        ([payload[2..2 + n]] + rest, bad)
  }

  lemma {:induction false} EncodeLinesConcat(xs: seq<seq<byte>>, ys: seq<seq<byte>>)
    ensures EncodeLines(xs + ys) == EncodeLines(xs) + EncodeLines(ys)
    decreases |ys|
  {
    if ys == [] {
      assert xs + ys == xs;
    } else {
      var init, last := ys[..|ys| - 1], ys[|ys| - 1];
      EncodeLinesConcat(xs, init);
      assert (xs + ys)[..|xs + ys| - 1] == xs + init;
      Assoc(EncodeLines(xs), EncodeLines(init), EncodeLine(last));
    }
  }

  /** A line in a container: its length, low byte first, then the line. */
  lemma LineBytes(line: seq<byte>)
    requires |line| < 65536
    ensures var e: seq<int> := EncodeLine(line);
            |e| == 2 + |line| && |line| == e[0] + 256 * e[1] && EncodeLine(line)[2..] == line
  {
  }

  /** A container that stops short: the whole lines are recovered, and it is bad exactly
      when a length stands at its end without that many bytes. */
  lemma {:induction false} LinesAndTail(lines: seq<seq<byte>>, tail: seq<byte>)
    requires forall l :: l in lines ==> |l| < 65536
    requires |tail| >= 2 ==> |tail| - 2 < GetU16(tail)
    ensures DecodeLines(EncodeLines(lines) + tail) == (lines, |tail| >= 2)
    decreases |lines|
  {
    if lines == [] {
      assert EncodeLines(lines) + tail == tail;
    } else {
      var l, more := lines[0], lines[1..];
      var one: seq<seq<byte>> := [l];
      assert lines == one + more && l in lines;
      EncodeLinesConcat(one, more);
      assert one[..0] == [];
      assert EncodeLines(one) == EncodeLine(l);
      var e := EncodeLines(lines) + tail;
      Assoc(EncodeLine(l), EncodeLines(more), tail);
      LineInFront(l, EncodeLines(more) + tail);
      assert e == EncodeLine(l) + (EncodeLines(more) + tail);
      LinesAndTail(more, tail);
    }
  }

  lemma LineInFront(l: seq<byte>, rest: seq<byte>)
    requires |l| < 65536
    ensures var e := EncodeLine(l) + rest;
            |e| >= 2 + |l| && GetU16(e) == |l| && e[2..2 + |l|] == l && e[2 + |l|..] == rest
  {
    var e := EncodeLine(l) + rest;
    assert e == PutU16(|l|) + (l + rest);
    assert e[..2] == PutU16(|l|);
  }

  /** Decoding recovers every line, in order, and finds nothing bad. */
  lemma LinesRoundTrip(lines: seq<seq<byte>>)
    requires forall l :: l in lines ==> |l| < 65536
    ensures DecodeLines(EncodeLines(lines)) == (lines, false)
  {
    LinesAndTail(lines, []);
    assert EncodeLines(lines) + [] == EncodeLines(lines);
  }
}
