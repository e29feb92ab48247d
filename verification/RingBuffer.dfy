/** The byte ring as one thread uses it: a fixed array, two monotonic cursors,
    copies split across the wrap. `Contents` is the byte queue it stands for. */
module RingBuffers {
  import opened Wire
  import opened Modulo
  import R = SpscRing

  class RingBuffer {
    const n: nat
    const buf: array<byte>
    var enq: nat
    var deq: nat

    ghost predicate Valid()
      reads this
    {
      n >= 2 && buf.Length == n && deq <= enq <= deq + n
    }

    ghost function At(p: nat): byte
      requires Valid()
      reads this, buf
    {
      buf[p % n]
    }

    ghost function Contents(): (s: seq<byte>)
      requires Valid()
      reads this, buf
      ensures |s| == enq - deq
      ensures forall i :: 0 <= i < |s| ==> s[i] == At(deq + i)
    {
      seq<byte>(enq - deq, i requires 0 <= i < enq - deq && Valid() reads this, buf => At(deq + i))
    }

    constructor (capacity: nat)
      requires capacity >= 2
      ensures Valid() && n == capacity && fresh(buf) && Contents() == []
    {
      n, enq, deq := capacity, 0, 0;
      buf := new byte[capacity];
    }

    function FreeSize(): (k: nat)
      requires Valid()
      reads this, buf
      ensures k + |Contents()| == n
    {
      n - (enq - deq)
    }

    function UsedSize(): (k: nat)
      requires Valid()
      reads this, buf
      ensures k == |Contents()|
    {
      enq - deq
    }

    /** Two flat copies: up to the buffer end, then from offset 0. */
    method CopyIn(off: nat, src: seq<byte>) returns (first: nat)
      requires n >= 2 && buf.Length == n && off < n && |src| <= n
      modifies buf
      ensures first == Min(|src|, n - off)
      ensures forall o :: 0 <= o < n ==>
                buf[o] == if off <= o < off + first then src[o - off]
                          else if o < |src| - first then src[first + o]
                          else old(buf[o])
    {
      first := Min(|src|, n - off);
      forall i | 0 <= i < first {
        buf[off + i] := src[i];
      }
      forall i | 0 <= i < |src| - first {
        buf[i] := src[first + i];
      }
    }

    /** Writes at the storage offset of `cursor` without publishing. Positions
        less than a capacity behind the end of the copy keep their bytes. */
    method WriteAt(cursor: nat, src: seq<byte>)
      requires Valid() && |src| <= n
      modifies buf
      ensures forall i :: 0 <= i < |src| ==> At(cursor + i) == src[i]
      ensures forall p: nat :: p < cursor && cursor + |src| <= p + n ==> At(p) == old(At(p))
    {
      var first := CopyIn(cursor % n, src);
      forall i | 0 <= i < |src|
        ensures At(cursor + i) == src[i]
      {
        R.SlotIsMod(cursor, |src|, n, i);
      }
      forall p: nat | p < cursor && cursor + |src| <= p + n
        ensures At(p) == old(At(p))
      {
        OutsideCopy(cursor, |src|, p);
      }
    }

    /** The slot of such a position is in neither run of the copy. */
    lemma OutsideCopy(cursor: nat, len: nat, p: nat)
      requires n >= 2 && len <= n && p < cursor && cursor + len <= p + n
      ensures var off, first := cursor % n, Min(len, n - cursor % n);
              !(off <= p % n < off + first) && !(p % n < len - first)
    {
      var off, first := cursor % n, Min(len, n - cursor % n);
      var o := p % n;
      if off <= o < off + first {
        R.SlotIsMod(cursor, len, n, o - off);
        SamePlace(cursor, o - off, p);
      } else if o < len - first {
        R.SlotIsMod(cursor, len, n, first + o);
        SamePlace(cursor, first + o, p);
      }
    }

    lemma SamePlace(cursor: nat, i: nat, p: nat)
      requires n >= 2 && p < cursor && cursor + i < p + n
      ensures (cursor + i) % n != p % n
    {
      DistinctSlots(p, cursor + i, n);
    }

    method Enqueue2(a: seq<byte>, b: seq<byte>) returns (k: nat)
      requires Valid()
      modifies this`enq, buf
      ensures Valid() && deq == old(deq)
      ensures k == if old(|Contents()|) + |a| + |b| <= n then |a| + |b| else 0
      ensures Contents() == if old(|Contents()|) + |a| + |b| <= n then old(Contents()) + (a + b) else old(Contents())
    {
      var w := enq;
      if w - deq + |a| + |b| > n {
        return 0;
      }
      WriteAt(w, a);
      WriteAt(w + |a|, b);
      enq := w + |a| + |b|;
      assert Contents() == old(Contents()) + (a + b);
      return |a| + |b|;
    }

    method Enqueue(src: seq<byte>) returns (k: nat)
      requires Valid()
      modifies this`enq, buf
      ensures Valid() && deq == old(deq)
      ensures k == if old(|Contents()|) + |src| <= n then |src| else 0
      ensures Contents() == if old(|Contents()|) + |src| <= n then old(Contents()) + src else old(Contents())
    {
      var w := enq;
      if w - deq + |src| > n {
        return 0;
      }
      WriteAt(w, src);
      enq := w + |src|;
      assert Contents() == old(Contents()) + src;
      return |src|;
    }

    /** The two-run copy out that peek and dequeue share. */
    method CopyOut(want: nat) returns (dst: seq<byte>)
      requires Valid()
      ensures dst == Contents()[..Min(want, |Contents()|)]
    {
      var m := Min(want, enq - deq);
      var off := deq % n;
      var first := Min(m, n - off);
      dst := buf[off..off + first] + buf[..m - first];
      forall i | 0 <= i < m
        ensures dst[i] == Contents()[i]
      {
        R.SlotIsMod(deq, m, n, i);
      }
    }

    method Peek(want: nat) returns (dst: seq<byte>)
      requires Valid()
      ensures dst == Contents()[..Min(want, |Contents()|)]
    {
      dst := CopyOut(want);
    }

    method Dequeue(want: nat) returns (dst: seq<byte>)
      requires Valid()
      modifies this`deq
      ensures Valid() && enq == old(enq)
      ensures dst == old(Contents())[..Min(want, old(|Contents()|))]
      ensures Contents() == old(Contents())[|dst|..]
    {
      dst := CopyOut(want);
      deq := deq + |dst|;
      assert Contents() == old(Contents())[|dst|..];
    }

    /** Dequeue of bytes that are known to be there. */
    method DequeueExactly(want: nat) returns (dst: seq<byte>)
      requires Valid() && want <= |Contents()|
      modifies this`deq
      ensures Valid() && enq == old(enq)
      ensures dst == old(Contents())[..want] && Contents() == old(Contents())[want..]
    {
      dst := Dequeue(want);
    }

    /** Length of the contiguous run at the read cursor. */
    function DirectDequeueSize(): (k: nat)
      requires Valid()
      reads this, buf
      ensures k <= |Contents()|
    {
      Min(enq - deq, n - deq % n)
    }

    /** In-place view of the first `k` bytes of that run. */
    function DirectView(k: nat): (v: seq<byte>)
      requires Valid() && k <= DirectDequeueSize()
      reads this, buf
      ensures v == Contents()[..k]
    {
      RunIsFront(k);
      buf[deq % n..deq % n + k]
    }

    lemma RunIsFront(k: nat)
      requires Valid() && k <= DirectDequeueSize()
      ensures deq % n + k <= n && buf[deq % n..deq % n + k] == Contents()[..k]
    {
      forall i | 0 <= i < k
        ensures buf[deq % n + i] == Contents()[i]
      {
        ModShift(deq, i, n);
      }
    }

    method CommitDequeue(k: nat)
      requires Valid() && k <= |Contents()|
      modifies this`deq
      ensures Valid() && enq == old(enq) && Contents() == old(Contents())[k..]
    {
      deq := deq + k;
      assert Contents() == old(Contents())[k..];
    }
  }
}
