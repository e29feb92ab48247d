/** Bytes, little-endian 16-bit fields and the length-prefixed frame shared by
    the chat wire protocol and the thread mesh: `[u16 len][u16 type][payload]`,
    where `len` counts the payload only. */
module Wire {
  type byte = x: int | 0 <= x < 256
  type u16 = x: int | 0 <= x < 65536

  const HEADER: nat := 4
  const MAX_PAYLOAD: nat := 1024             // of a chat frame
  const MAX_FRAME: nat := HEADER + MAX_PAYLOAD

  datatype RawFrame = Frame(typ: u16, body: seq<byte>)

  /** A frame whose payload length fits the 16-bit length field. */
  type Frame = f: RawFrame | |f.body| < 65536 witness Frame(0, [])

  function Min(a: int, b: int): int {
    if a < b then a else b
  }

  function Cast16(v: nat): u16 {
    if v < 65536 then v else v % 65536
  }

  function PutU16(v: u16): (s: seq<byte>)
    ensures |s| == 2 && GetU16(s) == v
  {
    [v % 256, v / 256]
  }

  function GetU16(s: seq<byte>): u16
    requires |s| >= 2
  {
    var lo: int, hi: int := s[0], s[1];
    lo + 256 * hi
  }

  function Header(len: u16, typ: u16): (s: seq<byte>)
    ensures |s| == HEADER && GetU16(s) == len && GetU16(s[2..]) == typ
  {
    assert (PutU16(len) + PutU16(typ))[2..] == PutU16(typ);
    PutU16(len) + PutU16(typ)
  }

  /** The length field is a 16-bit cast of the payload size. */
  function Encode(f: RawFrame): (s: seq<byte>)
    ensures |s| == HEADER + |f.body|
  {
    Header(Cast16(|f.body|), f.typ) + f.body
  }

  /** A frame on the wire: length and type, low byte first, then the payload. */
  lemma FrameBytes(f: Frame)
    ensures var e: seq<int> := Encode(f);
            && |f.body| == e[0] + 256 * e[1] && f.typ == e[2] + 256 * e[3]
            && |e| == HEADER + |f.body| && Encode(f)[HEADER..] == f.body
  {
  }

  /** The byte stream of a sequence of frames. */
  function EncodeAll(fs: seq<RawFrame>): seq<byte> {
    if fs == [] then [] else EncodeAll(fs[..|fs| - 1]) + Encode(fs[|fs| - 1])
  }

  lemma EncodeAllAppend(fs: seq<RawFrame>, f: RawFrame)
    ensures EncodeAll(fs + [f]) == EncodeAll(fs) + Encode(f)
  {
  }

  lemma {:induction false} EncodeAllConcat(fs: seq<RawFrame>, gs: seq<RawFrame>)
    ensures EncodeAll(fs + gs) == EncodeAll(fs) + EncodeAll(gs)
    decreases |gs|
  {
    if gs == [] {
      assert fs + gs == fs;
    } else {
      var init, last := gs[..|gs| - 1], gs[|gs| - 1];
      EncodeAllConcat(fs, init);
      assert fs + gs == (fs + init) + [last] && gs == init + [last];
      EncodeAllAppend(fs + init, last);
      EncodeAllAppend(init, last);
      Assoc(EncodeAll(fs), EncodeAll(init), Encode(last));
    }
  }

  lemma Assoc<T>(x: seq<T>, y: seq<T>, z: seq<T>)
    ensures (x + y) + z == x + (y + z)
  {
  }

  /** A stream received in pieces. */
  function Concat(chunks: seq<seq<byte>>): seq<byte> {
    if chunks == [] then [] else chunks[0] + Concat(chunks[1..])
  }

  lemma {:induction false} ConcatLast(chunks: seq<seq<byte>>)
    requires chunks != []
    ensures Concat(chunks) == Concat(chunks[..|chunks| - 1]) + chunks[|chunks| - 1]
    decreases |chunks|
  {
    var init, last := chunks[..|chunks| - 1], chunks[|chunks| - 1];
    if init == [] {
      assert Concat(chunks[1..]) == [];
    } else {
      ConcatLast(chunks[1..]);
      assert chunks[1..][..|chunks| - 2] == init[1..];
      Assoc(chunks[0], Concat(init[1..]), last);
    }
  }

  lemma EncodeAllCons(f: RawFrame, fs: seq<RawFrame>)
    ensures EncodeAll([f] + fs) == Encode(f) + EncodeAll(fs)
  {
    EncodeAllConcat([f], fs);
    assert [f][..0] == [];
    assert EncodeAll([f]) == Encode(f);
  }

  lemma SameHeader(bytes: seq<byte>, hdr: seq<byte>)
    requires |bytes| >= HEADER && hdr == bytes[..HEADER]
    ensures GetU16(hdr) == GetU16(bytes) && GetU16(hdr[2..]) == GetU16(bytes[2..])
  {
  }

  /** The first frame of an encoded stream, as a reader finds it. */
  lemma EncodedFront(f: Frame, fs: seq<Frame>)
    ensures var e := EncodeAll([f] + fs);
            && |e| >= HEADER + |f.body| && GetU16(e) == |f.body| && GetU16(e[2..]) == f.typ
            && e[HEADER..HEADER + |f.body|] == f.body && e[HEADER + |f.body|..] == EncodeAll(fs)
  {
    EncodeAllCons(f, fs);
    var h, rest := Header(|f.body|, f.typ), EncodeAll(fs);
    Assoc(h, f.body, rest);
    var e := h + (f.body + rest);
    assert e[..HEADER] == h;
    SameHeader(e, h);
    assert e[HEADER..] == f.body + rest;
    assert e[HEADER..HEADER + |f.body|] == e[HEADER..][..|f.body|] == f.body;
    assert e[HEADER + |f.body|..] == e[HEADER..][|f.body|..] == rest;
  }

  /** The first frame of any part of an encoded stream that reaches past its header. */
  lemma EncodedPrefix(f: Frame, fs: seq<Frame>, sent: seq<byte>)
    requires sent <= EncodeAll([f] + fs) && |sent| >= HEADER
    ensures GetU16(sent) == |f.body| && GetU16(sent[2..]) == f.typ
    ensures |sent| >= HEADER + |f.body| ==>
              sent[HEADER..HEADER + |f.body|] == f.body && sent[HEADER + |f.body|..] <= EncodeAll(fs)
  {
    EncodedFront(f, fs);
    var e := EncodeAll([f] + fs);
    assert sent[..HEADER] == e[..HEADER];
    SameHeader(sent, sent[..HEADER]);
    SameHeader(e, e[..HEADER]);
    if |sent| >= HEADER + |f.body| {
      assert sent[HEADER..HEADER + |f.body|] == e[HEADER..HEADER + |f.body|];
      assert sent[HEADER + |f.body|..] <= e[HEADER + |f.body|..];
    }
  }

  lemma EncodedLength(f: RawFrame, fs: seq<RawFrame>)
    ensures |EncodeAll([f] + fs)| == HEADER + |f.body| + |EncodeAll(fs)|
  {
    EncodeAllCons(f, fs);
  }
}
