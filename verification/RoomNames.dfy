/** Room names in server_sds.cpp: the index sees a name up to its first NUL, and every
    record keeps its name in a buffer that is never cleared. */
module RoomNames {
  import opened Wire
  import opened Counting

  const NAME_SIZE: nat := 64

  type Name = seq<byte>

  /** A name as the C string functions see it: cut at the first NUL. */
  function CStr(name: Name): (text: Name)
    ensures text <= name && 0 !in text && (|text| == |name| || name[|text|] == 0)
  {
    if name == [] || name[0] == 0 then [] else [name[0]] + CStr(name[1..])
  }

  lemma {:induction false} CStrIs(name: Name, k: nat)
    requires k <= |name| && 0 !in name[..k] && (k == |name| || name[k] == 0)
    ensures CStr(name) == name[..k]
    decreases k
  {
    if k > 0 {
      assert name[..k][0] == name[0] && name[1..][..k - 1] == name[..k][1..];
      CStrIs(name[1..], k - 1);
    }
  }

  /** The names agree up to a NUL or the end of both. */
  ghost predicate AgreeTo(a: Name, b: Name, k: nat) {
    && k <= |a| && k <= |b| && a[..k] == b[..k] && 0 !in a[..k]
    && (k == |a| || a[k] == 0) && (k == |b| || b[k] == 0)
  }

  /** The index takes two names for one exactly when they agree up to the first NUL. */
  lemma SameRoomIff(a: Name, b: Name)
    ensures CStr(a) == CStr(b) <==> exists k: nat :: AgreeTo(a, b, k)
  {
    if CStr(a) == CStr(b) {
      assert AgreeTo(a, b, |CStr(a)|);
    }
    if k: nat :| AgreeTo(a, b, k) {
      CStrIs(a, k);
      CStrIs(b, k);
    }
  }

  /** What the index knows a room by. The empty C string stands for itself as a NUL,
      since the empty name stands for no room. */
  function Key(name: Name): (key: Name)
    ensures |key| <= |name| && (name != [] ==> key != [])
  {
    if name != [] && name[0] == 0 then [0] else CStr(name)
  }

  lemma SameKeyIff(a: Name, b: Name)
    requires a != [] && b != []
    ensures Key(a) == Key(b) <==> CStr(a) == CStr(b)
  {
  }

  /** The index keeps the whole name exactly when it holds no NUL, or is one. */
  lemma KeyIsWhole(name: Name)
    ensures Key(name) == name <==> 0 !in name || name == [0]
  {
    if 0 !in name {
      CStrIs(name, |name|);
    }
  }

  /** The buffer of a room record after a name was copied into it with its NUL. */
  function Written(buffer: seq<byte>, name: Name): seq<byte>
    requires |name| < |buffer|
  {
    name + [0] + buffer[|name| + 1..]
  }

  lemma KeyOfWritten(buffer: seq<byte>, name: Name)
    requires |name| < |buffer| && name != []
    ensures Key(Written(buffer, name)) == Key(name)
  {
    var w, k := Written(buffer, name), |CStr(name)|;
    assert w[..k] == name[..k];
    CStrIs(w, k);
  }

  /** A buffer known by a whole name begins with it. */
  lemma BufferBegins(buffer: seq<byte>, name: Name)
    requires Key(buffer) == Key(name) == name && |name| <= |buffer|
    ensures buffer[..|name|] == name
  {
  }

  // ---- the buffers of all records

  /** The index, the name buffer of every record, and the free records in the order
      in which they will be taken. */
  datatype Names = Names(index: map<Name, int>, buffers: seq<seq<byte>>, free: seq<int>)

  predicate HasBuffer(n: Names, idx: int) {
    0 <= idx < |n.buffers| && |n.buffers[idx]| == NAME_SIZE
  }

  /** Every indexed record reads as its key, and no free record is indexed. */
  ghost predicate Sane(n: Names) {
    && (forall k :: k in n.index ==>
          HasBuffer(n, n.index[k]) && Key(n.buffers[n.index[k]]) == k && n.index[k] !in n.free)
    && NoDup(n.free) && forall x :: x in n.free ==> HasBuffer(n, x)
  }

  /** room_acquire on the names: a new key takes the first free record, and the name is
      copied over what its buffer held. */
  function Acquired(n: Names, name: Name): Names
    requires |name| < NAME_SIZE
  {
    if Key(name) in n.index || n.free == [] || !HasBuffer(n, n.free[0]) then n
    else
      var idx := n.free[0];
      Names(n.index[Key(name) := idx], n.buffers[idx := Written(n.buffers[idx], name)], n.free[1..])
  }

  /** room_release on the names: the record is the next to be taken, its buffer as it was. */
  function Released(n: Names, key: Name): Names {
    if key in n.index then Names(n.index - {key}, n.buffers, [n.index[key]] + n.free) else n
  }

  /** What the record of a name's room shows at the length of the name. */
  function Shown(n: Names, name: Name): seq<byte>
    requires |name| < NAME_SIZE
  {
    if Key(name) in n.index && HasBuffer(n, n.index[Key(name)]) then n.buffers[n.index[Key(name)]][..|name|]
    else name
  }

  lemma AcquiredIsSane(n: Names, name: Name)
    requires Sane(n) && 0 < |name| < NAME_SIZE
    ensures Sane(Acquired(n, name))
  {
    var t := Acquired(n, name);
    if t != n {
      var idx := n.free[0];
      KeyOfWritten(n.buffers[idx], name);
      assert n.free == [idx] + t.free && idx !in t.free;
      forall k | k in t.index
        ensures HasBuffer(t, t.index[k]) && Key(t.buffers[t.index[k]]) == k && t.index[k] !in t.free
      {
      }
      forall x | x in t.free
        ensures HasBuffer(t, x)
      {
        assert HasBuffer(n, x);
      }
    }
  }

  lemma ReleasedIsSane(n: Names, key: Name)
    requires Sane(n)
    ensures Sane(Released(n, key))
  {
    var t := Released(n, key);
    if key in n.index {
      forall k | k in t.index
        ensures HasBuffer(t, t.index[k]) && Key(t.buffers[t.index[k]]) == k && t.index[k] !in t.free
      {
        assert Key(n.buffers[n.index[k]]) == k && Key(n.buffers[n.index[key]]) == key;
      }
    }
  }

  /** A join is answered with the name it asked for exactly when the room is new or the
      name is what its record's buffer begins with. */
  lemma AnswerIsAskedIff(n: Names, name: Name)
    requires Sane(n) && 0 < |name| < NAME_SIZE && (Key(name) in n.index || n.free != [])
    ensures Shown(Acquired(n, name), name) == name
       <==> Key(name) !in n.index || name <= n.buffers[n.index[Key(name)]]
  {
    var t := Acquired(n, name);
    if Key(name) !in n.index {
      assert HasBuffer(n, n.free[0]);
      assert t.buffers[t.index[Key(name)]][..|name|] == name;
    } else {
      var buffer := n.buffers[n.index[Key(name)]];
      assert name <= buffer <==> buffer[..|name|] == name;
    }
  }

  /** So it is whenever the index sees the whole name. */
  lemma WholeKeyIsShown(n: Names, name: Name)
    requires Sane(n) && 0 < |name| < NAME_SIZE && Key(name) == name
    ensures Shown(Acquired(n, name), name) == name
  {
    if name in n.index {
      BufferBegins(n.buffers[n.index[name]], name);
    } else if n.free != [] {
      AnswerIsAskedIff(n, name);
    }
  }
}
