/** The room index of server_sds.cpp over the real hash map. The map does not copy its
    keys: the key of a node is the name buffer of the record the node stands for. */
module RoomIndexes {
  import opened RoomNames
  import R = RoomStores
  import H = CstrHashMaps
  import C = ChatCore

  /** What `Key` gives: a text, or a NUL for the empty one. */
  predicate IsKey(k: Name) {
    k == [0] || (k != [] && 0 !in k)
  }

  function KeyOf(text: H.Key): Name {
    if text == [] then [0] else text
  }

  function TextOf(k: Name): H.Key {
    if k == [0] then [] else k
  }

  ghost predicate KeyAt(index: map<Name, int>, model: map<H.Key, int>, k: Name) {
    k in index ==> IsKey(k) && TextOf(k) in model && model[TextOf(k)] == index[k]
  }

  ghost predicate TextAt(index: map<Name, int>, model: map<H.Key, int>, t: H.Key) {
    t in model ==> 0 !in t && KeyOf(t) in index
  }

  /** The hash map has the text of every key, and nothing else. */
  ghost predicate Mirrors(index: map<Name, int>, model: map<H.Key, int>) {
    && (forall k {:trigger KeyAt(index, model, k)} :: KeyAt(index, model, k))
    && (forall t {:trigger TextAt(index, model, t)} :: TextAt(index, model, t))
  }

  lemma KeyForms(name: Name)
    requires name != []
    ensures IsKey(Key(name)) && KeyOf(CStr(name)) == Key(name) && TextOf(Key(name)) == CStr(name)
  {
  }

  lemma FoundIff(index: map<Name, int>, model: map<H.Key, int>, name: Name)
    requires Mirrors(index, model) && name != []
    ensures CStr(name) in model <==> Key(name) in index
    ensures CStr(name) in model ==> model[CStr(name)] == index[Key(name)]
  {
    KeyForms(name);
    assert KeyAt(index, model, Key(name)) && TextAt(index, model, CStr(name));
  }

  lemma MirrorsInsert(index: map<Name, int>, model: map<H.Key, int>, k: Name, idx: int)
    requires Mirrors(index, model) && IsKey(k)
    ensures Mirrors(index[k := idx], model[TextOf(k) := idx])
  {
    var i, m := index[k := idx], model[TextOf(k) := idx];
    forall x
      ensures KeyAt(i, m, x)
    {
      assert KeyAt(index, model, x);
    }
    forall t
      ensures TextAt(i, m, t)
    {
      assert TextAt(index, model, t);
    }
  }

  lemma MirrorsErase(index: map<Name, int>, model: map<H.Key, int>, k: Name)
    requires Mirrors(index, model) && IsKey(k)
    ensures Mirrors(index - {k}, model - {TextOf(k)})
  {
    var i, m := index - {k}, model - {TextOf(k)};
    forall x
      ensures KeyAt(i, m, x)
    {
      assert KeyAt(index, model, x);
    }
    forall t
      ensures TextAt(i, m, t)
    {
      assert TextAt(index, model, t);
    }
  }

  class RoomIndex {
    const store: R.RoomStore
    const table: H.CstrHashMap<int>

    /** The table is the index. */
    ghost predicate Valid()
      reads this, store, table
    {
      store.Valid() && table.Valid() && Mirrors(store.index, table.model)
    }

    constructor (n: nat)
      ensures Valid() && fresh(store) && fresh(table) && |store.slots| == n && store.Members() == map[]
      ensures forall fd :: 0 <= fd < n ==> store.slots[fd] == R.LOOSE
    {
      store := new R.RoomStore(n);
      table := new H.CstrHashMap<int>(0);
    }

    /** No borrowed key is stale: what a node's buffer reads as now is the key the node
        was hashed and chained under. */
    lemma BorrowedKeysHold(a: H.Addr)
      requires Valid() && a in table.heap
      ensures var idx := table.heap[a].value;
              && 0 <= idx < |store.rooms| && store.rooms[idx].live
              && CStr(store.rooms[idx].name) == table.heap[a].key
    {
      var text := table.heap[a].key;
      assert text in table.model && table.model[text] == table.heap[a].value;
      var k := KeyOf(text);
      assert TextAt(store.index, table.model, text) && KeyAt(store.index, table.model, k);
      KeyForms(store.rooms[store.index[k]].name);
    }

    /** room_acquire and join_room: the name is looked up in the table, and a new record
        is inserted under its own buffer. */
    method Join(fd: int, name: Name) returns (found: bool)
      requires Valid() && 0 <= fd < |store.slots| && store.slots[fd] == R.LOOSE && 0 < |name| < NAME_SIZE
      modifies store, table
      ensures Valid() && |store.slots| == old(|store.slots|) && found == (Key(name) in old(store.index))
      ensures store.Members() == C.Entered(old(store.Members()), Key(name), fd) && store.Home(fd) == Key(name)
    {
      var a;
      FoundIff(store.index, table.model, name);
      found, a := table.Find(CStr(name));
      ghost var was := store.index;
      store.Join(fd, name);
      if !found {
        InsertNew(fd, name, was);
      }
    }

    method InsertNew(fd: int, name: Name, ghost was: map<Name, int>)
      requires store.Valid() && table.Valid() && Mirrors(was, table.model) && name != []
      requires 0 <= fd < |store.slots| && store.slots[fd] != R.LOOSE && store.Home(fd) == Key(name)
      requires Key(name) in store.index && store.index == was[Key(name) := store.index[Key(name)]]
      modifies table
      ensures Valid()
    {
      var idx := store.slots[fd].room;
      ghost var k := store.Position(fd);
      KeyForms(store.rooms[idx].name);
      KeyForms(name);
      MirrorsInsert(was, table.model, Key(name), idx);
      table.Insert(CStr(store.rooms[idx].name), idx);
    }

    /** leave_room: with the last member the name leaves the table while the buffer still
        reads as it, and only then is the record free. */
    method Leave(fd: int) returns (last: bool)
      requires Valid() && 0 <= fd < |store.slots|
      modifies store, table
      ensures Valid() && |store.slots| == old(|store.slots|) && store.slots[fd] == R.LOOSE
      ensures old(store.slots)[fd] == R.LOOSE ==> store.Members() == old(store.Members())
      ensures old(store.slots)[fd] != R.LOOSE ==>
                store.Members() == C.Left(old(store.Members()), old(store.Home(fd)), fd)
    {
      last := false;
      if store.slots[fd] != R.LOOSE {
        var idx := store.slots[fd].room;
        ghost var k := store.Position(fd);
        store.LastIsAlone(fd);
        last := store.rooms[idx].count == 1;
        KeyForms(store.rooms[idx].name);
        if last {
          MirrorsErase(store.index, table.model, Key(store.rooms[idx].name));
          table.Erase(CStr(store.rooms[idx].name));
        }
      }
      store.Leave(fd);
    }

    /** Over any history of joins and leaves the table is the index. */
    method Replay(ops: seq<(int, Name)>)
      requires Valid() && forall op :: op in ops ==> 0 <= op.0 < |store.slots| && |op.1| < NAME_SIZE
      modifies store, table
      ensures Valid() && |store.slots| == old(|store.slots|)
    {
      for i := 0 to |ops|
        invariant Valid() && |store.slots| == old(|store.slots|)
      {
        var op := ops[i];
        assert op in ops;
        var last := Leave(op.0);
        if op.1 != [] {
          var found := Join(op.0, op.1);
        }
      }
    }
  }
}
