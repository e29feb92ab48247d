/** The rooms of server_sds.cpp: records in a slab, membership as an intrusive
    doubly linked list through the connection slots, unused records on a free
    list, and a name index that compares C strings. */
module RoomStores {
  import opened Wire
  import opened Counting
  import opened RoomNames
  import C = ChatCore

  const NONE: int := -1

  /** Membership links of one connection slot, by descriptor. */
  datatype Link = Link(room: int, prev: int, next: int)

  /** `name` is the record's buffer, of which the C string is the name. */
  datatype Room = Room(name: seq<byte>, head: int, count: nat, nextFree: int, live: bool)

  const LOOSE: Link := Link(NONE, NONE, NONE)

  /** The links of `list` in room `r`: prev and next mirror each other. */
  ghost function LinkAt(list: seq<int>, r: int, i: nat): Link
    requires i < |list|
  {
    Link(r, if i == 0 then NONE else list[i - 1], if i + 1 == |list| then NONE else list[i + 1])
  }

  ghost predicate LinkedAt(slots: seq<Link>, list: seq<int>, r: int, i: int)
    requires 0 <= i < |list|
  {
    0 <= list[i] < |slots| && slots[list[i]] == LinkAt(list, r, i)
  }

  ghost predicate Chained(slots: seq<Link>, list: seq<int>, r: int) {
    && NoDup(list)
    && forall i :: 0 <= i < |list| ==> LinkedAt(slots, list, r, i)
  }

  ghost predicate RoomKept(slots: seq<Link>, room: Room, list: seq<int>, r: int) {
    if room.live then Chained(slots, list, r) && room.head == Head(list, NONE) && room.count == |list|
    else list == []
  }

  ghost predicate FreeAt(rooms: seq<Room>, free: seq<int>, i: int)
    requires 0 <= i < |free|
  {
    && 0 <= free[i] < |rooms| && !rooms[free[i]].live
    && rooms[free[i]].nextFree == if i + 1 < |free| then free[i + 1] else NONE
  }

  ghost predicate FreeKept(rooms: seq<Room>, free: seq<int>, head: int) {
    && NoDup(free) && head == Head(free, NONE)
    && (forall i :: 0 <= i < |free| ==> FreeAt(rooms, free, i))
    && (forall r :: 0 <= r < |rooms| && !rooms[r].live ==> r in free)
  }

  /** The index is a bijection between the names of live rooms and their records. */
  ghost predicate IndexKept(rooms: seq<Room>, index: map<Name, int>) {
    && (forall k :: k in index ==>
          0 <= index[k] < |rooms| && rooms[index[k]].live && Key(rooms[index[k]].name) == k)
    && (forall r :: 0 <= r < |rooms| && rooms[r].live ==>
          Key(rooms[r].name) in index && index[Key(rooms[r].name)] == r)
  }

  /** Every slot is loose or on the list of the room it names. */
  ghost predicate SlotsPlaced(slots: seq<Link>, lists: seq<seq<int>>) {
    forall fd :: 0 <= fd < |slots| ==>
      slots[fd] == LOOSE || (0 <= slots[fd].room < |lists| && fd in lists[slots[fd].room])
  }

  // ---- links

  function LinkIn(slots: seq<Link>, fd: int, r: int, head: int): seq<Link>
    requires 0 <= fd < |slots| && (head == NONE || 0 <= head < |slots|)
  {
    var s := slots[fd := Link(r, NONE, head)];
    if head == NONE then s else s[head := s[head].(prev := fd)]
  }

  function Unlink(slots: seq<Link>, fd: int): (t: seq<Link>)
    requires 0 <= fd < |slots|
    requires slots[fd].prev == NONE || 0 <= slots[fd].prev < |slots|
    requires slots[fd].next == NONE || 0 <= slots[fd].next < |slots|
    ensures |t| == |slots| && t[fd] == LOOSE
  {
    var p, n := slots[fd].prev, slots[fd].next;
    var s1 := if p == NONE then slots else slots[p := slots[p].(next := n)];
    var s2 := if n == NONE then s1 else s1[n := s1[n].(prev := p)];
    s2[fd := LOOSE]
  }

  lemma LinkInChains(slots: seq<Link>, list: seq<int>, r: int, fd: int)
    requires Chained(slots, list, r) && 0 <= fd < |slots| && fd !in list
    ensures Head(list, NONE) == NONE || 0 <= Head(list, NONE) < |slots|
    ensures Chained(LinkIn(slots, fd, r, Head(list, NONE)), [fd] + list, r)
  {
    assert list != [] ==> LinkedAt(slots, list, r, 0);
    var t := LinkIn(slots, fd, r, Head(list, NONE));
    var l := [fd] + list;
    forall i | 0 <= i < |l|
      ensures LinkedAt(t, l, r, i)
    {
      if i > 0 {
        assert l[i] == list[i - 1];
        assert LinkedAt(slots, list, r, i - 1);
      }
    }
  }

  lemma LinkBounds(slots: seq<Link>, list: seq<int>, r: int, k: nat)
    requires Chained(slots, list, r) && k < |list|
    ensures LinkedAt(slots, list, r, k)
    ensures k > 0 ==> 0 <= list[k - 1] < |slots| && list[k - 1] != list[k]
    ensures k + 1 < |list| ==> 0 <= list[k + 1] < |slots| && list[k + 1] != list[k]
  {
    assert LinkedAt(slots, list, r, k);
    assert k > 0 ==> LinkedAt(slots, list, r, k - 1);
    assert k + 1 < |list| ==> LinkedAt(slots, list, r, k + 1);
  }

  /** What unlinking `fd` does to another slot. */
  lemma UnlinkPoint(slots: seq<Link>, fd: int, x: int)
    requires 0 <= fd < |slots| && 0 <= x < |slots| && x != fd
    requires slots[fd].prev == NONE || 0 <= slots[fd].prev < |slots|
    requires slots[fd].next == NONE || 0 <= slots[fd].next < |slots|
    ensures Unlink(slots, fd)[x]
         == Link(slots[x].room,
                 if x == slots[fd].next then slots[fd].prev else slots[x].prev,
                 if x == slots[fd].prev then slots[fd].next else slots[x].next)
  {
  }

  /** The links of the remaining members once member k is taken out. */
  lemma UnlinkAt(slots: seq<Link>, list: seq<int>, r: int, k: nat, j: nat)
    requires Chained(slots, list, r) && k < |list| && j < |list| && j != k
    ensures LinkedAt(slots, list, r, k)
    ensures k > 0 ==> 0 <= list[k - 1] < |slots|
    ensures k + 1 < |list| ==> 0 <= list[k + 1] < |slots|
    ensures LinkedAt(slots, list, r, j)
    ensures Unlink(slots, list[k])[list[j]]
         == Link(r,
                 if j == k + 1 then (if k == 0 then NONE else list[k - 1])
                 else if j == 0 then NONE else list[j - 1],
                 if j + 1 == k then (if k + 1 == |list| then NONE else list[k + 1])
                 else if j + 1 == |list| then NONE else list[j + 1])
  {
    LinkBounds(slots, list, r, k);
    LinkBounds(slots, list, r, j);
    UnlinkPoint(slots, list[k], list[j]);
    assert k > 0 ==> (list[j] == list[k - 1] <==> j == k - 1);
    assert k + 1 < |list| ==> (list[j] == list[k + 1] <==> j == k + 1);
  }

  lemma UnlinkChains(slots: seq<Link>, list: seq<int>, r: int, k: nat)
    requires Chained(slots, list, r) && k < |list|
    ensures LinkedAt(slots, list, r, k)
    ensures k > 0 ==> 0 <= list[k - 1] < |slots|
    ensures k + 1 < |list| ==> 0 <= list[k + 1] < |slots|
    ensures Chained(Unlink(slots, list[k]), list[..k] + list[k + 1..], r)
  {
    LinkBounds(slots, list, r, k);
    var t := Unlink(slots, list[k]);
    var l := list[..k] + list[k + 1..];
    forall i | 0 <= i < |l|
      ensures LinkedAt(t, l, r, i)
    {
      var j := if i < k then i else i + 1;
      assert l[i] == list[j];
      UnlinkAt(slots, list, r, k, j);
      assert i > 0 ==> l[i - 1] == if i - 1 < k then list[i - 1] else list[i];
      assert i + 1 < |l| ==> l[i + 1] == if i + 1 < k then list[i + 1] else list[i + 2];
    }
  }

  /** Changing slots of other rooms leaves a chain alone. */
  lemma ChainFrame(slots: seq<Link>, t: seq<Link>, list: seq<int>, r: int)
    requires Chained(slots, list, r) && |t| == |slots|
    requires forall fd :: 0 <= fd < |slots| && slots[fd].room == r ==> t[fd] == slots[fd]
    ensures Chained(t, list, r)
  {
    forall i | 0 <= i < |list|
      ensures LinkedAt(t, list, r, i)
    {
      assert LinkedAt(slots, list, r, i);
    }
  }

  // ---- the parts of the store under one change

  /** What the store means: live room names to their members. */
  ghost function Meaning(index: map<Name, int>, lists: seq<seq<int>>): map<Name, set<int>>
    requires forall k :: k in index ==> 0 <= index[k] < |lists|
  {
    map k | k in index :: Elems(lists[index[k]])
  }

  ghost predicate RoomsKept(slots: seq<Link>, rooms: seq<Room>, lists: seq<seq<int>>) {
    && |lists| == |rooms|
    && forall r :: 0 <= r < |rooms| ==> RoomKept(slots, rooms[r], lists[r], r)
  }

  /** Joining changes the list of one room and no other. */
  lemma JoinKeepsRooms(slots: seq<Link>, rooms: seq<Room>, lists: seq<seq<int>>, fd: int, idx: int)
    requires RoomsKept(slots, rooms, lists) && SlotsPlaced(slots, lists)
    requires 0 <= fd < |slots| && slots[fd] == LOOSE && 0 <= idx < |rooms| && rooms[idx].live
    ensures rooms[idx].head == NONE || 0 <= rooms[idx].head < |slots|
    ensures var t := LinkIn(slots, fd, idx, rooms[idx].head);
            var lists' := lists[idx := [fd] + lists[idx]];
            && RoomsKept(t, rooms[idx := rooms[idx].(head := fd, count := rooms[idx].count + 1)], lists')
            && SlotsPlaced(t, lists')
  {
    assert RoomKept(slots, rooms[idx], lists[idx], idx);
    LooseIsOnNoList(slots, lists[idx], idx, fd);
    LinkInChains(slots, lists[idx], idx, fd);
    var t := LinkIn(slots, fd, idx, rooms[idx].head);
    var lists' := lists[idx := [fd] + lists[idx]];
    forall x | 0 <= x < |slots| && x != fd
      ensures t[x].room == slots[x].room && (slots[x].room != idx ==> t[x] == slots[x])
    {
      if lists[idx] != [] {
        assert LinkedAt(slots, lists[idx], idx, 0);
      }
    }
    forall r | 0 <= r < |rooms| && r != idx
      ensures RoomKept(t, rooms[r], lists'[r], r)
    {
      assert RoomKept(slots, rooms[r], lists[r], r);
      if rooms[r].live {
        ChainFrame(slots, t, lists[r], r);
      }
    }
    assert fd in [fd] + lists[idx];
    JoinPlaces(slots, t, lists, fd, idx);
  }

  lemma JoinPlaces(slots: seq<Link>, t: seq<Link>, lists: seq<seq<int>>, fd: int, idx: int)
    requires SlotsPlaced(slots, lists) && |t| == |slots| && 0 <= fd < |slots| && 0 <= idx < |lists|
    requires t[fd].room == idx
    requires forall x :: 0 <= x < |slots| && x != fd ==>
               t[x].room == slots[x].room && (slots[x].room != idx ==> t[x] == slots[x])
    ensures SlotsPlaced(t, lists[idx := [fd] + lists[idx]])
  {
  }

  lemma LooseIsOnNoList(slots: seq<Link>, list: seq<int>, r: int, fd: int)
    requires Chained(slots, list, r) && r >= 0 && 0 <= fd < |slots| && slots[fd] == LOOSE
    ensures fd !in list
  {
    forall i | 0 <= i < |list|
      ensures list[i] != fd
    {
      assert LinkedAt(slots, list, r, i);
    }
  }

  /** Leaving takes one member out of one list and changes no other. */
  lemma LeaveKeepsRooms(slots: seq<Link>, rooms: seq<Room>, lists: seq<seq<int>>, idx: int, k: nat)
    requires RoomsKept(slots, rooms, lists) && SlotsPlaced(slots, lists)
    requires 0 <= idx < |rooms| && rooms[idx].live && k < |lists[idx]|
    ensures var list := lists[idx];
            && LinkedAt(slots, list, idx, k)
            && (k > 0 ==> 0 <= list[k - 1] < |slots|)
            && (k + 1 < |list| ==> 0 <= list[k + 1] < |slots|)
    ensures var t := Unlink(slots, lists[idx][k]);
            var list' := Without(lists[idx], k);
            var lists' := lists[idx := list'];
            && RoomsKept(t, rooms[idx := rooms[idx].(head := Head(list', NONE), count := |list'|)], lists')
            && SlotsPlaced(t, lists')
  {
    var list := lists[idx];
    assert RoomKept(slots, rooms[idx], list, idx);
    UnlinkChains(slots, list, idx, k);
    var t := Unlink(slots, list[k]);
    var lists' := lists[idx := Without(list, k)];
    forall x | 0 <= x < |slots| && x != list[k]
      ensures t[x].room == slots[x].room && (slots[x].room != idx ==> t[x] == slots[x])
    {
      if k > 0 {
        assert LinkedAt(slots, list, idx, k - 1);
      }
      if k + 1 < |list| {
        assert LinkedAt(slots, list, idx, k + 1);
      }
    }
    forall r | 0 <= r < |rooms| && r != idx
      ensures RoomKept(t, rooms[r], lists'[r], r)
    {
      assert RoomKept(slots, rooms[r], lists[r], r);
      if rooms[r].live {
        ChainFrame(slots, t, lists[r], r);
      }
    }
    LeavePlaces(slots, t, lists, idx, k);
  }

  lemma LeavePlaces(slots: seq<Link>, t: seq<Link>, lists: seq<seq<int>>, idx: int, k: nat)
    requires SlotsPlaced(slots, lists) && |t| == |slots| && 0 <= idx < |lists| && k < |lists[idx]|
    requires 0 <= lists[idx][k] < |slots| && t[lists[idx][k]] == LOOSE
    requires forall x :: 0 <= x < |slots| && x != lists[idx][k] ==>
               t[x].room == slots[x].room && (slots[x].room != idx ==> t[x] == slots[x])
    ensures SlotsPlaced(t, lists[idx := Without(lists[idx], k)])
  {
  }

  lemma PopKeepsFree(rooms: seq<Room>, free: seq<int>, head: int, room: Room)
    requires FreeKept(rooms, free, head) && free != [] && room.live
    ensures 0 <= head < |rooms| && FreeKept(rooms[head := room], free[1..], rooms[head].nextFree)
  {
    assert FreeAt(rooms, free, 0);
    var rooms' := rooms[head := room];
    var rest := free[1..];
    assert free[0] == head;
    forall i | 0 <= i < |rest|
      ensures FreeAt(rooms', rest, i)
    {
      assert FreeAt(rooms, free, i + 1);
      assert free[i + 1] != free[0];
    }
    forall r | 0 <= r < |rooms'| && !rooms'[r].live
      ensures r in rest
    {
      assert r in free;
    }
  }

  lemma PushKeepsFree(rooms: seq<Room>, free: seq<int>, head: int, idx: int, room: Room)
    requires FreeKept(rooms, free, head) && 0 <= idx < |rooms| && rooms[idx].live
    requires !room.live && room.nextFree == head
    ensures FreeKept(rooms[idx := room], [idx] + free, idx)
  {
    var rooms' := rooms[idx := room];
    var more := [idx] + free;
    forall i | 0 <= i < |free|
      ensures free[i] != idx && FreeAt(rooms', more, i + 1)
    {
      assert FreeAt(rooms, free, i);
    }
    NoDupCons(idx, free);
    assert FreeAt(rooms', more, 0);
    forall i | 0 <= i < |more|
      ensures FreeAt(rooms', more, i)
    {
      assert i == 0 || FreeAt(rooms', more, (i - 1) + 1);
    }
    forall r | 0 <= r < |rooms'| && !rooms'[r].live
      ensures r in more
    {
      assert r == idx || r in free;
    }
  }

  lemma NoDupCons(x: int, s: seq<int>)
    requires NoDup(s) && forall i :: 0 <= i < |s| ==> s[i] != x
    ensures NoDup([x] + s)
  {
  }

  /** Slots and records are equally many and every live room has a member, so while
      some slot is loose the free list has a record. */
  lemma FreeListSuffices(slots: seq<Link>, rooms: seq<Room>, lists: seq<seq<int>>, free: seq<int>, head: int, fd: int)
    requires RoomsKept(slots, rooms, lists) && FreeKept(rooms, free, head) && |rooms| == |slots|
    requires forall r :: 0 <= r < |rooms| && rooms[r].live ==> lists[r] != []
    requires 0 <= fd < |slots| && slots[fd] == LOOSE
    ensures free != [] && 0 <= head < |rooms| && !rooms[head].live
  {
    if free == [] {
      var n := |rooms|;
      var first: seq<nat> := seq(n, r requires 0 <= r < n => FirstMember(slots, rooms, lists, r));
      forall i | 0 <= i < n
        ensures first[i] < n && slots[first[i]].room == i
      {
        assert RoomKept(slots, rooms[i], lists[i], i);
        assert LinkedAt(slots, lists[i], i, 0);
      }
      assert forall i :: 0 <= i < n ==> first[i] != fd;
      Pigeonhole(first + [fd], n);
      assert false;
    }
    assert FreeAt(rooms, free, 0);
  }

  ghost function FirstMember(slots: seq<Link>, rooms: seq<Room>, lists: seq<seq<int>>, r: int): nat
    requires RoomsKept(slots, rooms, lists) && 0 <= r < |rooms| && rooms[r].live && lists[r] != []
  {
    assert RoomKept(slots, rooms[r], lists[r], r);
    assert LinkedAt(slots, lists[r], r, 0);
    lists[r][0]
  }

  // ---- acquiring, joining, leaving, releasing

  ghost predicate WellShaped(slots: seq<Link>, rooms: seq<Room>, freeHead: int, index: map<Name, int>,
                             lists: seq<seq<int>>, free: seq<int>)
  {
    && |rooms| == |slots| && RoomsKept(slots, rooms, lists) && SlotsPlaced(slots, lists)
    && FreeKept(rooms, free, freeHead) && IndexKept(rooms, index) && NamesFit(rooms)
  }

  ghost function Buffers(rooms: seq<Room>): seq<seq<byte>> {
    seq(|rooms|, r requires 0 <= r < |rooms| => rooms[r].name)
  }

  lemma BuffersKept(rooms: seq<Room>, idx: int, room: Room)
    requires 0 <= idx < |rooms|
    ensures Buffers(rooms[idx := room]) == Buffers(rooms)[idx := room.name]
    ensures room.name == rooms[idx].name ==> Buffers(rooms[idx := room]) == Buffers(rooms)
  {
  }

  ghost predicate NamesFit(rooms: seq<Room>) {
    forall r :: 0 <= r < |rooms| ==> |rooms[r].name| == NAME_SIZE
  }

  ghost predicate AllPeopled(rooms: seq<Room>, lists: seq<seq<int>>, but: int) {
    |lists| == |rooms| && forall r :: 0 <= r < |rooms| && rooms[r].live && r != but ==> lists[r] != []
  }

  lemma JoinKeeps(slots: seq<Link>, rooms: seq<Room>, freeHead: int, index: map<Name, int>,
                  lists: seq<seq<int>>, free: seq<int>, fd: int, idx: int)
    requires WellShaped(slots, rooms, freeHead, index, lists, free) && AllPeopled(rooms, lists, idx)
    requires 0 <= fd < |slots| && slots[fd] == LOOSE && 0 <= idx < |rooms| && rooms[idx].live
    ensures rooms[idx].head == NONE || 0 <= rooms[idx].head < |slots|
    ensures var rooms' := rooms[idx := rooms[idx].(head := fd, count := rooms[idx].count + 1)];
            var lists' := lists[idx := [fd] + lists[idx]];
            && WellShaped(LinkIn(slots, fd, idx, rooms[idx].head), rooms', freeHead, index, lists', free)
            && AllPeopled(rooms', lists', NONE)
  {
    var room := rooms[idx].(head := fd, count := rooms[idx].count + 1);
    JoinKeepsRooms(slots, rooms, lists, fd, idx);
    JoinKeepsFree(rooms, free, freeHead, idx, room);
    JoinKeepsIndex(rooms, index, idx, room);
  }

  lemma LeaveKeeps(slots: seq<Link>, rooms: seq<Room>, freeHead: int, index: map<Name, int>,
                   lists: seq<seq<int>>, free: seq<int>, idx: int, k: nat)
    requires WellShaped(slots, rooms, freeHead, index, lists, free) && AllPeopled(rooms, lists, NONE)
    requires 0 <= idx < |rooms| && rooms[idx].live && k < |lists[idx]|
    ensures var list := lists[idx];
            && LinkedAt(slots, list, idx, k)
            && (k > 0 ==> 0 <= list[k - 1] < |slots|)
            && (k + 1 < |list| ==> 0 <= list[k + 1] < |slots|)
    ensures var list' := Without(lists[idx], k);
            var rooms' := rooms[idx := rooms[idx].(head := Head(list', NONE), count := |list'|)];
            WellShaped(Unlink(slots, lists[idx][k]), rooms', freeHead, index, lists[idx := list'], free)
  {
    var list' := Without(lists[idx], k);
    var room := rooms[idx].(head := Head(list', NONE), count := |list'|);
    LeaveKeepsRooms(slots, rooms, lists, idx, k);
    JoinKeepsFree(rooms, free, freeHead, idx, room);
    JoinKeepsIndex(rooms, index, idx, room);
  }

  lemma AcquireKeeps(slots: seq<Link>, rooms: seq<Room>, lists: seq<seq<int>>, index: map<Name, int>, idx: int,
                     room: Room)
    requires RoomsKept(slots, rooms, lists) && IndexKept(rooms, index)
    requires 0 <= idx < |rooms| && !rooms[idx].live
    requires room.live && room.head == NONE && room.count == 0 && Key(room.name) !in index
    ensures lists[idx] == [] && RoomsKept(slots, rooms[idx := room], lists)
    ensures IndexKept(rooms[idx := room], index[Key(room.name) := idx])
  {
  }

  lemma MeaningOfAcquired(index: map<Name, int>, lists: seq<seq<int>>, key: Name, idx: int)
    requires forall k :: k in index ==> 0 <= index[k] < |lists|
    requires 0 <= idx < |lists| && lists[idx] == [] && key !in index
    ensures Meaning(index[key := idx], lists) == Meaning(index, lists)[key := {}]
  {
    assert Elems([]) == {};
  }

  /** Changing the list of one indexed record changes the meaning of its name. */
  lemma MeaningOfChanged(rooms: seq<Room>, index: map<Name, int>, lists: seq<seq<int>>, key: Name, list: seq<int>)
    requires IndexKept(rooms, index) && |lists| == |rooms| && key in index
    ensures Meaning(index, lists[index[key] := list]) == Meaning(index, lists)[key := Elems(list)]
  {
  }

  lemma JoinKeepsIndex(rooms: seq<Room>, index: map<Name, int>, idx: int, room: Room)
    requires IndexKept(rooms, index) && 0 <= idx < |rooms| && rooms[idx].live
    requires room.live && room.name == rooms[idx].name
    ensures IndexKept(rooms[idx := room], index)
  {
  }

  lemma ReleaseKeeps(slots: seq<Link>, rooms: seq<Room>, lists: seq<seq<int>>, index: map<Name, int>, idx: int,
                     room: Room)
    requires RoomsKept(slots, rooms, lists) && IndexKept(rooms, index)
    requires 0 <= idx < |rooms| && rooms[idx].live && lists[idx] == [] && !room.live
    ensures RoomsKept(slots, rooms[idx := room], lists)
    ensures IndexKept(rooms[idx := room], index - {Key(rooms[idx].name)})
  {
    var key := Key(rooms[idx].name);
    var rooms', index' := rooms[idx := room], index - {key};
    forall k | k in index'
      ensures 0 <= index'[k] < |rooms'| && rooms'[index'[k]].live && Key(rooms'[index'[k]].name) == k
    {
      assert index[k] != idx;
    }
    forall r | 0 <= r < |rooms'| && rooms'[r].live
      ensures Key(rooms'[r].name) in index' && index'[Key(rooms'[r].name)] == r
    {
      assert index[Key(rooms[r].name)] == r;
    }
  }

  class RoomStore {
    var slots: seq<Link>            // by descriptor
    var rooms: seq<Room>            // one record per slot
    var freeHead: int
    var index: map<Name, int>       // C-string name to record
    ghost var lists: seq<seq<int>>  // the members of each record, in list order
    ghost var free: seq<int>

    ghost predicate Shape()
      reads this
    {
      WellShaped(slots, rooms, freeHead, index, lists, free)
    }

    /** Every live room has a member, except possibly the one just acquired. */
    ghost predicate Peopled(but: int)
      reads this
    {
      AllPeopled(rooms, lists, but)
    }

    ghost predicate Valid()
      reads this
    {
      Shape() && Peopled(NONE)
    }

    /** The index, the name buffers and the free list. */
    ghost function Titles(): Names
      reads `rooms, `index, `free
    {
      Names(index, Buffers(rooms), free)
    }

    /** The buffer of every indexed record still reads as its key, so a key borrowed from
        it is never stale, and no free record is indexed. */
    lemma TitlesAreSane()
      requires Shape()
      ensures Sane(Titles())
    {
      forall x | x in free
        ensures HasBuffer(Titles(), x) && !rooms[x].live
      {
        var i :| 0 <= i < |free| && free[i] == x;
        assert FreeAt(rooms, free, i);
      }
    }

    ghost function Members(): map<Name, set<int>>
      requires Shape()
      reads this
    {
      Meaning(index, lists)
    }

    /** The name of the room a connection is in, empty for none. */
    ghost function Home(fd: int): Name
      requires Shape() && 0 <= fd < |slots|
      reads this
    {
      if slots[fd] == LOOSE then [] else Key(rooms[slots[fd].room].name)
    }

    constructor (n: nat)
      ensures Valid() && |slots| == n && Members() == map[]
      ensures Titles() == Names(map[], seq(n, _ => seq(NAME_SIZE, _ => 0)), seq(n, i => i))
      ensures forall fd :: 0 <= fd < n ==> slots[fd] == LOOSE
    {
      slots := seq(n, _ => LOOSE);
      rooms := seq(n, i => Room(seq(NAME_SIZE, _ => 0), NONE, 0, if i + 1 < n then i + 1 else NONE, false));
      freeHead := if n == 0 then NONE else 0;
      index := map[];
      lists := seq(n, _ => []);
      free := seq(n, i => i);
      new;
      forall i | 0 <= i < n
        ensures FreeAt(rooms, free, i)
      {
      }
      forall r | 0 <= r < n
        ensures r in free
      {
        assert free[r] == r;
      }
      assert FreeKept(rooms, free, freeHead);
    }

    /** room_acquire: the named room, taken off the free list if new. `fd` is the
        connection about to join, which is in no room. */
    method Acquire(name: Name, ghost fd: int) returns (idx: int)
      requires Valid() && 0 <= fd < |slots| && slots[fd] == LOOSE && 0 < |name| < NAME_SIZE
      modifies `rooms, `freeHead, `index, `free
      ensures Shape() && 0 <= idx < |rooms| && rooms[idx].live && Peopled(idx)
      ensures Key(name) in index && index[Key(name)] == idx
      ensures Members() == if Key(name) in old(Members()) then old(Members()) else old(Members())[Key(name) := {}]
      ensures Titles() == Acquired(old(Titles()), name) && (Key(name) in old(index) || old(free) != [])
      ensures Key(name) in old(index) ==> rooms == old(rooms)
      ensures Key(name) !in old(index) ==>
                && idx == old(freeHead) && 0 <= idx < |old(rooms)|
                && rooms == old(rooms)[idx := rooms[idx]] && rooms[idx].name == Written(old(rooms)[idx].name, name)
    {
      var key := Key(name);
      if key in index {
        idx := index[key];
        return;
      }
      FreeListSuffices(slots, rooms, lists, free, freeHead, fd);
      idx := freeHead;
      KeyOfWritten(rooms[idx].name, name);
      assert FreeAt(rooms, free, 0);
      TakeFree(idx, Room(Written(rooms[idx].name, name), NONE, 0, rooms[idx].nextFree, true));
    }

    method TakeFree(idx: int, room: Room)
      requires Valid() && free != [] && idx == freeHead && room.live && room.head == NONE && room.count == 0
      requires 0 <= idx < |rooms| && !rooms[idx].live && Key(room.name) !in index && |room.name| == NAME_SIZE
      modifies `rooms, `freeHead, `index, `free
      ensures Shape() && rooms == old(rooms)[idx := room] && Peopled(idx)
      ensures index == old(index)[Key(room.name) := idx] && free == old(free)[1..]
      ensures Members() == old(Members())[Key(room.name) := {}]
      ensures Buffers(rooms) == Buffers(old(rooms))[idx := room.name]
    {
      BuffersKept(rooms, idx, room);
      PopKeepsFree(rooms, free, freeHead, room);
      AcquireKeeps(slots, rooms, lists, index, idx, room);
      MeaningOfAcquired(index, lists, Key(room.name), idx);
      freeHead, free := rooms[idx].nextFree, free[1..];
      rooms, index := rooms[idx := room], index[Key(room.name) := idx];
    }

    /** join_room: link at the head of the list. */
    method JoinRoom(fd: int, idx: int)
      requires Shape() && 0 <= fd < |slots| && slots[fd] == LOOSE
      requires 0 <= idx < |rooms| && rooms[idx].live && Peopled(idx)
      modifies `slots, `rooms, `lists
      ensures Valid() && |slots| == old(|slots|)
      ensures var key := Key(old(rooms)[idx].name);
              key in old(Members()) && Members() == old(Members())[key := old(Members())[key] + {fd}]
      ensures Home(fd) == Key(old(rooms)[idx].name) && Titles() == old(Titles())
    {
      var room := rooms[idx].(head := fd, count := rooms[idx].count + 1);
      JoinKeeps(slots, rooms, freeHead, index, lists, free, fd, idx);
      BuffersKept(rooms, idx, room);
      MeaningOfChanged(rooms, index, lists, Key(rooms[idx].name), [fd] + lists[idx]);
      ElemsCons(fd, lists[idx]);
      var linked := LinkIn(slots, fd, idx, rooms[idx].head);
      assert linked[fd].room == idx;
      slots, rooms, lists := linked, rooms[idx := room], lists[idx := [fd] + lists[idx]];
    }

    method Join(fd: int, name: Name)
      requires Valid() && 0 <= fd < |slots| && slots[fd] == LOOSE && 0 < |name| < NAME_SIZE
      modifies this
      ensures Valid() && |slots| == old(|slots|)
      ensures Members() == C.Entered(old(Members()), Key(name), fd) && Home(fd) == Key(name)
      ensures Titles() == Acquired(old(Titles()), name)
    {
      var idx := Acquire(name, fd);
      NameOf(name, idx);
      EnteredEither(old(Members()), Members(), Key(name), fd);
      JoinRoom(fd, idx);
    }

    /** A join leaves everyone else at home. */
    method JoinOther(fd: int, name: Name, ghost other: int)
      requires Valid() && 0 <= fd < |slots| && slots[fd] == LOOSE && 0 < |name| < NAME_SIZE
      requires 0 <= other < |slots| && other != fd && slots[other] != LOOSE
      modifies this
      ensures Valid() && |slots| == old(|slots|)
      ensures Members() == C.Entered(old(Members()), Key(name), fd) && Home(fd) == Key(name)
      ensures Home(other) == old(Home(other))
    {
      HomeIsMembership(other, Home(other));
      Join(fd, name);
      HomeIsMembership(other, old(Home(other)));
    }

    lemma NameOf(name: Name, idx: int)
      requires Shape() && Key(name) in index && index[Key(name)] == idx
      ensures Key(rooms[idx].name) == Key(name)
    {
    }

    method Install(links: seq<Link>, records: seq<Room>, ghost members: seq<seq<int>>)
      modifies `slots, `rooms, `lists
      ensures slots == links && rooms == records && lists == members
    {
      slots, rooms, lists := links, records, members;
    }

    /** Takes a member out of its list; its record keeps the rest. */
    method UnlinkFrom(fd: int, idx: int, ghost k: nat)
      requires Valid() && 0 <= fd < |slots| && slots[fd].room == idx
      requires 0 <= idx < |rooms| && rooms[idx].live && k < |lists[idx]| && lists[idx][k] == fd
      modifies `slots, `rooms, `lists
      ensures Shape() && Peopled(idx) && |slots| == old(|slots|) && slots[fd] == LOOSE
      ensures lists == old(lists)[idx := Without(old(lists)[idx], k)]
      ensures 0 <= idx < |rooms| && rooms[idx].live && rooms[idx].name == old(rooms)[idx].name
      ensures rooms[idx].count == |lists[idx]|
      ensures var key := Key(rooms[idx].name);
              && key in old(Members()) && Members() == old(Members())[key := old(Members())[key] - {fd}]
              && (old(Members())[key] - {fd} == {} <==> lists[idx] == [])
      ensures Titles() == old(Titles())
    {
      BuffersKept(rooms, idx, Shortened(slots, rooms, fd, idx));
      UnlinkKeeps(slots, rooms, freeHead, index, lists, free, idx, k);
      LeaveMeaning(rooms, index, lists, idx, k);
      Install(Unlink(slots, fd), rooms[idx := Shortened(slots, rooms, fd, idx)],
              lists[idx := Without(lists[idx], k)]);
    }

    /** room_release: the name leaves the index before the record is reusable. */
    method Release(idx: int)
      requires Shape() && Peopled(idx) && 0 <= idx < |rooms| && rooms[idx].live && lists[idx] == []
      modifies `rooms, `index, `freeHead, `free
      ensures Valid() && Key(old(rooms)[idx].name) !in index
      ensures Members() == old(Members()) - {Key(old(rooms)[idx].name)}
      ensures Titles() == Released(old(Titles()), Key(old(rooms)[idx].name))
    {
      var room := rooms[idx].(live := false, head := NONE, nextFree := freeHead);
      ReleaseKeeps(slots, rooms, lists, index, idx, room);
      BuffersKept(rooms, idx, room);
      PushKeepsFree(rooms, free, freeHead, idx, room);
      MeaningOfReleased(index, lists, Key(rooms[idx].name));
      var names := index - {Key(rooms[idx].name)};
      index, rooms, freeHead, free := names, rooms[idx := room], idx, [idx] + free;
    }

    /** Where a member sits on the list of its room. */
    lemma Position(fd: int) returns (k: nat)
      requires Valid() && 0 <= fd < |slots| && slots[fd] != LOOSE
      ensures 0 <= slots[fd].room < |rooms| && rooms[slots[fd].room].live
      ensures k < |lists[slots[fd].room]| && lists[slots[fd].room][k] == fd
    {
      var list := lists[slots[fd].room];
      assert RoomKept(slots, rooms[slots[fd].room], list, slots[fd].room);
      k :| 0 <= k < |list| && list[k] == fd;
    }

    /** The count of a room is one exactly when its member is alone. */
    lemma LastIsAlone(fd: int)
      requires Valid() && 0 <= fd < |slots| && slots[fd] != LOOSE
      ensures var idx := slots[fd].room;
              && 0 <= idx < |rooms| && rooms[idx].live && Home(fd) in index && index[Home(fd)] == idx
              && Home(fd) in Members() && (rooms[idx].count == 1 <==> Members()[Home(fd)] - {fd} == {})
    {
      var k := Position(fd);
      var idx := slots[fd].room;
      var list := lists[idx];
      assert RoomKept(slots, rooms[idx], list, idx);
      assert Members()[Home(fd)] == Elems(list);
      if |list| == 1 {
        assert list == [fd];
      } else {
        var other := list[if k == 0 then 1 else 0];
        assert other in Elems(list) - {fd};
      }
    }

    /** leave_room: unlink; the last one out releases the record. */
    method Leave(fd: int)
      requires Valid() && 0 <= fd < |slots|
      modifies this
      ensures Valid() && |slots| == old(|slots|) && slots[fd] == LOOSE
      ensures old(slots)[fd] == LOOSE ==> Members() == old(Members()) && Titles() == old(Titles())
      ensures old(slots)[fd] != LOOSE ==> Members() == C.Left(old(Members()), old(Home(fd)), fd)
      ensures old(slots)[fd] != LOOSE ==>
                Titles() == if old(Home(fd)) in Members() then old(Titles()) else Released(old(Titles()), old(Home(fd)))
      ensures old(slots)[fd] != LOOSE ==>
                var idx := old(slots)[fd].room;
                && 0 <= idx < |rooms| && (rooms[idx].live <==> old(Home(fd)) in Members())
                && (rooms[idx].live ==> Key(rooms[idx].name) == old(Home(fd)))
    {
      if slots[fd] == LOOSE {
        return;
      }
      var idx := slots[fd].room;
      ghost var k := Position(fd);
      UnlinkFrom(fd, idx, k);
      LeftEither(old(Members()), Key(rooms[idx].name), fd);
      if rooms[idx].count == 0 {
        Release(idx);
      }
    }

    /** A join packet: out of the present room, if any, and into the named one. */
    method Switch(fd: int, name: Name)
      requires Valid() && 0 <= fd < |slots| && 0 < |name| < NAME_SIZE
      modifies this
      ensures Valid() && |slots| == old(|slots|) && slots[fd] != LOOSE && Home(fd) == Key(name)
      ensures old(slots)[fd] == LOOSE ==> Members() == C.Entered(old(Members()), Key(name), fd)
      ensures old(slots)[fd] != LOOSE ==>
                Members() == C.Entered(C.Left(old(Members()), old(Home(fd)), fd), Key(name), fd)
    {
      Leave(fd);
      Join(fd, name);
      assert fd in Members()[Key(name)];
      HomeIsMembership(fd, Key(name));
    }

    /** The walk of a broadcast along next links: every member of the room once. */
    method Walk(idx: int) returns (order: seq<int>)
      requires Valid() && 0 <= idx < |rooms| && rooms[idx].live
      ensures NoDup(order) && |order| == rooms[idx].count
      ensures Key(rooms[idx].name) in Members() && Elems(order) == Members()[Key(rooms[idx].name)]
    {
      ghost var list := lists[idx];
      assert RoomKept(slots, rooms[idx], list, idx);
      order := [];
      var fd := rooms[idx].head;
      while fd != NONE
        invariant |order| <= |list| && order == list[..|order|] && fd == Head(list[|order|..], NONE)
        decreases |list| - |order|
      {
        assert LinkedAt(slots, list, idx, |order|);
        order := order + [fd];
        fd := slots[fd].next;
      }
      assert |order| < |list| ==> LinkedAt(slots, list, idx, |order|);
      assert order == list;
    }

    /** A connection is in a room's member set exactly when it calls it home. */
    lemma HomeIsMembership(fd: int, key: Name)
      requires Valid() && 0 <= fd < |slots|
      ensures key in Members() && fd in Members()[key] <==> slots[fd] != LOOSE && Home(fd) == key
    {
      if slots[fd] != LOOSE {
        var r := slots[fd].room;
        assert RoomKept(slots, rooms[r], lists[r], r);
        assert fd in lists[r];
      }
      if key in index && fd in lists[index[key]] {
        var r := index[key];
        assert RoomKept(slots, rooms[r], lists[r], r);
        var i :| 0 <= i < |lists[r]| && lists[r][i] == fd;
        assert LinkedAt(slots, lists[r], r, i);
      }
    }
  }

  /** Two people who join under two names: here they meet exactly when the names agree
      up to the first NUL, in server.cpp exactly when they are equal. */
  method TwoJoins(a: Name, b: Name) returns (store: RoomStore)
    requires 0 < |a| < NAME_SIZE && 0 < |b| < NAME_SIZE
    ensures fresh(store) && store.Valid() && |store.slots| == 2
    ensures store.Home(0) == Key(a) && store.Home(1) == Key(b)
    ensures store.Members() == C.Entered(C.Entered(map[], Key(a), 0), Key(b), 1)
    ensures |store.Members()| == 1 <==> exists k: nat :: AgreeTo(a, b, k)
    ensures |C.Entered(C.Entered(map[], a, 0), b, 1)| == 1 <==> a == b
  {
    store := new RoomStore(2);
    store.Join(0, a);
    EnterEmpty(Key(a), 0);
    store.HomeIsMembership(0, Key(a));
    store.HomeIsMembership(1, store.Home(1));
    store.JoinOther(1, b, 0);
    SameRoomIff(a, b);
    SameKeyIff(a, b);
    CountEntered(Key(a), Key(b));
    CountEntered(a, b);
  }

  /** Room `a` came and went, then `b` was made, then `asked` joined. */
  function Reused(n: Names, a: Name, b: Name, asked: Name): Names
    requires |a| < NAME_SIZE && |b| < NAME_SIZE && |asked| < NAME_SIZE
  {
    Acquired(Acquired(Released(Acquired(n, a), a), b), asked)
  }

  /** Buffers over a room's life: the record that held `a` and now holds `b` shows the
      rest of `a` to a name that goes on past the NUL behind `b`. */
  lemma OldNameLingers(n: Names, a: Name, b: Name, asked: Name)
    requires n.index == map[] && n.free != [] && HasBuffer(n, n.free[0])
    requires 0 !in a && 0 !in b && 0 < |b| < |asked| <= |a| < NAME_SIZE && asked[..|b|] == b && asked[|b|] == 0
    ensures Key(a) == a
    ensures Shown(Reused(n, a, b, asked), asked) == b + [0] + a[|b| + 1..|asked|]
  {
    KeyIsWhole(a);
    KeyIsWhole(b);
    CStrIs(asked, |b|);
    var idx := n.free[0];
    var w1 := Written(n.buffers[idx], a);
    var n1 := Acquired(n, a);
    var n2 := Released(n1, a);
    assert n2 == Names(map[], n.buffers[idx := w1], [idx] + n.free[1..]);
    var n3 := Acquired(n2, b);
    assert n3.index == map[b := idx] && n3.buffers[idx] == Written(w1, b);
    assert w1[|b| + 1..|asked|] == a[|b| + 1..|asked|];
    assert Written(w1, b)[..|asked|] == b + [0] + w1[|b| + 1..|asked|];
  }

  const SECRETROOM: Name := [83, 69, 67, 82, 69, 84, 82, 79, 79, 77]

  const ASKED: Name := [83, 0, 65, 65, 65, 65, 65, 65, 65, 65]

  lemma SecretParts()
    ensures |SECRETROOM| == |ASKED| == 10 && 0 !in SECRETROOM && ASKED[..1] == [83] && ASKED[1] == 0
    ensures [83] + [0] + SECRETROOM[2..10] == [83, 0] + SECRETROOM[2..]
  {
  }

  /** Whatever the names: after room `a` was left and `b` was made, a join that goes on
      past the NUL behind `b` is answered with what `a` left behind. */
  method NameLingers(a: Name, b: Name, asked: Name) returns (store: RoomStore)
    requires 0 !in a && 0 !in b && 0 < |b| < |asked| <= |a| < NAME_SIZE && asked[..|b|] == b && asked[|b|] == 0
    ensures fresh(store) && store.Valid() && |store.slots| == 2 && store.slots[1] != LOOSE
    ensures Shown(store.Titles(), asked) == b + [0] + a[|b| + 1..|asked|]
  {
    store := new RoomStore(2);
    OldNameLingers(store.Titles(), a, b, asked);
    ComeAndGo(store, a);
    JoinBoth(store, b, asked);
  }

  /** S, NUL and eight bytes is answered with S, NUL and CRETROOM after SECRETROOM. */
  method OldNameShows() returns (store: RoomStore)
    ensures Shown(store.Titles(), ASKED) == [83, 0] + SECRETROOM[2..]
  {
    SecretParts();
    store := NameLingers(SECRETROOM, [83], ASKED);
  }

  /** Two people who were in no room join one after the other. */
  method JoinBoth(store: RoomStore, a: Name, b: Name)
    requires store.Valid() && |store.slots| == 2 && store.Members() == map[]
    requires store.slots[0] == LOOSE && store.slots[1] == LOOSE && 0 < |a| < NAME_SIZE && 0 < |b| < NAME_SIZE
    modifies store
    ensures store.Valid() && |store.slots| == 2 && store.slots[1] != LOOSE
    ensures store.Titles() == Acquired(Acquired(old(store.Titles()), a), b)
  {
    store.Join(0, a);
    EnterEmpty(Key(a), 0);
    store.HomeIsMembership(1, store.Home(1));
    store.Join(1, b);
  }

  /** Somebody joins a room of their own and leaves it. */
  method ComeAndGo(store: RoomStore, name: Name)
    requires store.Valid() && |store.slots| == 2 && store.Members() == map[] && store.slots[0] == LOOSE
    requires Key(name) == name && 0 < |name| < NAME_SIZE
    modifies store
    ensures store.Valid() && |store.slots| == 2 && store.Members() == map[]
    ensures store.slots[0] == LOOSE && store.slots[1] == LOOSE
    ensures store.Titles() == Released(Acquired(old(store.Titles()), name), name)
  {
    store.Join(0, name);
    EnterEmpty(name, 0);
    store.HomeIsMembership(0, name);
    store.Leave(0);
    assert {0} - {0} == {};
    store.HomeIsMembership(1, store.Home(1));
  }

  lemma EnterEmpty(a: Name, fd: int)
    ensures C.Entered(map[], a, fd) == map[a := {fd}]
  {
    assert {} + {fd} == {fd};
  }

  lemma CountEntered(a: Name, b: Name)
    ensures |C.Entered(C.Entered(map[], a, 0), b, 1)| == if a == b then 1 else 2
  {
    var m := C.Entered(map[], a, 0);
    EnterEmpty(a, 0);
    var n := C.Entered(m, b, 1);
    assert n.Keys == {a, b};
    assert |n| == |n.Keys|;
  }

  /** "A" and "A", NUL, "B" are one room here and two in server.cpp. */
  lemma NulMergesRooms()
    ensures var a: Name, b: Name := [65], [65, 0, 66];
            && AgreeTo(a, b, 1) && a != b
            && C.Entered(C.Entered(map[], Key(a), 0), Key(b), 1) == map[[65] := {0, 1}]
            && C.Entered(C.Entered(map[], a, 0), b, 1) == map[a := {0}, b := {1}]
  {
    var a: Name, b: Name := [65], [65, 0, 66];
    CStrIs(a, 1);
    CStrIs(b, 1);
    assert a[..1] == [65] && b[..1] == [65];
    assert Key(a) == [65] && Key(b) == [65];
    EnterEmpty([65], 0);
    EnterEmpty(a, 0);
    assert {0} + {1} == {0, 1} && {} + {1} == {1};
  }

  /** The record of a room once one member is unlinked, as the code computes it. */
  function Shortened(slots: seq<Link>, rooms: seq<Room>, fd: int, idx: int): Room
    requires 0 <= fd < |slots| && 0 <= idx < |rooms| && rooms[idx].count > 0
  {
    rooms[idx].(head := if slots[fd].prev == NONE then slots[fd].next else rooms[idx].head,
                count := rooms[idx].count - 1)
  }

  lemma UnlinkKeeps(slots: seq<Link>, rooms: seq<Room>, freeHead: int, index: map<Name, int>,
                    lists: seq<seq<int>>, free: seq<int>, idx: int, k: nat)
    requires WellShaped(slots, rooms, freeHead, index, lists, free) && AllPeopled(rooms, lists, NONE)
    requires 0 <= idx < |rooms| && rooms[idx].live && k < |lists[idx]|
    ensures var list := lists[idx];
            && LinkedAt(slots, list, idx, k) && NoDup(list)
            && (k > 0 ==> 0 <= list[k - 1] < |slots|)
            && (k + 1 < |list| ==> 0 <= list[k + 1] < |slots|)
            && rooms[idx].count == |list|
    ensures var fd := lists[idx][k];
            var lists' := lists[idx := Without(lists[idx], k)];
            var rooms' := rooms[idx := Shortened(slots, rooms, fd, idx)];
            && WellShaped(Unlink(slots, fd), rooms', freeHead, index, lists', free)
            && AllPeopled(rooms', lists', idx)
  {
    LeaveKeeps(slots, rooms, freeHead, index, lists, free, idx, k);
    FirstWithout(slots, rooms, lists, idx, k);
    PeopledBut(rooms, lists, idx, k, Shortened(slots, rooms, lists[idx][k], idx));
  }

  lemma LeaveMeaning(rooms: seq<Room>, index: map<Name, int>, lists: seq<seq<int>>, idx: int, k: nat)
    requires IndexKept(rooms, index) && |lists| == |rooms|
    requires 0 <= idx < |rooms| && rooms[idx].live && NoDup(lists[idx]) && k < |lists[idx]|
    ensures var key, m := Key(rooms[idx].name), Meaning(index, lists);
            && key in m
            && Meaning(index, lists[idx := Without(lists[idx], k)]) == m[key := m[key] - {lists[idx][k]}]
            && (m[key] - {lists[idx][k]} == {} <==> Without(lists[idx], k) == [])
  {
    MeaningOfChanged(rooms, index, lists, Key(rooms[idx].name), Without(lists[idx], k));
    ElemsWithout(lists[idx], k);
  }

  lemma PeopledBut(rooms: seq<Room>, lists: seq<seq<int>>, idx: int, k: nat, room: Room)
    requires AllPeopled(rooms, lists, NONE) && 0 <= idx < |rooms| && k < |lists[idx]|
    ensures AllPeopled(rooms[idx := room], lists[idx := Without(lists[idx], k)], idx)
  {
  }

  /** Leaving a room that stays, or one that is released with its last member. */
  lemma LeftEither(m: map<Name, set<int>>, key: Name, fd: int)
    requires key in m
    ensures var mid := m[key := m[key] - {fd}];
            C.Left(m, key, fd) == if m[key] - {fd} == {} then mid - {key} else mid
  {
  }

  lemma MeaningOfReleased(index: map<Name, int>, lists: seq<seq<int>>, key: Name)
    requires forall k :: k in index ==> 0 <= index[k] < |lists|
    ensures Meaning(index - {key}, lists) == Meaning(index, lists) - {key}
  {
  }

  lemma ElemsWithout(list: seq<int>, k: nat)
    requires NoDup(list) && k < |list|
    ensures Elems(Without(list, k)) == Elems(list) - {list[k]}
    ensures Elems(Without(list, k)) == {} <==> Without(list, k) == []
  {
    forall x | x in list && x != list[k]
      ensures x in Without(list, k)
    {
      var i :| 0 <= i < |list| && list[i] == x;
      assert Without(list, k)[if i < k then i else i - 1] == x;
    }
    assert Without(list, k) != [] ==> Without(list, k)[0] in Elems(Without(list, k));
  }

  /** The head the code computes is the head of the shortened list. */
  lemma FirstWithout(slots: seq<Link>, rooms: seq<Room>, lists: seq<seq<int>>, idx: int, k: nat)
    requires RoomsKept(slots, rooms, lists) && 0 <= idx < |rooms| && rooms[idx].live && k < |lists[idx]|
    ensures var list := lists[idx];
            && 0 <= list[k] < |slots| && NoDup(list) && rooms[idx].count == |list|
            && Head(Without(list, k), NONE)
               == if slots[list[k]].prev == NONE then slots[list[k]].next else rooms[idx].head
  {
    var list := lists[idx];
    assert RoomKept(slots, rooms[idx], list, idx);
    assert LinkedAt(slots, list, idx, k);
    if k > 0 {
      assert LinkedAt(slots, list, idx, k - 1);
    }
  }

  /** Joining an existing room, or one that was just created empty. */
  lemma EnteredEither(m: map<Name, set<int>>, mid: map<Name, set<int>>, key: Name, fd: int)
    requires mid == if key in m then m else m[key := {}]
    ensures mid[key := mid[key] + {fd}] == C.Entered(m, key, fd)
  {
  }

  lemma ElemsCons(x: int, s: seq<int>)
    ensures Elems([x] + s) == Elems(s) + {x}
  {
  }

  /** Changing a live record that stays live does not concern the free list. */
  lemma JoinKeepsFree(rooms: seq<Room>, free: seq<int>, head: int, idx: int, room: Room)
    requires FreeKept(rooms, free, head) && 0 <= idx < |rooms| && rooms[idx].live && room.live
    ensures FreeKept(rooms[idx := room], free, head)
  {
    var rooms' := rooms[idx := room];
    forall i | 0 <= i < |free|
      ensures FreeAt(rooms', free, i)
    {
      assert FreeAt(rooms, free, i);
    }
  }
}
