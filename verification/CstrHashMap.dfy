/** The separately chained hash map of the engine: a bucket array of node
    pointers, nodes relinked in place by insert, erase and rehash. The heap is
    explicit: addresses to nodes, with 0 as the null pointer. Keys are the texts
    of the borrowed C strings. */
module CstrHashMaps {
  import opened Wire
  import opened Modulo
  import opened Counting
  import opened Words

  type Key = seq<byte>
  type Addr = int

  const NULL: Addr := 0
  const WORD: int := 0x1_0000_0000_0000_0000

  datatype Node<V> = Node(key: Key, value: V, next: Addr)

  /** djb2 on 64-bit words. */
  function HashFrom(h: nat, key: Key): (r: nat)
    requires h < WORD
    ensures r < WORD
    decreases |key|
  {
    if key == [] then h else HashFrom((h * 33 + key[0]) % WORD, key[1..])
  }

  function Hash(key: Key): nat {
    HashFrom(5381, key)
  }

  lemma {:induction false} HashFromSnoc(h: nat, key: Key, b: byte)
    requires h < WORD
    ensures HashFrom(h, key + [b]) == (HashFrom(h, key) * 33 + b) % WORD
    decreases |key|
  {
    if key == [] {
      assert (key + [b])[1..] == [];
    } else {
      assert (key + [b])[1..] == key[1..] + [b];
      HashFromSnoc((h * 33 + key[0]) % WORD, key[1..], b);
    }
  }

  /** The hash as the loop builds it up, byte by byte: 33 times what was, plus the byte. */
  lemma HashSnoc(key: Key, b: byte)
    ensures Hash([]) == 5381 && Hash(key + [b]) == (Hash(key) * 33 + b) % WORD
  {
    HashFromSnoc(5381, key, b);
  }

  /** The bucket of a key: its hash modulo the (power of two) capacity. */
  function BucketOf(key: Key, n: nat): (b: nat)
    requires n > 0
    ensures b < n
  {
    Reduce(Hash(key), n)
  }

  function Reduce(h: nat, n: nat): (r: nat)
    requires n > 0
    ensures r < n
  {
    if h < n then h else Reduce(h - n, n)
  }

  /** The least power of two at or above `n`. */
  function NextPowerOfTwo(n: nat): (p: nat)
    ensures PowerOfTwo(p) && n <= p && (n > 1 ==> p < 2 * n)
    decreases n
  {
    if n <= 1 then 1 else 2 * NextPowerOfTwo((n + 1) / 2)
  }

  lemma {:induction false} PowerIsItsOwnNext(n: nat)
    requires PowerOfTwo(n)
    ensures NextPowerOfTwo(n) == n
    decreases n
  {
    if n > 1 {
      PowerIsItsOwnNext(n / 2);
      assert (n + 1) / 2 == n / 2;
    }
  }

  lemma {:induction false} FillIsPower(w: nat)
    ensures Fill(w) + 1 == NextPowerOfTwo(w + 1)
  {
    if w > 0 {
      FillIsPower(w / 2);
      assert (w + 2) / 2 == w / 2 + 1;
    }
  }

  /** Every bit of `v` says whether one of `shift` bits of `w` from there on is set. */
  ghost predicate Sees(v: nat, w: nat, shift: nat) {
    forall k: nat :: TestBit(v, k) == Window(w, k, shift)
  }

  /** One round: the word sees twice as far up. */
  lemma SmearRound(w: nat, v: nat, shift: nat)
    requires Sees(v, w, shift)
    ensures Sees(Or(v, Shr(v, shift)), w, 2 * shift)
  {
    forall k: nat
      ensures TestBit(Or(v, Shr(v, shift)), k) == Window(w, k, 2 * shift)
    {
      OrBit(v, Shr(v, shift), k);
      ShrBit(v, shift, k);
      WindowJoin(w, k, shift, shift);
    }
  }

  predicate Round(shift: nat) {
    shift == 1 || shift == 2 || shift == 4 || shift == 8 || shift == 16 || shift == 32 || shift == 64
  }

  /** The loop: or the word with itself shifted by 1, 2, 4 and so on. */
  method SmearDown(w: nat) returns (v: nat)
    requires w < WORD
    ensures v == Fill(w)
  {
    v := w;
    var shift := 1;
    assert Sees(v, w, shift);
    while shift < 64
      invariant Round(shift) && Sees(v, w, shift)
      decreases 64 - shift
    {
      SmearRound(w, v, shift);
      v, shift := Or(v, Shr(v, shift)), 2 * shift;
    }
    WordIsPow2();
    SmearedIsFill(w, v);
  }

  /** next_power_of_two as written: smear the highest bit down, add one, on 64-bit
      words. Up to 2^63 it is the least power of two at or above its argument. */
  method SmearToPower(value: nat) returns (p: nat)
    requires value < WORD
    ensures p == NextPowerOfTwo(value) % WORD
  {
    if value <= 1 {
      return 1;
    }
    var v := SmearDown(value - 1);
    FillIsPower(value - 1);
    p := (v + 1) % WORD;
  }

  lemma WordIsPow2()
    ensures Pow2(64) == WORD
  {
    assert Pow2(8) == 256;
    assert Pow2(16) == 65536;
    assert Pow2(24) == 0x100_0000;
    assert Pow2(32) == 0x1_0000_0000;
    assert Pow2(40) == 0x100_0000_0000;
    assert Pow2(48) == 0x1_0000_0000_0000;
    assert Pow2(56) == 0x100_0000_0000_0000;
  }

  lemma SmearedIsFill(w: nat, v: nat)
    requires w < Pow2(64) && Sees(v, w, 64)
    ensures v == Fill(w)
  {
    forall k: nat
      ensures TestBit(v, k) == TestBit(Fill(w), k)
    {
      FillBit(w, 64, k);
    }
    SameBits(v, Fill(w));
  }

  /** The bucket of a key is its hash masked with the capacity less one, as the code
      computes it. */
  lemma BucketIsMasked(key: Key, n: nat)
    requires PowerOfTwo(n)
    ensures BucketOf(key, n) == And(Hash(key), n - 1)
  {
    ReduceIsModulo(Hash(key), n);
    MaskIsModulo(Hash(key), n);
  }

  /** How many entries a table may hold: floor(0.75 * capacity). */
  function LoadLimit(capacity: nat): nat {
    capacity * 3 / 4
  }

  /** The link that leads to place `i` of a chain. */
  function At(list: seq<Addr>, i: nat): Addr {
    if i < |list| then list[i] else NULL
  }

  // ---- chains

  ghost predicate Linked<V>(heap: map<Addr, Node<V>>, list: seq<Addr>, head: Addr) {
    head == At(list, 0) && forall i: nat :: i < |list| ==> NodeAt(heap, list, i)
  }

  ghost predicate NodeAt<V>(heap: map<Addr, Node<V>>, list: seq<Addr>, i: nat)
    requires i < |list|
  {
    list[i] != NULL && list[i] in heap && heap[list[i]].next == At(list, i + 1)
  }

  lemma LinkedMembers<V>(heap: map<Addr, Node<V>>, list: seq<Addr>, head: Addr)
    requires Linked(heap, list, head)
    ensures forall a :: a in list ==> a != NULL && a in heap
  {
    forall i: nat | i < |list|
      ensures list[i] != NULL && list[i] in heap
    {
      assert NodeAt(heap, list, i);
    }
  }

  ghost predicate AllLinked<V>(heap: map<Addr, Node<V>>, buckets: seq<Addr>, chains: seq<seq<Addr>>) {
    |chains| == |buckets| && forall b :: 0 <= b < |buckets| ==> Linked(heap, chains[b], buckets[b])
  }

  ghost predicate ChainsDistinct(chains: seq<seq<Addr>>) {
    forall b :: 0 <= b < |chains| ==> NoDup(chains[b])
  }

  ghost predicate KeysDistinct<V>(heap: map<Addr, Node<V>>) {
    forall a, b :: a in heap && b in heap && heap[a].key == heap[b].key ==> a == b
  }

  /** The finite map the nodes stand for. */
  ghost predicate Represents<V>(heap: map<Addr, Node<V>>, model: map<Key, V>) {
    && (forall a :: a in heap ==> heap[a].key in model && model[heap[a].key] == heap[a].value)
    && (forall k :: k in model ==> Stored(heap, k))
  }

  ghost predicate Stored<V>(heap: map<Addr, Node<V>>, key: Key) {
    exists a :: a in heap && heap[a].key == key
  }

  lemma LinkedFrame<V>(heap: map<Addr, Node<V>>, other: map<Addr, Node<V>>, list: seq<Addr>, head: Addr)
    requires Linked(heap, list, head)
    requires forall a :: a in list ==> a in heap && a in other && other[a].next == heap[a].next
    ensures Linked(other, list, head)
  {
    forall i: nat | i < |list|
      ensures NodeAt(other, list, i)
    {
      assert NodeAt(heap, list, i) && list[i] in list;
    }
  }

  lemma LinkedCons<V>(heap: map<Addr, Node<V>>, list: seq<Addr>, head: Addr, a: Addr)
    requires Linked(heap, list, head) && a != NULL && a in heap && heap[a].next == head
    ensures Linked(heap, [a] + list, a)
  {
    var l := [a] + list;
    forall i: nat | i < |l|
      ensures NodeAt(heap, l, i)
    {
      assert i == 0 || NodeAt(heap, list, i - 1);
    }
  }

  // ---- rehash

  /** The new bucket of every node. */
  ghost function Homes<V>(heap: map<Addr, Node<V>>, n: nat): map<Addr, nat>
    requires n > 0
  {
    map a | a in heap :: BucketOf(heap[a].key, n)
  }

  /** The nodes of `moved` sit on the chain of their new bucket, and no others do. */
  ghost predicate Housed(chains: seq<seq<Addr>>, home: map<Addr, nat>, moved: set<Addr>) {
    && ChainsDistinct(chains)
    && (forall b, a :: 0 <= b < |chains| && a in chains[b] ==> a in moved && a in home && home[a] == b)
    && (forall a :: a in moved ==> a in home && home[a] < |chains| && a in chains[home[a]])
  }

  lemma HouseOne(chains: seq<seq<Addr>>, home: map<Addr, nat>, moved: set<Addr>, a: Addr)
    requires Housed(chains, home, moved) && a !in moved && a in home && home[a] < |chains|
    ensures Housed(chains[home[a] := [a] + chains[home[a]]], home, moved + {a})
  {
  }

  /** Relinking a node that is on no new chain to the front of chain `x`. */
  lemma LinkOne<V>(heap: map<Addr, Node<V>>, buckets: seq<Addr>, chains: seq<seq<Addr>>, x: nat, a: Addr)
    requires AllLinked(heap, buckets, chains) && x < |chains| && a in heap && a != NULL
    requires forall b :: 0 <= b < |chains| ==> a !in chains[b]
    ensures AllLinked(heap[a := heap[a].(next := buckets[x])], buckets[x := a], chains[x := [a] + chains[x]])
  {
    var heap' := heap[a := heap[a].(next := buckets[x])];
    var buckets', chains' := buckets[x := a], chains[x := [a] + chains[x]];
    forall b | 0 <= b < |buckets'|
      ensures Linked(heap', chains'[b], buckets'[b])
    {
      assert Linked(heap, chains[b], buckets[b]);
      LinkedMembers(heap, chains[b], buckets[b]);
      LinkedFrame(heap, heap', chains[b], buckets[b]);
      if b == x {
        LinkedCons(heap', chains[b], buckets[b], a);
      }
    }
  }

  /** Same nodes with the same keys and values; only links may differ. */
  ghost predicate SameEntries<V>(heap: map<Addr, Node<V>>, other: map<Addr, Node<V>>) {
    && other.Keys == heap.Keys
    && forall a :: a in heap ==> other[a].key == heap[a].key && other[a].value == heap[a].value
  }

  lemma SameHomes<V>(heap: map<Addr, Node<V>>, other: map<Addr, Node<V>>, n: nat)
    requires SameEntries(heap, other) && n > 0
    ensures Homes(heap, n) == Homes(other, n)
  {
    forall a | a in heap
      ensures Homes(heap, n)[a] == Homes(other, n)[a]
    {
    }
  }

  /** Reducing by repeated subtraction is the remainder. */
  lemma {:induction false} ReduceIsModulo(h: nat, n: nat)
    requires n > 0
    ensures Reduce(h, n) == h % n
  {
    if h >= n {
      ReduceIsModulo(h - n, n);
      var q, r := (h - n) / n, (h - n) % n;
      assert h == (q + 1) * n + r;
      ModUnique(h, q + 1, r, n);
    }
  }

  /** A table of `n` buckets holding exactly the nodes of the heap. */
  ghost predicate Table<V>(heap: map<Addr, Node<V>>, buckets: seq<Addr>, chains: seq<seq<Addr>>) {
    && NULL !in heap && AllLinked(heap, buckets, chains)
    && (if |buckets| == 0 then heap == map[] else Housed(chains, Homes(heap, |buckets|), heap.Keys))
  }

  /** A rehash that has moved the nodes of `moved` out of buckets below `i`. */
  ghost predicate Rehashing<V>(heap0: map<Addr, Node<V>>, heap: map<Addr, Node<V>>,
                               buckets: seq<Addr>, chains: seq<seq<Addr>>, home: map<Addr, nat>, moved: set<Addr>)
  {
    && SameEntries(heap0, heap) && AllLinked(heap, buckets, chains) && Housed(chains, home, moved)
    && (forall a :: a in heap && a !in moved ==> heap[a] == heap0[a])
  }

  lemma MoveOne<V>(heap0: map<Addr, Node<V>>, heap: map<Addr, Node<V>>,
                   buckets: seq<Addr>, chains: seq<seq<Addr>>, home: map<Addr, nat>, moved: set<Addr>, a: Addr)
    requires Rehashing(heap0, heap, buckets, chains, home, moved)
    requires a in heap && a != NULL && a !in moved && a in home && home[a] < |chains|
    ensures var x := home[a];
            Rehashing(heap0, heap[a := heap[a].(next := buckets[x])], buckets[x := a],
                      chains[x := [a] + chains[x]], home, moved + {a})
  {
    LinkOne(heap, buckets, chains, home[a], a);
    HouseOne(chains, home, moved, a);
  }

  /** Exactly the nodes of the first `i` old buckets have moved. */
  ghost predicate Swept(chains: seq<seq<Addr>>, home: map<Addr, nat>, moved: set<Addr>, i: nat) {
    && i <= |chains|
    && (forall a :: a in moved ==> a in home && home[a] < i)
    && (forall b, a :: 0 <= b < i && a in chains[b] ==> a in moved)
  }

  lemma SweepOne(chains: seq<seq<Addr>>, home: map<Addr, nat>, keys: set<Addr>, moved: set<Addr>, more: set<Addr>,
                 i: nat)
    requires Housed(chains, home, keys) && Swept(chains, home, moved, i) && i < |chains|
    requires forall a :: a in more <==> a in moved || a in chains[i]
    ensures Swept(chains, home, more, i + 1)
  {
  }

  lemma SweptAll(chains: seq<seq<Addr>>, home: map<Addr, nat>, keys: set<Addr>, moved: set<Addr>)
    requires Housed(chains, home, keys) && home.Keys == keys && Swept(chains, home, moved, |chains|)
    ensures moved == keys
  {
    forall a | a in keys
      ensures a in moved
    {
      assert a in chains[home[a]];
    }
    assert forall a :: a in moved ==> a in home.Keys;
  }

  lemma ElemsAppend(list: seq<Addr>, j: nat)
    requires j < |list|
    ensures Elems(list[..j + 1]) == Elems(list[..j]) + {list[j]}
  {
  }

  /** The inner loop: empties one old chain into the new table. */
  method MoveChain<V>(heap0: map<Addr, Node<V>>, heap1: map<Addr, Node<V>>, buckets1: seq<Addr>,
                      ghost chains1: seq<seq<Addr>>,
                      ghost home: map<Addr, nat>, ghost moved1: set<Addr>, ghost list: seq<Addr>, head: Addr)
    returns (heap: map<Addr, Node<V>>, buckets: seq<Addr>, ghost chains: seq<seq<Addr>>, ghost moved: set<Addr>)
    requires NULL !in heap0 && |buckets1| > 0 && home == Homes(heap0, |buckets1|)
    requires Rehashing(heap0, heap1, buckets1, chains1, home, moved1)
    requires Linked(heap0, list, head) && NoDup(list) && forall a :: a in list ==> a !in moved1
    ensures |buckets| == |buckets1| && Rehashing(heap0, heap, buckets, chains, home, moved)
    ensures forall a :: a in moved <==> a in moved1 || a in list
  {
    heap, buckets, chains, moved := heap1, buckets1, chains1, moved1;
    var current := head;
    ghost var j := 0;
    while current != NULL
      invariant j <= |list| && |buckets| == |buckets1| && current == At(list, j)
      invariant Rehashing(heap0, heap, buckets, chains, home, moved)
      invariant moved == moved1 + Elems(list[..j])
      decreases |list| - j
    {
      assert NodeAt(heap0, list, j);
      ElemsAppend(list, j);
      assert current in list && current !in Elems(list[..j]);
      var next := heap[current].next;
      var x := BucketOf(heap[current].key, |buckets|);
      MoveOne(heap0, heap, buckets, chains, home, moved, current);
      heap := heap[current := heap[current].(next := buckets[x])];
      buckets, chains, moved := buckets[x := current], chains[x := [current] + chains[x]], moved + {current};
      current, j := next, j + 1;
    }
    assert j < |list| ==> NodeAt(heap0, list, j);
    assert list[..j] == list;
  }

  method Rehash<V>(heap0: map<Addr, Node<V>>, buckets0: seq<Addr>, ghost chains0: seq<seq<Addr>>, n: nat)
    returns (heap: map<Addr, Node<V>>, buckets: seq<Addr>, ghost chains: seq<seq<Addr>>)
    requires Table(heap0, buckets0, chains0) && n > 0 && |buckets0| > 0
    ensures |buckets| == n && Table(heap, buckets, chains) && SameEntries(heap0, heap)
  {
    heap, buckets, chains := heap0, seq(n, _ => NULL), seq(n, _ => []);
    ghost var was, home := Homes(heap0, |buckets0|), Homes(heap0, n);
    ghost var moved: set<Addr> := {};
    for i := 0 to |buckets0|
      invariant |buckets| == n && Rehashing(heap0, heap, buckets, chains, home, moved)
      invariant Swept(chains0, was, moved, i)
    {
      assert Linked(heap0, chains0[i], buckets0[i]);
      ghost var before := moved;
      heap, buckets, chains, moved :=
        MoveChain(heap0, heap, buckets, chains, home, moved, chains0[i], buckets0[i]);
      SweepOne(chains0, was, heap0.Keys, before, moved, i);
    }
    SweptAll(chains0, was, heap0.Keys, moved);
    SameHomes(heap0, heap, n);
  }

  // ---- entries

  lemma InsertKeepsTable<V>(heap: map<Addr, Node<V>>, buckets: seq<Addr>, chains: seq<seq<Addr>>, a: Addr, key: Key,
                            value: V)
    requires Table(heap, buckets, chains) && |buckets| > 0 && a != NULL && a !in heap
    ensures var x := BucketOf(key, |buckets|);
            Table(heap[a := Node(key, value, buckets[x])], buckets[x := a], chains[x := [a] + chains[x]])
  {
    var x := BucketOf(key, |buckets|);
    var heap' := heap[a := Node(key, value, buckets[x])];
    var mid := heap[a := Node(key, value, NULL)];
    var home := Homes(heap, |buckets|);
    forall b | 0 <= b < |buckets|
      ensures Linked(mid, chains[b], buckets[b]) && a !in chains[b]
    {
      assert Linked(heap, chains[b], buckets[b]);
      assert forall c :: c in chains[b] ==> c in heap;
      LinkedFrame(heap, mid, chains[b], buckets[b]);
    }
    LinkOne(mid, buckets, chains, x, a);
    assert heap' == mid[a := mid[a].(next := buckets[x])];
    GrowHomes(heap, |buckets|, a, heap'[a]);
    assert Housed(chains, Homes(heap', |buckets|), heap.Keys);
    HouseOne(chains, Homes(heap', |buckets|), heap.Keys, a);
    assert heap'.Keys == heap.Keys + {a};
  }

  lemma GrowHomes<V>(heap: map<Addr, Node<V>>, n: nat, a: Addr, node: Node<V>)
    requires n > 0 && a !in heap
    ensures Homes(heap[a := node], n) == Homes(heap, n)[a := BucketOf(node.key, n)]
  {
  }

  lemma InsertRepresents<V>(heap: map<Addr, Node<V>>, model: map<Key, V>, a: Addr, node: Node<V>)
    requires Represents(heap, model) && KeysDistinct(heap) && a !in heap && node.key !in model
    ensures Represents(heap[a := node], model[node.key := node.value]) && KeysDistinct(heap[a := node])
  {
    var heap', model' := heap[a := node], model[node.key := node.value];
    forall k | k in model'
      ensures Stored(heap', k)
    {
      if k == node.key {
        assert heap'[a].key == k;
      } else {
        assert Stored(heap, k);
        var c :| c in heap && heap[c].key == k;
        assert heap'[c].key == k;
      }
    }
  }

  lemma UpdateRepresents<V>(heap: map<Addr, Node<V>>, model: map<Key, V>, a: Addr, value: V)
    requires Represents(heap, model) && KeysDistinct(heap) && a in heap
    ensures var heap' := heap[a := heap[a].(value := value)];
            Represents(heap', model[heap[a].key := value]) && KeysDistinct(heap')
  {
    var heap' := heap[a := heap[a].(value := value)];
    forall k | k in model
      ensures Stored(heap', k)
    {
      assert Stored(heap, k);
      var c :| c in heap && heap[c].key == k;
      assert heap'[c].key == k;
    }
  }

  lemma UpdateKeepsTable<V>(heap: map<Addr, Node<V>>, buckets: seq<Addr>, chains: seq<seq<Addr>>, a: Addr, value: V)
    requires Table(heap, buckets, chains) && a in heap
    ensures Table(heap[a := heap[a].(value := value)], buckets, chains)
  {
    var heap' := heap[a := heap[a].(value := value)];
    forall b | 0 <= b < |buckets|
      ensures Linked(heap', chains[b], buckets[b])
    {
      assert Linked(heap, chains[b], buckets[b]);
      assert forall c :: c in chains[b] ==> c in heap;
      LinkedFrame(heap, heap', chains[b], buckets[b]);
    }
    UpdateHomes(heap, |buckets|, a, value);
  }

  lemma UpdateHomes<V>(heap: map<Addr, Node<V>>, n: nat, a: Addr, value: V)
    requires n > 0 && a in heap
    ensures Homes(heap[a := heap[a].(value := value)], n) == Homes(heap, n)
  {
  }

  lemma SameRepresents<V>(heap: map<Addr, Node<V>>, other: map<Addr, Node<V>>, model: map<Key, V>)
    requires SameEntries(heap, other) && Represents(heap, model) && KeysDistinct(heap)
    ensures Represents(other, model) && KeysDistinct(other)
  {
  }

  lemma EraseRepresents<V>(heap: map<Addr, Node<V>>, model: map<Key, V>, a: Addr)
    requires Represents(heap, model) && KeysDistinct(heap) && a in heap
    ensures Represents(heap - {a}, model - {heap[a].key}) && KeysDistinct(heap - {a})
  {
    var heap', model' := heap - {a}, model - {heap[a].key};
    forall k | k in model'
      ensures Stored(heap', k)
    {
      assert Stored(heap, k);
      var c :| c in heap && heap[c].key == k;
      assert c != a && heap'[c].key == k;
    }
  }

  // ---- erasing

  /** The heap once node k of a chain is bypassed and freed. */
  function EraseHeap<V>(heap: map<Addr, Node<V>>, previous: Addr, a: Addr): map<Addr, Node<V>>
    requires a in heap && (previous == NULL || previous in heap)
  {
    (if previous == NULL then heap else heap[previous := heap[previous].(next := heap[a].next)]) - {a}
  }

  function Previous(list: seq<Addr>, k: nat): Addr
    requires k <= |list|
  {
    if k == 0 then NULL else list[k - 1]
  }

  lemma LinkedErase<V>(heap: map<Addr, Node<V>>, list: seq<Addr>, head: Addr, k: nat)
    requires Linked(heap, list, head) && NoDup(list) && k < |list|
    ensures list[k] in heap && (Previous(list, k) == NULL || Previous(list, k) in heap)
    ensures Linked(EraseHeap(heap, Previous(list, k), list[k]), Without(list, k),
                   if k == 0 then heap[list[k]].next else head)
  {
    assert NodeAt(heap, list, k) && (k > 0 ==> NodeAt(heap, list, k - 1) && list[k - 1] != list[k]);
    var heap' := EraseHeap(heap, Previous(list, k), list[k]);
    var l := Without(list, k);
    forall i: nat | i < |l|
      ensures NodeAt(heap', l, i)
    {
      var j := if i < k then i else i + 1;
      assert l[i] == list[j] && NodeAt(heap, list, j);
      assert k > 0 ==> (list[j] == list[k - 1] <==> j == k - 1);
    }
  }

  lemma EraseKeepsOthers<V>(heap: map<Addr, Node<V>>, list: seq<Addr>, head: Addr, previous: Addr, a: Addr)
    requires Linked(heap, list, head) && a in heap && (previous == NULL || previous in heap)
    requires a !in list && previous !in list
    ensures Linked(EraseHeap(heap, previous, a), list, head)
  {
    LinkedMembers(heap, list, head);
    LinkedFrame(heap, EraseHeap(heap, previous, a), list, head);
  }

  lemma EraseHouse(chains: seq<seq<Addr>>, home: map<Addr, nat>, keys: set<Addr>, b: nat, k: nat)
    requires Housed(chains, home, keys) && b < |chains| && k < |chains[b]|
    ensures Housed(chains[b := Without(chains[b], k)], home - {chains[b][k]}, keys - {chains[b][k]})
  {
    var a := chains[b][k];
    var list, l := chains[b], Without(chains[b], k);
    var chains', home' := chains[b := l], home - {a};
    forall c | c in l
      ensures c in list && c != a
    {
      var i :| 0 <= i < |l| && l[i] == c;
      assert c == list[if i < k then i else i + 1];
    }
    forall c | c in keys - {a}
      ensures c in home' && home'[c] < |chains'| && c in chains'[home'[c]]
    {
      if home[c] == b {
        var i :| 0 <= i < |list| && list[i] == c;
        assert l[if i < k then i else i - 1] == c;
      }
    }
    forall x, c | 0 <= x < |chains'| && c in chains'[x]
      ensures c in keys - {a} && c in home' && home'[c] == x
    {
      assert c in chains[x];
      assert a in chains[b] && home[a] == b;
    }
  }

  lemma EraseKeepsTable<V>(heap: map<Addr, Node<V>>, buckets: seq<Addr>, chains: seq<seq<Addr>>, b: nat, k: nat)
    requires Table(heap, buckets, chains) && b < |chains| && k < |chains[b]|
    ensures var a, previous := chains[b][k], Previous(chains[b], k);
            && a in heap && (previous == NULL || previous in heap)
            && Table(EraseHeap(heap, previous, a),
                     if k == 0 then buckets[b := heap[a].next] else buckets,
                     chains[b := Without(chains[b], k)])
  {
    var a, previous := chains[b][k], Previous(chains[b], k);
    assert Linked(heap, chains[b], buckets[b]);
    LinkedErase(heap, chains[b], buckets[b], k);
    var heap' := EraseHeap(heap, previous, a);
    var buckets' := if k == 0 then buckets[b := heap[a].next] else buckets;
    var chains' := chains[b := Without(chains[b], k)];
    forall x | 0 <= x < |buckets'|
      ensures Linked(heap', chains'[x], buckets'[x])
    {
      if x != b {
        assert Linked(heap, chains[x], buckets[x]);
        assert a !in chains[x] && (k > 0 ==> previous !in chains[x]) && NULL !in chains[x];
        EraseKeepsOthers(heap, chains[x], buckets[x], previous, a);
      }
    }
    EraseHouse(chains, Homes(heap, |buckets|), heap.Keys, b, k);
    EraseHomes(heap, |buckets|, previous, a);
  }

  lemma EraseHomes<V>(heap: map<Addr, Node<V>>, n: nat, previous: Addr, a: Addr)
    requires n > 0 && a in heap && (previous == NULL || previous in heap)
    ensures EraseHeap(heap, previous, a).Keys == heap.Keys - {a}
    ensures Homes(EraseHeap(heap, previous, a), n) == Homes(heap, n) - {a}
  {
  }

  lemma EraseEntries<V>(heap: map<Addr, Node<V>>, model: map<Key, V>, previous: Addr, a: Addr)
    requires Represents(heap, model) && KeysDistinct(heap) && a in heap && (previous == NULL || previous in heap)
    ensures Represents(EraseHeap(heap, previous, a), model - {heap[a].key})
    ensures KeysDistinct(EraseHeap(heap, previous, a))
  {
    if previous == NULL {
      EraseRepresents(heap, model, a);
    } else {
      var mid := heap[previous := heap[previous].(next := heap[a].next)];
      assert SameEntries(heap, mid);
      SameRepresents(heap, mid, model);
      EraseRepresents(mid, model, a);
    }
  }

  /** The walk down one chain that find, insert and erase share. */
  method WalkChain<V>(heap: map<Addr, Node<V>>, ghost list: seq<Addr>, head: Addr, key: Key)
    returns (a: Addr, previous: Addr, ghost k: nat)
    requires Linked(heap, list, head)
    ensures k <= |list| && previous == Previous(list, k)
    ensures a == NULL ==> forall i :: 0 <= i < |list| ==> list[i] in heap && heap[list[i]].key != key
    ensures a != NULL ==> k < |list| && list[k] == a && a in heap && heap[a].key == key
  {
    a, previous, k := head, NULL, 0;
    while a != NULL
      invariant k <= |list| && a == At(list, k) && previous == Previous(list, k)
      invariant forall i :: 0 <= i < k ==> list[i] in heap && heap[list[i]].key != key
      decreases |list| - k
    {
      assert NodeAt(heap, list, k);
      if heap[a].key == key {
        return;
      }
      previous, a, k := a, heap[a].next, k + 1;
    }
    assert k < |list| ==> NodeAt(heap, list, k);
  }

  /** A key on no node of its chain is on no node at all. */
  lemma AbsentKey<V>(heap: map<Addr, Node<V>>, buckets: seq<Addr>, chains: seq<seq<Addr>>, model: map<Key, V>, key: Key)
    requires Table(heap, buckets, chains) && Represents(heap, model) && |buckets| > 0
    requires var list := chains[BucketOf(key, |buckets|)];
             forall i :: 0 <= i < |list| ==> list[i] in heap && heap[list[i]].key != key
    ensures key !in model
  {
  }

  // ---- the map

  ghost predicate Good<V>(heap: map<Addr, Node<V>>, buckets: seq<Addr>, chains: seq<seq<Addr>>, model: map<Key, V>,
                          size: nat)
  {
    && (|buckets| == 0 || PowerOfTwo(|buckets|)) && Table(heap, buckets, chains)
    && Represents(heap, model) && KeysDistinct(heap)
    && size == |model| && size <= LoadLimit(|buckets|)
  }

  lemma AddIsGood<V>(heap: map<Addr, Node<V>>, buckets: seq<Addr>, chains: seq<seq<Addr>>, model: map<Key, V>,
                     size: nat,
                     a: Addr, key: Key, value: V)
    requires Good(heap, buckets, chains, model, size) && |buckets| > 0 && size + 1 <= LoadLimit(|buckets|)
    requires key !in model && a != NULL && a !in heap
    ensures var x := BucketOf(key, |buckets|);
            Good(heap[a := Node(key, value, buckets[x])], buckets[x := a], chains[x := [a] + chains[x]],
                 model[key := value], size + 1)
  {
    InsertKeepsTable(heap, buckets, chains, a, key, value);
    InsertRepresents(heap, model, a, Node(key, value, buckets[BucketOf(key, |buckets|)]));
  }

  lemma StoreIsGood<V>(heap: map<Addr, Node<V>>, buckets: seq<Addr>, chains: seq<seq<Addr>>, model: map<Key, V>,
                       size: nat,
                       a: Addr, value: V)
    requires Good(heap, buckets, chains, model, size) && a in heap
    ensures Good(heap[a := heap[a].(value := value)], buckets, chains, model[heap[a].key := value], size)
  {
    UpdateKeepsTable(heap, buckets, chains, a, value);
    UpdateRepresents(heap, model, a, value);
    SizeOfUpdate(model, heap[a].key, value);
  }

  lemma RemoveIsGood<V>(heap: map<Addr, Node<V>>, buckets: seq<Addr>, chains: seq<seq<Addr>>, model: map<Key, V>,
                        size: nat,
                        b: nat, k: nat)
    requires Good(heap, buckets, chains, model, size) && b < |chains| && k < |chains[b]|
    ensures var a, previous := chains[b][k], Previous(chains[b], k);
            && a in heap && (previous == NULL || previous in heap) && size > 0
            && (previous == NULL <==> k == 0)
            && Good(EraseHeap(heap, previous, a), if k == 0 then buckets[b := heap[a].next] else buckets,
                    chains[b := Without(chains[b], k)], model - {heap[a].key}, size - 1)
  {
    var a, previous := chains[b][k], Previous(chains[b], k);
    EraseKeepsTable(heap, buckets, chains, b, k);
    EraseEntries(heap, model, previous, a);
    SizeOfErase(model, heap[a].key);
    assert previous == NULL <==> k == 0 by {
      assert Linked(heap, chains[b], buckets[b]);
      assert k > 0 ==> NodeAt(heap, chains[b], k - 1);
    }
  }

  /** Memory never runs out: some address is unused. */
  lemma FreshAddress(used: set<Addr>) returns (a: Addr)
    ensures a > 0 && forall x :: x in used ==> x < a
  {
    if x :| x in used {
      var b := FreshAddress(used - {x});
      a := if x < b then b else x + 1;
      assert forall y :: y in used ==> y == x || y in used - {x};
    } else {
      a := 1;
    }
  }

  class CstrHashMap<V> {
    var heap: map<Addr, Node<V>>
    var buckets: seq<Addr>
    var size: nat
    ghost var chains: seq<seq<Addr>>
    ghost var model: map<Key, V>      // the finite map it stands for

    ghost predicate Valid()
      reads this
    {
      Good(heap, buckets, chains, model, size)
    }

    constructor (capacity: nat)
      ensures Valid() && model == map[] && |buckets| == NextPowerOfTwo(capacity)
    {
      var n := NextPowerOfTwo(capacity);
      heap, buckets, size := map[], seq(n, _ => NULL), 0;
      chains, model := seq(n, _ => []), map[];
    }

    /** The node of a key, or null; `k` is its place on the chain. */
    method FindNode(key: Key) returns (a: Addr, previous: Addr, ghost k: nat)
      requires Valid()
      ensures a == NULL <==> key !in model
      ensures a != NULL ==>
                && |buckets| > 0 && a in heap && heap[a].key == key
                && var list := chains[BucketOf(key, |buckets|)];
                k < |list| && list[k] == a && previous == Previous(list, k)
    {
      a, previous, k := NULL, NULL, 0;
      if |buckets| == 0 {
        return;
      }
      var b := BucketOf(key, |buckets|);
      assert Linked(heap, chains[b], buckets[b]);
      a, previous, k := WalkChain(heap, chains[b], buckets[b], key);
      if a == NULL {
        AbsentKey(heap, buckets, chains, model, key);
      }
    }

    /** find(): the value of a present key. */
    method Find(key: Key) returns (found: bool, a: Addr)
      requires Valid()
      ensures found <==> key in model
      ensures found ==> a in heap && heap[a].key == key && heap[a].value == model[key]
    {
      ghost var k;
      var previous;
      a, previous, k := FindNode(key);
      found := a != NULL;
    }

    method Install(h: map<Addr, Node<V>>, b: seq<Addr>, ghost c: seq<seq<Addr>>)
      requires Valid() && SameEntries(heap, h) && Table(h, b, c)
      requires PowerOfTwo(|b|) && size <= LoadLimit(|b|)
      modifies `heap, `buckets, `chains
      ensures Valid() && heap == h && buckets == b
    {
      SameRepresents(heap, h, model);
      heap, buckets, chains := h, b, c;
    }

    method RehashTo(capacity: nat)
      requires Valid()
      requires size <= LoadLimit(NextPowerOfTwo(capacity))
      modifies `heap, `buckets, `chains
      ensures Valid() && SameEntries(old(heap), heap) && |buckets| == NextPowerOfTwo(capacity)
    {
      var n := NextPowerOfTwo(capacity);
      if |buckets| == 0 {
        EmptyTable<V>(n);
        Install(map[], seq(n, _ => NULL), seq(n, _ => []));
      } else {
        var h, b;
        ghost var c;
        h, b, c := Rehash(heap, buckets, chains, n);
        Install(h, b, c);
      }
    }

    /** The table doubles, or comes to life with 64 buckets, before it would hold
        more than its load limit. */
    method RehashForInsert()
      requires Valid()
      modifies `heap, `buckets, `chains
      ensures Valid() && SameEntries(old(heap), heap) && |buckets| > 0 && size + 1 <= LoadLimit(|buckets|)
      ensures |buckets| == if old(|buckets|) == 0 then 64
                           else if size + 1 > LoadLimit(old(|buckets|)) then 2 * old(|buckets|)
                           else old(|buckets|)
    {
      if |buckets| == 0 {
        SixtyFour();
        RehashTo(64);
      } else if size + 1 > LoadLimit(|buckets|) {
        PowerDoubles(|buckets|, size);
        RehashTo(2 * |buckets|);
      }
    }

    method Assign(h: map<Addr, Node<V>>, b: seq<Addr>, ghost c: seq<seq<Addr>>, ghost m: map<Key, V>, n: nat)
      requires Good(h, b, c, m, n)
      modifies this
      ensures Valid() && heap == h && buckets == b && chains == c && model == m && size == n
    {
      heap, buckets, chains, model, size := h, b, c, m, n;
      assert Valid() == Good(h, b, c, m, n);
    }

    /** Stores a new node, at an address the allocator picks, at the head of its bucket. */
    method AddNode(key: Key, value: V) returns (a: Addr)
      requires Valid() && key !in model && |buckets| > 0 && size + 1 <= LoadLimit(|buckets|)
      modifies this
      ensures Valid() && model == old(model)[key := value] && |buckets| == old(|buckets|)
      ensures a in heap && heap[a].key == key && heap[a].value == value
    {
      ghost var unused := FreshAddress(heap.Keys);
      assert unused != NULL && unused !in heap;
      a :| a != NULL && a !in heap;
      AddIsGood(heap, buckets, chains, model, size, a, key, value);
      var x := BucketOf(key, |buckets|);
      Assign(heap[a := Node(key, value, buckets[x])], buckets[x := a], chains[x := [a] + chains[x]],
             model[key := value], size + 1);
    }

    method Insert(key: Key, value: V)
      requires Valid()
      modifies this
      ensures Valid() && model == old(model)[key := value]
    {
      if |buckets| == 0 {
        SixtyFour();
        RehashTo(64);
      }
      var a, previous;
      ghost var k;
      a, previous, k := FindNode(key);
      if a != NULL {
        StoreValue(a, value);
        return;
      }
      RehashForInsert();
      a := AddNode(key, value);
    }

    method StoreValue(a: Addr, value: V)
      requires Valid() && a in heap
      modifies this
      ensures Valid() && model == old(model)[old(heap)[a].key := value]
    {
      StoreIsGood(heap, buckets, chains, model, size, a, value);
      Assign(heap[a := heap[a].(value := value)], buckets, chains, model[heap[a].key := value], size);
    }

    /** operator[]: the node of the key, created with a default value if absent. */
    method Index(key: Key, default: V) returns (a: Addr)
      requires Valid()
      modifies this
      ensures Valid() && model == if key in old(model) then old(model) else old(model)[key := default]
      ensures a in heap && heap[a].key == key && heap[a].value == model[key]
    {
      if |buckets| == 0 {
        SixtyFour();
        RehashTo(64);
      }
      var previous;
      ghost var k;
      a, previous, k := FindNode(key);
      if a != NULL {
        return;
      }
      RehashForInsert();
      a := AddNode(key, default);
    }

    method Erase(key: Key)
      requires Valid()
      modifies this
      ensures Valid() && model == old(model) - {key} && |buckets| == old(|buckets|)
    {
      var a, previous;
      ghost var k;
      a, previous, k := FindNode(key);
      if a == NULL {
        assert model - {key} == model;
        return;
      }
      RemoveNode(key, a, previous, k);
    }

    method RemoveNode(key: Key, a: Addr, previous: Addr, ghost k: nat)
      requires Valid() && |buckets| > 0 && a in heap && heap[a].key == key
      requires var list := chains[BucketOf(key, |buckets|)];
               k < |list| && list[k] == a && previous == Previous(list, k)
      modifies this
      ensures Valid() && model == old(model) - {key} && |buckets| == old(|buckets|)
    {
      var b := BucketOf(key, |buckets|);
      RemoveIsGood(heap, buckets, chains, model, size, b, k);
      Assign(EraseHeap(heap, previous, a), if previous == NULL then buckets[b := heap[a].next] else buckets,
             chains[b := Without(chains[b], k)], model - {key}, size - 1);
    }

    /** begin() to end() by operator++: every entry of the map exactly once. */
    method Iterate() returns (entries: seq<(Key, V)>)
      requires Valid()
      ensures forall i :: 0 <= i < |entries| ==> entries[i].0 in model && entries[i].1 == model[entries[i].0]
      ensures forall i, j :: 0 <= i < j < |entries| ==> entries[i].0 != entries[j].0
      ensures forall key :: key in model ==> exists i :: 0 <= i < |entries| && entries[i].0 == key
    {
      entries := Collect(heap, buckets, chains);
      FlattenTable(heap, buckets, chains);
      EntriesAreModel(heap, chains, model, entries);
    }
  }

  lemma EntriesAreModel<V>(heap: map<Addr, Node<V>>, chains: seq<seq<Addr>>, model: map<Key, V>, entries: seq<(Key, V)>)
    requires Represents(heap, model) && KeysDistinct(heap)
    requires NoDup(Flatten(chains)) && (forall a :: a in Flatten(chains) <==> a in heap)
             && |entries| == |Flatten(chains)|
    requires forall i :: 0 <= i < |entries| ==> entries[i] == Entry(heap, Flatten(chains)[i])
    ensures forall i :: 0 <= i < |entries| ==> entries[i].0 in model && entries[i].1 == model[entries[i].0]
    ensures forall i, j :: 0 <= i < j < |entries| ==> entries[i].0 != entries[j].0
    ensures forall key :: key in model ==> exists i :: 0 <= i < |entries| && entries[i].0 == key
  {
    var order := Flatten(chains);
    forall i | 0 <= i < |order|
      ensures order[i] in heap && entries[i] == (heap[order[i]].key, heap[order[i]].value)
    {
      assert order[i] in order;
    }
    forall key | key in model
      ensures exists i :: 0 <= i < |entries| && entries[i].0 == key
    {
      assert Stored(heap, key);
      var a: Addr :| a in heap && heap[a].key == key;
      assert a in order;
      var i :| 0 <= i < |order| && order[i] == a;
      assert entries[i].0 == key;
    }
  }

  function Entry<V>(heap: map<Addr, Node<V>>, a: Addr): (Key, V)
    requires a in heap
  {
    (heap[a].key, heap[a].value)
  }

  // ---- the iterator

  /** A position: a node and the bucket it is in; past the end the node is null. */
  datatype Iterator = Iterator(node: Addr, bucket: nat)

  /** The nodes of the chains from bucket `b` on. */
  ghost function FlattenFrom(chains: seq<seq<Addr>>, b: nat): seq<Addr>
    decreases |chains| - b
  {
    if b >= |chains| then [] else chains[b] + FlattenFrom(chains, b + 1)
  }

  /** The position is place `j` of its chain, and `rest` is what is still to come. */
  ghost predicate Stands(chains: seq<seq<Addr>>, it: Iterator, j: nat, rest: seq<Addr>) {
    if it.node == NULL then rest == []
    else
      && it.bucket < |chains| && j < |chains[it.bucket]| && chains[it.bucket][j] == it.node
      && rest == chains[it.bucket][j..] + FlattenFrom(chains, it.bucket + 1)
  }

  /** The first node in bucket `b` or after. */
  method Seek<V>(heap: map<Addr, Node<V>>, buckets: seq<Addr>, ghost chains: seq<seq<Addr>>, b: nat)
    returns (it: Iterator)
    requires AllLinked(heap, buckets, chains)
    ensures Stands(chains, it, 0, FlattenFrom(chains, b)) && (it.node != NULL ==> b <= it.bucket)
  {
    var i := b;
    while i < |buckets|
      invariant b <= i && FlattenFrom(chains, i) == FlattenFrom(chains, b)
      decreases |buckets| - i
    {
      assert Linked(heap, chains[i], buckets[i]);
      if buckets[i] != NULL {
        assert chains[i][0..] == chains[i];
        return Iterator(buckets[i], i);
      }
      assert chains[i] == [] by {
        assert chains[i] != [] ==> NodeAt(heap, chains[i], 0);
      }
      i := i + 1;
    }
    it := Iterator(NULL, |buckets|);
  }

  /** The place in its chain after a step from place `j`. */
  function Place(it: Iterator, next: Iterator, j: nat): nat {
    if next.bucket == it.bucket then j + 1 else 0
  }

  /** operator++: the next node of the chain, else the first of a later bucket. */
  method Step<V>(heap: map<Addr, Node<V>>, buckets: seq<Addr>, ghost chains: seq<seq<Addr>>,
                 it: Iterator, ghost j: nat, ghost rest: seq<Addr>)
    returns (next: Iterator)
    requires AllLinked(heap, buckets, chains) && it.node != NULL && Stands(chains, it, j, rest)
    ensures it.node in heap && rest != [] && rest[0] == it.node
    ensures Stands(chains, next, Place(it, next, j), rest[1..])
  {
    ghost var list := chains[it.bucket];
    assert Linked(heap, list, buckets[it.bucket]);
    assert NodeAt(heap, list, j) && (j + 1 < |list| ==> NodeAt(heap, list, j + 1));
    assert rest[1..] == list[j + 1..] + FlattenFrom(chains, it.bucket + 1);
    if heap[it.node].next != NULL {
      return Iterator(heap[it.node].next, it.bucket);
    }
    assert rest[1..] == FlattenFrom(chains, it.bucket + 1);
    next := Seek(heap, buckets, chains, it.bucket + 1);
  }

  /** The entries are those of the nodes in order. */
  ghost predicate Lists<V>(heap: map<Addr, Node<V>>, order: seq<Addr>, entries: seq<(Key, V)>) {
    |entries| == |order| && forall i :: 0 <= i < |order| ==> order[i] in heap && entries[i] == Entry(heap, order[i])
  }

  /** From begin to end by that step: the nodes of the chains in bucket order. */
  method Collect<V>(heap: map<Addr, Node<V>>, buckets: seq<Addr>, ghost chains: seq<seq<Addr>>)
    returns (entries: seq<(Key, V)>)
    requires AllLinked(heap, buckets, chains)
    ensures Lists(heap, Flatten(chains), entries)
  {
    entries := [];
    var it := Seek(heap, buckets, chains, 0);
    ghost var j, rest, order: seq<Addr> := 0, FlattenFrom(chains, 0), [];
    while it.node != NULL
      invariant Stands(chains, it, j, rest) && order + rest == FlattenFrom(chains, 0) && Lists(heap, order, entries)
      decreases |rest|
    {
      var next := Step(heap, buckets, chains, it, j, rest);
      entries, order := entries + [Entry(heap, it.node)], order + [it.node];
      assert rest == [rest[0]] + rest[1..];
      it, j, rest := next, Place(it, next, j), rest[1..];
    }
    FlattenFromIs(chains, 0);
    assert Flatten(chains[..0]) == [] && order == Flatten(chains);
  }

  lemma {:induction false} FlattenFromIs(chains: seq<seq<Addr>>, b: nat)
    requires b <= |chains|
    ensures Flatten(chains[..b]) + FlattenFrom(chains, b) == Flatten(chains)
    decreases |chains| - b
  {
    if b == |chains| {
      assert chains[..b] == chains;
    } else {
      FlattenFromIs(chains, b + 1);
      assert chains[..b + 1][..b] == chains[..b];
      Assoc(Flatten(chains[..b]), chains[b], FlattenFrom(chains, b + 1));
    }
  }

  lemma FlattenTable<V>(heap: map<Addr, Node<V>>, buckets: seq<Addr>, chains: seq<seq<Addr>>)
    requires Table(heap, buckets, chains)
    ensures NoDup(Flatten(chains)) && (forall a :: a in Flatten(chains) <==> a in heap)
  {
    if |buckets| > 0 {
      FlattenHoused(chains, Homes(heap, |buckets|), heap.Keys, |buckets|);
      assert chains[..|buckets|] == chains;
    }
  }

  lemma SizeOfUpdate<V>(model: map<Key, V>, key: Key, value: V)
    requires key in model
    ensures |model[key := value]| == |model|
  {
  }

  lemma SizeOfErase<V>(model: map<Key, V>, key: Key)
    requires key in model
    ensures |model - {key}| == |model| - 1
  {
  }

  lemma EmptyTable<V>(n: nat)
    requires n > 0
    ensures Table<V>(map[], seq(n, _ => NULL), seq(n, _ => []))
  {
  }

  lemma SixtyFour()
    ensures NextPowerOfTwo(64) == 64 && LoadLimit(64) == 48
  {
    assert PowerOfTwo(8);
    assert PowerOfTwo(16) && PowerOfTwo(32) && PowerOfTwo(64);
    PowerIsItsOwnNext(64);
  }

  /** Doubling a table within its limit leaves room for one more entry. */
  lemma PowerDoubles(n: nat, size: nat)
    requires PowerOfTwo(n) && size <= LoadLimit(n)
    ensures NextPowerOfTwo(2 * n) == 2 * n && size + 1 <= LoadLimit(2 * n)
  {
    DoubleIsPower(n, 2 * n);
    PowerIsItsOwnNext(2 * n);
    LimitDoubles(n, size);
  }

  lemma DoubleIsPower(n: nat, m: nat)
    requires PowerOfTwo(n) && m == 2 * n
    ensures PowerOfTwo(m)
  {
  }

  lemma LimitDoubles(n: nat, size: nat)
    requires n >= 1 && size <= LoadLimit(n)
    ensures size + 1 <= LoadLimit(2 * n)
  {
  }

  // ---- iteration

  function Flatten(chains: seq<seq<Addr>>): seq<Addr> {
    if chains == [] then [] else Flatten(chains[..|chains| - 1]) + chains[|chains| - 1]
  }

  lemma NoDupConcat(s: seq<Addr>, t: seq<Addr>)
    requires NoDup(s) && NoDup(t) && forall a :: a in t ==> a !in s
    ensures NoDup(s + t)
  {
    var u := s + t;
    forall i, j | 0 <= i < j < |u|
      ensures u[i] != u[j]
    {
      if i < |s| <= j {
        assert u[j] in t && u[i] in s;
      }
    }
  }

  /** The chains in bucket order list every node of a table exactly once. */
  lemma {:induction false} FlattenHoused(chains: seq<seq<Addr>>, home: map<Addr, nat>, keys: set<Addr>, n: nat)
    requires Housed(chains, home, keys) && n <= |chains|
    ensures NoDup(Flatten(chains[..n]))
    ensures forall a :: a in Flatten(chains[..n]) <==> a in keys && home[a] < n
  {
    if n > 0 {
      FlattenHoused(chains, home, keys, n - 1);
      assert chains[..n][..n - 1] == chains[..n - 1];
      var front, last := Flatten(chains[..n - 1]), chains[n - 1];
      assert forall a :: a in last ==> a !in front;
      NoDupConcat(front, last);
      forall a | a in keys && home[a] < n
        ensures a in front + last
      {
        if home[a] == n - 1 {
          assert a in last;
        }
      }
    }
  }
}
