/** The acceptor's session authority: a fixed array of records scanned linearly,
    a monotonic id and a live count. Generations are 32-bit and wrap. */
module SessionTables {

  const GENERATIONS: int := 0x1_0000_0000
  const INVALID: nat := 0

  datatype Phase = Accepted | Assigning | InWorld | Disconnecting | Closed

  datatype Record = Record(id: nat, generation: nat, account: nat, owner: int, phase: Phase)

  const VACANT: Record := Record(INVALID, 0, 0, -1, Closed)

  datatype Table = Table(slots: seq<Record>, nextId: nat, count: nat)

  // ---- the operations on values

  function Live(slots: seq<Record>): nat {
    if slots == [] then 0 else Live(slots[..|slots| - 1]) + if slots[|slots| - 1].id != INVALID then 1 else 0
  }

  ghost predicate Valid(t: Table) {
    && t.nextId > 0 && t.count == Live(t.slots)
    && (forall i :: 0 <= i < |t.slots| ==> t.slots[i].id < t.nextId)
    && (forall i, j :: 0 <= i < j < |t.slots| && t.slots[i].id != INVALID ==> t.slots[i].id != t.slots[j].id)
  }

  /** Lowest index holding `id`, or the length. */
  function Scan(slots: seq<Record>, id: nat): (i: nat)
    ensures i <= |slots|
    ensures i < |slots| ==> slots[i].id == id
    ensures forall j :: 0 <= j < i ==> slots[j].id != id
  {
    if slots == [] then 0
    else
      var i := Scan(slots[..|slots| - 1], id);
      if i < |slots| - 1 || slots[|slots| - 1].id == id then i else |slots|
  }

  predicate Present(t: Table, id: nat) {
    id != INVALID && Scan(t.slots, id) < |t.slots|
  }

  predicate Validates(t: Table, id: nat, generation: nat) {
    Present(t, id) && t.slots[Scan(t.slots, id)].generation == generation
  }

  function Minted(r: Record, id: nat, account: nat): Record {
    Record(id, (r.generation + 1) % GENERATIONS, account, -1, Accepted)
  }

  datatype Op = Allocate(account: nat) | Assign(id: nat, worker: int) | Enter(id: nat) | Remove(id: nat)

  function Apply(t: Table, op: Op): Table {
    match op
    case Allocate(account) =>
      var i := Scan(t.slots, INVALID);
      if i == |t.slots| then t
      else Table(t.slots[i := Minted(t.slots[i], t.nextId, account)], t.nextId + 1, t.count + 1)
    case Assign(id, worker) =>
      if !Present(t, id) then t
      else
        var i := Scan(t.slots, id);
        t.(slots := t.slots[i := t.slots[i].(owner := worker, phase := Assigning)])
    case Enter(id) =>
      if !Present(t, id) then t
      else
        var i := Scan(t.slots, id);
        t.(slots := t.slots[i := t.slots[i].(phase := InWorld)])
    case Remove(id) =>
      if !Present(t, id) then t
      else
        var i := Scan(t.slots, id);
        t.(slots := t.slots[i := t.slots[i].(id := INVALID, owner := -1, phase := Closed)],
           count := if t.count > 0 then t.count - 1 else 0)
  }

  function ApplyAll(t: Table, ops: seq<Op>): Table {
    if ops == [] then t else Apply(ApplyAll(t, ops[..|ops| - 1]), ops[|ops| - 1])
  }

  // ---- what every operation keeps

  lemma {:induction false} LiveUpdate(slots: seq<Record>, i: nat, r: Record)
    requires i < |slots|
    ensures Live(slots[i := r])
         == Live(slots) + (if r.id != INVALID then 1 else 0) - (if slots[i].id != INVALID then 1 else 0)
  {
    var n := |slots| - 1;
    if i == n {
      assert slots[i := r][..n] == slots[..n];
    } else {
      LiveUpdate(slots[..n], i, r);
      assert slots[i := r][..n] == slots[..n][i := r];
    }
  }

  /** Replacing one record keeps ids unique if the new id is vacant, new or unchanged. */
  lemma ReplaceKeepsUnique(t: Table, i: nat, r: Record, nextId: nat, count: nat)
    requires Valid(t) && i < |t.slots| && t.nextId <= nextId
    requires r.id == INVALID || r.id == t.slots[i].id || t.nextId <= r.id
    requires r.id < nextId && count == Live(t.slots[i := r])
    ensures Valid(Table(t.slots[i := r], nextId, count))
  {
  }

  lemma ApplyKeepsValid(t: Table, op: Op)
    requires Valid(t)
    ensures Valid(Apply(t, op)) && |Apply(t, op).slots| == |t.slots| && t.nextId <= Apply(t, op).nextId
  {
    match op {
      case Allocate(account) =>
        var i := Scan(t.slots, INVALID);
        if i < |t.slots| {
          var r := Minted(t.slots[i], t.nextId, account);
          LiveUpdate(t.slots, i, r);
          ReplaceKeepsUnique(t, i, r, t.nextId + 1, t.count + 1);
        }
      case Assign(id, worker) =>
        if Present(t, id) {
          var i := Scan(t.slots, id);
          var r := t.slots[i].(owner := worker, phase := Assigning);
          LiveUpdate(t.slots, i, r);
          ReplaceKeepsUnique(t, i, r, t.nextId, t.count);
        }
      case Enter(id) =>
        if Present(t, id) {
          var i := Scan(t.slots, id);
          var r := t.slots[i].(phase := InWorld);
          LiveUpdate(t.slots, i, r);
          ReplaceKeepsUnique(t, i, r, t.nextId, t.count);
        }
      case Remove(id) =>
        if Present(t, id) {
          var i := Scan(t.slots, id);
          var r := t.slots[i].(id := INVALID, owner := -1, phase := Closed);
          LiveUpdate(t.slots, i, r);
          ReplaceKeepsUnique(t, i, r, t.nextId, t.count - 1);
        }
    }
  }

  /** The record of an id that is present. */
  function Of(t: Table, id: nat): Record
    requires Present(t, id)
  {
    t.slots[Scan(t.slots, id)]
  }

  /** What an operation makes of the record it names. */
  function Marked(r: Record, op: Op): Record {
    match op
    case Allocate(_) => r
    case Assign(_, worker) => Record(r.id, r.generation, r.account, worker, Assigning)
    case Enter(_) => Record(r.id, r.generation, r.account, r.owner, InWorld)
    case Remove(_) => r
  }

  lemma ScanFinds(t: Table, id: nat, i: nat)
    requires Valid(t) && i < |t.slots| && t.slots[i].id == id != INVALID
    ensures Scan(t.slots, id) == i && Present(t, id)
  {
  }

  /** Assigning sets the owner and the phase of that id, entering the phase alone; id,
      generation and account stay, and no other id notices. On an id that is not
      present neither does anything. */
  lemma MarksOnly(t: Table, op: Op, id: nat)
    requires Valid(t) && (op.Assign? || op.Enter?) && id != INVALID
    ensures Present(Apply(t, op), id) <==> Present(t, id)
    ensures Present(t, id) ==>
              Of(Apply(t, op), id) == if op.id == id then Marked(Of(t, id), op) else Of(t, id)
    ensures !Present(t, op.id) ==> Apply(t, op) == t
    ensures Apply(t, op).nextId == t.nextId && Apply(t, op).count == t.count
  {
    var u := Apply(t, op);
    ApplyKeepsValid(t, op);
    if Present(t, id) {
      ScanFinds(u, id, Scan(t.slots, id));
    } else if Present(u, id) {
      ScanFinds(t, id, Scan(u.slots, id));
      assert false;
    }
  }

  /** An allocation is refused exactly when no slot is vacant. Else it makes one more id
      present, the next one, with that account, no owner and a generation one further;
      and no other id notices. */
  lemma AllocateMeans(t: Table, account: nat, id: nat)
    requires Valid(t) && id != INVALID
    ensures var u := Apply(t, Allocate(account));
            if forall i :: 0 <= i < |t.slots| ==> t.slots[i].id != INVALID then u == t
            else
              && u.nextId == t.nextId + 1 && u.count == t.count + 1
              && (Present(u, id) <==> Present(t, id) || id == t.nextId)
              && (Present(t, id) ==> Of(u, id) == Of(t, id))
              && (id == t.nextId ==>
                    var r := Of(u, id);
                    && r.account == account && r.owner == -1 && r.phase == Accepted
                    && r.generation == (t.slots[Scan(t.slots, INVALID)].generation + 1) % GENERATIONS)
  {
    var i, u := Scan(t.slots, INVALID), Apply(t, Allocate(account));
    if i < |t.slots| {
      ApplyKeepsValid(t, Allocate(account));
      ScanFinds(u, t.nextId, i);
      if Present(t, id) {
        ScanFinds(u, id, Scan(t.slots, id));
      } else if Present(u, id) && id != t.nextId {
        ScanFinds(t, id, Scan(u.slots, id));
        assert false;
      }
    }
  }

  /** A removal makes that id absent and frees its slot with the generation kept; every
      other id keeps its record. */
  lemma RemoveMeans(t: Table, gone: nat, id: nat)
    requires Valid(t) && id != INVALID
    ensures var u := Apply(t, Op.Remove(gone));
            && (Present(u, id) <==> Present(t, id) && id != gone)
            && (Present(u, id) ==> Of(u, id) == Of(t, id))
            && u.nextId == t.nextId && (!Present(t, gone) ==> u == t)
            && (Present(t, gone) ==> u.count == t.count - 1
                                     && u.slots[Scan(t.slots, gone)]
                                          == Record(INVALID, Of(t, gone).generation, Of(t, gone).account, -1, Closed))
  {
    var u := Apply(t, Op.Remove(gone));
    ApplyKeepsValid(t, Op.Remove(gone));
    if Present(t, gone) {
      LiveUpdate(t.slots, Scan(t.slots, gone), u.slots[Scan(t.slots, gone)]);
    }
    if Present(t, id) && id != gone {
      ScanFinds(u, id, Scan(t.slots, id));
    } else if Present(u, id) {
      ScanFinds(t, id, Scan(u.slots, id));
      assert false;
    }
  }

  lemma {:induction false} HistoryIsValid(t: Table, ops: seq<Op>)
    requires Valid(t)
    ensures Valid(ApplyAll(t, ops)) && t.nextId <= ApplyAll(t, ops).nextId
    ensures |ApplyAll(t, ops).slots| == |t.slots|
  {
    if ops != [] {
      HistoryIsValid(t, ops[..|ops| - 1]);
      ApplyKeepsValid(ApplyAll(t, ops[..|ops| - 1]), ops[|ops| - 1]);
    }
  }

  /** Where an old id sits, and with which generation, after one operation. */
  ghost predicate Holds(t: Table, id: nat, generation: nat) {
    exists i :: 0 <= i < |t.slots| && t.slots[i].id == id && t.slots[i].generation == generation
  }

  ghost predicate Gone(t: Table, id: nat) {
    forall i :: 0 <= i < |t.slots| ==> t.slots[i].id != id
  }

  lemma HeldValidates(t: Table, id: nat, generation: nat)
    requires Valid(t) && id != INVALID
    ensures Holds(t, id, generation) <==> Validates(t, id, generation)
    ensures Gone(t, id) ==> !Validates(t, id, generation)
  {
  }

  /** An issued pair stays until its id is removed; a removed id never returns. */
  lemma TokenStep(t: Table, op: Op, id: nat, generation: nat)
    requires Valid(t) && 0 < id < t.nextId
    ensures Holds(t, id, generation) && op != Remove(id) ==> Holds(Apply(t, op), id, generation)
    ensures op == Remove(id) ==> Gone(Apply(t, op), id)
    ensures Gone(t, id) ==> Gone(Apply(t, op), id)
  {
    if Holds(t, id, generation) && op != Remove(id) {
      var i :| 0 <= i < |t.slots| && t.slots[i].id == id && t.slots[i].generation == generation;
      assert Apply(t, op).slots[i].id == id && Apply(t, op).slots[i].generation == generation;
    }
  }

  lemma {:induction false} TokenLives(t: Table, ops: seq<Op>, id: nat, generation: nat)
    requires Valid(t) && 0 < id < t.nextId && Holds(t, id, generation)
    ensures Remove(id) !in ops ==> Holds(ApplyAll(t, ops), id, generation)
    ensures Remove(id) in ops ==> Gone(ApplyAll(t, ops), id)
  {
    if ops != [] {
      var init, last := ops[..|ops| - 1], ops[|ops| - 1];
      TokenLives(t, init, id, generation);
      HistoryIsValid(t, init);
      TokenStep(ApplyAll(t, init), last, id, generation);
      assert ops == init + [last];
    }
  }

  /** Authority over any history. The id a successful allocate returns was never
      issued before, and the pair it returns validates exactly until that id is
      removed, whatever else happens, and never again. */
  lemma AuthorityHolds(t: Table, account: nat, ops: seq<Op>)
    requires Valid(t) && Scan(t.slots, INVALID) < |t.slots|
    ensures var i := Scan(t.slots, INVALID);
            var s := Apply(t, Allocate(account));
            var id, generation := s.slots[i].id, s.slots[i].generation;
            && id == t.nextId && !Present(t, id) && Validates(s, id, generation)
            && (Validates(ApplyAll(s, ops), id, generation) <==> Remove(id) !in ops)
            && ApplyAll(s, ops).count == Live(ApplyAll(s, ops).slots)
  {
    var i := Scan(t.slots, INVALID);
    var s := Apply(t, Allocate(account));
    var id, generation := s.slots[i].id, s.slots[i].generation;
    ApplyKeepsValid(t, Allocate(account));
    assert s.slots[i].id == id && s.slots[i].generation == generation;
    assert Holds(s, id, generation);
    HeldValidates(s, id, generation);
    TokenLives(s, ops, id, generation);
    HistoryIsValid(s, ops);
    HeldValidates(ApplyAll(s, ops), id, generation);
  }

  // ---- the table itself

  class SessionTable {
    const slots: array<Record>
    var nextId: nat
    var count: nat

    ghost function T(): Table
      reads this, slots
    {
      Table(slots[..], nextId, count)
    }

    constructor (capacity: nat)
      ensures fresh(slots) && slots.Length == capacity && Valid(T())
      ensures T() == Table(seq(capacity, _ => VACANT), 1, 0)
    {
      slots := new Record[capacity](_ => VACANT);
      nextId, count := 1, 0;
      new;
      assert slots[..] == seq(capacity, _ => VACANT);
      AllVacant(capacity);
    }

    /** Linear scan from the first slot. */
    method Find(id: nat) returns (i: nat)
      ensures i == Scan(slots[..], id)
    {
      i := 0;
      while i < slots.Length && slots[i].id != id
        invariant i <= slots.Length && forall j :: 0 <= j < i ==> slots[j].id != id
      {
        i := i + 1;
      }
      ScanIs(slots[..], id, i);
    }

    method Allocate(account: nat) returns (i: int)
      requires Valid(T())
      modifies this, slots
      ensures T() == Apply(old(T()), Op.Allocate(account)) && Valid(T())
      ensures i == if old(Scan(slots[..], INVALID)) < slots.Length then old(Scan(slots[..], INVALID)) else -1
    {
      ApplyKeepsValid(T(), Op.Allocate(account));
      var k := Find(INVALID);
      if k == slots.Length {
        return -1;
      }
      slots[k] := Minted(slots[k], nextId, account);
      nextId, count := nextId + 1, count + 1;
      i := k;
    }

    method Validate(id: nat, generation: nat) returns (ok: bool)
      ensures ok == Validates(T(), id, generation)
    {
      if id == INVALID {
        return false;
      }
      var i := Find(id);
      ok := i < slots.Length && slots[i].generation == generation;
    }

    method MarkAssigning(id: nat, worker: int) returns (ok: bool)
      requires Valid(T())
      modifies slots
      ensures T() == Apply(old(T()), Op.Assign(id, worker)) && Valid(T()) && ok == old(Present(T(), id))
    {
      ApplyKeepsValid(T(), Op.Assign(id, worker));
      if id == INVALID {
        return false;
      }
      var i := Find(id);
      ok := i < slots.Length;
      if ok {
        slots[i] := slots[i].(owner := worker, phase := Assigning);
      }
    }

    method MarkInWorld(id: nat) returns (ok: bool)
      requires Valid(T())
      modifies slots
      ensures T() == Apply(old(T()), Op.Enter(id)) && Valid(T()) && ok == old(Present(T(), id))
    {
      ApplyKeepsValid(T(), Op.Enter(id));
      if id == INVALID {
        return false;
      }
      var i := Find(id);
      ok := i < slots.Length;
      if ok {
        slots[i] := slots[i].(phase := InWorld);
      }
    }

    method Remove(id: nat) returns (ok: bool)
      requires Valid(T())
      modifies this, slots
      ensures T() == Apply(old(T()), Op.Remove(id)) && Valid(T()) && ok == old(Present(T(), id))
    {
      ApplyKeepsValid(T(), Op.Remove(id));
      if id == INVALID {
        return false;
      }
      var i := Find(id);
      ok := i < slots.Length;
      if ok {
        slots[i] := slots[i].(id := INVALID, owner := -1, phase := Closed);
        count := if count > 0 then count - 1 else 0;
      }
    }
  }

  lemma ScanIs(slots: seq<Record>, id: nat, i: nat)
    requires i <= |slots| && (i < |slots| ==> slots[i].id == id)
    requires forall j :: 0 <= j < i ==> slots[j].id != id
    ensures i == Scan(slots, id)
  {
  }

  lemma {:induction false} AllVacant(n: nat)
    ensures Live(seq(n, _ => VACANT)) == 0
  {
    if n > 0 {
      AllVacant(n - 1);
      assert seq(n, _ => VACANT)[..n - 1] == seq(n - 1, _ => VACANT);
    }
  }
}
