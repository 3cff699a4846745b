/**
 The array of src/database/store.ts that mirrors its entities to a database table.

 Writes are issued without waiting.  The environment lands them later, in the order they
 were issued and successfully (a failure is only logged by the source), and a write carries
 the fields the entity had when it was issued.  The table is keyed by `id`.
 */
module WriteBehindStore {
  import opened Wrappers

  type Fields = map<string, string>
  type Rows = map<string, Fields>

  datatype Op = Upsert(id: string, fields: Fields) | Delete(ids: set<string>)

  /** An entity of the array.  `pending` stands for its `__pendingPersist` promise: the
      number of operations that must have landed before the promise resolves. */
  datatype Item = Item(id: string, fields: Fields, pending: nat)

  datatype State = State(items: seq<Item>, rows: Rows, inFlight: seq<Op>, landed: nat)

  function Issued(s: State): nat {
    s.landed + |s.inFlight|
  }

  // ----- the database

  function Apply(rows: Rows, op: Op): Rows {
    match op
    case Upsert(id, fields) => rows[id := fields]
    case Delete(ids) => rows - ids
  }

  function Replay(rows: Rows, ops: seq<Op>): Rows {
    if ops == [] then rows else Apply(Replay(rows, ops[..|ops| - 1]), ops[|ops| - 1])
  }

  /** The oldest operation reaches the database. */
  function Land(s: State): State {
    if s.inFlight == [] then s
    else s.(rows := Apply(s.rows, s.inFlight[0]), inFlight := s.inFlight[1..], landed := s.landed + 1)
  }

  // ----- the array

  function Upserts(items: seq<Item>): (ops: seq<Op>)
    ensures |ops| == |items|
  {
    seq(|items|, i requires 0 <= i < |items| => Upsert(items[i].id, items[i].fields))
  }

  function IdSet(items: seq<Item>): set<string> {
    set i | 0 <= i < |items| :: items[i].id
  }

  function Settled(items: seq<Item>, pending: nat): (r: seq<Item>)
    ensures |r| == |items|
  {
    seq(|items|, i requires 0 <= i < |items| => items[i].(pending := pending))
  }

  /** `persist`: one upsert an item, then the promise of all of them on every item. */
  function Persist(s: State, added: seq<Item>): (State, seq<Item>) {
    var issued := s.(inFlight := s.inFlight + Upserts(added));
    (issued, Settled(added, Issued(issued)))
  }

  function Push(s: State, added: seq<Item>): State {
    var (issued, stored) := Persist(s, added);
    issued.(items := s.items + stored)
  }

  function Unshift(s: State, added: seq<Item>): State {
    var (issued, stored) := Persist(s, added);
    issued.(items := stored + s.items)
  }

  /** The ranges of `Array.prototype.splice` (section 23.1.3.31 of ECMA-262). */
  function SpliceStart(length: nat, start: int): (r: nat)
    ensures r <= length
  {
    if start < 0 then (if length + start < 0 then 0 else length + start)
    else if start < length then start else length
  }

  function SpliceEnd(length: nat, start: int, deleteCount: Option<int>): (r: nat)
    ensures SpliceStart(length, start) <= r <= length
  {
    var from := SpliceStart(length, start);
    var count := if deleteCount == None then length - start else deleteCount.value;
    if count < 0 then from else if from + count > length then length else from + count
  }

  function Removal(s: State, ids: set<string>): State {
    if ids == {} then s else s.(inFlight := s.inFlight + [Delete(ids)])
  }

  function Splice(s: State, start: int, deleteCount: Option<int>, added: seq<Item>): State {
    var from, to := SpliceStart(|s.items|, start), SpliceEnd(|s.items|, start, deleteCount);
    var (issued, stored) := Persist(s, added);
    Removal(issued.(items := s.items[..from] + stored + s.items[to..]), IdSet(s.items[from..to]))
  }

  function Pop(s: State): State {
    if s.items == [] then s
    else Removal(s.(items := s.items[..|s.items| - 1]), {s.items[|s.items| - 1].id})
  }

  function Shift(s: State): State {
    if s.items == [] then s
    else Removal(s.(items := s.items[1..]), {s.items[0].id})
  }

  /** `array[index].property = value`, through the proxy. */
  function Assign(s: State, index: nat, property: string, value: string): State
    requires index < |s.items|
  {
    var fields := s.items[index].fields[property := value];
    var issued := s.(inFlight := s.inFlight + [Upsert(s.items[index].id, fields)]);
    issued.(items := s.items[index := Item(s.items[index].id, fields, Issued(issued))])
  }

  /** The same assignment through the object that was handed to `push`: it is the target of
      the proxy, so the entity changes, but no write is issued. */
  function AssignOriginal(s: State, index: nat, property: string, value: string): State
    requires index < |s.items|
  {
    s.(items := s.items[index := s.items[index].(fields := s.items[index].fields[property := value])])
  }

  /** An assignment to an entity that has left the array; its proxy still writes. */
  function AssignRemoved(s: State, removed: Item, property: string, value: string): State {
    s.(inFlight := s.inFlight + [Upsert(removed.id, removed.fields[property := value])])
  }

  // ----- the mirror

  ghost predicate UniqueIds(items: seq<Item>) {
    && (forall i :: 0 <= i < |items| ==> items[i].id != "")
    && (forall i, j :: 0 <= i < j < |items| ==> items[i].id != items[j].id)
  }

  /** The rows the array stands for. */
  function Table(items: seq<Item>): Rows {
    if items == [] then map[]
    else Table(items[..|items| - 1])[items[|items| - 1].id := items[|items| - 1].fields]
  }

  /** Once everything in flight has landed the table holds exactly the entities. */
  ghost predicate Mirrored(s: State) {
    UniqueIds(s.items) && Replay(s.rows, s.inFlight) == Table(s.items)
  }

  predicate Touches(op: Op, id: string) {
    match op
    case Upsert(written, _) => written == id
    case Delete(ids) => id in ids
  }

  /** No operation issued after an entity's promise concerns the entity. */
  ghost predicate Tracked(s: State) {
    forall i :: 0 <= i < |s.items| ==> TrackedItem(s, s.items[i])
  }

  ghost predicate TrackedItem(s: State, item: Item) {
    && item.pending <= Issued(s)
    && forall j :: 0 <= j < |s.inFlight| && item.pending <= s.landed + j ==> !Touches(s.inFlight[j], item.id)
  }

  // ----- replaying

  lemma ReplayOne(rows: Rows, ops: seq<Op>, op: Op)
    ensures Replay(rows, ops + [op]) == Apply(Replay(rows, ops), op)
  {
    assert (ops + [op])[..|ops|] == ops;
  }

  lemma {:induction false} ReplayAppend(rows: Rows, first: seq<Op>, rest: seq<Op>)
    ensures Replay(rows, first + rest) == Replay(Replay(rows, first), rest)
    decreases |rest|
  {
    if rest == [] {
      assert first + rest == first;
    } else {
      var k := |rest| - 1;
      ReplayAppend(rows, first, rest[..k]);
      assert first + rest == (first + rest[..k]) + [rest[k]];
      ReplayOne(rows, first + rest[..k], rest[k]);
    }
  }

  lemma {:induction false} ReplayUntouched(rows: Rows, ops: seq<Op>, id: string)
    requires forall j :: 0 <= j < |ops| ==> !Touches(ops[j], id)
    ensures id in rows <==> id in Replay(rows, ops)
    ensures id in rows ==> Replay(rows, ops)[id] == rows[id]
    decreases |ops|
  {
    if ops != [] {
      ReplayUntouched(rows, ops[..|ops| - 1], id);
    }
  }

  // ----- tables

  /** What a table of `items` is, whatever their order. */
  ghost predicate IsTable(m: Rows, items: seq<Item>) {
    && (forall i :: 0 <= i < |items| ==> items[i].id in m && m[items[i].id] == items[i].fields)
    && (forall id :: id in m ==> id in IdSet(items))
  }

  lemma TableWith(m: Rows, items: seq<Item>, last: Item)
    requires IsTable(m, items) && last.id !in IdSet(items)
    ensures IsTable(m[last.id := last.fields], items + [last])
  {
    var all := items + [last];
    forall i | 0 <= i < |all|
      ensures all[i].id in m[last.id := last.fields] && m[last.id := last.fields][all[i].id] == all[i].fields
    {
      if i < |items| {
        assert all[i] == items[i] && items[i].id in IdSet(items);
      }
    }
    ContentsJoin(items, [last]);
    assert [last][0].id in IdSet([last]);
  }

  lemma {:induction false} TableIsTable(items: seq<Item>)
    requires UniqueIds(items)
    ensures IsTable(Table(items), items)
  {
    if items != [] {
      var front, last := items[..|items| - 1], items[|items| - 1];
      TableIsTable(front);
      TableWith(Table(front), front, last);
      assert items == front + [last];
    }
  }

  lemma SameTable(m: Rows, items: seq<Item>)
    requires UniqueIds(items) && IsTable(m, items)
    ensures m == Table(items)
  {
    TableIsTable(items);
    forall id | id in IdSet(items)
      ensures id in m && id in Table(items) && m[id] == Table(items)[id]
    {
      var i :| 0 <= i < |items| && items[i].id == id;
    }
  }

  /** Upserting added items turns the table of the old ones into that of all. */
  lemma {:induction false} TableAppend(items: seq<Item>, added: seq<Item>)
    ensures Table(items + added) == Replay(Table(items), Upserts(added))
    decreases |added|
  {
    if added == [] {
      assert items + added == items;
    } else {
      var k := |added| - 1;
      TableAppend(items, added[..k]);
      assert (items + added)[..|items| + k] == items + added[..k];
      assert Upserts(added)[..k] == Upserts(added[..k]);
    }
  }

  function Contents(items: seq<Item>): set<(string, Fields)> {
    set i | 0 <= i < |items| :: (items[i].id, items[i].fields)
  }

  /** Order and promises do not matter to the table. */
  lemma TableByContents(xs: seq<Item>, ys: seq<Item>)
    requires UniqueIds(xs) && UniqueIds(ys) && Contents(xs) == Contents(ys)
    ensures Table(xs) == Table(ys)
  {
    TableIsTable(xs);
    forall i | 0 <= i < |ys|
      ensures ys[i].id in Table(xs) && Table(xs)[ys[i].id] == ys[i].fields
    {
      assert (ys[i].id, ys[i].fields) in Contents(xs);
    }
    forall id | id in Table(xs)
      ensures id in IdSet(ys)
    {
      var i :| 0 <= i < |xs| && xs[i].id == id;
      assert (xs[i].id, xs[i].fields) in Contents(ys);
    }
    SameTable(Table(xs), ys);
  }

  lemma ContentsJoin(a: seq<Item>, b: seq<Item>)
    ensures Contents(a + b) == Contents(a) + Contents(b)
    ensures IdSet(a + b) == IdSet(a) + IdSet(b)
  {
    var ab := a + b;
    assert forall i :: 0 <= i < |a| ==> ab[i] == a[i];
    assert forall i :: 0 <= i < |b| ==> ab[|a| + i] == b[i];
    assert forall c :: c in Contents(a) + Contents(b) ==> c in Contents(ab);
    assert forall id :: id in IdSet(a) + IdSet(b) ==> id in IdSet(ab);
  }

  lemma UniqueJoin(a: seq<Item>, b: seq<Item>)
    ensures UniqueIds(a + b) <==> UniqueIds(a) && UniqueIds(b) && IdSet(a) !! IdSet(b)
  {
    var ab := a + b;
    if UniqueIds(ab) {
      assert forall i :: 0 <= i < |a| ==> a[i] == ab[i];
      assert forall i :: 0 <= i < |b| ==> b[i] == ab[|a| + i];
    }
    if UniqueIds(a) && UniqueIds(b) && IdSet(a) !! IdSet(b) {
      forall i, j | 0 <= i < j < |ab|
        ensures ab[i].id != ab[j].id
      {
        if i < |a| <= j {
          assert a[i].id in IdSet(a) && b[j - |a|].id in IdSet(b);
        }
      }
    }
  }

  lemma SettledSame(items: seq<Item>, pending: nat)
    ensures Contents(Settled(items, pending)) == Contents(items)
    ensures IdSet(Settled(items, pending)) == IdSet(items)
    ensures UniqueIds(Settled(items, pending)) <==> UniqueIds(items)
  {
    var stored := Settled(items, pending);
    assert forall i :: 0 <= i < |items| ==> stored[i].id == items[i].id && stored[i].fields == items[i].fields;
  }

  lemma TableAddRemove(kept: seq<Item>, removed: seq<Item>, added: seq<Item>)
    requires UniqueIds(kept + removed) && UniqueIds(kept + added)
    ensures Replay(Table(kept + removed), Upserts(added)) - IdSet(removed) == Table(kept + added)
       <==> IdSet(removed) !! IdSet(added)
  {
    var before := Replay(Table(kept + removed), Upserts(added));
    UniqueJoin(kept, removed);
    UniqueJoin(kept, added);
    TableIsTable(kept + added);
    ContentsJoin(kept, added);
    if IdSet(removed) !! IdSet(added) {
      ContentsJoin(kept, removed);
      UniqueJoin(kept + removed, added);
      TableAppend(kept + removed, added);
      TableIsTable(kept + removed + added);
      RemoveFromTable(before, kept, removed, added);
      SameTable(before - IdSet(removed), kept + added);
    } else {
      var id :| id in IdSet(removed) && id in IdSet(added);
      var i :| 0 <= i < |kept + added| && (kept + added)[i].id == id;
      assert id in Table(kept + added);
    }
  }

  lemma RemoveFromTable(m: Rows, kept: seq<Item>, removed: seq<Item>, added: seq<Item>)
    requires IsTable(m, kept + removed + added)
    requires IdSet(removed) !! IdSet(kept) && IdSet(removed) !! IdSet(added)
    ensures IsTable(m - IdSet(removed), kept + added)
  {
    var all, left := kept + removed + added, kept + added;
    forall i | 0 <= i < |left|
      ensures left[i].id in m - IdSet(removed) && (m - IdSet(removed))[left[i].id] == left[i].fields
    {
      if i < |kept| {
        assert left[i] == all[i] && kept[i].id in IdSet(kept);
      } else {
        assert left[i] == all[i + |removed|] && added[i - |kept|].id in IdSet(added);
      }
    }
    ContentsJoin(kept + removed, added);
    ContentsJoin(kept, removed);
    ContentsJoin(kept, added);
  }

  // ----- every operation

  /** What one call does to the rows the table is heading for: upserts of what is added,
      then, if anything leaves, one delete. */
  lemma ReplayCall(s: State, ops: seq<Op>)
    requires Mirrored(s)
    ensures Replay(s.rows, s.inFlight + ops) == Replay(Table(s.items), ops)
  {
    ReplayAppend(s.rows, s.inFlight, ops);
  }

  /** Storing `added` anywhere among the others gives the table of all. */
  lemma Placed(a: seq<Item>, b: seq<Item>, added: seq<Item>, pending: nat)
    requires UniqueIds((a + b) + added)
    ensures var items := a + Settled(added, pending) + b;
            UniqueIds(items) && Table(items) == Table((a + b) + added)
  {
    var stored := Settled(added, pending);
    SettledSame(added, pending);
    UniqueJoin(a + b, added);
    UniqueJoin(a, b);
    UniqueJoin(a + stored, b);
    UniqueJoin(a, stored);
    ContentsJoin(a + b, added);
    ContentsJoin(a, b);
    ContentsJoin(a + stored, b);
    ContentsJoin(a, stored);
    TableByContents(a + stored + b, (a + b) + added);
  }

  lemma PlacedAtEnds(items: seq<Item>, added: seq<Item>, pending: nat)
    requires UniqueIds(items + added)
    ensures var stored := Settled(added, pending);
            && UniqueIds(items + stored) && Table(items + stored) == Table(items + added)
            && UniqueIds(stored + items) && Table(stored + items) == Table(items + added)
  {
    var stored := Settled(added, pending);
    assert items + [] == items && items + stored + [] == items + stored;
    Placed(items, [], added, pending);
    assert [] + items == items && [] + stored + items == stored + items;
    Placed([], items, added, pending);
  }

  lemma PushKeepsMirror(s: State, added: seq<Item>)
    requires Mirrored(s) && UniqueIds(s.items + added)
    ensures Mirrored(Push(s, added)) && Mirrored(Unshift(s, added))
  {
    ReplayCall(s, Upserts(added));
    TableAppend(s.items, added);
    PlacedAtEnds(s.items, added, Issued(s) + |added|);
  }

  /** What stays and what goes in a splice. */
  function Kept(s: State, start: int, deleteCount: Option<int>): seq<Item> {
    s.items[..SpliceStart(|s.items|, start)] + s.items[SpliceEnd(|s.items|, start, deleteCount)..]
  }

  function Removed(s: State, start: int, deleteCount: Option<int>): seq<Item> {
    s.items[SpliceStart(|s.items|, start)..SpliceEnd(|s.items|, start, deleteCount)]
  }

  lemma KeptAndRemoved(s: State, start: int, deleteCount: Option<int>)
    requires UniqueIds(s.items)
    ensures UniqueIds(Kept(s, start, deleteCount) + Removed(s, start, deleteCount))
    ensures Table(Kept(s, start, deleteCount) + Removed(s, start, deleteCount)) == Table(s.items)
  {
    var from, to := SpliceStart(|s.items|, start), SpliceEnd(|s.items|, start, deleteCount);
    var a, removed, b := s.items[..from], s.items[from..to], s.items[to..];
    assert s.items == a + removed + b;
    UniqueJoin(a + removed, b);
    UniqueJoin(a, removed);
    UniqueJoin(a + b, removed);
    UniqueJoin(a, b);
    ContentsJoin(a + removed, b);
    ContentsJoin(a, removed);
    ContentsJoin(a + b, removed);
    ContentsJoin(a, b);
    TableByContents(a + b + removed, s.items);
  }

  /** The upserts of a splice are issued before its delete, so the mirror survives exactly
      when no inserted id is among the removed ones. */
  lemma SpliceMirrorExact(s: State, start: int, deleteCount: Option<int>, added: seq<Item>)
    requires Mirrored(s) && UniqueIds(Kept(s, start, deleteCount) + added)
    ensures Mirrored(Splice(s, start, deleteCount, added))
       <==> IdSet(Removed(s, start, deleteCount)) !! IdSet(added)
  {
    var kept, removed := Kept(s, start, deleteCount), Removed(s, start, deleteCount);
    KeptAndRemoved(s, start, deleteCount);
    SpliceItems(s, start, deleteCount, added);
    SpliceRows(s, start, deleteCount, added);
    TableAddRemove(kept, removed, added);
  }

  lemma SpliceItems(s: State, start: int, deleteCount: Option<int>, added: seq<Item>)
    requires UniqueIds(Kept(s, start, deleteCount) + added)
    ensures UniqueIds(Splice(s, start, deleteCount, added).items)
    ensures Table(Splice(s, start, deleteCount, added).items) == Table(Kept(s, start, deleteCount) + added)
  {
    var from, to := SpliceStart(|s.items|, start), SpliceEnd(|s.items|, start, deleteCount);
    Placed(s.items[..from], s.items[to..], added, Issued(s) + |added|);
  }

  lemma SpliceRows(s: State, start: int, deleteCount: Option<int>, added: seq<Item>)
    requires Mirrored(s)
    ensures var after := Splice(s, start, deleteCount, added);
            Replay(after.rows, after.inFlight)
            == Replay(Table(s.items), Upserts(added)) - IdSet(Removed(s, start, deleteCount))
  {
    var ids := IdSet(Removed(s, start, deleteCount));
    ReplayCall(s, Upserts(added));
    if ids != {} {
      ReplayOne(s.rows, s.inFlight + Upserts(added), Delete(ids));
    }
  }

  /** The other calls are splices at an end of the array. */
  lemma SplicesAtEnds(s: State, added: seq<Item>)
    ensures Splice(s, |s.items|, None, added) == Push(s, added)
    ensures Splice(s, 0, Some(0), added) == Unshift(s, added)
    ensures Splice(s, -1, None, []) == Pop(s)
    ensures Splice(s, 0, Some(1), []) == Shift(s)
  {
    var n := |s.items|;
    SpliceNothing(s, n, n, None, added);
    SpliceNothing(s, 0, 0, Some(0), added);
    assert s.items[..n] == s.items[0..] == s.items && s.items[n..] == s.items[..0] == [];
    if n > 0 {
      SpliceOne(s, n - 1, -1, None);
      SpliceOne(s, 0, 0, Some(1));
    } else {
      SpliceNothing(s, 0, -1, None, []);
      SpliceNothing(s, 0, 0, Some(1), []);
    }
  }

  lemma SpliceNothing(s: State, from: nat, start: int, deleteCount: Option<int>, added: seq<Item>)
    requires SpliceStart(|s.items|, start) == SpliceEnd(|s.items|, start, deleteCount) == from
    ensures Splice(s, start, deleteCount, added)
         == var (issued, stored) := Persist(s, added);
            issued.(items := s.items[..from] + stored + s.items[from..])
  {
    assert s.items[from..from] == [];
  }

  lemma SpliceOne(s: State, from: nat, start: int, deleteCount: Option<int>)
    requires from < |s.items|
    requires SpliceStart(|s.items|, start) == from && SpliceEnd(|s.items|, start, deleteCount) == from + 1
    ensures Splice(s, start, deleteCount, [])
         == Removal(s.(items := s.items[..from] + s.items[from + 1..]), {s.items[from].id})
  {
    assert s.inFlight + Upserts([]) == s.inFlight;
    assert s.items[from..from + 1] == [s.items[from]];
    SingleId(s.items[from]);
    assert s.items[..from] + [] + s.items[from + 1..] == s.items[..from] + s.items[from + 1..];
  }

  lemma SingleId(item: Item)
    ensures IdSet([item]) == {item.id}
  {
    assert [item][0].id in IdSet([item]);
  }

  /** A start before the array is its beginning, a negative one counts from the end, and one
      behind the array is its end. */
  lemma SpliceStarts(s: State, start: nat, deleteCount: int, added: seq<Item>)
    ensures start < |s.items| ==>
              Splice(s, start - |s.items|, Some(deleteCount), added) == Splice(s, start, Some(deleteCount), added)
    ensures Splice(s, -|s.items| - start, Some(deleteCount), added) == Splice(s, 0, Some(deleteCount), added)
    ensures Splice(s, |s.items| + start, Some(deleteCount), added) == Push(s, added)
  {
    SpliceNothing(s, |s.items|, |s.items| + start, Some(deleteCount), added);
    assert s.items[..|s.items|] == s.items;
  }

  /** As many entities go as asked for and there are, all of them if no number is given, and
      none for a negative number. */
  lemma SpliceRemoves(s: State, start: nat, deleteCount: nat)
    requires start <= |s.items|
    ensures Removed(s, start, Some(deleteCount))
         == if start + deleteCount <= |s.items| then s.items[start..start + deleteCount] else s.items[start..]
    ensures Removed(s, start, None) == s.items[start..]
    ensures forall n: int :: n <= 0 ==> Removed(s, start, Some(n)) == []
  {
  }

  lemma PopKeepsMirror(s: State)
    requires Mirrored(s)
    ensures Mirrored(Pop(s))
  {
    if s.items != [] {
      var k := |s.items| - 1;
      EndRemoval(s, s.items[..k], s.items[k]);
      assert s.items == s.items[..k] + [s.items[k]];
    }
  }

  lemma ShiftKeepsMirror(s: State)
    requires Mirrored(s)
    ensures Mirrored(Shift(s))
  {
    if s.items != [] {
      EndRemoval(s, s.items[1..], s.items[0]);
      assert s.items == [s.items[0]] + s.items[1..];
    }
  }

  lemma EndRemoval(s: State, kept: seq<Item>, gone: Item)
    requires Mirrored(s) && (s.items == kept + [gone] || s.items == [gone] + kept)
    ensures Mirrored(Removal(s.(items := kept), {gone.id}))
  {
    UniqueJoin(kept, [gone]);
    UniqueJoin([gone], kept);
    ContentsJoin(kept, [gone]);
    ContentsJoin([gone], kept);
    TableByContents(kept + [gone], s.items);
    assert kept + [] == kept && IdSet([gone]) == {gone.id};
    TableAddRemove(kept, [gone], []);
    ReplayOne(s.rows, s.inFlight, Delete({gone.id}));
  }

  lemma {:induction false} TableUpdate(items: seq<Item>, index: nat, item: Item)
    requires UniqueIds(items) && index < |items| && item.id == items[index].id
    ensures UniqueIds(items[index := item])
    ensures Table(items[index := item]) == Table(items)[item.id := item.fields]
  {
    var updated, m := items[index := item], Table(items)[item.id := item.fields];
    TableIsTable(items);
    assert UniqueIds(updated);
    assert IdSet(updated) == IdSet(items) by {
      assert forall i :: 0 <= i < |items| ==> updated[i].id == items[i].id;
    }
    assert items[index].id in IdSet(items);
    assert IsTable(m, updated);
    SameTable(m, updated);
  }

  lemma AssignKeepsMirror(s: State, index: nat, property: string, value: string)
    requires Mirrored(s) && index < |s.items|
    ensures Mirrored(Assign(s, index, property, value))
  {
    var item := Assign(s, index, property, value).items[index];
    TableUpdate(s.items, index, item);
    ReplayOne(s.rows, s.inFlight, Upsert(item.id, item.fields));
  }

  /** The value of a property, if the entity has one. */
  function Property(fields: Fields, property: string): Option<string> {
    if property in fields then Some(fields[property]) else None
  }

  /** The row of an entity once everything in flight has landed. */
  function RowToCome(s: State, id: string): Fields {
    var rows := Replay(s.rows, s.inFlight);
    if id in rows then rows[id] else map[]
  }

  /** Between the two states one property of one entity has been given a value: no other
      property and no other entity differs, and the row of the entity is to hold the value. */
  ghost predicate Assigned(before: State, after: State, index: nat, property: string, value: string)
    requires index < |before.items|
  {
    && |after.items| == |before.items|
    && (forall i :: 0 <= i < |before.items| && i != index ==> after.items[i] == before.items[i])
    && after.items[index].id == before.items[index].id
    && (forall other :: Property(after.items[index].fields, other)
                     == if other == property then Some(value) else Property(before.items[index].fields, other))
    && Property(RowToCome(after, before.items[index].id), property) == Some(value)
  }

  /** An assignment assigns, in memory and in the row the operations in flight lead to. */
  lemma AssignAssigns(s: State, index: nat, property: string, value: string)
    requires index < |s.items|
    ensures Assigned(s, Take(s, DoAssign(index, property, value)), index, property, value)
  {
    var item := Assign(s, index, property, value).items[index];
    ReplayOne(s.rows, s.inFlight, Upsert(item.id, item.fields));
  }

  /** Assigning through the object that was pushed instead of the array's proxy breaks the
      mirror unless the property already had the value. */
  lemma AssignOriginalExact(s: State, index: nat, property: string, value: string)
    requires Mirrored(s) && index < |s.items|
    ensures Mirrored(AssignOriginal(s, index, property, value))
       <==> property in s.items[index].fields && s.items[index].fields[property] == value
  {
    var item := AssignOriginal(s, index, property, value).items[index];
    TableUpdate(s.items, index, item);
    TableIsTable(s.items);
    var before, fields := s.items[index].fields, item.fields;
    assert Table(s.items)[item.id] == before;
    if Table(s.items)[item.id := fields] == Table(s.items) {
      assert fields == before;
      assert property in fields;
    }
    if property in before && before[property] == value {
      assert fields == before;
    }
  }

  /** A removed entity keeps writing: any assignment to it brings its row back. */
  lemma AssignRemovedExact(s: State, removed: Item, property: string, value: string)
    requires Mirrored(s)
    ensures Mirrored(AssignRemoved(s, removed, property, value))
       <==> exists i :: 0 <= i < |s.items| && s.items[i].id == removed.id
                        && s.items[i].fields == removed.fields[property := value]
  {
    var fields := removed.fields[property := value];
    var m := Table(s.items);
    ReplayOne(s.rows, s.inFlight, Upsert(removed.id, fields));
    TableIsTable(s.items);
    if m[removed.id := fields] == m {
      assert removed.id in m;
      var i :| 0 <= i < |s.items| && s.items[i].id == removed.id;
      assert m[removed.id] == fields;
    }
    if i :| 0 <= i < |s.items| && s.items[i].id == removed.id && s.items[i].fields == fields {
      assert m[removed.id := fields] == m;
    }
  }

  /** Such calls, on the store with one loaded entity: replacing it by itself, assigning to
      the object that was pushed, and assigning after it was popped. */
  lemma MirrorIsLost()
    ensures var gone := Item("a", map[], 0);
            var s := State([gone], map["a" := map[]], [], 0);
            && Mirrored(s)
            && !Mirrored(Splice(s, 0, None, [gone]))
            && !Mirrored(AssignOriginal(s, 0, "p", "v"))
            && !Mirrored(AssignRemoved(Pop(s), gone, "p", "v"))
  {
    var gone := Item("a", map[], 0);
    var s := State([gone], map["a" := map[]], [], 0);
    assert Table(s.items) == map["a" := map[]] by {
      assert s.items[..0] == [];
    }
    assert Removed(s, 0, None) == [gone] && Kept(s, 0, None) == [];
    assert Kept(s, 0, None) + [gone] == [gone];
    assert [gone][0].id in IdSet([gone]);
    SpliceMirrorExact(s, 0, None, [gone]);
    AssignOriginalExact(s, 0, "p", "v");
    PopKeepsMirror(s);
    AssignRemovedExact(Pop(s), gone, "p", "v");
  }

  lemma LandKeepsMirror(s: State)
    requires Mirrored(s)
    ensures Mirrored(Land(s))
  {
    if s.inFlight != [] {
      var first, rest := s.inFlight[..1], s.inFlight[1..];
      assert s.inFlight == first + rest;
      ReplayAppend(s.rows, first, rest);
      assert first == [] + [s.inFlight[0]];
      ReplayOne(s.rows, [], s.inFlight[0]);
      assert Replay(s.rows, []) == s.rows;
    }
  }

  // ----- promises

  /** Operations that leave an entity alone leave its promise good. */
  lemma StillTracked(s: State, item: Item, ops: seq<Op>)
    requires TrackedItem(s, item)
    requires forall j :: 0 <= j < |ops| ==> !Touches(ops[j], item.id)
    ensures TrackedItem(s.(inFlight := s.inFlight + ops), item)
  {
  }

  lemma PersistTracks(s: State, added: seq<Item>, others: seq<Item>)
    requires forall i :: 0 <= i < |others| ==> TrackedItem(s, others[i])
    requires IdSet(others) !! IdSet(added)
    ensures var (issued, stored) := Persist(s, added);
            && (forall i :: 0 <= i < |others| ==> TrackedItem(issued, others[i]))
            && (forall i :: 0 <= i < |stored| ==> TrackedItem(issued, stored[i]))
  {
    var (issued, stored) := Persist(s, added);
    forall i | 0 <= i < |others|
      ensures TrackedItem(issued, others[i])
    {
      assert others[i].id in IdSet(others);
      assert forall j :: 0 <= j < |added| ==> added[j].id in IdSet(added);
      StillTracked(s, others[i], Upserts(added));
    }
  }

  lemma PushTracks(s: State, added: seq<Item>)
    requires Tracked(s) && UniqueIds(s.items + added)
    ensures Tracked(Push(s, added)) && Tracked(Unshift(s, added))
  {
    UniqueJoin(s.items, added);
    PersistTracks(s, added, s.items);
    var (issued, stored) := Persist(s, added);
    ItemsOnly(issued, s.items + stored);
    ItemsOnly(issued, stored + s.items);
  }

  /** Being tracked depends on the operations, not on the place in the array. */
  lemma ItemsOnly(s: State, items: seq<Item>)
    requires forall i :: 0 <= i < |items| ==> TrackedItem(s, items[i])
    ensures Tracked(s.(items := items))
  {
    assert forall i :: 0 <= i < |items| ==> TrackedItem(s.(items := items), items[i]);
  }

  lemma RemovalTracks(s: State, ids: set<string>)
    requires Tracked(s) && ids !! IdSet(s.items)
    ensures Tracked(Removal(s, ids))
  {
    if ids != {} {
      forall i | 0 <= i < |s.items|
        ensures TrackedItem(Removal(s, ids), s.items[i])
      {
        assert s.items[i].id in IdSet(s.items);
        StillTracked(s, s.items[i], [Delete(ids)]);
      }
    }
  }

  lemma SpliceTracks(s: State, start: int, deleteCount: Option<int>, added: seq<Item>)
    requires Tracked(s) && UniqueIds(s.items) && UniqueIds(Kept(s, start, deleteCount) + added)
    requires IdSet(Removed(s, start, deleteCount)) !! IdSet(added)
    ensures Tracked(Splice(s, start, deleteCount, added))
  {
    var from, to := SpliceStart(|s.items|, start), SpliceEnd(|s.items|, start, deleteCount);
    var a, b, removed := s.items[..from], s.items[to..], s.items[from..to];
    var (issued, stored) := Persist(s, added);
    UniqueJoin(a + b, added);
    PersistTracks(s, added, a + b);
    var middle := issued.(items := a + stored + b);
    assert forall i :: 0 <= i < |a| ==> (a + b)[i] == a[i];
    assert forall i :: 0 <= i < |b| ==> (a + b)[|a| + i] == b[i];
    ItemsOnly(issued, a + stored + b);
    SettledSame(added, Issued(issued));
    ContentsJoin(a + stored, b);
    ContentsJoin(a, stored);
    KeptAndRemoved(s, start, deleteCount);
    UniqueJoin(a + b, removed);
    ContentsJoin(a, b);
    RemovalTracks(middle, IdSet(removed));
  }

  lemma EndTracks(s: State, kept: seq<Item>, gone: Item)
    requires Tracked(s) && UniqueIds(s.items) && (s.items == kept + [gone] || s.items == [gone] + kept)
    ensures Tracked(Removal(s.(items := kept), {gone.id}))
  {
    UniqueJoin(kept, [gone]);
    UniqueJoin([gone], kept);
    assert gone.id in IdSet([gone]) by {
      assert [gone][0].id == gone.id;
    }
    assert forall i :: 0 <= i < |kept| ==> kept[i] in s.items;
    ItemsOnly(s, kept);
    RemovalTracks(s.(items := kept), {gone.id});
  }

  lemma AssignTracks(s: State, index: nat, property: string, value: string)
    requires Tracked(s) && UniqueIds(s.items) && index < |s.items|
    ensures Tracked(Assign(s, index, property, value))
  {
    var after := Assign(s, index, property, value);
    forall i | 0 <= i < |s.items|
      ensures TrackedItem(after, after.items[i])
    {
      if i != index {
        StillTracked(s, s.items[i], after.inFlight[|s.inFlight|..]);
      }
    }
  }

  // ----- runs

  datatype Step =
    | DoPush(added: seq<Item>)
    | DoUnshift(added: seq<Item>)
    | DoSplice(start: int, deleteCount: Option<int>, added: seq<Item>)
    | DoPop
    | DoShift
    | DoAssign(index: nat, property: string, value: string)
    | DoLand

  /** Ids stay unique, and a splice does not put back an id it removes. */
  ghost predicate Allowed(s: State, step: Step) {
    match step
    case DoPush(added) => UniqueIds(s.items + added)
    case DoUnshift(added) => UniqueIds(s.items + added)
    case DoSplice(start, deleteCount, added) =>
      UniqueIds(Kept(s, start, deleteCount) + added) && IdSet(Removed(s, start, deleteCount)) !! IdSet(added)
    case DoPop => true
    case DoShift => true
    case DoAssign(index, _, _) => index < |s.items|
    case DoLand => true
  }

  ghost function Take(s: State, step: Step): State
    requires Allowed(s, step)
  {
    match step
    case DoPush(added) => Push(s, added)
    case DoUnshift(added) => Unshift(s, added)
    case DoSplice(start, deleteCount, added) => Splice(s, start, deleteCount, added)
    case DoPop => Pop(s)
    case DoShift => Shift(s)
    case DoAssign(index, property, value) => Assign(s, index, property, value)
    case DoLand => Land(s)
  }

  ghost predicate AllowedRun(s: State, run: seq<Step>)
    decreases run
  {
    run == [] || (Allowed(s, run[0]) && AllowedRun(Take(s, run[0]), run[1..]))
  }

  ghost function TakeAll(s: State, run: seq<Step>): State
    requires AllowedRun(s, run)
    decreases run
  {
    if run == [] then s else TakeAll(Take(s, run[0]), run[1..])
  }

  lemma StepKeepsInvariant(s: State, step: Step)
    requires Mirrored(s) && Tracked(s) && Allowed(s, step)
    ensures Mirrored(Take(s, step)) && Tracked(Take(s, step))
  {
    match step
    case DoPush(added) =>
      PushKeepsMirror(s, added);
      PushTracks(s, added);
    case DoUnshift(added) =>
      PushKeepsMirror(s, added);
      PushTracks(s, added);
    case DoSplice(start, deleteCount, added) =>
      SpliceMirrorExact(s, start, deleteCount, added);
      SpliceTracks(s, start, deleteCount, added);
    case DoPop =>
      PopKeepsMirror(s);
      PopTracks(s);
    case DoShift =>
      ShiftKeepsMirror(s);
      ShiftTracks(s);
    case DoAssign(index, property, value) =>
      AssignKeepsMirror(s, index, property, value);
      AssignTracks(s, index, property, value);
    case DoLand =>
      LandKeepsMirror(s);
      LandTracks(s);
  }

  lemma PopTracks(s: State)
    requires Tracked(s) && UniqueIds(s.items)
    ensures Tracked(Pop(s))
  {
    if s.items != [] {
      var k := |s.items| - 1;
      assert s.items == s.items[..k] + [s.items[k]];
      EndTracks(s, s.items[..k], s.items[k]);
    }
  }

  lemma ShiftTracks(s: State)
    requires Tracked(s) && UniqueIds(s.items)
    ensures Tracked(Shift(s))
  {
    if s.items != [] {
      assert s.items == [s.items[0]] + s.items[1..];
      EndTracks(s, s.items[1..], s.items[0]);
    }
  }

  lemma LandTracks(s: State)
    requires Tracked(s)
    ensures Tracked(Land(s))
  {
    forall i | 0 <= i < |s.items|
      ensures TrackedItem(Land(s), s.items[i])
    {
      assert TrackedItem(s, s.items[i]);
    }
  }

  lemma {:induction false} RunKeepsInvariant(s: State, run: seq<Step>)
    requires Mirrored(s) && Tracked(s) && AllowedRun(s, run)
    ensures Mirrored(TakeAll(s, run)) && Tracked(TakeAll(s, run))
    decreases run
  {
    if run != [] {
      StepKeepsInvariant(s, run[0]);
      RunKeepsInvariant(Take(s, run[0]), run[1..]);
    }
  }

  /** The store as it is after loading: every row is an entity and nothing is in flight. */
  ghost predicate Loaded(s: State) {
    && UniqueIds(s.items) && s.rows == Table(s.items) && s.inFlight == []
    && forall i :: 0 <= i < |s.items| ==> s.items[i].pending <= s.landed
  }

  /** In every reachable state the operations in flight lead to exactly the entities; and
      once the promise of an entity of the array has resolved, its row holds its fields. */
  lemma MirrorOverRuns(s: State, run: seq<Step>)
    requires Loaded(s) && AllowedRun(s, run)
    ensures var now := TakeAll(s, run);
            && Replay(now.rows, now.inFlight) == Table(now.items)
            && (now.inFlight == [] ==> now.rows == Table(now.items))
            && forall i :: 0 <= i < |now.items| && now.items[i].pending <= now.landed ==>
                 now.items[i].id in now.rows && now.rows[now.items[i].id] == now.items[i].fields
  {
    RunKeepsInvariant(s, run);
    var now := TakeAll(s, run);
    TableIsTable(now.items);
    forall i | 0 <= i < |now.items| && now.items[i].pending <= now.landed
      ensures now.items[i].id in now.rows && now.rows[now.items[i].id] == now.items[i].fields
    {
      assert TrackedItem(now, now.items[i]);
      ReplayUntouched(now.rows, now.inFlight, now.items[i].id);
    }
  }

  // ----- what was assigned last

  /** Every entity with the id has the property with this value, or has it not. */
  ghost predicate Shows(items: seq<Item>, id: string, property: string, value: Option<string>) {
    forall i :: 0 <= i < |items| && items[i].id == id ==> Property(items[i].fields, property) == value
  }

  /** What a step assigns to a property of the entity with the id, if it does. */
  function Given(s: State, step: Step, id: string, property: string): Option<string> {
    match step
    case DoAssign(index, changed, value) =>
      if index < |s.items| && s.items[index].id == id && changed == property then Some(value) else None
    case _ => None
  }

  /** The value the run assigns last, or else the one there was. */
  ghost function LastGiven(s: State, run: seq<Step>, id: string, property: string, value: Option<string>)
    : Option<string>
    requires AllowedRun(s, run)
    decreases run
  {
    if run == [] then value
    else
      var given := Given(s, run[0], id, property);
      LastGiven(Take(s, run[0]), run[1..], id, property, if given.Some? then given else value)
  }

  /** The entity with the id is in the array all along. */
  ghost predicate Stays(s: State, run: seq<Step>, id: string)
    requires AllowedRun(s, run)
    decreases run
  {
    id in IdSet(s.items) && (run != [] ==> Stays(Take(s, run[0]), run[1..], id))
  }

  lemma OldShows(items: seq<Item>, after: seq<Item>, id: string, property: string, value: Option<string>)
    requires Shows(items, id, property, value)
    requires forall i :: 0 <= i < |after| && after[i].id == id ==> after[i] in items
    ensures Shows(after, id, property, value)
  {
  }

  /** What is added has other ids than what is there. */
  lemma AddedShows(kept: seq<Item>, added: seq<Item>, pending: nat, id: string)
    requires UniqueIds(kept + added) && id in IdSet(kept)
    ensures forall i :: 0 <= i < |added| ==> Settled(added, pending)[i].id != id
  {
    UniqueJoin(kept, added);
    forall i | 0 <= i < |added|
      ensures added[i].id != id
    {
      assert added[i].id in IdSet(added);
    }
  }

  lemma SpliceShows(s: State, start: int, deleteCount: Option<int>, added: seq<Item>, id: string, property: string,
                    value: Option<string>)
    requires UniqueIds(s.items) && UniqueIds(Kept(s, start, deleteCount) + added)
    requires IdSet(Removed(s, start, deleteCount)) !! IdSet(added)
    requires id in IdSet(s.items) && Shows(s.items, id, property, value)
    ensures Shows(Splice(s, start, deleteCount, added).items, id, property, value)
  {
    SameIds(s, start, deleteCount);
    UniqueJoin(Kept(s, start, deleteCount), added);
    assert id !in IdSet(added);
    SplicedItems(s, start, deleteCount, added, id);
    OldShows(s.items, Splice(s, start, deleteCount, added).items, id, property, value);
  }

  lemma SplicedItems(s: State, start: int, deleteCount: Option<int>, added: seq<Item>, id: string)
    requires id !in IdSet(added)
    ensures var after := Splice(s, start, deleteCount, added).items;
            forall i :: 0 <= i < |after| && after[i].id == id ==> after[i] in s.items
  {
    assert forall i :: 0 <= i < |added| ==> added[i].id in IdSet(added);
  }

  lemma SameIds(s: State, start: int, deleteCount: Option<int>)
    ensures IdSet(s.items) == IdSet(Kept(s, start, deleteCount)) + IdSet(Removed(s, start, deleteCount))
  {
    var from, to := SpliceStart(|s.items|, start), SpliceEnd(|s.items|, start, deleteCount);
    var a, removed, b := s.items[..from], s.items[from..to], s.items[to..];
    assert s.items == a + removed + b;
    ContentsJoin(a + removed, b);
    ContentsJoin(a, removed);
    ContentsJoin(a, b);
  }

  lemma AssignShows(s: State, index: nat, changed: string, given: string, id: string, property: string,
                    value: Option<string>)
    requires UniqueIds(s.items) && index < |s.items|
    requires Shows(s.items, id, property, value)
    ensures Shows(Assign(s, index, changed, given).items, id, property,
                  if s.items[index].id == id && changed == property then Some(given) else value)
  {
    AssignAssigns(s, index, changed, given);
    var after := Assign(s, index, changed, given).items;
    forall i | 0 <= i < |after| && after[i].id == id
      ensures Property(after[i].fields, property)
           == if s.items[index].id == id && changed == property then Some(given) else value
    {
    }
  }

  /** A step changes a property of an entity that stays exactly by assigning to it. */
  lemma StepShows(s: State, step: Step, id: string, property: string, value: Option<string>)
    requires UniqueIds(s.items) && Allowed(s, step) && id in IdSet(s.items)
    requires Shows(s.items, id, property, value)
    ensures var given := Given(s, step, id, property);
            Shows(Take(s, step).items, id, property, if given.Some? then given else value)
  {
    match step
    case DoPush(added) => AddedShows(s.items, added, Issued(s) + |added|, id);
    case DoUnshift(added) => AddedShows(s.items, added, Issued(s) + |added|, id);
    case DoSplice(start, deleteCount, added) => SpliceShows(s, start, deleteCount, added, id, property, value);
    case DoPop =>
    case DoShift =>
    case DoAssign(index, changed, given) => AssignShows(s, index, changed, given, id, property, value);
    case DoLand =>
  }

  lemma {:induction false} RunShows(s: State, run: seq<Step>, id: string, property: string, value: Option<string>)
    requires Mirrored(s) && Tracked(s) && AllowedRun(s, run) && Stays(s, run, id)
    requires Shows(s.items, id, property, value)
    ensures Shows(TakeAll(s, run).items, id, property, LastGiven(s, run, id, property, value))
    decreases run
  {
    if run != [] {
      var given := Given(s, run[0], id, property);
      StepShows(s, run[0], id, property, value);
      StepKeepsInvariant(s, run[0]);
      RunShows(Take(s, run[0]), run[1..], id, property, if given.Some? then given else value);
    }
  }

  /** From any reachable state on, a property of an entity that stays in the array has the
      value assigned to it last, and so has its row once its promise has resolved. */
  lemma LastValueIsKept(s: State, run: seq<Step>, index: nat, property: string)
    requires Mirrored(s) && Tracked(s) && AllowedRun(s, run)
    requires index < |s.items| && Stays(s, run, s.items[index].id)
    ensures var now, id := TakeAll(s, run), s.items[index].id;
            var last := LastGiven(s, run, id, property, Property(s.items[index].fields, property));
            forall i :: 0 <= i < |now.items| && now.items[i].id == id ==>
              && Property(now.items[i].fields, property) == last
              && Property(RowToCome(now, id), property) == last
              && (now.items[i].pending <= now.landed ==> id in now.rows && Property(now.rows[id], property) == last)
  {
    var now, id := TakeAll(s, run), s.items[index].id;
    RunShows(s, run, id, property, Property(s.items[index].fields, property));
    RunKeepsInvariant(s, run);
    TableIsTable(now.items);
    forall i | 0 <= i < |now.items| && now.items[i].id == id && now.items[i].pending <= now.landed
      ensures id in now.rows && now.rows[id] == now.items[i].fields
    {
      assert TrackedItem(now, now.items[i]);
      ReplayUntouched(now.rows, now.inFlight, id);
    }
  }

  // ----- rows of removed entities

  /** `n` more operations land. */
  function LandMany(s: State, n: nat): State
    decreases n, s
  {
    if n == 0 then s else Land(LandMany(s, n - 1))
  }

  lemma {:induction false} LandManyReplays(s: State, n: nat)
    ensures var k := if n < |s.inFlight| then n else |s.inFlight|;
            && LandMany(s, n).rows == Replay(s.rows, s.inFlight[..k])
            && LandMany(s, n).inFlight == s.inFlight[k..]
    decreases n
  {
    if n > 0 {
      LandManyReplays(s, n - 1);
      if n <= |s.inFlight| {
        assert s.inFlight[..n] == s.inFlight[..n - 1] + [s.inFlight[n - 1]];
        ReplayOne(s.rows, s.inFlight[..n - 1], s.inFlight[n - 1]);
      }
    }
  }

  predicate Deletes(op: Op, id: string) {
    op.Delete? && id in op.ids
  }

  lemma {:induction false} ReplayKeepsRow(rows: Rows, ops: seq<Op>, id: string)
    requires id in rows && forall j :: 0 <= j < |ops| ==> !Deletes(ops[j], id)
    ensures id in Replay(rows, ops)
    decreases |ops|
  {
    if ops != [] {
      ReplayKeepsRow(rows, ops[..|ops| - 1], id);
    }
  }

  /** A row stays until the delete behind the operations that spare it has landed. */
  lemma RowUntilDelete(s: State, spare: seq<Op>, ids: set<string>, id: string, n: nat)
    requires id in s.rows && id in ids
    requires s.inFlight == spare + [Delete(ids)]
    requires forall j :: 0 <= j < |spare| ==> !Deletes(spare[j], id)
    ensures id in LandMany(s, n).rows <==> n <= |spare|
  {
    LandManyReplays(s, n);
    if n <= |spare| {
      assert s.inFlight[..n] == spare[..n];
      ReplayKeepsRow(s.rows, spare[..n], id);
    } else {
      assert s.inFlight[..|s.inFlight|] == spare + [Delete(ids)];
      ReplayOne(s.rows, spare, Delete(ids));
    }
  }

  /** Once its promise has resolved an entity has its row, and nothing in flight deletes it. */
  lemma SettledHasRow(s: State, i: nat)
    requires Mirrored(s) && Tracked(s) && i < |s.items| && s.items[i].pending <= s.landed
    ensures s.items[i].id in s.rows
    ensures forall j :: 0 <= j < |s.inFlight| ==> !Deletes(s.inFlight[j], s.items[i].id)
  {
    assert TrackedItem(s, s.items[i]);
    TableIsTable(s.items);
    ReplayUntouched(s.rows, s.inFlight, s.items[i].id);
  }

  /** Deletes are in no promise: the row of a settled entity that is popped is still there
      until everything that was in flight and the delete itself have landed. */
  lemma PoppedRowExact(s: State, n: nat)
    requires Mirrored(s) && Tracked(s) && s.items != [] && s.items[|s.items| - 1].pending <= s.landed
    ensures s.items[|s.items| - 1].id in LandMany(Pop(s), n).rows <==> n <= |s.inFlight|
  {
    var id := s.items[|s.items| - 1].id;
    SettledHasRow(s, |s.items| - 1);
    RowUntilDelete(Pop(s), s.inFlight, {id}, id, n);
  }

  lemma ShiftedRowExact(s: State, n: nat)
    requires Mirrored(s) && Tracked(s) && s.items != [] && s.items[0].pending <= s.landed
    ensures s.items[0].id in LandMany(Shift(s), n).rows <==> n <= |s.inFlight|
  {
    SettledHasRow(s, 0);
    RowUntilDelete(Shift(s), s.inFlight, {s.items[0].id}, s.items[0].id, n);
  }

  /** In a splice the upserts of what is inserted come first, even one of the same id. */
  lemma SplicedRowExact(s: State, start: int, deleteCount: Option<int>, added: seq<Item>, i: nat, n: nat)
    requires Mirrored(s) && Tracked(s)
    requires SpliceStart(|s.items|, start) <= i < SpliceEnd(|s.items|, start, deleteCount)
    requires s.items[i].pending <= s.landed
    ensures s.items[i].id in LandMany(Splice(s, start, deleteCount, added), n).rows <==> n <= |s.inFlight| + |added|
  {
    var removed, id := Removed(s, start, deleteCount), s.items[i].id;
    SettledHasRow(s, i);
    assert removed[i - SpliceStart(|s.items|, start)].id == id;
    RowUntilDelete(Splice(s, start, deleteCount, added), s.inFlight + Upserts(added), IdSet(removed), id, n);
  }

  /** Such a state: one loaded entity, popped. */
  lemma RemovalIsNotAwaited()
    ensures exists s: State :: Loaded(s) && |s.items| == 1
              && var gone := s.items[0]; gone.pending <= Pop(s).landed && gone.id in Pop(s).rows
  {
    var s := State([Item("a", map[], 0)], map["a" := map[]], [], 0);
    assert Table(s.items) == map["a" := map[]] by {
      assert s.items[..0] == [];
    }
    assert Loaded(s);
    PoppedRowExact(s, 0);
    assert LandMany(Pop(s), 0) == Pop(s);
  }
}
