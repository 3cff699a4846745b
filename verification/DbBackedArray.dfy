/**
 The classes of src/database/store.ts (lines 462-590): entities that write through a
 proxy, the array that mirrors itself, and the repository behind it.  Each method is
 proved against the function of the same name in WriteBehindStore.
 */
module DbBackedArray {
  import opened WriteBehindStore
  import opened Wrappers

  class Repository {
    var rows: Rows
    var inFlight: seq<Op>
    var landed: nat

    constructor (rows: Rows)
      ensures this.rows == rows && inFlight == [] && landed == 0
    {
      this.rows, inFlight, landed := rows, [], 0;
    }

    method Issue(op: Op)
      modifies this
      ensures inFlight == old(inFlight) + [op] && rows == old(rows) && landed == old(landed)
    {
      inFlight := inFlight + [op];
    }

    /** The environment: the oldest write reaches the table. */
    method LandOldest()
      modifies this
      ensures inFlight == old(if inFlight == [] then [] else inFlight[1..])
      ensures rows == old(if inFlight == [] then rows else Apply(rows, inFlight[0]))
      ensures landed == old(if inFlight == [] then landed else landed + 1)
    {
      if inFlight != [] {
        rows, inFlight, landed := Apply(rows, inFlight[0]), inFlight[1..], landed + 1;
      }
    }
  }

  class Entity {
    const id: string
    var fields: Fields
    var pending: nat

    constructor (id: string, fields: Fields)
      ensures this.id == id && this.fields == fields && pending == 0
    {
      this.id, this.fields, pending := id, fields, 0;
    }

    function Value(): Item
      reads this
    {
      Item(id, fields, pending)
    }
  }

  function Values(entities: seq<Entity>): (items: seq<Item>)
    reads entities
    ensures |items| == |entities|
    ensures forall i :: 0 <= i < |entities| ==> items[i] == entities[i].Value()
  {
    seq(|entities|, i requires 0 <= i < |entities| reads entities => entities[i].Value())
  }

  ghost predicate Distinct(entities: seq<Entity>) {
    forall i, j :: 0 <= i < j < |entities| ==> entities[i] != entities[j]
  }

  class DBBackedArray {
    const repo: Repository
    var items: seq<Entity>

    constructor (repo: Repository, items: seq<Entity>)
      ensures this.repo == repo && this.items == items
    {
      this.repo, this.items := repo, items;
    }

    function View(): State
      reads this, repo, items
    {
      State(Values(items), repo.rows, repo.inFlight, repo.landed)
    }

    method PersistAll(values: seq<Entity>)
      requires Distinct(values)
      modifies repo, values
      ensures repo.inFlight == old(repo.inFlight) + Upserts(old(Values(values)))
      ensures repo.rows == old(repo.rows) && repo.landed == old(repo.landed)
      ensures Values(values) == Settled(old(Values(values)), repo.landed + |repo.inFlight|)
    {
      for i := 0 to |values|
        invariant repo.inFlight == old(repo.inFlight) + Upserts(old(Values(values)))[..i]
        invariant repo.rows == old(repo.rows) && repo.landed == old(repo.landed)
        invariant forall e :: e in values ==> e.Value() == old(e.Value())
      {
        repo.Issue(Upsert(values[i].id, values[i].fields));
      }
      var promise := repo.landed + |repo.inFlight|;
      for i := 0 to |values|
        invariant repo.inFlight == old(repo.inFlight) + Upserts(old(Values(values)))
        invariant repo.rows == old(repo.rows) && repo.landed == old(repo.landed)
        invariant forall j :: 0 <= j < |values| ==>
                    values[j].Value() == if j < i then old(values[j].Value()).(pending := promise)
                                         else old(values[j].Value())
      {
        values[i].pending := promise;
      }
    }

    /** What push and unshift do before the array changes. */
    method Store(added: seq<Entity>)
      requires Distinct(added) && forall i :: 0 <= i < |items| ==> items[i] !in added
      modifies repo, added
      ensures (View(), Values(added)) == Persist(old(View()), old(Values(added)))
    {
      PersistAll(added);
      assert Values(items) == old(Values(items)) by {
        assert forall i :: 0 <= i < |items| ==> items[i].Value() == old(items[i].Value());
      }
    }

    method Push(added: seq<Entity>)
      requires Distinct(added) && forall i :: 0 <= i < |items| ==> items[i] !in added
      modifies this, repo, added
      ensures items == old(items) + added
      ensures View() == WriteBehindStore.Push(old(View()), old(Values(added)))
    {
      Store(added);
      items := items + added;
    }

    method Unshift(added: seq<Entity>)
      requires Distinct(added) && forall i :: 0 <= i < |items| ==> items[i] !in added
      modifies this, repo, added
      ensures items == added + old(items)
      ensures View() == WriteBehindStore.Unshift(old(View()), old(Values(added)))
    {
      Store(added);
      items := added + items;
    }

    method Splice(start: int, deleteCount: Option<int>, added: seq<Entity>) returns (removed: seq<Entity>)
      requires Distinct(added) && forall i :: 0 <= i < |items| ==> items[i] !in added
      modifies this, repo, added
      ensures View() == WriteBehindStore.Splice(old(View()), start, deleteCount, old(Values(added)))
      ensures items == old(items[..SpliceStart(|items|, start)] + added
                           + items[SpliceEnd(|items|, start, deleteCount)..])
      ensures removed == old(items[SpliceStart(|items|, start)..SpliceEnd(|items|, start, deleteCount)])
    {
      var from, to := SpliceStart(|items|, start), SpliceEnd(|items|, start, deleteCount);
      removed := items[from..to];
      IdsOf(removed);
      ValuesSlice(items, from, to);
      Replace(from, to, added);
      if |removed| > 0 {
        repo.Issue(Delete(Ids(removed)));
      }
    }

    /** The first half of a splice: the array changes and what was added is written. */
    method Replace(from: nat, to: nat, added: seq<Entity>)
      requires Distinct(added) && forall i :: 0 <= i < |items| ==> items[i] !in added
      requires from <= to <= |items|
      modifies this, repo, added
      ensures items == old(items[..from] + added + items[to..])
      ensures var (issued, stored) := Persist(old(View()), old(Values(added)));
              View() == issued.(items := old(Values(items)[..from]) + stored + old(Values(items)[to..]))
    {
      ghost var before := items;
      items := items[..from] + added + items[to..];
      if |added| > 0 {
        PersistAll(added);
      }
      SpliceView(before, from, to, added);
      assert forall i :: 0 <= i < |before| ==> before[i].Value() == old(items[i].Value());
      assert Values(before) == old(Values(items));
    }

    method Pop() returns (item: Entity?)
      modifies this, repo
      ensures View() == WriteBehindStore.Pop(old(View()))
      ensures item == old(if items == [] then null else items[|items| - 1])
    {
      if items == [] {
        return null;
      }
      item := items[|items| - 1];
      items := items[..|items| - 1];
      repo.Issue(Delete({item.id}));
    }

    method Shift() returns (item: Entity?)
      modifies this, repo
      ensures View() == WriteBehindStore.Shift(old(View()))
      ensures item == old(if items == [] then null else items[0])
    {
      if items == [] {
        return null;
      }
      item := items[0];
      items := items[1..];
      repo.Issue(Delete({item.id}));
    }

    /** The set trap of the proxy at `items[index]`. */
    method Assign(index: nat, property: string, value: string)
      requires Distinct(items) && index < |items|
      modifies repo, items[index]
      ensures View() == WriteBehindStore.Assign(old(View()), index, property, value)
      ensures Assigned(old(View()), View(), index, property, value)
    {
      AssignAssigns(View(), index, property, value);
      var entity := items[index];
      entity.fields := entity.fields[property := value];
      repo.Issue(Upsert(entity.id, entity.fields));
      entity.pending := repo.landed + |repo.inFlight|;
    }

    method Land()
      modifies repo
      ensures View() == WriteBehindStore.Land(old(View()))
    {
      repo.LandOldest();
    }
  }

  lemma ValuesSlice(entities: seq<Entity>, from: nat, to: nat)
    requires from <= to <= |entities|
    ensures Values(entities)[..from] == Values(entities[..from])
    ensures Values(entities)[from..to] == Values(entities[from..to])
    ensures Values(entities)[to..] == Values(entities[to..])
  {
  }

  lemma SpliceView(entities: seq<Entity>, from: nat, to: nat, added: seq<Entity>)
    requires from <= to <= |entities|
    ensures Values(entities[..from] + added + entities[to..])
         == Values(entities)[..from] + Values(added) + Values(entities)[to..]
    ensures Values(entities)[from..to] == Values(entities[from..to])
  {
    ValuesSlice(entities, from, to);
  }

  function Ids(entities: seq<Entity>): set<string> {
    set i | 0 <= i < |entities| :: entities[i].id
  }

  lemma IdsOf(entities: seq<Entity>)
    ensures IdSet(Values(entities)) == Ids(entities)
    ensures entities != [] <==> Ids(entities) != {}
  {
    if entities != [] {
      assert entities[0].id in Ids(entities);
    }
  }

}
