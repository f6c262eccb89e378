/**
 The list and its iterators as the C++ has them: nodes and iterators are objects that are
 changed in place. Every method is tied to one operation of `RefList`; `ListRuns` puts them
 together to whole runs and loops, for which what is proved in `Traversal` holds.
 */
module GenericLists {
  import opened Options
  import opened Folding
  import P = PlainList
  import V = RefList
  import L = ListLaws

  class Elem<T> {
    var count: int
    var item: Option<T>
    ghost const key: int  // stands for the node's address

    constructor (item: T, ghost key: int)
      ensures this.count == 0 && this.item == Some(item) && this.key == key
    {
      this.count, this.item, this.key := 0, Some(item), key;
    }
  }

  ghost function CellOf<T>(e: Elem<T>): V.Cell<T>
    reads e
  {
    V.Cell(e.key, e.count, e.item)
  }

  ghost function CellsOf<T>(nodes: seq<Elem<T>>): (cells: seq<V.Cell<T>>)
    reads nodes
    ensures |cells| == |nodes|
    ensures forall i :: 0 <= i < |nodes| ==> cells[i] == CellOf(nodes[i])
  {
    seq(|nodes|, i requires 0 <= i < |nodes| reads nodes => CellOf(nodes[i]))
  }

  ghost function ItemsOn<T>(nodes: seq<Elem<T>>): seq<T>
    reads nodes
  {
    if nodes == [] then []
    else (match nodes[0].item case None => [] case Some(t) => [t]) + ItemsOn(nodes[1..])
  }

  lemma {:induction false} ItemsOnCells<T>(nodes: seq<Elem<T>>)
    ensures ItemsOn(nodes) == L.Items(V.Live(CellsOf(nodes)))
  {
    if nodes != [] {
      ItemsOnCells(nodes[1..]);
      assert CellsOf(nodes)[1..] == CellsOf(nodes[1..]);
    }
  }

  ghost function KeyOf<T>(e: Elem?<T>): Option<int> {
    if e == null then None else Some(e.key)
  }

  ghost predicate Apart<T>(nodes: seq<Elem<T>>) {
    forall a, b :: 0 <= a < b < |nodes| ==> nodes[a].key < nodes[b].key
  }

  ghost predicate Within<T>(nodes: seq<Elem<T>>, stored: seq<Elem<T>>) {
    forall e :: e in nodes ==> e in stored
  }

  lemma WithinAt<T>(nodes: seq<Elem<T>>, stored: seq<Elem<T>>)
    requires Within(nodes, stored)
    ensures forall i :: 0 <= i < |nodes| ==> nodes[i] in stored
  {
  }

  lemma SameNode<T>(nodes: seq<Elem<T>>, e: Elem<T>, f: Elem<T>)
    requires Apart(nodes) && e in nodes && f in nodes && e.key == f.key
    ensures e == f
  {
    var a :| 0 <= a < |nodes| && nodes[a] == e;
    var b :| 0 <= b < |nodes| && nodes[b] == f;
  }

  class GenericList<T(==)> {
    var nodes: seq<Elem<T>>
    ghost var lo: int
    ghost var hi: int
    ghost var iters: set<Iter<T>>  // every iterator whose list pointer is this list

    ghost function Places(): map<Iter<T>, Option<int>>
      reads this, iters
    {
      map it | it in iters :: KeyOf(it.current)
    }

    ghost function View(): V.RefList<Iter<T>, T>
      reads this, nodes, iters
    {
      V.RefList(CellsOf(nodes), lo, hi, Places())
    }

    /** The items in the list: of the stored nodes, those that are not tombstones. */
    ghost function Contents(): seq<T>
      reads this, nodes
    {
      ItemsOn(nodes)
    }

    /** Registered iterators belong to this list and stand on a stored node or at the end. */
    ghost predicate Wired()
      reads this, iters
    {
      Standing(nodes)
    }

    ghost predicate Standing(stored: seq<Elem<T>>)
      reads this`iters, iters
    {
      forall n {:trigger Open(n)} :: Open(n) ==>
        && Apart(stored)
        && (forall it :: it in iters ==> it.list == this && (it.current == null || it.current in stored))
    }

    ghost predicate Valid()
      reads this, nodes, iters
    {
      V.Valid(View()) && Wired()
    }

    constructor ()
      ensures Valid() && View() == V.RefList([], 0, 0, map[]) && iters == {}
    {
      nodes, lo, hi, iters := [], 0, 0, {};
      new;
      assert CellsOf(nodes) == [];
    }

    // ----- adding and removing

    method AddBack(item: T)
      requires Valid()
      modifies this`nodes, this`hi
      ensures View() == V.Step(old(View()), P.AddBack(item)) && Contents() == old(Contents()) + [item]
      ensures forall e :: e in nodes ==> e in old(nodes) || fresh(e)
      ensures Valid()
    {
      ghost var before := View();
      ItemsOnCells(nodes);
      PutBack(item);
      Committed(before, nodes, P.AddBack(item));
      L.AddBackPuts(before, item);
      ItemsOnCells(nodes);
    }

    /** The new node, its count at zero. */
    method PutBack(item: T)
      requires Valid()
      modifies this`nodes, this`hi
      ensures hi == old(hi) + 1 && Standing(nodes)
      ensures CellsOf(nodes) == old(CellsOf(nodes)) + [V.Cell(old(hi), 0, Some(item))]
      ensures forall e :: e in nodes ==> e in old(nodes) || fresh(e)
    {
      ghost var cells := CellsOf(nodes);
      Newest(View());
      AllRegistered();
      var e := new Elem(item, hi);
      nodes, hi := nodes + [e], hi + 1;
      assert CellsOf(nodes) == cells + [V.Cell(hi - 1, 0, Some(item))];
      Stand(nodes);
    }

    method AddFront(item: T)
      requires Valid()
      modifies this`nodes, this`lo
      ensures View() == V.Step(old(View()), P.AddFront(item)) && Contents() == [item] + old(Contents())
      ensures forall e :: e in nodes ==> e in old(nodes) || fresh(e)
      ensures Valid()
    {
      ghost var before := View();
      ItemsOnCells(nodes);
      PutFront(item);
      Committed(before, nodes, P.AddFront(item));
      L.AddFrontPuts(before, item);
      ItemsOnCells(nodes);
    }

    /** The new node, its count at zero. */
    method PutFront(item: T)
      requires Valid()
      modifies this`nodes, this`lo
      ensures lo == old(lo) - 1 && Standing(nodes)
      ensures CellsOf(nodes) == [V.Cell(lo, 0, Some(item))] + old(CellsOf(nodes))
      ensures forall e :: e in nodes ==> e in old(nodes) || fresh(e)
    {
      ghost var cells := CellsOf(nodes);
      Newest(View());
      AllRegistered();
      var e := new Elem(item, lo - 1);
      nodes, lo := [e] + nodes, lo - 1;
      assert CellsOf(nodes) == [V.Cell(lo, 0, Some(item))] + cells;
      Stand(nodes);
    }

    lemma Newest(s: V.RefList<Iter<T>, T>)
      requires V.Valid(s) && s == View()
      ensures forall i :: 0 <= i < |nodes| ==> lo <= nodes[i].key < hi
    {
      assert Open(0);
      forall i | 0 <= i < |nodes| ensures lo <= nodes[i].key < hi {
        assert s.cells[i].key == nodes[i].key;
      }
    }

    method Remove(item: T) returns (removed: bool)
      requires Valid()
      modifies this`nodes, nodes
      ensures View() == V.Step(old(View()), P.Remove(item))
      ensures removed <==> item in old(Contents())
      ensures if removed then L.LostFirst(old(Contents()), item, Contents()) else Contents() == old(Contents())
      ensures Within(nodes, old(nodes))
      ensures Valid()
    {
      ghost var before, stored := View(), nodes;
      InOrder();
      ItemsOnCells(nodes);
      removed := RemoveFirst(item);
      V.RemovesIfLive(before.cells, item);
      Committed(before, stored, P.Remove(item));
      L.RemoveTakes(before, item);
      ItemsOnCells(nodes);
    }

    method RemoveFirst(item: T) returns (removed: bool)
      requires Apart(nodes)
      modifies this`nodes, nodes
      ensures Within(nodes, old(nodes))
      ensures var before := old(CellsOf(nodes));
              var i := V.FindItem(before, item);
              && removed == (i < |before|)
              && CellsOf(nodes) == if removed then V.RemoveOrTombstone(before, i).0 else before
    {
      var i := 0;
      while i < |nodes| && nodes[i].item != Some(item)
        invariant i <= |nodes|
        invariant forall k :: 0 <= k < i ==> nodes[k].item != Some(item)
      {
        i := i + 1;
      }
      V.FirstItem(CellsOf(nodes), item, i);
      removed := i < |nodes|;
      if removed {
        var next := RemoveOrTombstone(i);
      }
    }

    method Clear()
      requires Valid()
      modifies this`nodes, nodes
      ensures View() == V.Step(old(View()), P.Clear) && Within(nodes, old(nodes)) && Contents() == []
      ensures Valid()
    {
      ghost var before, stored := View(), nodes;
      InOrder();
      ClearNodes();
      Committed(before, stored, P.Clear);
      L.ClearEmptiesAll(before);
      ItemsOnCells(nodes);
    }

    method ClearNodes()
      requires Apart(nodes)
      modifies this`nodes, nodes
      ensures Within(nodes, old(nodes))
      ensures CellsOf(nodes) == V.ClearFrom(old(CellsOf(nodes)), 0)
    {
      var i: nat := 0;
      while i < |nodes|
        invariant i <= |nodes| && Apart(nodes) && Within(nodes, old(nodes))
        invariant V.ClearFrom(CellsOf(nodes), i) == V.ClearFrom(old(CellsOf(nodes)), 0)
        decreases |nodes| - i
      {
        assert nodes[i] in nodes;
        i := RemoveOrTombstone(i);
      }
    }

    method RemoveOrTombstone(i: nat) returns (next: nat)
      requires Apart(nodes) && i < |nodes|
      modifies this`nodes, nodes[i]
      ensures Apart(nodes) && Within(nodes, old(nodes))
      ensures (CellsOf(nodes), next) == V.RemoveOrTombstone(old(CellsOf(nodes)), i)
    {
      if nodes[i].count == 0 {
        Erase(i);
        next := i;
      } else {
        nodes[i].item := None;
        next := i + 1;
        assert CellsOf(nodes) == V.RemoveOrTombstone(old(CellsOf(nodes)), i).0;
      }
    }

    /** `std::list::erase` by position. */
    method Erase(i: nat)
      requires i < |nodes|
      modifies this`nodes
      ensures nodes == old(nodes[..i] + nodes[i + 1..])
      ensures CellsOf(nodes) == V.Erase(old(CellsOf(nodes)), i)
      ensures old(Apart(nodes)) ==> Apart(nodes)
    {
      nodes := nodes[..i] + nodes[i + 1..];
      assert CellsOf(nodes) == V.Erase(old(CellsOf(nodes)), i);
    }

    // ----- walking

    /** The walk over tombstones shared by `begin` and the tail of `advance`. */
    method SkipFrom(start: nat) returns (i: nat)
      requires Apart(nodes) && start <= |nodes|
      modifies this`nodes
      ensures i <= |nodes| && Apart(nodes) && Within(nodes, old(nodes))
      ensures (CellsOf(nodes), i) == V.Skip(old(CellsOf(nodes)), start)
    {
      i := start;
      while i < |nodes| && nodes[i].item.None?
        invariant i <= |nodes| && Apart(nodes) && Within(nodes, old(nodes))
        invariant V.Skip(CellsOf(nodes), i) == V.Skip(old(CellsOf(nodes)), start)
        decreases |nodes| - i
      {
        i := StepOver(i);
      }
    }

    method StepOver(i: nat) returns (next: nat)
      requires Apart(nodes) && i < |nodes|
      modifies this`nodes
      ensures next <= |nodes| && Apart(nodes) && Within(nodes, old(nodes))
      ensures (CellsOf(nodes), next) == V.StepOver(old(CellsOf(nodes)), i)
    {
      if nodes[i].item.None? && nodes[i].count == 0 {
        Erase(i);
        next := i;
      } else {
        next := i + 1;
      }
    }

    /** The count of `e` is dropped by hand, then nodes nobody holds are erased on the way on. */
    method PassOver(e: Elem<T>) returns (i: nat)
      requires Apart(nodes) && e in nodes
      modifies this`nodes, e
      ensures i <= |nodes| && Apart(nodes) && Within(nodes, old(nodes))
      ensures V.IndexOf(old(CellsOf(nodes)), e.key) < old(|nodes|)
      ensures var before := old(CellsOf(nodes));
              var k := V.IndexOf(before, e.key);
              var (cells, n) := V.StepOver(V.Count(before, k, -1), k);
              (CellsOf(nodes), i) == V.Skip(cells, n)
    {
      i := AddCount(e, -1);
      i := StepOver(i);
      i := SkipFrom(i);
    }

    method AddCount(e: Elem<T>, delta: int) returns (i: nat)
      requires Apart(nodes) && e in nodes
      modifies e`count
      ensures i < |nodes| && nodes[i] == e && i == V.IndexOf(old(CellsOf(nodes)), e.key)
      ensures CellsOf(nodes) == V.Count(old(CellsOf(nodes)), i, delta)
    {
      i := Position(e);
      e.count := e.count + delta;
      assert CellsOf(nodes) == V.Count(old(CellsOf(nodes)), i, delta);
    }

    method Position(e: Elem<T>) returns (i: nat)
      requires Apart(nodes) && e in nodes
      ensures i < |nodes| && nodes[i] == e
      ensures i == V.IndexOf(CellsOf(nodes), e.key)
    {
      i :| 0 <= i < |nodes| && nodes[i] == e;
      V.IndexFound(CellsOf(nodes), i);
    }

    method GetFirstNonTombstone() returns (first: Elem?<T>)
      requires Apart(nodes)
      modifies this`nodes
      ensures Apart(nodes) && Within(nodes, old(nodes)) && (first == null || first in nodes)
      ensures var (cells, i) := V.Skip(old(CellsOf(nodes)), 0);
              CellsOf(nodes) == cells && KeyOf(first) == V.KeyAt(cells, i)
    {
      var i := SkipFrom(0);
      first := if i < |nodes| then nodes[i] else null;
    }

    method Begin() returns (it: Iter<T>)
      requires Valid()
      modifies this, nodes
      ensures fresh(it) && it.list == this && iters == old(iters) + {it}
      ensures Within(nodes, old(nodes))
      ensures View() == V.Step(old(View()), P.Begin(it))
      ensures Valid()
    {
      ghost var before, stored := View(), nodes;
      AllRegistered();
      it := IterAtFirst();
      Stand(stored);
      Committed(before, stored, P.Begin(it));
    }

    method IterAtFirst() returns (it: Iter<T>)
      requires Apart(nodes)
      modifies this, nodes
      ensures fresh(it) && it.list == this && iters == old(iters) + {it}
      ensures Within(nodes, old(nodes)) && (it.current == null || it.current in nodes)
      ensures View() == V.Begin(old(View()), it)
    {
      ghost var before := View();
      var first := GetFirstNonTombstone();
      ghost var (cells, i) := V.Skip(before.cells, 0);
      assert View() == before.(cells := cells);
      it := new Iter.At(this, first);
    }

    // ----- stored nodes and the iterators on them

    lemma Registered(it: Iter<T>)
      requires Valid() && it in iters
      ensures it.list == this && Apart(nodes) && (it.current == null || it.current in nodes)
    {
      assert Open(0);
    }

    lemma NotRegistered(it: Iter<T>)
      requires Valid() && it.list != this
      ensures it !in iters
    {
      assert Open(0);
    }

    lemma InOrder()
      requires Valid()
      ensures Apart(nodes)
    {
      assert Open(0);
    }

    lemma Stand(stored: seq<Elem<T>>)
      requires Apart(stored)
      requires forall it :: it in iters ==> it.list == this && (it.current == null || it.current in stored)
      ensures Standing(stored)
    {
    }

    lemma AllRegistered()
      requires Valid()
      ensures Apart(nodes)
      ensures forall it :: it in iters ==> it.list == this && (it.current == null || it.current in nodes)
    {
      assert Open(0);
    }

    lemma Committed(before: V.RefList<Iter<T>, T>, stored: seq<Elem<T>>, op: P.Op<Iter<T>, T>)
      requires V.Valid(before) && View() == V.Step(before, op)
      requires Standing(stored) && Within(nodes, stored)
      ensures Valid()
    {
      V.StepRefines(before, op);
      HoldersStay(stored);
    }

    /** Iterators keep their very node, not just its key, when the list only lost nodes. */
    lemma HoldersStay(stored: seq<Elem<T>>)
      requires V.Valid(View()) && Standing(stored) && Within(nodes, stored)
      ensures Valid()
    {
      assert Open(0);
      assert forall i :: 0 <= i < |nodes| ==> CellsOf(nodes)[i].key == nodes[i].key;
      forall it | it in iters && it.current != null ensures it.current in nodes {
        assert Places()[it] == Some(it.current.key);
        SameNode(stored, it.current, nodes[V.IndexOf(CellsOf(nodes), it.current.key)]);
      }
    }
  }

  class Iter<T(==)> {
    var list: GenericList?<T>
    var current: Elem?<T>

    /** On a list, registered there; the node may be gone only if the list pointer is null. */
    ghost predicate On(l: GenericList<T>)
      reads this, l
    {
      list == l && Apart(l.nodes) && (current == null || current in l.nodes)
    }

    constructor ()
      ensures list == null && current == null
    {
      list, current := null, null;
    }

    constructor At(list: GenericList<T>, current: Elem?<T>)
      requires Apart(list.nodes) && (current == null || current in list.nodes)
      modifies list, current
      ensures this.list == list && this.current == current
      ensures list.View() == V.Attach(old(list.View()), this, KeyOf(current))
      ensures list.iters == old(list.iters) + {this} && list.nodes == old(list.nodes)
      ensures list.lo == old(list.lo) && list.hi == old(list.hi)
    {
      this.list, this.current := list, current;
      new;
      Incref();
    }

    method Incref()
      requires list != null ==> On(list) && this !in list.iters
      modifies list, current
      ensures list != null ==>
          && list.View() == V.Attach(old(list.View()), this, KeyOf(current))
          && list.iters == old(list.iters) + {this} && list.nodes == old(list.nodes)
          && list.lo == old(list.lo) && list.hi == old(list.hi)
    {
      if list != null {
        if current != null {
          ghost var i := list.AddCount(current, 1);
        }
        list.iters := list.iters + {this};
        assert list.Places() == old(list.Places())[this := KeyOf(current)];
      }
    }

    /** Lets go of the node; a tombstone that nobody else holds goes with it. */
    method Decref()
      requires list != null ==> On(list) && this in list.iters
      modifies list, current
      ensures list != null ==>
          && list.View() == V.Detach(old(list.View()), this)
          && list.iters == old(list.iters) - {this}
          && Apart(list.nodes) && Within(list.nodes, old(list.nodes))
          && list.lo == old(list.lo) && list.hi == old(list.hi)
    {
      if list != null {
        if current != null {
          var i := list.AddCount(current, -1);
          if current.count == 0 && current.item.None? {
            list.Erase(i);
          }
        }
        list.iters := list.iters - {this};
        assert list.Places() == old(list.Places()) - {this};
      }
    }

    constructor Copy(other: Iter<T>)
      requires other.list != null ==> other.list.Valid() && other in other.list.iters
      modifies other.list, other.current
      ensures list == old(other.list) && current == old(other.current)
      ensures list != null ==>
          && list.View() == V.Step(old(other.list.View()), P.Copy(this, other)) && list.Valid()
          && list.iters == old(other.list.iters) + {this} && list.nodes == old(other.list.nodes)
    {
      list, current := other.list, other.current;
      new;
      ghost var before := if list == null then V.RefList([], 0, 0, map[]) else list.View();
      ghost var stored := if list == null then [] else list.nodes;
      if list != null {
        list.AllRegistered();
      }
      Incref();
      if list != null {
        assert list.View() == V.Step(before, P.Copy(this, other));
        list.Stand(stored);
        list.Committed(before, stored, P.Copy(this, other));
      }
    }

    /** Move construction: the count moves with the pointer, and `other` is left without a list. */
    constructor Moved(other: Iter<T>)
      requires other.list != null ==> other.list.Valid() && other in other.list.iters
      modifies other, other.list
      ensures list == old(other.list) && current == old(other.current) && other.list == null
      ensures list != null ==>
          && list.View() == V.Step(old(other.list.View()), P.Move(this, other)) && list.Valid()
          && list.iters == old(other.list.iters) - {other} + {this} && list.nodes == old(other.list.nodes)
    {
      list, current := other.list, other.current;
      new;
      if list != null {
        list.AllRegistered();
      }
      other.list := null;
      if list != null {
        ghost var before, stored := old(other.list.View()), list.nodes;
        list.iters := list.iters - {other} + {this};
        assert list.View() == V.Step(before, P.Move(this, other));
        list.Stand(stored);
        list.Committed(before, stored, P.Move(this, other));
      }
    }

    /** `decref` under the whole invariant. */
    method Leave()
      requires list != null ==> list.Valid() && this in list.iters
      modifies list, if list == null then null else current
      ensures list != null ==>
          && list.View() == V.Step(old(list.View()), P.Destroy(this)) && list.Valid()
          && list.iters == old(list.iters) - {this} && Within(list.nodes, old(list.nodes))
    {
      if list != null {
        ghost var before, stored := list.View(), list.nodes;
        list.AllRegistered();
        Decref();
        list.Stand(stored);
        list.Committed(before, stored, P.Destroy(this));
      }
    }

    /** The end of the object's life; a null list pointer marks it as gone. */
    method Destroy()
      requires list != null ==> list.Valid() && this in list.iters
      modifies this, list, current
      ensures list == null
      ensures old(list) != null ==>
          && old(list).View() == V.Step(old(list.View()), P.Destroy(this)) && old(list).Valid()
          && old(list).iters == old(list.iters) - {this} && Within(old(list).nodes, old(list.nodes))
    {
      Leave();
      list := null;
    }

    /** `++it`. Undefined, so required away, at the end of the list. */
    method Advance()
      requires list != null && current != null && list.Valid() && this in list.iters
      modifies this`current, list, list.nodes
      ensures list.View() == V.Step(old(list.View()), P.Advance(this))
      ensures list.Valid() && list.iters == old(list.iters) && Within(list.nodes, old(list.nodes))
    {
      ghost var before, stored := list.View(), list.nodes;
      list.AllRegistered();
      assert before.iters[this] == Some(current.key);
      StepOn();
      assert list.View() == V.Step(before, P.Advance(this));
      list.Stand(stored);
      list.Committed(before, stored, P.Advance(this));
    }

    method StepOn()
      requires list != null && current != null && On(list) && this in list.iters
      modifies this`current, list, list.nodes
      ensures list.View() == V.Advance(old(list.View()), this)
      ensures list.iters == old(list.iters) && Within(list.nodes, old(list.nodes))
      ensures current == null || current in list.nodes
    {
      ghost var before := list.View();
      var i := list.PassOver(current);
      assert i < |list.nodes| ==> list.nodes[i] in list.nodes;
      assert list.Places() == before.iters;
      MoveTo(i);
    }

    /** Stand on node `i`, having already given up the count on the old node. */
    method MoveTo(i: nat)
      requires list != null && Apart(list.nodes) && i <= |list.nodes| && this in list.iters
      modifies this`current, list, if i < |list.nodes| then {list.nodes[i]} else {}
      ensures list.iters == old(list.iters) && list.nodes == old(list.nodes)
      ensures current == null || current in list.nodes
      ensures list.View() == V.Attach(
          old(list.View()).(iters := old(list.View()).iters - {this}), this, V.KeyAt(old(CellsOf(list.nodes)), i))
    {
      current := if i < |list.nodes| then list.nodes[i] else null;
      list.iters := list.iters - {this};
      assert list.Places() == old(list.Places()) - {this};
      assert i < |list.nodes| ==> list.nodes[i] in list.nodes;
      Incref();
    }

    /** Two lists share no node, and none of one list's iterators stands on the other. */
    static ghost predicate Disjoint(a: GenericList?<T>, b: GenericList?<T>)
      reads a, b
    {
      a != null && b != null && a != b ==> forall e :: e in a.nodes ==> e !in b.nodes
    }

    /** Taking a place on a list where `other` already stands. */
    method Join(other: Iter<T>)
      requires other.list != null ==> other.list.Valid() && this !in other.list.iters && other in other.list.iters
      modifies this, other.list, if other.list == null then null else other.current
      ensures list == old(other.list) && current == old(other.current)
      ensures list != null ==>
          && list.View() == V.AttachLike(old(other.list.View()), this, other) && list.Valid()
          && list.iters == old(other.list.iters) + {this} && list.nodes == old(other.list.nodes)
    {
      list, current := other.list, other.current;
      if list != null {
        ghost var before, stored := list.View(), list.nodes;
        assert before.iters[other] == KeyOf(current);
        list.AllRegistered();
        Incref();
        list.Stand(stored);
        list.Committed(before, stored, P.Copy(this, other));
      }
    }

    /** Moving on to a second list leaves the first one as `decref` left it. */
    method LeaveFor(other: Iter<T>)
      requires list != null && list.Valid() && this in list.iters
      requires other.list != null && other.list.Valid() && other in other.list.iters
      requires list != other.list && Disjoint(list, other.list)
      modifies this, list, current, other.list, other.current
      ensures list == old(other.list) && current == old(other.current)
      ensures old(list).View() == V.Step(old(list.View()), P.Destroy(this)) && old(list).Valid()
      ensures old(list).iters == old(list.iters) - {this} && Within(old(list).nodes, old(list.nodes))
      ensures list.View() == V.Step(old(other.list.View()), P.Copy(this, other)) && list.Valid()
      ensures list.iters == old(other.list.iters) + {this} && list.nodes == old(other.list.nodes)
    {
      ghost var left, joined := list, other.list;
      list.Registered(this);
      joined.Registered(other);
      joined.NotRegistered(this);
      Leave();
      assert joined.View() == old(other.list.View()) && joined.Valid();
      ghost var after := left.View();
      Join(other);
      assert left.View() == after;
    }

    /** `operator=`: `decref`, copy both pointers, `incref`; nothing at all on self-assignment. */
    method Assign(other: Iter<T>)
      requires list != null ==> list.Valid() && this in list.iters
      requires other.list != null ==> other.list.Valid() && other in other.list.iters
      requires Disjoint(list, other.list)
      modifies this, list, current, other.list, other.current
      ensures list == old(other.list) && current == old(other.current)
      ensures old(list) != null && old(list) == list ==>
          list.View() == V.Step(old(list.View()), P.Assign(this, other)) && list.Valid()
      ensures old(list) != null && old(list) != list ==>
          && old(list).View() == V.Step(old(list.View()), P.Destroy(this)) && old(list).Valid()
          && old(list).iters == old(list.iters) - {this}
      ensures list != null && old(list) != list ==>
          list.View() == V.Step(old(other.list.View()), P.Copy(this, other)) && list.Valid()
      ensures old(list) != null ==> Within(old(list).nodes, old(list.nodes))
      ensures list != null ==> list.iters == old(other.list.iters) + {this} && Within(list.nodes, old(other.list.nodes))
    {
      if this == other {
        assert list != null ==> V.Step(list.View(), P.Assign(this, other)) == list.View();
      } else if list != null && other.list != null && list != other.list {
        LeaveFor(other);
      } else {
        if list == null && other.list != null {
          other.list.NotRegistered(this);
        }
        Leave();
        Join(other);
      }
    }

    /** Taking over `other`'s place and leaving `other` without a list. */
    method TakeOver(other: Iter<T>)
      requires this != other
      requires other.list != null ==> other.list.Valid() && this !in other.list.iters && other in other.list.iters
      modifies this, other`list, other.list
      ensures list == old(other.list) && current == old(other.current) && other.list == null
      ensures list != null ==>
          && list.View() == V.Transfer(old(other.list.View()), this, other) && list.Valid()
          && list.iters == old(other.list.iters) - {other} + {this} && list.nodes == old(other.list.nodes)
    {
      if other.list != null {
        other.list.AllRegistered();
      }
      list, current := other.list, other.current;
      other.list := null;
      if list != null {
        ghost var before, stored := old(other.list.View()), list.nodes;
        list.iters := list.iters - {other} + {this};
        assert list.View() == V.Step(before, P.Move(this, other));
        list.Stand(stored);
        list.Committed(before, stored, P.Move(this, other));
      }
    }

    method LeaveTaking(other: Iter<T>)
      requires list != null && list.Valid() && this in list.iters
      requires other.list != null && other.list.Valid() && other in other.list.iters
      requires list != other.list && Disjoint(list, other.list)
      modifies this, list, current, other, other.list
      ensures list == old(other.list) && current == old(other.current) && other.list == null
      ensures old(list).View() == V.Step(old(list.View()), P.Destroy(this)) && old(list).Valid()
      ensures old(list).iters == old(list.iters) - {this} && Within(old(list).nodes, old(list.nodes))
      ensures list.View() == V.Step(old(other.list.View()), P.Move(this, other)) && list.Valid()
      ensures list.iters == old(other.list.iters) - {other} + {this} && list.nodes == old(other.list.nodes)
    {
      ghost var left, joined := list, other.list;
      list.Registered(this);
      joined.Registered(other);
      joined.NotRegistered(this);
      Leave();
      assert joined.View() == old(other.list.View()) && joined.Valid();
      ghost var after := left.View();
      TakeOver(other);
      assert left.View() == after;
    }

    /** Move assignment; moving an iterator onto itself does nothing. */
    method MoveAssign(other: Iter<T>)
      requires list != null ==> list.Valid() && this in list.iters
      requires other.list != null ==> other.list.Valid() && other in other.list.iters
      requires Disjoint(list, other.list)
      modifies this, list, current, other, other.list
      ensures list == old(other.list) && current == old(other.current)
      ensures this != other ==> other.list == null
      ensures old(list) != null && old(list) == list ==>
          list.View() == V.Step(old(list.View()), P.MoveAssign(this, other)) && list.Valid()
      ensures old(list) != null && old(list) != list ==>
          && old(list).View() == V.Step(old(list.View()), P.Destroy(this)) && old(list).Valid()
          && old(list).iters == old(list.iters) - {this}
      ensures list != null && old(list) != list ==>
          list.View() == V.Step(old(other.list.View()), P.Move(this, other)) && list.Valid()
      ensures old(list) != null ==> Within(old(list).nodes, old(list.nodes))
      ensures list != null ==>
          && list.iters == old(other.list.iters) - {other} + {this} && Within(list.nodes, old(other.list.nodes))
    {
      if this == other {
        assert list != null ==> V.Step(list.View(), P.MoveAssign(this, other)) == list.View();
      } else if list != null && other.list != null && list != other.list {
        LeaveTaking(other);
      } else {
        if list == null && other.list != null {
          other.list.NotRegistered(this);
        }
        Leave();
        TakeOver(other);
      }
    }
  }

  lemma Meant<T>(before: V.RefList<Iter<T>, T>, op: P.Op<Iter<T>, T>)
    requires V.Valid(before)
    ensures V.Abs(V.Step(before, op)) == P.Step(V.Abs(before), op)
    ensures P.Sorted(V.Live(before.cells))
  {
    assert Open(0);
    V.StepRefines(before, op);
    V.LiveSorted(before.cells);
  }

  // ----- the same operations seen from outside, where the list is a plain sequence

  ghost function Plain<T>(list: GenericList<T>): P.Plain<Iter<T>, T>
    reads list, list.nodes, list.iters
  {
    V.Abs(list.View())
  }

  /** `it` walks `list`, which is `start` but for having `it` on it. */
  ghost predicate Walks<T>(list: GenericList<T>, it: Iter<T>, start: P.Plain<Iter<T>, T>)
    reads list, list.nodes, list.iters, it
  {
    && list.Valid() && it.list == list && it in list.iters
    && Plain(list).(cursors := Plain(list).cursors - {it}) == start && P.Sorted(start.entries)
    && (it.current != null ==> P.Holds(start.entries, it.current.key))
  }

  method WalkFirst<T>(list: GenericList<T>) returns (it: Iter<T>)
    requires list.Valid()
    modifies list, list.nodes
    ensures fresh(it) && Within(list.nodes, old(list.nodes)) && Walks(list, it, old(Plain(list)))
    ensures KeyOf(it.current) == P.First(old(Plain(list).entries)) && list.iters == old(list.iters) + {it}
  {
    ghost var before := list.View();
    it := list.Begin();
    Meant(before, P.Begin(it));
    assert list.Places()[it] == P.First(V.Live(before.cells));
    assert Plain(list).cursors - {it} == before.iters;
  }

  method WalkNext<T>(list: GenericList<T>, it: Iter<T>, ghost start: P.Plain<Iter<T>, T>)
    requires Walks(list, it, start) && it.current != null
    modifies it`current, list, list.nodes
    ensures Walks(list, it, start) && Within(list.nodes, old(list.nodes))
    ensures KeyOf(it.current) == P.Next(start.entries, old(it.current.key)) && list.iters == old(list.iters)
  {
    ghost var before, key := list.View(), it.current.key;
    assert before.iters[it] == Some(key);
    it.Advance();
    Meant(before, P.Advance(it));
    assert list.Places()[it] == P.Next(start.entries, key);
    assert Plain(list).cursors - {it} == before.iters - {it};
    P.SinceNext(start.entries, key);
  }

  method WalkEnd<T>(list: GenericList<T>, it: Iter<T>, ghost start: P.Plain<Iter<T>, T>)
    requires Walks(list, it, start)
    modifies it, list, it.current
    ensures list.Valid() && Plain(list) == start && Within(list.nodes, old(list.nodes))
    ensures list.iters == old(list.iters) - {it}
  {
    ghost var before := list.View();
    it.Destroy();
    Meant(before, P.Destroy(it));
  }

  /** `size`: the distance from `begin` to `end`, walked with one temporary iterator. */
  method Size<T>(list: GenericList<T>) returns (n: nat)
    requires list.Valid()
    modifies list, list.nodes
    ensures n == old(|list.Contents()|) && list.Contents() == old(list.Contents())
    ensures Plain(list) == old(Plain(list)) && list.Valid()
    ensures list.iters == old(list.iters) && Within(list.nodes, old(list.nodes))
  {
    ghost var start := Plain(list);
    ItemsOnCells(list.nodes);
    var it := WalkFirst(list);
    P.SinceIsAll(start.entries);
    n := 0;
    while it.current != null
      invariant Walks(list, it, start) && fresh(it) && Within(list.nodes, old(list.nodes))
      invariant list.iters == old(list.iters) + {it}
      invariant n + |P.Since(start.entries, KeyOf(it.current))| == |start.entries|
      decreases |P.Since(start.entries, KeyOf(it.current))|
    {
      P.SinceNext(start.entries, it.current.key);
      WithinAt(list.nodes, old(list.nodes));
      WalkNext(list, it, start);
      n := n + 1;
    }
    WalkEnd(list, it, start);
    ItemsOnCells(list.nodes);
  }

  /** `empty`: no nodes at all, or nothing but tombstones. */
  method IsEmpty<T>(list: GenericList<T>) returns (empty: bool)
    requires list.Valid()
    modifies list, list.nodes
    ensures (empty <==> old(list.Contents()) == []) && list.Contents() == old(list.Contents())
    ensures Plain(list) == old(Plain(list)) && list.Valid()
    ensures list.iters == old(list.iters) && Within(list.nodes, old(list.nodes))
  {
    ghost var start := Plain(list);
    ItemsOnCells(list.nodes);
    if |list.nodes| == 0 {
      return true;
    }
    var it := WalkFirst(list);
    empty := it.current == null;
    list.Registered(it);
    WalkEnd(list, it, start);
    ItemsOnCells(list.nodes);
  }
}
