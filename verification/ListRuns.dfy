/**
 Runs of the list objects. A sequence of operations on a list and its iterators does to the objects
 what `Traversal.Run` says, and a range-for loop over the objects sees what `Traversal.RangeFor`
 says, so the theorems there are theorems about these runs.
 */
module ListRuns {
  import opened Options
  import opened Folding
  import opened GenericLists
  import P = PlainList
  import V = RefList
  import L = ListLaws
  import Traversal

  ghost function Own<T>(list: GenericList<T>): set<Elem<T>>
    reads list
  {
    set e | e in list.nodes
  }

  /** Operations whose iterators, if any, are on the list; construction is left to the caller. */
  ghost predicate Doable<T>(s: V.RefList<Iter<T>, T>, op: P.Op<Iter<T>, T>) {
    match op
    case AddBack(_) => true
    case AddFront(_) => true
    case Remove(_) => true
    case Clear => true
    case Assign(i, j) => i in s.iters && j in s.iters
    case MoveAssign(i, j) => i in s.iters && j in s.iters
    case Advance(i) => i in s.iters && s.iters[i].Some?
    case Destroy(i) => i in s.iters
    case _ => false
  }

  ghost predicate AllDoable<T>(s: V.RefList<Iter<T>, T>, ops: seq<P.Op<Iter<T>, T>>)
    decreases |ops|
  {
    ops == [] || (Doable(s, ops[0]) && AllDoable(V.Step(s, ops[0]), ops[1..]))
  }

  /** What is proved about the contents of the values holds for the objects. */
  lemma ContentsShown<T>(list: GenericList<T>)
    ensures list.Contents() == L.Contents(list.View())
  {
    ItemsOnCells(list.nodes);
  }

  /** Any run of additions to a new list: the front items, the last one first, then the back items in order. */
  method Build<T(==)>(ops: seq<P.Op<Iter<T>, T>>) returns (list: GenericList<T>)
    requires forall i :: 0 <= i < |ops| ==> ops[i].AddFront? || ops[i].AddBack?
    ensures fresh(list) && list.Valid() && list.iters == {} && list.Contents() == L.Fronts(ops) + L.Backs(ops)
  {
    list := new GenericList();
    AddsDoable(list.View(), ops);
    PerformAll(list, ops);
    L.AddsBuildFromNothing(ops);
    ContentsShown(list);
  }

  lemma {:induction false} AddsDoable<T>(s: V.RefList<Iter<T>, T>, ops: seq<P.Op<Iter<T>, T>>)
    requires forall i :: 0 <= i < |ops| ==> ops[i].AddFront? || ops[i].AddBack?
    ensures AllDoable(s, ops)
    decreases |ops|
  {
    if ops != [] {
      AddsDoable(V.Step(s, ops[0]), ops[1..]);
    }
  }

  method Perform<T(==)>(list: GenericList<T>, op: P.Op<Iter<T>, T>)
    requires list.Valid() && Doable(list.View(), op)
    modifies list, Own(list), list.iters
    ensures list.Valid() && list.View() == V.Step(old(list.View()), op)
    ensures list.iters <= old(list.iters)
    ensures fresh(Own(list) - old(Own(list)))
  {
    list.AllRegistered();
    match op {
      case AddBack(t) => list.AddBack(t);
      case AddFront(t) => list.AddFront(t);
      case Remove(t) => var removed := list.Remove(t);
      case Clear => list.Clear();
      case Assign(i, j) => i.Assign(j);
      case MoveAssign(i, j) => i.MoveAssign(j);
      case Advance(i) => i.Advance();
      case Destroy(i) => i.Destroy();
    }
  }

  method PerformAll<T(==)>(list: GenericList<T>, ops: seq<P.Op<Iter<T>, T>>)
    requires list.Valid() && AllDoable(list.View(), ops)
    modifies list, Own(list), list.iters
    ensures list.Valid() && list.View() == Traversal.Run(old(list.View()), ops)
    ensures list.iters <= old(list.iters)
    ensures fresh(Own(list) - old(Own(list)))
  {
    for n := 0 to |ops|
      invariant list.Valid() && AllDoable(list.View(), ops[n..])
      invariant Traversal.Run(list.View(), ops[n..]) == Traversal.Run(old(list.View()), ops)
      invariant list.iters <= old(list.iters)
      invariant fresh(Own(list) - old(Own(list)))
    {
      assert ops[n..][0] == ops[n] && ops[n..][1..] == ops[n + 1..];
      Perform(list, ops[n]);
    }
  }

  // ----- range-for loops

  /** Every body can be performed when its turn comes, and leaves the loop's own iterator alone. */
  ghost predicate LoopDoable<T>(s: V.RefList<Iter<T>, T>, it: Iter<T>, bodies: seq<seq<P.Op<Iter<T>, T>>>)
    decreases |bodies|
  {
    bodies != [] && it in s.iters && s.iters[it].Some? ==>
      && AllDoable(s, bodies[0]) && Traversal.AllSpare(bodies[0], it)
      && LoopDoable(V.Step(Traversal.Run(s, bodies[0]), P.Advance(it)), it, bodies[1..])
  }

  /** The iterator stands on a live node or at the end. */
  ghost predicate OnLive<T>(list: GenericList<T>, it: Iter<T>)
    reads list, list.nodes, list.iters, it
  {
    it.current != null ==> P.Holds(Plain(list).entries, it.current.key)
  }

  lemma ReadsItem<T>(list: GenericList<T>, it: Iter<T>)
    requires list.Valid() && it in list.iters && it.current != null && OnLive(list, it)
    ensures list.View().iters[it] == Some(it.current.key)
    ensures it.current.item.Some? && Traversal.Under(list.View(), it.current.key) == it.current.item
  {
    list.Registered(it);
    var s := list.View();
    var i :| 0 <= i < |list.nodes| && list.nodes[i] == it.current;
    V.IndexFound(s.cells, i);
    Traversal.AbsValid(s);
    Traversal.HeldInRange(Plain(list), it.current.key);
    Traversal.UnderReadsLive(s, it.current.key);
  }

  /** A body that spares the iterator leaves it where it stands. */
  lemma BodySpares<T>(s: V.RefList<Iter<T>, T>, it: Iter<T>, body: seq<P.Op<Iter<T>, T>>)
    requires V.Valid(s) && it in s.iters && Traversal.AllSpare(body, it)
    ensures var end := Traversal.Run(s, body); it in end.iters && end.iters[it] == s.iters[it]
  {
    Traversal.AbsValid(s);
    Traversal.RunRefines(s, body);
    Traversal.RunKeeps(V.Abs(s), body, it);
  }

  /** `++` lands on a live node or at the end. */
  method StepOn<T(==)>(list: GenericList<T>, it: Iter<T>)
    requires list.Valid() && it in list.iters && it.current != null
    modifies it`current, list, Own(list)
    ensures list.Valid() && list.View() == V.Step(old(list.View()), P.Advance(it)) && OnLive(list, it)
    ensures list.iters == old(list.iters) && Own(list) <= old(Own(list))
  {
    ghost var before, key := list.View(), it.current.key;
    list.Registered(it);
    assert before.iters[it] == Some(key);
    it.Advance();
    Meant(before, P.Advance(it));
    assert list.Places()[it] == P.Next(V.Live(before.cells), key);
    P.NextIsLeast(V.Live(before.cells), key);
  }

  /** One iteration: read, body, `++`. */
  method Iterate<T(==)>(list: GenericList<T>, it: Iter<T>, body: seq<P.Op<Iter<T>, T>>) returns (item: T)
    requires list.Valid() && it in list.iters && it.current != null && OnLive(list, it)
    requires AllDoable(list.View(), body) && Traversal.AllSpare(body, it)
    modifies list, Own(list), list.iters
    ensures list.Valid() && it in list.iters && OnLive(list, it)
    ensures old(it.current.item) == Some(item)
    ensures old(list.View().iters)[it] == Some(old(it.current.key))
    ensures Traversal.Under(old(list.View()), old(it.current.key)) == Some(item)
    ensures list.View() == V.Step(Traversal.Run(old(list.View()), body), P.Advance(it))
    ensures list.iters <= old(list.iters)
    ensures fresh(Own(list) - old(Own(list)))
  {
    ghost var before := list.View();
    ReadsItem(list, it);
    item := it.current.item.value;
    PerformAll(list, body);
    BodySpares(before, it, body);
    assert list.Places()[it] == before.iters[it];
    StepOn(list, it);
  }

  /** The items that were read; a visit to a tombstone would be missing. */
  function ItemsOf<T>(visits: seq<Traversal.Visit<T>>): seq<T> {
    if visits == [] then [] else ItemOf(visits[0]) + ItemsOf(visits[1..])
  }

  function ItemOf<T>(visit: Traversal.Visit<T>): seq<T> {
    match visit.item
    case None => []
    case Some(t) => [t]
  }

  lemma {:induction false} ItemsOfMore<T>(visits: seq<Traversal.Visit<T>>, visit: Traversal.Visit<T>)
    requires visit.item.Some?
    ensures ItemsOf(visits + [visit]) == ItemsOf(visits) + [visit.item.value]
    decreases |visits|
  {
    if visits == [] {
      assert [visit][1..] == [];
    } else {
      assert (visits + [visit])[1..] == visits[1..] + [visit];
      ItemsOfMore(visits[1..], visit);
      V.Reassociate(ItemOf(visits[0]), ItemsOf(visits[1..]), [visit.item.value]);
    }
  }

  /** What has been seen, and what a loop from here on sees, is what the whole loop sees. */
  ghost predicate Seen<T>(
      start: V.RefList<Iter<T>, T>, s: V.RefList<Iter<T>, T>, it: Iter<T>,
      bodies: seq<seq<P.Op<Iter<T>, T>>>, i: nat, visits: seq<Traversal.Visit<T>>)
    requires i <= |bodies|
  {
    forall n {:trigger Open(n)} :: Open(n) ==>
      && LoopDoable(s, it, bodies[i..])
      && var (later, end) := Traversal.RangeFor(s, it, bodies[i..]);
      Traversal.RangeFor(start, it, bodies) == (visits + later, end)
  }

  lemma SeenNone<T>(s: V.RefList<Iter<T>, T>, it: Iter<T>, bodies: seq<seq<P.Op<Iter<T>, T>>>)
    requires LoopDoable(s, it, bodies)
    ensures Seen(s, s, it, bodies, 0, [])
  {
    assert bodies[0..] == bodies;
    assert [] + Traversal.RangeFor(s, it, bodies).0 == Traversal.RangeFor(s, it, bodies).0;
  }

  lemma SeenNext<T>(
      start: V.RefList<Iter<T>, T>, s: V.RefList<Iter<T>, T>, it: Iter<T>,
      bodies: seq<seq<P.Op<Iter<T>, T>>>, i: nat, visits: seq<Traversal.Visit<T>>)
    requires i < |bodies| && Seen(start, s, it, bodies, i, visits) && it in s.iters && s.iters[it].Some?
    ensures AllDoable(s, bodies[i]) && Traversal.AllSpare(bodies[i], it)
    ensures var key := s.iters[it].value;
            var next := V.Step(Traversal.Run(s, bodies[i]), P.Advance(it));
            Seen(start, next, it, bodies, i + 1, visits + [Traversal.Visit(key, Traversal.Under(s, key))])
  {
    assert Open(0);
    assert bodies[i..][0] == bodies[i] && bodies[i..][1..] == bodies[i + 1..];
    var visit := Traversal.Visit(s.iters[it].value, Traversal.Under(s, s.iters[it].value));
    var later := Traversal.RangeFor(V.Step(Traversal.Run(s, bodies[i]), P.Advance(it)), it, bodies[i + 1..]).0;
    assert visits + ([visit] + later) == (visits + [visit]) + later;
  }

  lemma SeenAll<T>(
      start: V.RefList<Iter<T>, T>, s: V.RefList<Iter<T>, T>, it: Iter<T>,
      bodies: seq<seq<P.Op<Iter<T>, T>>>, i: nat, visits: seq<Traversal.Visit<T>>)
    requires i <= |bodies| && Seen(start, s, it, bodies, i, visits)
    requires i == |bodies| || it !in s.iters || s.iters[it].None?
    ensures (visits, s) == Traversal.RangeFor(start, it, bodies)
  {
    assert Open(0);
    assert visits + [] == visits;
  }

  /** Between two iterations: the loop's iterator is on the list, at a live node or at the end. */
  ghost predicate Looping<T>(list: GenericList<T>, it: Iter<T>)
    reads list, list.nodes, list.iters, it
  {
    forall n {:trigger Open(n)} :: Open(n) ==> list.Valid() && it in list.iters && OnLive(list, it)
  }

  /** One iteration, and what it adds to what has been seen. */
  method See<T(==)>(
      list: GenericList<T>, it: Iter<T>, bodies: seq<seq<P.Op<Iter<T>, T>>>, i: nat,
      ghost start: V.RefList<Iter<T>, T>, ghost visits: seq<Traversal.Visit<T>>)
    returns (item: T, ghost visit: Traversal.Visit<T>)
    requires Looping(list, it) && it.current != null
    requires i < |bodies| && Seen(start, list.View(), it, bodies, i, visits)
    modifies list, Own(list), list.iters
    ensures Looping(list, it)
    ensures Seen(start, list.View(), it, bodies, i + 1, visits + [visit]) && visit.item == Some(item)
    ensures list.iters <= old(list.iters)
    ensures fresh(Own(list) - old(Own(list)))
  {
    assert Open(0);
    ghost var before, key := list.View(), it.current.key;
    assert before.iters[it] == Some(key);
    SeenNext(start, before, it, bodies, i, visits);
    item := Iterate(list, it, bodies[i]);
    visit := Traversal.Visit(key, Some(item));
  }

  /**
   The loop from its first test on, over the objects, left when it has run out of bodies. They may
   change the list and move or destroy every other iterator on it. The loop sees and leaves what
   `Traversal.RangeFor` says.
   */
  method RangeFor<T(==)>(list: GenericList<T>, it: Iter<T>, bodies: seq<seq<P.Op<Iter<T>, T>>>)
    returns (items: seq<T>, ghost visits: seq<Traversal.Visit<T>>)
    requires list.Valid() && it in list.iters && OnLive(list, it) && LoopDoable(list.View(), it, bodies)
    modifies list, Own(list), list.iters
    ensures list.Valid() && (visits, list.View()) == Traversal.RangeFor(old(list.View()), it, bodies)
    ensures ItemsOf(visits) == items
    ensures list.iters <= old(list.iters)
    ensures fresh(Own(list) - old(Own(list)))
  {
    assert Open(0);
    SeenNone(list.View(), it, bodies);
    items, visits := SeeAll(list, it, bodies, list.View());
  }

  method SeeAll<T(==)>(
      list: GenericList<T>, it: Iter<T>, bodies: seq<seq<P.Op<Iter<T>, T>>>, ghost start: V.RefList<Iter<T>, T>)
    returns (items: seq<T>, ghost visits: seq<Traversal.Visit<T>>)
    requires Looping(list, it) && Seen(start, list.View(), it, bodies, 0, [])
    modifies list, Own(list), list.iters
    ensures Looping(list, it) && (visits, list.View()) == Traversal.RangeFor(start, it, bodies)
    ensures ItemsOf(visits) == items
    ensures list.iters <= old(list.iters)
    ensures fresh(Own(list) - old(Own(list)))
  {
    items, visits := [], [];
    var i := 0;
    while i < |bodies| && it.current != null
      invariant i <= |bodies| && Looping(list, it)
      invariant Seen(start, list.View(), it, bodies, i, visits)
      invariant ItemsOf(visits) == items
      invariant list.iters <= old(list.iters)
      invariant fresh(Own(list) - old(Own(list)))
    {
      var item;
      ghost var visit;
      item, visit := See(list, it, bodies, i, start, visits);
      ItemsOfMore(visits, visit);
      items, visits := items + [item], visits + [visit];
      i := i + 1;
    }
    LoopEnds(list, it, bodies, i, start, visits);
  }

  lemma LoopEnds<T>(
      list: GenericList<T>, it: Iter<T>, bodies: seq<seq<P.Op<Iter<T>, T>>>, i: nat,
      start: V.RefList<Iter<T>, T>, visits: seq<Traversal.Visit<T>>)
    requires Looping(list, it) && i <= |bodies| && Seen(start, list.View(), it, bodies, i, visits)
    requires i == |bodies| || it.current == null
    ensures (visits, list.View()) == Traversal.RangeFor(start, it, bodies)
  {
    assert Open(0);
    assert it.current == null ==> list.View().iters[it] == None;
    SeenAll(start, list.View(), it, bodies, i, visits);
  }

  // ----- whole loops whose bodies change the list

  ghost predicate Edits<T>(ops: seq<P.Op<Iter<T>, T>>) {
    forall i :: 0 <= i < |ops| ==> ops[i].AddBack? || ops[i].AddFront? || ops[i].Remove? || ops[i].Clear?
  }

  lemma {:induction false} EditsDoable<T>(s: V.RefList<Iter<T>, T>, it: Iter<T>, ops: seq<P.Op<Iter<T>, T>>)
    requires Edits(ops)
    ensures AllDoable(s, ops) && Traversal.AllSpare(ops, it)
    decreases |ops|
  {
    if ops != [] {
      EditsDoable(V.Step(s, ops[0]), it, ops[1..]);
    }
  }

  lemma {:induction false} EditLoopDoable<T>(s: V.RefList<Iter<T>, T>, it: Iter<T>, bodies: seq<seq<P.Op<Iter<T>, T>>>)
    requires forall i :: 0 <= i < |bodies| ==> Edits(bodies[i])
    ensures LoopDoable(s, it, bodies) && Traversal.BodiesSpare(bodies, it)
    decreases |bodies|
  {
    forall i | 0 <= i < |bodies| ensures Traversal.AllSpare(bodies[i], it) {
      EditsDoable(s, it, bodies[i]);
    }
    if bodies != [] && it in s.iters && s.iters[it].Some? {
      EditsDoable(s, it, bodies[0]);
      EditLoopDoable(V.Step(Traversal.Run(s, bodies[0]), P.Advance(it)), it, bodies[1..]);
    }
  }

  /** `begin`: a new iterator on the first live node or at the end. */
  method StartLoop<T(==)>(list: GenericList<T>) returns (it: Iter<T>)
    requires list.Valid()
    modifies list, Own(list)
    ensures fresh(it) && list.Valid() && list.View() == V.Step(old(list.View()), P.Begin(it)) && OnLive(list, it)
    ensures list.iters == old(list.iters) + {it} && Own(list) <= old(Own(list))
  {
    ghost var before := list.View();
    it := list.Begin();
    Meant(before, P.Begin(it));
    assert list.Places()[it] == P.First(V.Live(before.cells));
    if it.current != null {
      assert V.Live(before.cells)[0].key == it.current.key;
    }
  }

  /**
   A whole loop whose bodies add, remove and clear as they like. It sees nobody twice and all in
   list order; if it gets to the end it has seen exactly those of the elements then in the list that
   were not added at the front, and of those there at the start exactly the ones not removed ahead.
   */
  method ForEach<T(==)>(list: GenericList<T>, bodies: seq<seq<P.Op<Iter<T>, T>>>)
    returns (items: seq<T>, finished: bool, ghost visits: seq<Traversal.Visit<T>>, ghost it: Iter<T>)
    requires list.Valid() && forall i :: 0 <= i < |bodies| ==> Edits(bodies[i])
    modifies list, Own(list), list.iters
    ensures list.Valid() && list.iters <= old(list.iters) && fresh(it)
    ensures fresh(Own(list) - old(Own(list)))
    ensures ItemsOf(visits) == items
    ensures Traversal.Ascending(visits, old(list.View().lo))
    ensures finished ==>
        && (forall e :: e in Plain(list).entries ==> (Traversal.Saw(visits, e) <==> old(list.View().lo) <= e.key))
        && (forall e :: e in old(Plain(list).entries) ==>
              (Traversal.Saw(visits, e) <==>
               !Traversal.RemovedAhead(V.Step(old(list.View()), P.Begin(it)), it, bodies, e)))
  {
    ghost var start := list.View();
    var loop := StartLoop(list);
    it := loop;
    items, finished, visits := EditLoop(list, loop, bodies, start);
    EndLoop(list, loop);
  }

  method EditLoop<T(==)>(
      list: GenericList<T>, it: Iter<T>, bodies: seq<seq<P.Op<Iter<T>, T>>>, ghost start: V.RefList<Iter<T>, T>)
    returns (items: seq<T>, finished: bool, ghost visits: seq<Traversal.Visit<T>>)
    requires list.Valid() && it in list.iters && OnLive(list, it)
    requires V.Valid(start) && it !in start.iters && list.View() == V.Step(start, P.Begin(it))
    requires forall i :: 0 <= i < |bodies| ==> Edits(bodies[i])
    modifies list, Own(list), list.iters
    ensures list.Valid() && list.iters <= old(list.iters) && it in list.iters
    ensures fresh(Own(list) - old(Own(list)))
    ensures ItemsOf(visits) == items
    ensures Traversal.Ascending(visits, start.lo)
    ensures finished ==>
        && (forall e :: e in Plain(list).entries ==> (Traversal.Saw(visits, e) <==> start.lo <= e.key))
        && (forall e :: e in V.Live(start.cells) ==>
              (Traversal.Saw(visits, e) <==> !Traversal.RemovedAhead(V.Step(start, P.Begin(it)), it, bodies, e)))
  {
    EditLoopDoable(list.View(), it, bodies);
    Traversal.RangeForVisits(start, it, bodies);
    items, visits := RangeFor(list, it, bodies);
    assert it in list.View().iters && list.View().iters[it] == KeyOf(it.current);
    finished := it.current == null;
  }

  /** The loop's iterator goes. */
  method EndLoop<T(==)>(list: GenericList<T>, it: Iter<T>)
    requires list.Valid() && it in list.iters
    modifies it, list, Own(list)
    ensures list.Valid() && Plain(list).entries == old(Plain(list).entries)
    ensures list.iters == old(list.iters) - {it} && Own(list) <= old(Own(list))
  {
    ghost var before := list.View();
    list.Registered(it);
    it.Destroy();
    Meant(before, P.Destroy(it));
  }

  // ----- two lists

  method ClearAll<T(==)>(list: GenericList<T>)
    requires list.Valid()
    modifies list, Own(list)
    ensures list.Valid() && Plain(list).entries == []
    ensures list.iters == old(list.iters) && Own(list) <= old(Own(list))
  {
    ghost var before := list.View();
    list.Clear();
    Meant(before, P.Clear);
  }

  /** A list of two, and an iterator on it. */
  method Pair<T(==)>(t: T, u: T) returns (list: GenericList<T>, it: Iter<T>)
    ensures fresh(list) && list.Valid() && fresh(it) && list.iters == {it}
    ensures fresh(Own(list))
  {
    list := new GenericList();
    list.AddBack(t);
    assert fresh(Own(list));
    list.AddFront(u);
    it := StartLoop(list);
  }

  /** An iterator of one list is assigned to one of another, and both lists are cleared under them. */
  method CrossOver<T(==)>(a: GenericList<T>, i: Iter<T>, b: GenericList<T>, j: Iter<T>)
    requires a != b && a.Valid() && i in a.iters && b.Valid() && j in b.iters && Own(a) !! Own(b)
    modifies i, a, Own(a), b, Own(b)
    ensures a.Valid() && Plain(a).entries == [] && a.iters == old(a.iters) - {i}
    ensures b.Valid() && Plain(b).entries == [] && b.iters == old(b.iters) + {i}
    ensures Own(a) <= old(Own(a)) && Own(b) <= old(Own(b))
  {
    a.Registered(i);
    b.Registered(j);
    forall e | e in a.nodes ensures e !in b.nodes {
      assert e in Own(a) && (e in b.nodes ==> e in Own(b));
    }
    i.Assign(j);
    ClearBoth(a, b);
  }

  method ClearBoth<T(==)>(a: GenericList<T>, b: GenericList<T>)
    requires a != b && a.Valid() && b.Valid() && Own(a) !! Own(b)
    modifies a, Own(a), b, Own(b)
    ensures a.Valid() && Plain(a).entries == [] && a.iters == old(a.iters)
    ensures b.Valid() && Plain(b).entries == [] && b.iters == old(b.iters)
    ensures Own(a) <= old(Own(a)) && Own(b) <= old(Own(b))
  {
    ClearBeside(a, b);
    ClearBeside(b, a);
  }

  /** What happens to one list does not touch another. */
  method ClearBeside<T(==)>(a: GenericList<T>, b: GenericList<T>)
    requires a != b && a.Valid() && b.Valid() && Own(a) !! Own(b)
    modifies a, Own(a)
    ensures a.Valid() && Plain(a).entries == [] && a.iters == old(a.iters) && Own(a) <= old(Own(a))
    ensures b.Valid() && b.View() == old(b.View()) && b.iters == old(b.iters) && b.nodes == old(b.nodes)
  {
    ghost var view := b.View();
    forall k | 0 <= k < |b.nodes| ensures b.nodes[k] !in Own(a) {
      assert b.nodes[k] in Own(b);
    }
    assert forall it: Iter<T>, k :: it in b.iters && 0 <= k < |a.nodes| ==> (it as object) != (a.nodes[k] as object);
    ClearAll(a);
    assert b.Places() == view.iters && CellsOf(b.nodes) == view.cells;
  }

  /**
   From the constructors on: lists that grow side by side, an iterator that changes lists, and
   nothing left behind.
   */
  method TwoLists<T(==)>(t: T, u: T) returns (a: GenericList<T>, b: GenericList<T>)
    ensures fresh(a) && fresh(b) && a.nodes == [] && b.nodes == []
  {
    var i, j;
    a, i := Pair(t, u);
    b, j := Pair(u, t);
    CrossOver(a, i, b, j);
    Emptied(a);
    EndLoop(b, i);
    EndLoop(b, j);
    Emptied(b);
  }

  lemma Emptied<T>(list: GenericList<T>)
    requires list.Valid() && list.iters == {} && Plain(list).entries == []
    ensures list.nodes == []
  {
    V.NoIteratorsNoTombstones(list.View());
  }

  // ----- the loop that removes every element it sees

  lemma ItemsNext<T>(items: seq<T>, entries: seq<P.Entry<T>>)
    requires entries != []
    ensures items + L.Items(entries) == (items + [entries[0].item]) + L.Items(entries[1..])
  {
    assert L.Items(entries) == [entries[0].item] + L.Items(entries[1..]);
  }

  /** `it` stands at the first entry of `list`, which is `start` but for having `it` and fewer entries. */
  ghost predicate AtFirst<T>(list: GenericList<T>, it: Iter<T>, start: P.Plain<Iter<T>, T>)
    reads list, list.nodes, list.iters, it
  {
    && list.Valid() && it in list.iters && it.list == list
    && KeyOf(it.current) == P.First(Plain(list).entries) && P.Sorted(Plain(list).entries)
    && Plain(list).(cursors := Plain(list).cursors - {it}) == start.(entries := Plain(list).entries)
  }

  /** The read and the body: the first entry goes, the iterator stays where it was. */
  method TakeFirst<T(==)>(list: GenericList<T>, it: Iter<T>) returns (item: T)
    requires list.Valid() && it in list.iters && it.current != null && P.Sorted(Plain(list).entries)
    requires KeyOf(it.current) == P.First(Plain(list).entries)
    modifies list, Own(list)
    ensures list.Valid() && Own(list) <= old(Own(list)) && list.iters == old(list.iters)
    ensures old(Plain(list).entries) != [] && item == old(Plain(list).entries)[0].item
    ensures Plain(list) == old(Plain(list).(entries := Plain(list).entries[1..]))
  {
    ghost var before, entries := list.View(), Plain(list).entries;
    assert entries[0].key == it.current.key;
    ReadsItem(list, it);
    Traversal.UnderReadsLive(before, it.current.key);
    item := it.current.item.value;
    var removed := list.Remove(item);
    Meant(before, P.Remove(item));
  }

  /** `++` from an entry that has just gone. */
  method StepFirst<T(==)>(list: GenericList<T>, it: Iter<T>)
    requires list.Valid() && it in list.iters && it.list == list && it.current != null
    requires forall i :: 0 <= i < |Plain(list).entries| ==> Plain(list).entries[i].key > it.current.key
    modifies it`current, list, Own(list)
    ensures list.Valid() && Own(list) <= old(Own(list)) && list.iters == old(list.iters)
    ensures KeyOf(it.current) == P.First(old(Plain(list).entries))
    ensures Plain(list).(cursors := Plain(list).cursors - {it}) ==
        old(Plain(list).(cursors := Plain(list).cursors - {it}))
  {
    ghost var before, p := list.View(), Plain(list);
    assert before.iters[it] == Some(it.current.key);
    P.NextIsFirst(p.entries, it.current.key);
    it.Advance();
    Meant(before, P.Advance(it));
    assert list.Places()[it] == P.First(p.entries);
    assert Plain(list).cursors - {it} == p.cursors - {it};
  }

  method RemoveSeen<T(==)>(list: GenericList<T>, it: Iter<T>, ghost start: P.Plain<Iter<T>, T>) returns (item: T)
    requires AtFirst(list, it, start) && it.current != null
    modifies it`current, list, Own(list)
    ensures AtFirst(list, it, start) && Own(list) <= old(Own(list)) && list.iters == old(list.iters)
    ensures old(Plain(list).entries) != [] && item == old(Plain(list).entries)[0].item
    ensures Plain(list).entries == old(Plain(list).entries)[1..]
  {
    ghost var entries := Plain(list).entries;
    item := TakeFirst(list, it);
    assert forall i :: 0 <= i < |entries[1..]| ==> entries[1..][i].key > entries[0].key;
    StepFirst(list, it);
  }

  /** `for (auto *obj : things) things.remove(obj);` sees every element, in order, and leaves none. */
  method RemoveEach<T(==)>(list: GenericList<T>) returns (items: seq<T>)
    requires list.Valid()
    modifies list, Own(list)
    ensures list.Valid() && Plain(list) == old(Plain(list)).(entries := [])
    ensures items == old(list.Contents()) && list.Contents() == []
    ensures list.iters == old(list.iters) && Own(list) <= old(Own(list))
  {
    ContentsShown(list);
    items := RemoveEachEntry(list);
    ContentsShown(list);
  }

  method RemoveEachEntry<T(==)>(list: GenericList<T>) returns (items: seq<T>)
    requires list.Valid()
    modifies list, Own(list)
    ensures list.Valid() && Plain(list) == old(Plain(list)).(entries := [])
    ensures items == L.Items(old(Plain(list).entries))
    ensures list.iters == old(list.iters) && Own(list) <= old(Own(list))
  {
    ghost var start := Plain(list);
    var it := WalkFirst(list);
    items := [];
    while it.current != null
      invariant AtFirst(list, it, start) && fresh(it) && Own(list) <= old(Own(list))
      invariant list.iters == old(list.iters) + {it}
      invariant items + L.Items(Plain(list).entries) == L.Items(start.entries)
      decreases |Plain(list).entries|
    {
      ghost var entries := Plain(list).entries;
      var item := RemoveSeen(list, it, start);
      ItemsNext(items, entries);
      items := items + [item];
    }
    assert Plain(list).entries == [];
    WalkEnd(list, it, start.(entries := []));
  }
}
