/**
 Range-for loops over a list that changes under them. A loop owns one iterator `j`; its bodies
 may do anything to the list and to every other iterator. `RangeForVisits` says what such a
 loop sees, for every choice of bodies.
 */
module Traversal {
  import opened Options
  import opened Folding
  import opened RefList
  import P = PlainList

  /** What `*it` reads at the top of one iteration; a None item would be a read of a tombstone. */
  datatype Visit<T> = Visit(key: int, item: Option<T>)

  function Run<J, T(==)>(s: RefList<J, T>, ops: seq<P.Op<J, T>>): RefList<J, T>
    decreases |ops|
  {
    if ops == [] then s else Run(Step(s, ops[0]), ops[1..])
  }

  function Under<J, T>(s: RefList<J, T>, key: int): Option<T> {
    var i := IndexOf(s.cells, key);
    if i < |s.cells| then s.cells[i].item else None
  }

  /** The loop from its first test on: test against end, read, body, `++`; one body an iteration. */
  function RangeFor<J, T(==)>(s: RefList<J, T>, j: J, bodies: seq<seq<P.Op<J, T>>>)
    : (seq<Visit<T>>, RefList<J, T>)
    decreases |bodies|
  {
    if bodies == [] || j !in s.iters || s.iters[j].None? then ([], s) else
    var key := s.iters[j].value;
    var (rest, end) := RangeFor(Step(Run(s, bodies[0]), P.Advance(j)), j, bodies[1..]);
    ([Visit(key, Under(s, key))] + rest, end)
  }

  /** The operation does not reposition, destroy or steal from the loop's own iterator. */
  ghost predicate Spares<J, T>(op: P.Op<J, T>, j: J) {
    match op
    case Assign(i, _) => i != j
    case Move(_, k) => k != j
    case MoveAssign(i, k) => i != j && k != j
    case Advance(i) => i != j
    case Destroy(i) => i != j
    case _ => true
  }

  ghost predicate AllSpare<J, T>(ops: seq<P.Op<J, T>>, j: J) {
    forall i :: 0 <= i < |ops| ==> Spares(ops[i], j)
  }

  ghost predicate BodiesSpare<J, T>(bodies: seq<seq<P.Op<J, T>>>, j: J) {
    forall i :: 0 <= i < |bodies| ==> AllSpare(bodies[i], j)
  }

  // ----- the same loop over the plain list

  function PlainRun<J, T(==)>(p: P.Plain<J, T>, ops: seq<P.Op<J, T>>): P.Plain<J, T>
    decreases |ops|
  {
    if ops == [] then p else PlainRun(P.Step(p, ops[0]), ops[1..])
  }

  function ItemAt<T>(entries: seq<P.Entry<T>>, key: int): Option<T> {
    if entries == [] then None
    else if entries[0].key == key then Some(entries[0].item)
    else ItemAt(entries[1..], key)
  }

  function PlainFor<J, T(==)>(p: P.Plain<J, T>, j: J, bodies: seq<seq<P.Op<J, T>>>)
    : (seq<Visit<T>>, P.Plain<J, T>)
    decreases |bodies|
  {
    if bodies == [] || j !in p.cursors || p.cursors[j].None? then ([], p) else
    var key := p.cursors[j].value;
    var (rest, end) := PlainFor(P.Step(PlainRun(p, bodies[0]), P.Advance(j)), j, bodies[1..]);
    ([Visit(key, ItemAt(p.entries, key))] + rest, end)
  }

  lemma {:induction false} RunRefines<J, T>(s: RefList<J, T>, ops: seq<P.Op<J, T>>)
    requires Valid(s)
    ensures Valid(Run(s, ops)) && Abs(Run(s, ops)) == PlainRun(Abs(s), ops)
    decreases |ops|
  {
    if ops != [] {
      StepRefines(s, ops[0]);
      RunRefines(Step(s, ops[0]), ops[1..]);
    }
  }

  lemma {:induction false} ItemAtMissing<T>(cells: seq<Cell<T>>, key: int)
    requires forall c :: c in cells ==> c.key != key
    ensures ItemAt(Live(cells), key) == None
  {
    if cells != [] {
      assert cells[0] in cells;
      ItemAtMissing(cells[1..], key);
      assert (if cells[0].Removed() then Live(cells) else Live(cells)[1..]) == Live(cells[1..]);
    }
  }

  lemma {:induction false} UnderIsItemAt<T>(cells: seq<Cell<T>>, key: int)
    requires Ordered(cells)
    ensures ItemAt(Live(cells), key) ==
        var i := IndexOf(cells, key); if i < |cells| then cells[i].item else None
  {
    if cells != [] {
      assert (if cells[0].Removed() then Live(cells) else Live(cells)[1..]) == Live(cells[1..]);
      if cells[0].key == key {
        ItemAtMissing(cells[1..], key);
      } else {
        UnderIsItemAt(cells[1..], key);
      }
    }
  }

  /** Iterating the counted list reads exactly what iterating the plain list reads. */
  lemma {:induction false} RangeForRefines<J, T>(s: RefList<J, T>, j: J, bodies: seq<seq<P.Op<J, T>>>)
    requires Valid(s)
    ensures var (visits, end) := RangeFor(s, j, bodies);
            Valid(end) && PlainFor(Abs(s), j, bodies) == (visits, Abs(end))
    decreases |bodies|
  {
    assert Open(0);
    if bodies != [] && j in s.iters && s.iters[j].Some? {
      UnderIsItemAt(s.cells, s.iters[j].value);
      RunRefines(s, bodies[0]);
      StepRefines(Run(s, bodies[0]), P.Advance(j));
      RangeForRefines(Step(Run(s, bodies[0]), P.Advance(j)), j, bodies[1..]);
    }
  }

  // ----- what the plain loop visits

  /** Where the loop's cursor is, the end counting as above every key so far. */
  function From<J, T>(p: P.Plain<J, T>, j: J): int
    requires j in p.cursors
  {
    if p.cursors[j].None? then p.hi else p.cursors[j].value
  }

  lemma {:induction false} RunKeeps<J, T>(p: P.Plain<J, T>, ops: seq<P.Op<J, T>>, j: J)
    requires P.Valid(p) && j in p.cursors && AllSpare(ops, j)
    ensures var p' := PlainRun(p, ops);
            && P.Valid(p') && p'.lo <= p.lo && p.hi <= p'.hi
            && j in p'.cursors && p'.cursors[j] == p.cursors[j]
            && (forall e :: e in p'.entries && p.lo <= e.key < p.hi ==> e in p.entries)
    decreases |ops|
  {
    if ops != [] {
      var q := P.Step(p, ops[0]);
      P.StepKeepsValid(p, ops[0]);
      assert Spares(ops[0], j);
      RunKeeps(q, ops[1..], j);
      forall e | e in PlainRun(p, ops).entries && p.lo <= e.key < p.hi ensures e in p.entries {
        P.StepOnlyAdds(p, ops[0], e);
      }
    }
  }

  lemma {:induction false} ItemAtFound<T>(entries: seq<P.Entry<T>>, i: nat)
    requires P.Sorted(entries) && i < |entries|
    ensures ItemAt(entries, entries[i].key) == Some(entries[i].item)
  {
    if i > 0 {
      assert entries[1..][i - 1] == entries[i];
      ItemAtFound(entries[1..], i - 1);
    }
  }

  lemma EntryRead<T>(entries: seq<P.Entry<T>>, e: P.Entry<T>)
    requires P.Sorted(entries) && e in entries
    ensures ItemAt(entries, e.key) == Some(e.item)
  {
    var i :| 0 <= i < |entries| && entries[i] == e;
    ItemAtFound(entries, i);
  }

  /** One iteration: body, then `++`, which lands on the least surviving entry beyond `key`. */
  lemma IterationKeeps<J, T>(p: P.Plain<J, T>, j: J, body: seq<P.Op<J, T>>)
    requires P.Valid(p) && j in p.cursors && p.cursors[j].Some? && AllSpare(body, j)
    requires p.lo <= p.cursors[j].value < p.hi
    ensures var p' := P.Step(PlainRun(p, body), P.Advance(j));
            && P.Valid(p') && p'.lo <= p.lo && p.hi <= p'.hi && j in p'.cursors
            && (p'.cursors[j].Some? ==> P.Holds(p'.entries, p'.cursors[j].value))
            && From(p, j) < From(p', j)
            && (forall e :: e in p'.entries && From(p, j) < e.key ==> From(p', j) <= e.key)
            && (forall e :: e in p'.entries && p.lo <= e.key < p.hi ==> e in p.entries)
  {
    RunKeeps(p, body, j);
    P.NextIsLeast(PlainRun(p, body).entries, p.cursors[j].value);
    P.StepKeepsValid(PlainRun(p, body), P.Advance(j));
  }

  /** Later states of the loop only lose old entries. */
  lemma {:induction false} LoopOnlyAdds<J, T>(p: P.Plain<J, T>, j: J, bodies: seq<seq<P.Op<J, T>>>)
    requires P.Valid(p) && j in p.cursors && BodiesSpare(bodies, j)
    requires p.cursors[j].Some? ==> P.Holds(p.entries, p.cursors[j].value)
    ensures var (visits, end) := PlainFor(p, j, bodies);
            && j in end.cursors
            && forall e :: e in end.entries && p.lo <= e.key < p.hi ==> e in p.entries
    decreases |bodies|
  {
    if bodies != [] && p.cursors[j].Some? {
      HeldInRange(p, p.cursors[j].value);
      assert AllSpare(bodies[0], j);
      IterationKeeps(p, j, bodies[0]);
      LoopOnlyAdds(P.Step(PlainRun(p, bodies[0]), P.Advance(j)), j, bodies[1..]);
    }
  }

  lemma HeldInRange<J, T>(p: P.Plain<J, T>, key: int)
    requires P.Valid(p) && P.Holds(p.entries, key)
    ensures p.lo <= key < p.hi && ItemAt(p.entries, key).Some?
  {
    var i :| 0 <= i < |p.entries| && p.entries[i].key == key;
    assert p.entries[i] in p.entries;
    EntryRead(p.entries, p.entries[i]);
  }

  ghost predicate Ascending<T>(visits: seq<Visit<T>>, start: int) {
    && (forall i :: 0 <= i < |visits| ==> start <= visits[i].key && visits[i].item.Some?)
    && (forall a, b :: 0 <= a < b < |visits| ==> visits[a].key < visits[b].key)
  }

  lemma {:induction false} PlainForAscends<J, T>(p: P.Plain<J, T>, j: J, bodies: seq<seq<P.Op<J, T>>>)
    requires P.Valid(p) && j in p.cursors && BodiesSpare(bodies, j)
    requires p.cursors[j].Some? ==> P.Holds(p.entries, p.cursors[j].value)
    ensures Ascending(PlainFor(p, j, bodies).0, From(p, j))
    decreases |bodies|
  {
    if bodies != [] && p.cursors[j].Some? {
      HeldInRange(p, p.cursors[j].value);
      assert AllSpare(bodies[0], j);
      IterationKeeps(p, j, bodies[0]);
      PlainForAscends(P.Step(PlainRun(p, bodies[0]), P.Advance(j)), j, bodies[1..]);
    }
  }

  ghost predicate Saw<T>(visits: seq<Visit<T>>, e: P.Entry<T>) {
    Visit(e.key, Some(e.item)) in visits
  }

  lemma {:induction false} PlainForVisits<J, T>(
      p: P.Plain<J, T>, j: J, bodies: seq<seq<P.Op<J, T>>>, e: P.Entry<T>)
    requires P.Valid(p) && j in p.cursors && BodiesSpare(bodies, j)
    requires p.cursors[j].Some? ==> P.Holds(p.entries, p.cursors[j].value)
    requires forall x :: x in p.entries && p.cursors[j].None? ==> x.key < From(p, j)
    requires var end := PlainFor(p, j, bodies).1;
             j in end.cursors && end.cursors[j].None? && e in end.entries
    ensures Saw(PlainFor(p, j, bodies).0, e) <==> From(p, j) <= e.key
    decreases |bodies|
  {
    if p.cursors[j].None? {
      assert Saw(PlainFor(p, j, bodies).0, e) ==> false;
    } else {
      assert bodies != [];
      var key := p.cursors[j].value;
      HeldInRange(p, key);
      assert AllSpare(bodies[0], j);
      IterationKeeps(p, j, bodies[0]);
      var p' := P.Step(PlainRun(p, bodies[0]), P.Advance(j));
      PlainForVisits(p', j, bodies[1..], e);
      LoopOnlyAdds(p', j, bodies[1..]);
      assert key < e.key && e in p'.entries ==> From(p', j) <= e.key;
      if e.key == key {
        LoopOnlyAdds(p, j, bodies);
        EntryRead(p.entries, e);
      }
    }
  }

  // ----- the theorem about the reference-counted list

  /**
   A range-for loop, whatever its bodies add, remove or clear and whatever other iterators do:
   it visits nodes in list order and none twice, always finds a live item under its iterator,
   and, when it has reached the end, has seen an element that is in the list exactly if that
   element was not pushed onto the front after the loop began. Elements alive throughout and
   elements added at the back are therefore all seen. Of those in the list at the start it has
   seen exactly the ones that no body removed while the loop stood before them.
   */
  lemma RangeForVisits<J, T>(s: RefList<J, T>, j: J, bodies: seq<seq<P.Op<J, T>>>)
    requires Valid(s) && j !in s.iters && BodiesSpare(bodies, j)
    ensures var (visits, end) := RangeFor(Step(s, P.Begin(j)), j, bodies);
            && Valid(end) && j in end.iters
            && Ascending(visits, s.lo)
            && (end.iters[j].None? ==>
                  && (forall e :: e in Live(end.cells) ==> (Saw(visits, e) <==> s.lo <= e.key))
                  && (forall e :: e in Live(s.cells) ==>
                        (Saw(visits, e) <==> !RemovedAhead(Step(s, P.Begin(j)), j, bodies, e))))
  {
    var s1 := Step(s, P.Begin(j));
    var (visits, end) := RangeFor(s1, j, bodies);
    StepRefines(s, P.Begin(j));
    RangeForRefines(s1, j, bodies);
    AbsValid(s);
    AbsValid(s1);
    var p := Abs(s1);
    if p.entries != [] {
      assert p.entries[0].key == p.cursors[j].value;
    }
    assert forall e :: e in p.entries ==> From(p, j) <= e.key && s.lo <= e.key;
    PlainForAscends(p, j, bodies);
    LoopOnlyAdds(p, j, bodies);
    forall e | e in Live(end.cells) && end.iters[j].None? ensures Saw(visits, e) <==> s.lo <= e.key {
      PlainForVisits(p, j, bodies, e);
      assert e in p.entries ==> From(p, j) <= e.key;
    }
    forall e | e in Live(s.cells) && end.iters[j].None?
      ensures Saw(visits, e) <==> !RemovedAhead(s1, j, bodies, e)
    {
      RangeForSeesWhatStays(s, j, bodies, e);
    }
  }

  lemma AbsValid<J, T>(s: RefList<J, T>)
    requires Valid(s)
    ensures P.Valid(Abs(s))
  {
    assert Open(0);
    LiveSorted(s.cells);
    forall e | e in Live(s.cells) ensures s.lo <= e.key < s.hi {
      var i := LiveFrom(s.cells, e);
    }
  }

  /**
   An element that has been added, and has been removed by the time some iteration begins, is
   not visited in that iteration or in any later one.
   */
  lemma RemovedIsNeverVisited<J, T>(s: RefList<J, T>, j: J, bodies: seq<seq<P.Op<J, T>>>, key: int)
    requires Valid(s) && j in s.iters && BodiesSpare(bodies, j)
    requires s.iters[j].Some? ==> Under(s, s.iters[j].value).Some?
    requires s.lo <= key < s.hi && Under(s, key).None?
    ensures forall v :: v in RangeFor(s, j, bodies).0 ==> v.key != key
  {
    assert Open(0);
    RangeForRefines(s, j, bodies);
    AbsValid(s);
    UnderIsItemAt(s.cells, key);
    forall e | e in Abs(s).entries ensures e.key != key {
      EntryRead(Abs(s).entries, e);
    }
    if s.iters[j].Some? {
      UnderIsItemAt(s.cells, s.iters[j].value);
      ItemAtHolds(Abs(s).entries, s.iters[j].value);
    }
    GoneStaysGone(Abs(s), j, bodies, key);
  }

  lemma UnderReadsLive<J, T>(s: RefList<J, T>, key: int)
    requires Valid(s)
    ensures Under(s, key) == ItemAt(Live(s.cells), key)
  {
    assert Open(0);
    UnderIsItemAt(s.cells, key);
  }

  lemma {:induction false} ItemAtHolds<T>(entries: seq<P.Entry<T>>, key: int)
    requires ItemAt(entries, key).Some?
    ensures P.Holds(entries, key)
  {
    if entries[0].key != key {
      ItemAtHolds(entries[1..], key);
      var i :| 0 <= i < |entries[1..]| && entries[1..][i].key == key;
      assert entries[i + 1].key == key;
    }
  }

  lemma {:induction false} GoneStaysGone<J, T>(p: P.Plain<J, T>, j: J, bodies: seq<seq<P.Op<J, T>>>, key: int)
    requires P.Valid(p) && j in p.cursors && BodiesSpare(bodies, j)
    requires p.cursors[j].Some? ==> P.Holds(p.entries, p.cursors[j].value)
    requires p.lo <= key < p.hi && forall e :: e in p.entries ==> e.key != key
    ensures forall v :: v in PlainFor(p, j, bodies).0 ==> v.key != key
    decreases |bodies|
  {
    if bodies != [] && p.cursors[j].Some? {
      HeldInRange(p, p.cursors[j].value);
      assert AllSpare(bodies[0], j);
      IterationKeeps(p, j, bodies[0]);
      GoneStaysGone(P.Step(PlainRun(p, bodies[0]), P.Advance(j)), j, bodies[1..], key);
    }
  }

  // ----- elements that are removed while the loop runs

  /** Some body took `e` out of the list while the loop stood before it. */
  ghost predicate RemovedAhead<J, T>(s: RefList<J, T>, j: J, bodies: seq<seq<P.Op<J, T>>>, e: P.Entry<T>)
    decreases |bodies|
  {
    && bodies != [] && j in s.iters && s.iters[j].Some?
    && ((s.iters[j].value < e.key && e in Live(s.cells) && e !in Live(Run(s, bodies[0]).cells))
        || RemovedAhead(Step(Run(s, bodies[0]), P.Advance(j)), j, bodies[1..], e))
  }

  ghost predicate PlainRemovedAhead<J, T>(p: P.Plain<J, T>, j: J, bodies: seq<seq<P.Op<J, T>>>, e: P.Entry<T>)
    decreases |bodies|
  {
    && bodies != [] && j in p.cursors && p.cursors[j].Some?
    && ((p.cursors[j].value < e.key && e in p.entries && e !in PlainRun(p, bodies[0]).entries)
        || PlainRemovedAhead(P.Step(PlainRun(p, bodies[0]), P.Advance(j)), j, bodies[1..], e))
  }

  lemma {:induction false} RemovedAheadRefines<J, T>(
      s: RefList<J, T>, j: J, bodies: seq<seq<P.Op<J, T>>>, e: P.Entry<T>)
    requires Valid(s)
    ensures RemovedAhead(s, j, bodies, e) <==> PlainRemovedAhead(Abs(s), j, bodies, e)
    decreases |bodies|
  {
    if bodies != [] && j in s.iters && s.iters[j].Some? {
      RunRefines(s, bodies[0]);
      StepRefines(Run(s, bodies[0]), P.Advance(j));
      RemovedAheadRefines(Step(Run(s, bodies[0]), P.Advance(j)), j, bodies[1..], e);
    }
  }

  /** What the loop has reached is no longer ahead of it. */
  lemma {:induction false} ReachedIsNotAhead<J, T>(
      p: P.Plain<J, T>, j: J, bodies: seq<seq<P.Op<J, T>>>, e: P.Entry<T>)
    requires P.Valid(p) && j in p.cursors && BodiesSpare(bodies, j)
    requires p.cursors[j].Some? ==> P.Holds(p.entries, p.cursors[j].value)
    requires e.key <= From(p, j)
    ensures !PlainRemovedAhead(p, j, bodies, e)
    decreases |bodies|
  {
    if bodies != [] && p.cursors[j].Some? {
      HeldInRange(p, p.cursors[j].value);
      assert AllSpare(bodies[0], j);
      IterationKeeps(p, j, bodies[0]);
      ReachedIsNotAhead(P.Step(PlainRun(p, bodies[0]), P.Advance(j)), j, bodies[1..], e);
    }
  }

  /** An entry that a body took out does not come back, nor does its key. */
  lemma KeyGone<J, T>(p: P.Plain<J, T>, q: P.Plain<J, T>, e: P.Entry<T>)
    requires P.Valid(p) && e in p.entries && e !in q.entries
    requires forall x :: x in q.entries && p.lo <= x.key < p.hi ==> x in p.entries
    ensures forall x :: x in q.entries ==> x.key != e.key
  {
    forall x | x in q.entries ensures x.key != e.key {
      KeysDiffer(p.entries, x, e);
      HeldInRange(p, e.key);
    }
  }

  lemma KeysDiffer<T>(entries: seq<P.Entry<T>>, x: P.Entry<T>, y: P.Entry<T>)
    requires P.Sorted(entries) && y in entries
    ensures P.Holds(entries, y.key) && (x in entries && x != y ==> x.key != y.key)
  {
    var i :| 0 <= i < |entries| && entries[i] == y;
    if x in entries && x != y {
      var k :| 0 <= k < |entries| && entries[k] == x;
    }
  }

  lemma {:induction false} PlainForSees<J, T>(p: P.Plain<J, T>, j: J, bodies: seq<seq<P.Op<J, T>>>, e: P.Entry<T>)
    requires P.Valid(p) && j in p.cursors && BodiesSpare(bodies, j)
    requires p.cursors[j].Some? && P.Holds(p.entries, p.cursors[j].value)
    requires e in p.entries && p.cursors[j].value <= e.key
    requires var end := PlainFor(p, j, bodies).1; j in end.cursors && end.cursors[j].None?
    ensures Saw(PlainFor(p, j, bodies).0, e) <==> !PlainRemovedAhead(p, j, bodies, e)
    decreases |bodies|
  {
    var key := p.cursors[j].value;
    HeldInRange(p, key);
    assert bodies != [] && AllSpare(bodies[0], j);
    IterationKeeps(p, j, bodies[0]);
    var p' := P.Step(PlainRun(p, bodies[0]), P.Advance(j));
    if key == e.key {
      EntryRead(p.entries, e);
      ReachedIsNotAhead(p, j, bodies, e);
    } else if e in p'.entries {
      PlainForSees(p', j, bodies[1..], e);
    } else {
      KeyGone(p, p', e);
      GoneStaysGone(p', j, bodies[1..], e.key);
    }
  }

  /**
   At any moment of a loop that gets to the end: of the elements it has not passed yet, it goes on
   to see exactly those that no body takes out of the list while the loop stands before them.
   */
  lemma RangeForSees<J, T>(s: RefList<J, T>, j: J, bodies: seq<seq<P.Op<J, T>>>, e: P.Entry<T>)
    requires Valid(s) && j in s.iters && BodiesSpare(bodies, j)
    requires s.iters[j].Some? && Under(s, s.iters[j].value).Some?
    requires e in Live(s.cells) && s.iters[j].value <= e.key
    requires var end := RangeFor(s, j, bodies).1; j in end.iters && end.iters[j].None?
    ensures Saw(RangeFor(s, j, bodies).0, e) <==> !RemovedAhead(s, j, bodies, e)
  {
    assert Open(0);
    RangeForRefines(s, j, bodies);
    RemovedAheadRefines(s, j, bodies, e);
    AbsValid(s);
    UnderIsItemAt(s.cells, s.iters[j].value);
    ItemAtHolds(Abs(s).entries, s.iters[j].value);
    PlainForSees(Abs(s), j, bodies, e);
  }

  /** So of the elements in the list when a loop begins it sees exactly those not removed ahead of it. */
  lemma RangeForSeesWhatStays<J, T>(s: RefList<J, T>, j: J, bodies: seq<seq<P.Op<J, T>>>, e: P.Entry<T>)
    requires Valid(s) && j !in s.iters && BodiesSpare(bodies, j) && e in Live(s.cells)
    ensures var (visits, end) := RangeFor(Step(s, P.Begin(j)), j, bodies);
            j in end.iters && end.iters[j].None? ==>
              (Saw(visits, e) <==> !RemovedAhead(Step(s, P.Begin(j)), j, bodies, e))
  {
    var s1 := Step(s, P.Begin(j));
    StepRefines(s, P.Begin(j));
    AbsValid(s1);
    RangeForRefines(s1, j, bodies);
    RemovedAheadRefines(s1, j, bodies, e);
    var p := Abs(s1);
    assert p.entries[0].key == p.cursors[j].value;
    if j in PlainFor(p, j, bodies).1.cursors && PlainFor(p, j, bodies).1.cursors[j].None? {
      PlainForSees(p, j, bodies, e);
    }
  }

  // ----- loops under which nothing is added

  ghost predicate NoAdds<J, T>(ops: seq<P.Op<J, T>>) {
    forall i :: 0 <= i < |ops| ==> !ops[i].AddBack? && !ops[i].AddFront?
  }

  lemma {:induction false} RunOnlyLoses<J, T>(p: P.Plain<J, T>, ops: seq<P.Op<J, T>>)
    requires P.Valid(p) && NoAdds(ops)
    ensures forall e :: e in PlainRun(p, ops).entries ==> e in p.entries
    decreases |ops|
  {
    if ops != [] {
      P.StepKeepsValid(p, ops[0]);
      if ops[0].Remove? {
        P.WithoutKeepsOrder(p.entries, ops[0].item);
      }
      RunOnlyLoses(P.Step(p, ops[0]), ops[1..]);
    }
  }

  ghost predicate WasThere<T>(v: Visit<T>, entries: seq<P.Entry<T>>) {
    exists e :: e in entries && v == Visit(e.key, Some(e.item))
  }

  lemma {:induction false} VisitsWereThere<J, T>(p: P.Plain<J, T>, j: J, bodies: seq<seq<P.Op<J, T>>>)
    requires P.Valid(p) && j in p.cursors && BodiesSpare(bodies, j)
    requires forall i :: 0 <= i < |bodies| ==> NoAdds(bodies[i])
    requires p.cursors[j].Some? ==> P.Holds(p.entries, p.cursors[j].value)
    ensures forall v :: v in PlainFor(p, j, bodies).0 ==> WasThere(v, p.entries)
    decreases |bodies|
  {
    if bodies != [] && p.cursors[j].Some? {
      var i :| 0 <= i < |p.entries| && p.entries[i].key == p.cursors[j].value;
      ItemAtFound(p.entries, i);
      assert p.entries[i] in p.entries;
      HeldInRange(p, p.cursors[j].value);
      assert AllSpare(bodies[0], j) && NoAdds(bodies[0]);
      IterationKeeps(p, j, bodies[0]);
      RunOnlyLoses(p, bodies[0]);
      VisitsWereThere(P.Step(PlainRun(p, bodies[0]), P.Advance(j)), j, bodies[1..]);
    }
  }

  /** Those of the entries that no body removes ahead of the loop. */
  ghost function NotRemovedAhead<J, T>(
      entries: seq<P.Entry<T>>, s: RefList<J, T>, j: J, bodies: seq<seq<P.Op<J, T>>>): seq<P.Entry<T>>
  {
    if entries == [] then []
    else
      (if RemovedAhead(s, j, bodies, entries[0]) then [] else [entries[0]])
      + NotRemovedAhead(entries[1..], s, j, bodies)
  }

  lemma {:induction false} KeptAscend<J, T>(
      entries: seq<P.Entry<T>>, s: RefList<J, T>, j: J, bodies: seq<seq<P.Op<J, T>>>)
    requires P.Sorted(entries)
    ensures P.Sorted(NotRemovedAhead(entries, s, j, bodies))
  {
    if entries != [] {
      KeptAscend(entries[1..], s, j, bodies);
      var rest := NotRemovedAhead(entries[1..], s, j, bodies);
      forall i | 0 <= i < |rest| ensures entries[0].key < rest[i].key {
        KeptMembers(entries[1..], s, j, bodies, rest[i]);
      }
    }
  }

  lemma {:induction false} KeptMembers<J, T>(
      entries: seq<P.Entry<T>>, s: RefList<J, T>, j: J, bodies: seq<seq<P.Op<J, T>>>, e: P.Entry<T>)
    ensures e in NotRemovedAhead(entries, s, j, bodies) <==> e in entries && !RemovedAhead(s, j, bodies, e)
  {
    if entries != [] {
      KeptMembers(entries[1..], s, j, bodies, e);
    }
  }

  lemma {:induction false} VisitsAscend<T>(entries: seq<P.Entry<T>>)
    ensures |AsVisits(entries)| == |entries|
    ensures forall i :: 0 <= i < |entries| ==> AsVisits(entries)[i] == Visit(entries[i].key, Some(entries[i].item))
  {
    if entries != [] {
      VisitsAscend(entries[1..]);
    }
  }

  ghost predicate Rising<T>(visits: seq<Visit<T>>) {
    forall a, b :: 0 <= a < b < |visits| ==> visits[a].key < visits[b].key
  }

  /** Rising visits are determined by what they contain. */
  lemma {:induction false} RisingUnique<T>(a: seq<Visit<T>>, b: seq<Visit<T>>)
    requires Rising(a) && Rising(b) && forall v :: v in a <==> v in b
    ensures a == b
  {
    if a == [] {
      assert forall i :: 0 <= i < |b| ==> b[i] in a;
    } else {
      assert a[0] in b && b[0] in a;
      assert a[0] == b[0];
      forall v ensures v in a[1..] <==> v in b[1..] {
        assert (v in a <==> v == a[0] || v in a[1..]) && (v in b <==> v == b[0] || v in b[1..]);
        assert v in a[1..] ==> v.key > a[0].key;
        assert v in b[1..] ==> v.key > b[0].key;
      }
      RisingUnique(a[1..], b[1..]);
    }
  }

  /**
   If nothing is added while a loop runs to its end, it does what going over a copy of the list
   taken at the start does, if that passes over whatever has gone by the time it is reached.
   */
  lemma LoopIsSnapshot<J, T>(s: RefList<J, T>, j: J, bodies: seq<seq<P.Op<J, T>>>)
    requires Valid(s) && j !in s.iters && BodiesSpare(bodies, j)
    requires forall i :: 0 <= i < |bodies| ==> NoAdds(bodies[i])
    ensures var s1 := Step(s, P.Begin(j));
            var (visits, end) := RangeFor(s1, j, bodies);
            j in end.iters && end.iters[j].None? ==>
              visits == AsVisits(NotRemovedAhead(Live(s.cells), s1, j, bodies))
  {
    var s1 := Step(s, P.Begin(j));
    var (visits, end) := RangeFor(s1, j, bodies);
    if j in end.iters && end.iters[j].None? {
      SeenWereThere(s, j, bodies);
      SeenWereKept(s, j, bodies);
      VisitsRise(s, j, bodies);
      VisitsAreKept(visits, NotRemovedAhead(Live(s.cells), s1, j, bodies), Live(s.cells));
    }
  }

  lemma SeenWereKept<J, T>(s: RefList<J, T>, j: J, bodies: seq<seq<P.Op<J, T>>>)
    requires Valid(s) && j !in s.iters && BodiesSpare(bodies, j)
    requires var end := RangeFor(Step(s, P.Begin(j)), j, bodies).1; j in end.iters && end.iters[j].None?
    ensures var s1 := Step(s, P.Begin(j));
            var visits, kept := RangeFor(s1, j, bodies).0, NotRemovedAhead(Live(s.cells), s1, j, bodies);
            && P.Sorted(kept) && (forall e :: e in kept ==> e in Live(s.cells))
            && forall e :: e in Live(s.cells) ==> (Saw(visits, e) <==> e in kept)
  {
    var s1 := Step(s, P.Begin(j));
    AbsValid(s);
    KeptAscend(Live(s.cells), s1, j, bodies);
    forall e | e in NotRemovedAhead(Live(s.cells), s1, j, bodies) ensures e in Live(s.cells) {
      KeptMembers(Live(s.cells), s1, j, bodies, e);
    }
    forall e | e in Live(s.cells)
      ensures Saw(RangeFor(s1, j, bodies).0, e) <==> e in NotRemovedAhead(Live(s.cells), s1, j, bodies)
    {
      SawIfKept(s, j, bodies, e);
    }
  }

  lemma SawIfKept<J, T>(s: RefList<J, T>, j: J, bodies: seq<seq<P.Op<J, T>>>, e: P.Entry<T>)
    requires Valid(s) && j !in s.iters && BodiesSpare(bodies, j) && e in Live(s.cells)
    requires var end := RangeFor(Step(s, P.Begin(j)), j, bodies).1; j in end.iters && end.iters[j].None?
    ensures var s1 := Step(s, P.Begin(j));
            Saw(RangeFor(s1, j, bodies).0, e) <==> e in NotRemovedAhead(Live(s.cells), s1, j, bodies)
  {
    RangeForSeesWhatStays(s, j, bodies, e);
    KeptMembers(Live(s.cells), Step(s, P.Begin(j)), j, bodies, e);
  }

  lemma VisitsRise<J, T>(s: RefList<J, T>, j: J, bodies: seq<seq<P.Op<J, T>>>)
    requires Valid(s) && j !in s.iters && BodiesSpare(bodies, j)
    ensures Rising(RangeFor(Step(s, P.Begin(j)), j, bodies).0)
  {
    RangeForVisits(s, j, bodies);
  }

  lemma SeenWereThere<J, T>(s: RefList<J, T>, j: J, bodies: seq<seq<P.Op<J, T>>>)
    requires Valid(s) && j !in s.iters && BodiesSpare(bodies, j)
    requires forall i :: 0 <= i < |bodies| ==> NoAdds(bodies[i])
    ensures forall v :: v in RangeFor(Step(s, P.Begin(j)), j, bodies).0 ==> WasThere(v, Live(s.cells))
  {
    var s1 := Step(s, P.Begin(j));
    StartsOnLive(s, j);
    RangeForRefines(s1, j, bodies);
    VisitsWereThere(Abs(s1), j, bodies);
  }

  lemma StartsOnLive<J, T>(s: RefList<J, T>, j: J)
    requires Valid(s) && j !in s.iters
    ensures var s1 := Step(s, P.Begin(j));
            && Valid(s1) && P.Valid(Abs(s1)) && j in s1.iters && Live(s1.cells) == Live(s.cells)
            && (s1.iters[j].Some? ==> P.Holds(Live(s1.cells), s1.iters[j].value))
  {
    StepRefines(s, P.Begin(j));
    AbsValid(Step(s, P.Begin(j)));
    assert Live(s.cells) != [] ==> Live(s.cells)[0].key == Step(s, P.Begin(j)).iters[j].value;
  }

  lemma VisitsAreKept<T>(visits: seq<Visit<T>>, kept: seq<P.Entry<T>>, entries: seq<P.Entry<T>>)
    requires Rising(visits) && P.Sorted(kept) && forall x :: x in visits ==> WasThere(x, entries)
    requires forall e :: e in entries ==> (Saw(visits, e) <==> e in kept)
    requires forall e :: e in kept ==> e in entries
    ensures visits == AsVisits(kept)
  {
    VisitsAscend(kept);
    forall v ensures v in visits <==> v in AsVisits(kept) {
      SeenIsKept(visits, kept, entries, v);
    }
    RisingUnique(visits, AsVisits(kept));
  }

  lemma SeenIsKept<T>(visits: seq<Visit<T>>, kept: seq<P.Entry<T>>, entries: seq<P.Entry<T>>, v: Visit<T>)
    requires forall x :: x in visits ==> WasThere(x, entries)
    requires forall e :: e in entries ==> (Saw(visits, e) <==> e in kept)
    requires forall e :: e in kept ==> e in entries
    ensures v in visits <==> v in AsVisits(kept)
  {
    VisitsAscend(kept);
    if v in visits {
      var e :| e in entries && v == Visit(e.key, Some(e.item));
      var i :| 0 <= i < |kept| && kept[i] == e;
      assert AsVisits(kept)[i] == v;
    }
    if v in AsVisits(kept) {
      var i :| 0 <= i < |kept| && AsVisits(kept)[i] == v;
      assert kept[i] in kept && Saw(visits, kept[i]);
    }
  }

  // ----- the loop that removes every element it sees

  /** The bodies of that loop, given the items in the list. */
  function RemoveEach<J, T>(entries: seq<P.Entry<T>>): seq<seq<P.Op<J, T>>> {
    if entries == [] then [] else [[P.Remove(entries[0].item)]] + RemoveEach(entries[1..])
  }

  function AsVisits<T>(entries: seq<P.Entry<T>>): seq<Visit<T>> {
    if entries == [] then [] else [Visit(entries[0].key, Some(entries[0].item))] + AsVisits(entries[1..])
  }

  lemma {:induction false} PlainRemovingLoop<J, T>(p: P.Plain<J, T>, j: J)
    requires P.Valid(p) && j in p.cursors && p.cursors[j] == P.First(p.entries)
    ensures PlainFor(p, j, RemoveEach(p.entries)) ==
        (AsVisits(p.entries), p.(entries := [], cursors := p.cursors[j := None]))
    decreases |p.entries|
  {
    if p.entries == [] {
      assert p.cursors[j := None] == p.cursors;
    } else {
      var body: seq<P.Op<J, T>> := [P.Remove(p.entries[0].item)];
      assert RemoveEach<J, T>(p.entries)[1..] == RemoveEach<J, T>(p.entries[1..]);
      assert PlainRun(p, body) == P.Step(p, body[0]) == p.(entries := p.entries[1..]);
      P.NextIsFirst(p.entries[1..], p.entries[0].key);
      var p' := P.Step(PlainRun(p, body), P.Advance(j));
      PlainRemovingLoop(p', j);
      assert p'.cursors[j := None] == p.cursors[j := None];
    }
  }

  /** A loop that removes each element as it sees it sees them all, in order, and leaves none. */
  lemma RemovingLoopSeesAll<J, T>(s: RefList<J, T>, j: J)
    requires Valid(s) && j !in s.iters
    ensures var (visits, end) := RangeFor(Step(s, P.Begin(j)), j, RemoveEach(Live(s.cells)));
            && visits == AsVisits(Live(s.cells)) && Valid(end) && Live(end.cells) == []
            && end.iters == s.iters[j := None]
  {
    var s1 := Step(s, P.Begin(j));
    StepRefines(s, P.Begin(j));
    RangeForRefines(s1, j, RemoveEach(Live(s.cells)));
    AbsValid(s1);
    PlainRemovingLoop(Abs(s1), j);
  }

  // ----- every run

  /**
   After any sequence of list and iterator operations from an empty list: every count is the
   number of iterators on that node, every tombstone is held by some iterator, and every iterator
   stands on a stored node or at the end.
   */
  lemma EveryRunIsSound<J, T>(ops: seq<P.Op<J, T>>)
    ensures var s := Run(RefList([], 0, 0, map[]), ops);
            && (forall i :: 0 <= i < |s.cells| ==> s.cells[i].count == |Holders(s.iters, s.cells[i].key)|)
            && (forall i :: 0 <= i < |s.cells| && s.cells[i].Removed() ==> s.cells[i].count > 0)
            && (forall j :: j in s.iters && s.iters[j].Some? ==>
                  exists i :: 0 <= i < |s.cells| && s.cells[i].key == s.iters[j].value)
  {
    var start := RefList([], 0, 0, map[]);
    var s := Run(start, ops);
    RunRefines(start, ops);
    assert Open(0);
    forall j | j in s.iters && s.iters[j].Some?
      ensures exists i :: 0 <= i < |s.cells| && s.cells[i].key == s.iters[j].value
    {
      assert s.cells[IndexOf(s.cells, s.iters[j].value)].key == s.iters[j].value;
    }
  }
}
