/**
 What the list operations do to the items in the list, said without keys, cells or steps, and what
 a loop sees of the items that its own bodies add.
 */
module ListLaws {
  import opened Options
  import opened RefList
  import opened Traversal
  import P = PlainList

  function Items<T>(entries: seq<P.Entry<T>>): (items: seq<T>)
    ensures |items| == |entries|
    ensures forall i :: 0 <= i < |items| ==> items[i] == entries[i].item
  {
    if entries == [] then [] else [entries[0].item] + Items(entries[1..])
  }

  /** The items in the list, in order. */
  function Contents<J, T>(s: RefList<J, T>): seq<T> {
    Items(Live(s.cells))
  }

  /** `items` without the first `t`; nothing else is different. */
  ghost predicate LostFirst<T>(items: seq<T>, t: T, rest: seq<T>) {
    exists i :: 0 <= i < |items| && items[i] == t && t !in items[..i] && rest == items[..i] + items[i + 1..]
  }

  // ----- one operation

  lemma LostFirstLater<T>(x: T, items: seq<T>, t: T, rest: seq<T>)
    requires x != t && LostFirst(items, t, rest)
    ensures LostFirst([x] + items, t, [x] + rest)
  {
    var i :| 0 <= i < |items| && items[i] == t && t !in items[..i] && rest == items[..i] + items[i + 1..];
    var all := [x] + items;
    assert all[i + 1] == t && all[..i + 1] == [x] + items[..i] && all[i + 2..] == items[i + 1..];
    assert [x] + rest == all[..i + 1] + all[i + 2..];
  }

  lemma {:induction false} WithoutItems<T>(entries: seq<P.Entry<T>>, t: T)
    ensures if t in Items(entries) then LostFirst(Items(entries), t, Items(P.Without(entries, t)))
            else P.Without(entries, t) == entries
  {
    if entries != [] {
      var items := Items(entries);
      assert items == [entries[0].item] + Items(entries[1..]);
      if entries[0].item == t {
        assert items[0] == t && items[..0] + items[1..] == Items(entries[1..]);
      } else {
        WithoutItems(entries[1..], t);
        if t in Items(entries[1..]) {
          LostFirstLater(entries[0].item, Items(entries[1..]), t, Items(P.Without(entries[1..], t)));
        }
      }
    }
  }

  lemma AddBackPuts<J, T>(s: RefList<J, T>, t: T)
    requires Valid(s)
    ensures Contents(Step(s, P.AddBack(t))) == Contents(s) + [t]
    ensures Live(Step(s, P.AddBack(t)).cells) == Live(s.cells) + [P.Entry(s.hi, t)]
  {
    StepRefines(s, P.AddBack(t));
  }

  lemma AddFrontPuts<J, T>(s: RefList<J, T>, t: T)
    requires Valid(s)
    ensures Contents(Step(s, P.AddFront(t))) == [t] + Contents(s)
    ensures Live(Step(s, P.AddFront(t)).cells) == [P.Entry(s.lo - 1, t)] + Live(s.cells)
  {
    StepRefines(s, P.AddFront(t));
  }

  lemma RemoveTakes<J, T>(s: RefList<J, T>, t: T)
    requires Valid(s)
    ensures if t in Contents(s) then LostFirst(Contents(s), t, Contents(Step(s, P.Remove(t))))
            else Contents(Step(s, P.Remove(t))) == Contents(s)
  {
    StepRefines(s, P.Remove(t));
    WithoutItems(Live(s.cells), t);
  }

  lemma ClearEmptiesAll<J, T>(s: RefList<J, T>)
    requires Valid(s)
    ensures Contents(Step(s, P.Clear)) == []
  {
    StepRefines(s, P.Clear);
  }

  /** Whatever iterators do, the items stay. */
  lemma IteratorsTakeNothing<J, T>(s: RefList<J, T>, op: P.Op<J, T>)
    requires Valid(s) && !op.AddBack? && !op.AddFront? && !op.Remove? && !op.Clear?
    ensures Contents(Step(s, op)) == Contents(s)
  {
    StepRefines(s, op);
  }

  // ----- runs of additions

  /** The items added at the front by a run, the last one first. */
  function Fronts<J, T>(ops: seq<P.Op<J, T>>): seq<T> {
    if ops == [] then [] else Fronts(ops[1..]) + if ops[0].AddFront? then [ops[0].item] else []
  }

  function Backs<J, T>(ops: seq<P.Op<J, T>>): seq<T> {
    if ops == [] then [] else (if ops[0].AddBack? then [ops[0].item] else []) + Backs(ops[1..])
  }

  lemma Regroup<T>(a: seq<T>, b: seq<T>, c: seq<T>, d: seq<T>)
    ensures a + (b + c) + d == a + b + (c + d) == (a + b) + c + d
  {
  }

  /** A run of additions leaves the front items, the last one first, what was there, and the back items in order. */
  lemma {:induction false} AddsBuild<J, T>(s: RefList<J, T>, ops: seq<P.Op<J, T>>)
    requires Valid(s) && forall i :: 0 <= i < |ops| ==> ops[i].AddFront? || ops[i].AddBack?
    ensures Contents(Run(s, ops)) == Fronts(ops) + Contents(s) + Backs(ops)
    decreases |ops|
  {
    if ops != [] {
      var s' := Step(s, ops[0]);
      StepRefines(s, ops[0]);
      AddsBuild(s', ops[1..]);
      match ops[0]
      case AddBack(t) =>
        AddBackPuts(s, t);
        Regroup(Fronts(ops[1..]), Contents(s), [t], Backs(ops[1..]));
      case AddFront(t) =>
        AddFrontPuts(s, t);
        Regroup(Fronts(ops[1..]), [t], Contents(s), Backs(ops[1..]));
    }
  }

  lemma AddsBuildFromNothing<J, T>(ops: seq<P.Op<J, T>>)
    requires forall i :: 0 <= i < |ops| ==> ops[i].AddFront? || ops[i].AddBack?
    ensures Contents(Run(RefList([], 0, 0, map[]), ops)) == Fronts(ops) + Backs(ops)
  {
    var empty: RefList<J, T> := RefList([], 0, 0, map[]);
    AddsBuild(empty, ops);
    assert Contents(empty) == [] && Fronts(ops) + [] == Fronts(ops);
  }

  // ----- what a loop sees of what its bodies add

  /** The list at the top of iteration `i`, for as long as the loop gets there. */
  function Top<J, T(==)>(s: RefList<J, T>, j: J, bodies: seq<seq<P.Op<J, T>>>, i: nat): RefList<J, T>
    requires i <= |bodies|
    decreases i
  {
    if i == 0 then s else Top(Step(Run(s, bodies[0]), P.Advance(j)), j, bodies[1..], i - 1)
  }

  /** The loop gets to iteration `i`. */
  ghost predicate GetsTo<J, T>(s: RefList<J, T>, j: J, bodies: seq<seq<P.Op<J, T>>>, i: nat)
    requires i <= |bodies|
    decreases i
  {
    && j in s.iters && s.iters[j].Some?
    && (i > 0 ==> GetsTo(Step(Run(s, bodies[0]), P.Advance(j)), j, bodies[1..], i - 1))
  }

  lemma {:induction false} PlainRunConcat<J, T>(p: P.Plain<J, T>, a: seq<P.Op<J, T>>, b: seq<P.Op<J, T>>)
    ensures PlainRun(p, a + b) == PlainRun(PlainRun(p, a), b)
    decreases |a|
  {
    if a == [] {
      assert a + b == b;
    } else {
      assert (a + b)[1..] == a[1..] + b;
      PlainRunConcat(P.Step(p, a[0]), a[1..], b);
    }
  }

  ghost predicate Ready<J, T>(p: P.Plain<J, T>, j: J, bodies: seq<seq<P.Op<J, T>>>) {
    && P.Valid(p) && j in p.cursors && BodiesSpare(bodies, j)
    && (p.cursors[j].Some? ==> P.Holds(p.entries, p.cursors[j].value))
  }

  lemma {:induction false} SparesParts<J, T>(a: seq<P.Op<J, T>>, op: P.Op<J, T>, b: seq<P.Op<J, T>>, j: J)
    requires AllSpare(a + [op] + b, j)
    ensures AllSpare(a, j) && AllSpare(b, j)
  {
    var all := a + [op] + b;
    assert forall i :: 0 <= i < |a| ==> Spares(all[i], j) && all[i] == a[i];
    assert forall i :: 0 <= i < |b| ==> Spares(all[|a| + 1 + i], j) && all[|a| + 1 + i] == b[i];
  }

  /** In the first iteration: what is added at the back is seen exactly if it is not removed ahead of the loop. */
  lemma PlainBackSeen<J, T>(
      p: P.Plain<J, T>, j: J, bodies: seq<seq<P.Op<J, T>>>, pre: seq<P.Op<J, T>>, t: T, post: seq<P.Op<J, T>>)
    requires Ready(p, j, bodies) && p.cursors[j].Some?
    requires bodies != [] && bodies[0] == pre + [P.AddBack(t)] + post
    requires var end := PlainFor(p, j, bodies).1; j in end.cursors && end.cursors[j].None?
    ensures var p1 := PlainRun(p, bodies[0]);
            var e := P.Entry(PlainRun(p, pre).hi, t);
            && e in PlainRun(p, pre + [P.AddBack(t)]).entries && p.hi <= e.key
            && (Saw(PlainFor(p, j, bodies).0, e) <==>
                  e in p1.entries && !PlainRemovedAhead(P.Step(p1, P.Advance(j)), j, bodies[1..], e))
  {
    var e := P.Entry(PlainRun(p, pre).hi, t);
    HeldInRange(p, p.cursors[j].value);
    assert AllSpare(bodies[0], j);
    BackPut(p, j, bodies, pre, t, post);
    IterationKeeps(p, j, bodies[0]);
    var p1 := PlainRun(p, bodies[0]);
    if e in p1.entries {
      PlainForSees(P.Step(p1, P.Advance(j)), j, bodies[1..], e);
    } else {
      BackLost(p, j, bodies, pre, t, post);
    }
  }

  /** If the body itself takes it out again, it is not seen. */
  lemma BackLost<J, T>(
      p: P.Plain<J, T>, j: J, bodies: seq<seq<P.Op<J, T>>>, pre: seq<P.Op<J, T>>, t: T, post: seq<P.Op<J, T>>)
    requires Ready(p, j, bodies) && p.cursors[j].Some?
    requires bodies != [] && bodies[0] == pre + [P.AddBack(t)] + post
    requires P.Entry(PlainRun(p, pre).hi, t) !in PlainRun(p, bodies[0]).entries
    ensures !Saw(PlainFor(p, j, bodies).0, P.Entry(PlainRun(p, pre).hi, t))
  {
    var q := PlainRun(p, pre);
    var e := P.Entry(q.hi, t);
    var q2 := P.Step(q, P.AddBack(t));
    HeldInRange(p, p.cursors[j].value);
    assert AllSpare(bodies[0], j);
    SparesParts(pre, P.AddBack(t), post, j);
    RunKeeps(p, pre, j);
    P.StepKeepsValid(q, P.AddBack(t));
    PlainRunConcat(p, pre, [P.AddBack(t)]);
    PlainRunConcat(p, pre + [P.AddBack(t)], post);
    assert PlainRun(q, [P.AddBack(t)]) == PlainRun(q2, []) == q2;
    assert e in q2.entries;
    RunKeeps(q2, post, j);
    IterationKeeps(p, j, bodies[0]);
    KeyGone(q2, PlainRun(p, bodies[0]), e);
    GoneStaysGone(P.Step(PlainRun(p, bodies[0]), P.Advance(j)), j, bodies[1..], e.key);
  }

  /** In the first iteration: what is added at the front is never seen. */
  lemma PlainFrontUnseen<J, T>(
      p: P.Plain<J, T>, j: J, bodies: seq<seq<P.Op<J, T>>>, pre: seq<P.Op<J, T>>, t: T, post: seq<P.Op<J, T>>)
    requires Ready(p, j, bodies) && p.cursors[j].Some?
    requires bodies != [] && bodies[0] == pre + [P.AddFront(t)] + post
    ensures var e := P.Entry(PlainRun(p, pre).lo - 1, t);
            && e in PlainRun(p, pre + [P.AddFront(t)]).entries && e.key < p.lo
            && !Saw(PlainFor(p, j, bodies).0, e)
  {
    var q := PlainRun(p, pre);
    var e := P.Entry(q.lo - 1, t);
    HeldInRange(p, p.cursors[j].value);
    assert AllSpare(bodies[0], j);
    SparesParts(pre, P.AddFront(t), post, j);
    RunKeeps(p, pre, j);
    PlainRunConcat(p, pre, [P.AddFront(t)]);
    assert PlainRun(q, [P.AddFront(t)]) == PlainRun(P.Step(q, P.AddFront(t)), []);
    assert P.Step(q, P.AddFront(t)).entries[0] == e;
    PlainForAscends(p, j, bodies);
  }

  ghost predicate Looping<J, T>(s: RefList<J, T>, j: J, bodies: seq<seq<P.Op<J, T>>>) {
    Valid(s) && Ready(Abs(s), j, bodies)
  }

  lemma LoopStarts<J, T>(s: RefList<J, T>, j: J, bodies: seq<seq<P.Op<J, T>>>)
    requires Valid(s) && j !in s.iters && BodiesSpare(bodies, j)
    ensures Looping(Step(s, P.Begin(j)), j, bodies)
  {
    StartsOnLive(s, j);
  }

  lemma LoopGoesOn<J, T>(s: RefList<J, T>, j: J, bodies: seq<seq<P.Op<J, T>>>)
    requires Looping(s, j, bodies) && bodies != [] && s.iters[j].Some?
    ensures var next := Step(Run(s, bodies[0]), P.Advance(j));
            && Looping(next, j, bodies[1..]) && next.lo <= s.lo && s.hi <= next.hi
            && s.lo <= s.iters[j].value < s.hi
  {
    assert AllSpare(bodies[0], j);
    HeldInRange(Abs(s), s.iters[j].value);
    RunRefines(s, bodies[0]);
    StepRefines(Run(s, bodies[0]), P.Advance(j));
    IterationKeeps(Abs(s), j, bodies[0]);
  }

  /** Keys handed out from iteration `i` on cannot have been seen before it. */
  lemma {:induction false} SeenFromTop<J, T>(
      s: RefList<J, T>, j: J, bodies: seq<seq<P.Op<J, T>>>, i: nat, e: P.Entry<T>)
    requires Looping(s, j, bodies) && i < |bodies| && GetsTo(s, j, bodies, i)
    ensures var top := Top(s, j, bodies, i);
            && Looping(top, j, bodies[i..]) && top.iters[j].Some? && top.lo <= s.lo && s.hi <= top.hi
            && RangeFor(top, j, bodies[i..]).1 == RangeFor(s, j, bodies).1
            && (!(top.lo <= e.key < top.hi) ==>
                  (Saw(RangeFor(s, j, bodies).0, e) <==> Saw(RangeFor(top, j, bodies[i..]).0, e)))
    decreases i
  {
    if i == 0 {
      assert bodies[0..] == bodies;
    } else {
      LoopGoesOn(s, j, bodies);
      assert bodies[1..][i - 1..] == bodies[i..];
      SeenFromTop(Step(Run(s, bodies[0]), P.Advance(j)), j, bodies[1..], i - 1, e);
    }
  }

  /**
   What any body of a loop adds at the back is put in the list, and if the loop gets to the end it
   has seen it exactly if it was not removed before the loop came to it.
   */
  lemma AddedBackIsSeen<J, T>(
      s: RefList<J, T>, j: J, bodies: seq<seq<P.Op<J, T>>>, i: nat, pre: seq<P.Op<J, T>>, t: T, post: seq<P.Op<J, T>>)
    requires Valid(s) && j !in s.iters && BodiesSpare(bodies, j)
    requires i < |bodies| && bodies[i] == pre + [P.AddBack(t)] + post
    requires var s1 := Step(s, P.Begin(j)); GetsTo(s1, j, bodies, i)
    ensures var s1 := Step(s, P.Begin(j));
            var (visits, end) := RangeFor(s1, j, bodies);
            var top := Top(s1, j, bodies, i);
            var e := P.Entry(Run(top, pre).hi, t);
            && e in Live(Run(top, pre + [P.AddBack(t)]).cells)
            && (j in end.iters && end.iters[j].None? ==>
                  (Saw(visits, e) <==>
                    && e in Live(Run(top, bodies[i]).cells)
                    && !RemovedAhead(Step(Run(top, bodies[i]), P.Advance(j)), j, bodies[i + 1..], e)))
  {
    var s1 := Step(s, P.Begin(j));
    LoopStarts(s, j, bodies);
    var e := P.Entry(Run(Top(s1, j, bodies, i), pre).hi, t);
    SeenFromTop(s1, j, bodies, i, e);
    assert bodies[i..][0] == bodies[i] && bodies[i..][1..] == bodies[i + 1..];
    BackSeen(Top(s1, j, bodies, i), j, bodies[i..], pre, t, post);
  }

  lemma BackSeen<J, T>(
      s: RefList<J, T>, j: J, bodies: seq<seq<P.Op<J, T>>>, pre: seq<P.Op<J, T>>, t: T, post: seq<P.Op<J, T>>)
    requires Looping(s, j, bodies) && s.iters[j].Some?
    requires bodies != [] && bodies[0] == pre + [P.AddBack(t)] + post
    ensures var (visits, end) := RangeFor(s, j, bodies);
            var e := P.Entry(Run(s, pre).hi, t);
            && e in Live(Run(s, pre + [P.AddBack(t)]).cells) && s.hi <= e.key
            && (j in end.iters && end.iters[j].None? ==>
                  (Saw(visits, e) <==>
                    && e in Live(Run(s, bodies[0]).cells)
                    && !RemovedAhead(Step(Run(s, bodies[0]), P.Advance(j)), j, bodies[1..], e)))
  {
    var e := P.Entry(Run(s, pre).hi, t);
    RangeForRefines(s, j, bodies);
    RunLeaves(s, pre);
    RunLeaves(s, pre + [P.AddBack(t)]);
    RunRefines(s, bodies[0]);
    StepRefines(Run(s, bodies[0]), P.Advance(j));
    RemovedAheadRefines(Step(Run(s, bodies[0]), P.Advance(j)), j, bodies[1..], e);
    BackPut(Abs(s), j, bodies, pre, t, post);
    var end := RangeFor(s, j, bodies).1;
    if j in end.iters && end.iters[j].None? {
      PlainBackSeen(Abs(s), j, bodies, pre, t, post);
    }
  }

  lemma BackPut<J, T>(
      p: P.Plain<J, T>, j: J, bodies: seq<seq<P.Op<J, T>>>, pre: seq<P.Op<J, T>>, t: T, post: seq<P.Op<J, T>>)
    requires Ready(p, j, bodies) && bodies != [] && bodies[0] == pre + [P.AddBack(t)] + post
    ensures var e := P.Entry(PlainRun(p, pre).hi, t);
            e in PlainRun(p, pre + [P.AddBack(t)]).entries && p.hi <= e.key
  {
    var q := PlainRun(p, pre);
    assert AllSpare(bodies[0], j);
    SparesParts(pre, P.AddBack(t), post, j);
    RunKeeps(p, pre, j);
    PlainRunConcat(p, pre, [P.AddBack(t)]);
    assert PlainRun(q, [P.AddBack(t)]) == PlainRun(P.Step(q, P.AddBack(t)), []);
  }

  /** What any body of a loop adds at the front is put in the list, and the loop never sees it. */
  lemma AddedFrontIsUnseen<J, T>(
      s: RefList<J, T>, j: J, bodies: seq<seq<P.Op<J, T>>>, i: nat, pre: seq<P.Op<J, T>>, t: T, post: seq<P.Op<J, T>>)
    requires Valid(s) && j !in s.iters && BodiesSpare(bodies, j)
    requires i < |bodies| && bodies[i] == pre + [P.AddFront(t)] + post
    requires var s1 := Step(s, P.Begin(j)); GetsTo(s1, j, bodies, i)
    ensures var s1 := Step(s, P.Begin(j));
            var top := Top(s1, j, bodies, i);
            var e := P.Entry(Run(top, pre).lo - 1, t);
            && e in Live(Run(top, pre + [P.AddFront(t)]).cells)
            && !Saw(RangeFor(s1, j, bodies).0, e)
  {
    var s1 := Step(s, P.Begin(j));
    LoopStarts(s, j, bodies);
    var top := Top(s1, j, bodies, i);
    var e := P.Entry(Run(top, pre).lo - 1, t);
    SeenFromTop(s1, j, bodies, i, e);
    assert bodies[i..][0] == bodies[i];
    FrontUnseen(top, j, bodies[i..], pre, t, post);
  }

  lemma RunLeaves<J, T>(s: RefList<J, T>, ops: seq<P.Op<J, T>>)
    requires Valid(s)
    ensures var p := PlainRun(Abs(s), ops);
            Live(Run(s, ops).cells) == p.entries && Run(s, ops).lo == p.lo && Run(s, ops).hi == p.hi
  {
    RunRefines(s, ops);
  }

  lemma FrontUnseen<J, T>(
      s: RefList<J, T>, j: J, bodies: seq<seq<P.Op<J, T>>>, pre: seq<P.Op<J, T>>, t: T, post: seq<P.Op<J, T>>)
    requires Looping(s, j, bodies) && s.iters[j].Some?
    requires bodies != [] && bodies[0] == pre + [P.AddFront(t)] + post
    ensures var e := P.Entry(Run(s, pre).lo - 1, t);
            && e in Live(Run(s, pre + [P.AddFront(t)]).cells) && e.key < s.lo
            && !Saw(RangeFor(s, j, bodies).0, e)
  {
    PlainFrontUnseen(Abs(s), j, bodies, pre, t, post);
    FrontLeaves(s, pre, t);
    LoopReads(s, j, bodies);
  }

  lemma FrontLeaves<J, T>(s: RefList<J, T>, pre: seq<P.Op<J, T>>, t: T)
    requires Valid(s)
    ensures Run(s, pre).lo == PlainRun(Abs(s), pre).lo
    ensures var op := P.AddFront(t); Live(Run(s, pre + [op]).cells) == PlainRun(Abs(s), pre + [op]).entries
  {
    RunLeaves(s, pre);
    RunLeaves(s, pre + [P.AddFront(t)]);
  }

  lemma LoopReads<J, T>(s: RefList<J, T>, j: J, bodies: seq<seq<P.Op<J, T>>>)
    requires Valid(s)
    ensures RangeFor(s, j, bodies).0 == PlainFor(Abs(s), j, bodies).0
  {
    RangeForRefines(s, j, bodies);
  }
}
