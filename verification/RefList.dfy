/**
 The reference-counted list as values: cells with a count and an item that becomes a tombstone
 when it is removed under an iterator. `Step` does to these cells what the C++ code does to
 its nodes, and `StepRefines` shows that counts and tombstones never show: every operation acts
 on the live entries and the iterators exactly as `PlainList.Step` says.
 */
module RefList {
  import opened Options
  import opened Folding
  import P = PlainList

  /** One list node. `key` stands for the node's address; `item` is None for a tombstone. */
  datatype Cell<T> = Cell(key: int, count: int, item: Option<T>) {
    predicate Removed() { item.None? }
  }

  /**
   All nodes in order, the range [lo, hi) of keys handed out, and every iterator whose list
   pointer is set, with the node it stands on (None is the end of the list).
   */
  datatype RefList<J, T> = RefList(cells: seq<Cell<T>>, lo: int, hi: int, iters: map<J, Option<int>>)

  // ----- operations on cells

  function IndexOf<T>(cells: seq<Cell<T>>, key: int): (i: nat)
    ensures i <= |cells|
    ensures i < |cells| ==> cells[i].key == key
  {
    if cells == [] || cells[0].key == key then 0 else 1 + IndexOf(cells[1..], key)
  }

  function KeyAt<T>(cells: seq<Cell<T>>, i: nat): Option<int> {
    if i < |cells| then Some(cells[i].key) else None
  }

  function Erase<T>(cells: seq<Cell<T>>, i: nat): seq<Cell<T>>
    requires i < |cells|
  {
    cells[..i] + cells[i + 1..]
  }

  function Count<T>(cells: seq<Cell<T>>, i: nat, delta: int): seq<Cell<T>>
    requires i < |cells|
  {
    cells[i := cells[i].(count := cells[i].count + delta)]
  }

  /** Moves on from node `i`, erasing it if it is a tombstone nobody refers to. */
  function StepOver<T>(cells: seq<Cell<T>>, i: nat): (r: (seq<Cell<T>>, nat))
    requires i < |cells|
    ensures r.1 <= |r.0| && |r.0| - r.1 == |cells| - i - 1
  {
    if cells[i].Removed() && cells[i].count == 0 then (Erase(cells, i), i) else (cells, i + 1)
  }

  /** Steps over tombstones from node `i` until a live node or the end. */
  function Skip<T>(cells: seq<Cell<T>>, i: nat): (r: (seq<Cell<T>>, nat))
    requires i <= |cells|
    ensures r.1 <= |r.0|
    decreases |cells| - i
  {
    if i < |cells| && cells[i].Removed() then
      var (cells', i') := StepOver(cells, i);
      Skip(cells', i')
    else (cells, i)
  }

  /** Erases an unreferenced node, empties a referenced one; returns the successor too. */
  function RemoveOrTombstone<T>(cells: seq<Cell<T>>, i: nat): (r: (seq<Cell<T>>, nat))
    requires i < |cells|
    ensures r.1 <= |r.0| && |r.0| - r.1 == |cells| - i - 1
  {
    if cells[i].count == 0 then (Erase(cells, i), i)
    else (cells[i := cells[i].(item := None)], i + 1)
  }

  function FindItem<T(==)>(cells: seq<Cell<T>>, item: T): (i: nat)
    ensures i <= |cells|
    ensures i < |cells| ==> cells[i].item == Some(item)
    ensures forall k :: 0 <= k < i ==> cells[k].item != Some(item)
  {
    if cells == [] || cells[0].item == Some(item) then 0 else 1 + FindItem(cells[1..], item)
  }

  /** The first match is the one that is found. */
  lemma {:induction false} FirstItem<T>(cells: seq<Cell<T>>, item: T, i: nat)
    requires i <= |cells| && forall k :: 0 <= k < i ==> cells[k].item != Some(item)
    requires i < |cells| ==> cells[i].item == Some(item)
    ensures FindItem(cells, item) == i
  {
    if i > 0 {
      FirstItem(cells[1..], item, i - 1);
    }
  }

  function ClearFrom<T>(cells: seq<Cell<T>>, i: nat): seq<Cell<T>>
    requires i <= |cells|
    decreases |cells| - i
  {
    if i == |cells| then cells
    else
      var (cells', i') := RemoveOrTombstone(cells, i);
      ClearFrom(cells', i')
  }

  // ----- operations on lists and iterators

  /** `incref`: iterator `j` now stands on `at`. */
  function Attach<J, T>(s: RefList<J, T>, j: J, at: Option<int>): RefList<J, T> {
    var s' := s.(iters := s.iters[j := at]);
    if at.None? then s' else
    var i := IndexOf(s.cells, at.value);
    if i < |s.cells| then s'.(cells := Count(s.cells, i, 1)) else s'
  }

  /** `decref`: iterator `j` lets go, and the node goes too if it was a tombstone only `j` held. */
  function Detach<J, T>(s: RefList<J, T>, j: J): RefList<J, T> {
    var s' := s.(iters := s.iters - {j});
    if j !in s.iters || s.iters[j].None? then s' else
    var i := IndexOf(s.cells, s.iters[j].value);
    if i == |s.cells| then s' else
    var cells := Count(s.cells, i, -1);
    s'.(cells := if cells[i].count == 0 && cells[i].Removed() then Erase(cells, i) else cells)
  }

  function Begin<J, T>(s: RefList<J, T>, j: J): RefList<J, T> {
    var (cells, i) := Skip(s.cells, 0);
    Attach(s.(cells := cells), j, KeyAt(cells, i))
  }

  function Remove<J, T(==)>(s: RefList<J, T>, item: T): RefList<J, T> {
    var i := FindItem(s.cells, item);
    if i < |s.cells| then s.(cells := RemoveOrTombstone(s.cells, i).0) else s
  }

  /** `advance`: drop the count by hand, step at least once, then over tombstones, then `incref`. */
  function Advance<J, T>(s: RefList<J, T>, j: J): RefList<J, T>
    requires j in s.iters && s.iters[j].Some?
  {
    var i := IndexOf(s.cells, s.iters[j].value);
    if i == |s.cells| then s else
    var (cells1, i1) := StepOver(Count(s.cells, i, -1), i);
    var (cells2, i2) := Skip(cells1, i1);
    Attach(s.(cells := cells2, iters := s.iters - {j}), j, KeyAt(cells2, i2))
  }

  /** Copying from an iterator without a list leaves the target without one. */
  function AttachLike<J, T>(s: RefList<J, T>, j: J, k: J): RefList<J, T> {
    if k in s.iters then Attach(s, j, s.iters[k]) else s
  }

  /** Takes over the other iterator's node without touching its count. */
  function Transfer<J, T>(s: RefList<J, T>, j: J, k: J): RefList<J, T> {
    if k in s.iters then s.(iters := (s.iters - {k})[j := s.iters[k]]) else s
  }

  function Step<J, T(==)>(s: RefList<J, T>, op: P.Op<J, T>): RefList<J, T> {
    if !P.Enabled(s.iters, op) then s else
    match op
    case AddBack(t) => s.(cells := s.cells + [Cell(s.hi, 0, Some(t))], hi := s.hi + 1)
    case AddFront(t) => s.(cells := [Cell(s.lo - 1, 0, Some(t))] + s.cells, lo := s.lo - 1)
    case Remove(t) => Remove(s, t)
    case Clear => s.(cells := ClearFrom(s.cells, 0))
    case Begin(j) => Begin(s, j)
    case Copy(j, k) => AttachLike(s, j, k)
    case Assign(j, k) => if j == k then s else AttachLike(Detach(s, j), j, k)
    case Move(j, k) => Transfer(s, j, k)
    case MoveAssign(j, k) => if j == k then s else Transfer(Detach(s, j), j, k)
    case Advance(j) => Advance(s, j)
    case Destroy(j) => Detach(s, j)
  }

  // ----- the invariant

  /** The iterators that stand on node `key`. */
  ghost function Holders<J>(iters: map<J, Option<int>>, key: int): set<J> {
    set j | j in iters && iters[j] == Some(key)
  }

  ghost function Refs<J>(iters: map<J, Option<int>>, key: int): nat {
    |Holders(iters, key)|
  }

  ghost predicate Ordered<T>(cells: seq<Cell<T>>) {
    forall a, b :: 0 <= a < b < |cells| ==> cells[a].key < cells[b].key
  }

  ghost predicate InRange<T>(cells: seq<Cell<T>>, lo: int, hi: int) {
    forall i :: 0 <= i < |cells| ==> lo <= cells[i].key < hi
  }

  /** Counts are exact, tombstones are referenced, and no iterator stands on an erased node. */
  ghost predicate Counted<J, T>(cells: seq<Cell<T>>, iters: map<J, Option<int>>) {
    && (forall i :: 0 <= i < |cells| ==> cells[i].count == Refs(iters, cells[i].key))
    && (forall i :: 0 <= i < |cells| && cells[i].Removed() ==> cells[i].count > 0)
    && (forall j :: j in iters && iters[j].Some? ==> IndexOf(cells, iters[j].value) < |cells|)
  }

  /** Cells and iterators fit together. */
  ghost predicate Sound<J, T>(s: RefList<J, T>) {
    forall n {:trigger Open(n)} :: Open(n) ==>
      Ordered(s.cells) && InRange(s.cells, s.lo, s.hi) && Counted(s.cells, s.iters)
  }

  ghost predicate Valid<J, T>(s: RefList<J, T>) {
    s.lo <= s.hi && Sound(s)
  }

  // ----- the plain list behind the cells

  function Alive<T>(c: Cell<T>): seq<P.Entry<T>> {
    if c.Removed() then [] else [P.Entry(c.key, c.item.value)]
  }

  function Live<T>(cells: seq<Cell<T>>): seq<P.Entry<T>> {
    if cells == [] then [] else Alive(cells[0]) + Live(cells[1..])
  }

  function Abs<J, T>(s: RefList<J, T>): P.Plain<J, T> {
    P.Plain(Live(s.cells), s.lo, s.hi, s.iters)
  }

  // ----- counting references

  lemma RefsAdd<J>(iters: map<J, Option<int>>, j: J, at: Option<int>, key: int)
    requires j !in iters
    ensures Refs(iters[j := at], key) == Refs(iters, key) + if at == Some(key) then 1 else 0
  {
    var before := Holders(iters, key);
    assert Holders(iters[j := at], key) == if at == Some(key) then before + {j} else before;
  }

  lemma RefsDrop<J>(iters: map<J, Option<int>>, j: J, key: int)
    requires j in iters
    ensures Refs(iters, key) == Refs(iters - {j}, key) + if iters[j] == Some(key) then 1 else 0
  {
    assert iters == (iters - {j})[j := iters[j]];
    RefsAdd(iters - {j}, j, iters[j], key);
  }

  lemma RefsMove<J>(iters: map<J, Option<int>>, j: J, k: J, key: int)
    requires k in iters && (j == k || j !in iters)
    ensures Refs((iters - {k})[j := iters[k]], key) == Refs(iters, key)
  {
    RefsDrop(iters, k, key);
    RefsAdd(iters - {k}, j, iters[k], key);
  }

  lemma UnreferencedMeansNobody<J>(iters: map<J, Option<int>>, key: int)
    requires Refs(iters, key) == 0
    ensures forall j :: j in iters ==> iters[j] != Some(key)
  {
    forall j | j in iters ensures iters[j] != Some(key) {
      assert j !in Holders(iters, key);
    }
  }

  // ----- what the live entries are after an edit

  lemma {:induction false} LiveConcat<T>(a: seq<Cell<T>>, b: seq<Cell<T>>)
    ensures Live(a + b) == Live(a) + Live(b)
  {
    if a == [] {
      assert a + b == b;
    } else {
      LiveConcat(a[1..], b);
      assert (a + b)[1..] == a[1..] + b;
      Reassociate(Alive(a[0]), Live(a[1..]), Live(b));
    }
  }

  lemma Reassociate<X>(a: seq<X>, b: seq<X>, c: seq<X>)
    ensures a + (b + c) == (a + b) + c
  {
  }

  lemma SplitAt<X>(s: seq<X>, i: nat)
    requires i < |s|
    ensures s == s[..i] + ([s[i]] + s[i + 1..])
  {
  }

  lemma LiveFirst<T>(c: Cell<T>, rest: seq<Cell<T>>)
    ensures Live([c] + rest) == Alive(c) + Live(rest)
  {
    assert ([c] + rest)[1..] == rest;
  }

  lemma LiveMiddle<T>(a: seq<Cell<T>>, c: Cell<T>, b: seq<Cell<T>>)
    ensures Live(a + ([c] + b)) == Live(a) + (Alive(c) + Live(b))
    ensures Live(a + b) == Live(a) + Live(b)
    ensures c.Removed() ==> Live(a + ([c] + b)) == Live(a + b)
  {
    LiveConcat(a, [c] + b);
    LiveConcat(a, b);
    LiveFirst(c, b);
    assert [] + Live(b) == Live(b);
  }

  /** Node `i` replaced by another. */
  lemma ReplacedAt<X>(s: seq<X>, i: nat, x: X)
    requires i < |s|
    ensures s[i := x] == s[..i] + ([x] + s[i + 1..])
  {
  }

  /** Every live entry comes from a node ... */
  lemma {:induction false} LiveFrom<T>(cells: seq<Cell<T>>, e: P.Entry<T>) returns (i: nat)
    requires e in Live(cells)
    ensures i < |cells| && cells[i].key == e.key && cells[i].item == Some(e.item)
  {
    if e in Live(cells[1..]) {
      i := LiveFrom(cells[1..], e);
      i := i + 1;
    } else {
      i := 0;
    }
  }

  /** ... and every node that is no tombstone gives one. */
  lemma {:induction false} LiveHas<T>(cells: seq<Cell<T>>, i: nat)
    requires i < |cells| && !cells[i].Removed()
    ensures P.Entry(cells[i].key, cells[i].item.value) in Live(cells)
  {
    if i > 0 {
      LiveHas(cells[1..], i - 1);
    }
  }

  lemma {:induction false} LiveSorted<T>(cells: seq<Cell<T>>)
    requires Ordered(cells)
    ensures P.Sorted(Live(cells))
  {
    if cells != [] {
      LiveSorted(cells[1..]);
      forall e | e in Live(cells[1..]) ensures cells[0].key < e.key {
        var i := LiveFrom(cells[1..], e);
        assert cells[i + 1].key == e.key;
      }
    }
  }

  /** `FindItem` finds something exactly if some live entry holds the item. */
  lemma RemovesIfLive<T>(cells: seq<Cell<T>>, item: T)
    ensures FindItem(cells, item) < |cells| <==> exists e :: e in Live(cells) && e.item == item
  {
    var i := FindItem(cells, item);
    if i < |cells| {
      LiveHas(cells, i);
    }
    forall e | e in Live(cells) && e.item == item ensures i < |cells| {
      var k := LiveFrom(cells, e);
    }
  }

  // ----- skipping tombstones

  /** No tombstone from `i` on is free to go. */
  ghost predicate Pinned<T>(cells: seq<Cell<T>>, i: nat) {
    forall k :: i <= k < |cells| && cells[k].Removed() ==> cells[k].count != 0
  }

  lemma {:induction false} SkipStops<T>(cells: seq<Cell<T>>, i: nat)
    requires i <= |cells| && Pinned(cells, i)
    ensures var (cells', n) := Skip(cells, i);
            && cells' == cells && i <= n
            && (forall k :: i <= k < n ==> cells[k].Removed())
            && (n < |cells| ==> !cells[n].Removed())
    decreases |cells| - i
  {
    if i < |cells| && cells[i].Removed() {
      SkipStops(cells, i + 1);
    }
  }

  lemma {:induction false} NextSkips<T>(a: seq<P.Entry<T>>, b: seq<P.Entry<T>>, key: int)
    requires forall e :: e in a ==> e.key <= key
    ensures P.Next(a + b, key) == P.Next(b, key)
  {
    if a == [] {
      assert a + b == b;
    } else {
      assert a[0] in a;
      assert (a + b)[1..] == a[1..] + b;
      NextSkips(a[1..], b, key);
    }
  }

  lemma {:induction false} LiveBeyond<T>(cells: seq<Cell<T>>, i: nat, n: nat)
    requires i <= n <= |cells| && forall k :: i <= k < n ==> cells[k].Removed()
    ensures Live(cells[i..]) == Live(cells[n..])
    decreases n - i
  {
    if i < n {
      assert cells[i..][1..] == cells[i + 1..];
      LiveBeyond(cells, i + 1, n);
    }
  }

  /** Skipping from the first node beyond `key` lands on the next live entry beyond `key`. */
  lemma SkipFindsNext<T>(cells: seq<Cell<T>>, i: nat, key: int)
    requires i <= |cells| && Pinned(cells, i)
    requires forall k :: 0 <= k < i ==> cells[k].key <= key
    requires forall k :: i <= k < |cells| ==> cells[k].key > key
    ensures KeyAt(cells, Skip(cells, i).1) == P.Next(Live(cells), key)
  {
    SkipStops(cells, i);
    var n := Skip(cells, i).1;
    LiveBeyond(cells, i, n);
    assert cells[..i] + cells[i..] == cells;
    LiveConcat(cells[..i], cells[i..]);
    forall e | e in Live(cells[..i]) ensures e.key <= key {
      var k := LiveFrom(cells[..i], e);
    }
    NextSkips(Live(cells[..i]), Live(cells[n..]), key);
    if n < |cells| {
      assert cells[n..][0] == cells[n];
    } else {
      assert cells[n..] == [];
    }
  }

  // ----- what each building block keeps

  lemma AttachCounted<J, T>(s: RefList<J, T>, j: J, at: Option<int>)
    requires Sound(s) && j !in s.iters
    requires at.Some? ==> IndexOf(s.cells, at.value) < |s.cells|
    ensures Sound(Attach(s, j, at))
  {
    assert Open(0);
    var s' := Attach(s, j, at);
    forall i | 0 <= i < |s'.cells| ensures s'.cells[i].count == Refs(s'.iters, s'.cells[i].key) {
      RefsAdd(s.iters, j, at, s.cells[i].key);
    }
    forall k | k in s'.iters && s'.iters[k].Some? ensures IndexOf(s'.cells, s'.iters[k].value) < |s'.cells| {
      IndexKept(s.cells, s'.cells, s'.iters[k].value);
    }
  }

  lemma AttachSound<J, T>(s: RefList<J, T>, j: J, at: Option<int>)
    requires Sound(s) && j !in s.iters
    requires at.Some? ==> IndexOf(s.cells, at.value) < |s.cells|
    ensures Sound(Attach(s, j, at)) && Live(Attach(s, j, at).cells) == Live(s.cells)
    ensures Attach(s, j, at).iters == s.iters[j := at]
  {
    assert Open(0);
    AttachCounted(s, j, at);
    if at.Some? {
      RecountLive(s.cells, IndexOf(s.cells, at.value), 1);
    }
  }

  lemma RecountLive<T>(cells: seq<Cell<T>>, i: nat, delta: int)
    requires i < |cells|
    ensures Live(Count(cells, i, delta)) == Live(cells)
  {
    var c := cells[i].(count := cells[i].count + delta);
    SplitAt(cells, i);
    ReplacedAt(cells, i, c);
    LiveMiddle(cells[..i], cells[i], cells[i + 1..]);
    LiveMiddle(cells[..i], c, cells[i + 1..]);
  }

  lemma {:induction false} IndexFound<T>(cells: seq<Cell<T>>, i: nat)
    requires i < |cells|
    ensures IndexOf(cells, cells[i].key) <= i
  {
    if i > 0 && cells[0].key != cells[i].key {
      IndexFound(cells[1..], i - 1);
    }
  }

  /** Editing counts and items moves no node. */
  lemma {:induction false} IndexKept<T>(a: seq<Cell<T>>, b: seq<Cell<T>>, key: int)
    requires |a| == |b| && forall i :: 0 <= i < |a| ==> a[i].key == b[i].key
    ensures IndexOf(a, key) == IndexOf(b, key)
  {
    if a != [] && a[0].key != key {
      IndexKept(a[1..], b[1..], key);
    }
  }

  lemma EraseKeepsOthers<T>(cells: seq<Cell<T>>, i: nat, key: int)
    requires i < |cells| && IndexOf(cells, key) < |cells| && cells[i].key != key
    ensures IndexOf(Erase(cells, i), key) < |Erase(cells, i)|
  {
    var n := IndexOf(cells, key);
    var m := if n < i then n else n - 1;
    assert Erase(cells, i)[m] == cells[n];
    IndexFound(Erase(cells, i), m);
  }

  /** Erasing a node nobody stands on. */
  lemma EraseSound<J, T>(cells: seq<Cell<T>>, iters: map<J, Option<int>>, i: nat, lo: int, hi: int)
    requires i < |cells| && Ordered(cells) && InRange(cells, lo, hi)
    requires Refs(iters, cells[i].key) == 0
    requires forall k :: 0 <= k < |cells| ==> cells[k].count == Refs(iters, cells[k].key)
    requires forall k :: 0 <= k < |cells| && k != i && cells[k].Removed() ==> cells[k].count > 0
    requires forall j :: j in iters && iters[j].Some? ==> IndexOf(cells, iters[j].value) < |cells|
    ensures Ordered(Erase(cells, i)) && InRange(Erase(cells, i), lo, hi) && Counted(Erase(cells, i), iters)
  {
    var e := Erase(cells, i);
    assert forall k :: 0 <= k < |e| ==> e[k] == cells[if k < i then k else k + 1];
    UnreferencedMeansNobody(iters, cells[i].key);
    forall j | j in iters && iters[j].Some? ensures IndexOf(e, iters[j].value) < |e| {
      EraseKeepsOthers(cells, i, iters[j].value);
    }
  }

  /** Dropping one count leaves every count exact for the remaining iterators. */
  lemma DropCounted<J, T>(s: RefList<J, T>, j: J)
    requires Sound(s) && j in s.iters && s.iters[j].Some? && IndexOf(s.cells, s.iters[j].value) < |s.cells|
    ensures var i := IndexOf(s.cells, s.iters[j].value);
            var cells := Count(s.cells, i, -1);
            && Ordered(cells) && InRange(cells, s.lo, s.hi)
            && Live(cells) == Live(s.cells)
            && (forall k :: 0 <= k < |cells| ==> cells[k].count == Refs(s.iters - {j}, cells[k].key))
            && (forall k :: 0 <= k < |cells| && k != i && cells[k].Removed() ==> cells[k].count > 0)
            && (forall k :: k in s.iters - {j} && s.iters[k].Some? ==> IndexOf(cells, s.iters[k].value) < |cells|)
  {
    assert Open(0);
    var i := IndexOf(s.cells, s.iters[j].value);
    var cells := Count(s.cells, i, -1);
    forall k | 0 <= k < |cells| ensures cells[k].count == Refs(s.iters - {j}, cells[k].key) {
      RefsDrop(s.iters, j, s.cells[k].key);
    }
    forall k | k in s.iters - {j} && s.iters[k].Some? ensures IndexOf(cells, s.iters[k].value) < |cells| {
      IndexKept(s.cells, cells, s.iters[k].value);
    }
    RecountLive(s.cells, i, -1);
  }

  lemma DetachSound<J, T>(s: RefList<J, T>, j: J)
    requires Sound(s)
    ensures Sound(Detach(s, j)) && Live(Detach(s, j).cells) == Live(s.cells)
    ensures Detach(s, j).iters == s.iters - {j}
  {
    assert Open(0);
    var s' := Detach(s, j);
    if j !in s.iters {
      assert s.iters - {j} == s.iters;
    } else if s.iters[j].None? {
      forall i | 0 <= i < |s.cells| ensures s.cells[i].count == Refs(s'.iters, s.cells[i].key) {
        RefsDrop(s.iters, j, s.cells[i].key);
      }
    } else {
      var i := IndexOf(s.cells, s.iters[j].value);
      var cells := Count(s.cells, i, -1);
      DropCounted(s, j);
      if cells[i].count == 0 && cells[i].Removed() {
        EraseSound(cells, s'.iters, i, s.lo, s.hi);
        SplitAt(cells, i);
        LiveMiddle(cells[..i], cells[i], cells[i + 1..]);
      }
    }
  }

  lemma TransferSound<J, T>(s: RefList<J, T>, j: J, k: J)
    requires Sound(s) && j !in s.iters && j != k
    ensures Sound(Transfer(s, j, k)) && Transfer(s, j, k).cells == s.cells
    ensures Transfer(s, j, k).iters == P.Shift(s.iters, j, k)
  {
    assert Open(0);
    if k in s.iters {
      forall i | 0 <= i < |s.cells|
        ensures Refs(Transfer(s, j, k).iters, s.cells[i].key) == Refs(s.iters, s.cells[i].key)
      {
        RefsMove(s.iters, j, k, s.cells[i].key);
      }
    } else {
      assert s.iters - {j} - {k} == s.iters;
    }
  }

  lemma TombstoneSound<J, T>(cells: seq<Cell<T>>, iters: map<J, Option<int>>, i: nat)
    requires i < |cells| && cells[i].count != 0 && Counted(cells, iters)
    ensures Counted(cells[i := cells[i].(item := None)], iters)
  {
    var c := cells[i := cells[i].(item := None)];
    forall j | j in iters && iters[j].Some? ensures IndexOf(c, iters[j].value) < |c| {
      IndexKept(cells, c, iters[j].value);
    }
  }

  lemma RemoveOrTombstoneSound<J, T>(cells: seq<Cell<T>>, iters: map<J, Option<int>>, i: nat, lo: int, hi: int)
    requires i < |cells| && Ordered(cells) && InRange(cells, lo, hi) && Counted(cells, iters)
    ensures var c := RemoveOrTombstone(cells, i).0; Ordered(c) && InRange(c, lo, hi) && Counted(c, iters)
  {
    if cells[i].count == 0 {
      EraseSound(cells, iters, i, lo, hi);
    } else {
      TombstoneSound(cells, iters, i);
    }
  }

  lemma RemoveOrTombstoneLive<T>(cells: seq<Cell<T>>, i: nat)
    requires i < |cells|
    ensures Live(RemoveOrTombstone(cells, i).0) == Live(cells[..i]) + Live(cells[i + 1..])
  {
    var c := cells[i].(item := None);
    ReplacedAt(cells, i, c);
    LiveMiddle(cells[..i], c, cells[i + 1..]);
  }

  lemma {:induction false} ClearSound<J, T>(cells: seq<Cell<T>>, iters: map<J, Option<int>>, i: nat, lo: int, hi: int)
    requires i <= |cells| && Ordered(cells) && InRange(cells, lo, hi) && Counted(cells, iters)
    ensures var c := ClearFrom(cells, i); Ordered(c) && InRange(c, lo, hi) && Counted(c, iters)
    decreases |cells| - i
  {
    if i < |cells| {
      RemoveOrTombstoneSound(cells, iters, i, lo, hi);
      var (c, n) := RemoveOrTombstone(cells, i);
      ClearSound(c, iters, n, lo, hi);
    }
  }

  lemma {:induction false} ClearEmpties<T>(cells: seq<Cell<T>>, i: nat)
    requires i <= |cells|
    ensures Live(ClearFrom(cells, i)) == Live(cells[..i])
    decreases |cells| - i
  {
    if i == |cells| {
      assert cells[..i] == cells;
    } else {
      var (c, n) := RemoveOrTombstone(cells, i);
      ClearEmpties(c, n);
      if cells[i].count == 0 {
        assert c[..n] == cells[..i];
      } else {
        assert c[..n] == cells[..i] + [c[i]];
        LiveConcat(cells[..i], [c[i]]);
      }
    }
  }

  lemma {:induction false} WithoutFinds<T>(a: seq<P.Entry<T>>, e: P.Entry<T>, b: seq<P.Entry<T>>)
    requires forall x :: x in a ==> x.item != e.item
    ensures P.Without(a + ([e] + b), e.item) == a + b
    ensures P.Without(a, e.item) == a
  {
    if a == [] {
      assert a + ([e] + b) == [e] + b;
    } else {
      assert a[0] in a;
      assert (a + ([e] + b))[1..] == a[1..] + ([e] + b);
      WithoutFinds(a[1..], e, b);
    }
  }

  lemma RemoveRefines<J, T>(s: RefList<J, T>, item: T)
    requires Valid(s)
    ensures Valid(Remove(s, item))
    ensures Live(Remove(s, item).cells) == P.Without(Live(s.cells), item)
  {
    assert Open(0);
    var i := FindItem(s.cells, item);
    if i < |s.cells| {
      RemoveOrTombstoneSound(s.cells, s.iters, i, s.lo, s.hi);
      RemoveOrTombstoneLive(s.cells, i);
    }
    WithoutFound(s.cells, item);
  }

  lemma NotAmong<T>(cells: seq<Cell<T>>, item: T)
    requires forall k :: 0 <= k < |cells| ==> cells[k].item != Some(item)
    ensures forall x :: x in Live(cells) ==> x.item != item
  {
    forall x | x in Live(cells) ensures x.item != item {
      var k := LiveFrom(cells, x);
    }
  }

  lemma WithoutFound<T>(cells: seq<Cell<T>>, item: T)
    ensures var i := FindItem(cells, item);
            P.Without(Live(cells), item) == if i < |cells| then Live(cells[..i]) + Live(cells[i + 1..]) else Live(cells)
  {
    var i := FindItem(cells, item);
    NotAmong(cells[..i], item);
    if i < |cells| {
      SplitAt(cells, i);
      LiveMiddle(cells[..i], cells[i], cells[i + 1..]);
      WithoutFinds(Live(cells[..i]), P.Entry(cells[i].key, item), Live(cells[i + 1..]));
    } else {
      assert cells[..i] == cells;
      WithoutFinds(Live(cells), P.Entry(0, item), []);
    }
  }

  lemma BeginRefines<J, T>(s: RefList<J, T>, j: J)
    requires Valid(s) && j !in s.iters
    ensures Valid(Begin(s, j))
    ensures Abs(Begin(s, j)) == P.Step(Abs(s), P.Begin(j))
  {
    assert Open(0);
    LandingRefines(s, j, 0, s.lo - 1);
    if Live(s.cells) != [] {
      var k := LiveFrom(s.cells, Live(s.cells)[0]);
    }
  }

  /** The first step of `advance` drops what `decref` drops, and ends just beyond the old node. */
  lemma AdvanceFirstStep<J, T>(s: RefList<J, T>, j: J) returns (n: nat)
    requires Valid(s) && j in s.iters && s.iters[j].Some?
    ensures var key, cells := s.iters[j].value, Detach(s, j).cells;
            && n <= |cells|
            && (forall k :: 0 <= k < n ==> cells[k].key <= key)
            && (forall k :: n <= k < |cells| ==> cells[k].key > key)
    ensures var d := Detach(s, j);
            var (cells, m) := Skip(d.cells, n);
            Advance(s, j) == Attach(d.(cells := cells), j, KeyAt(cells, m))
  {
    assert Open(0);
    var i := IndexOf(s.cells, s.iters[j].value);
    var (cells, m) := StepOver(Count(s.cells, i, -1), i);
    n := m;
    forall k | 0 <= k < |cells|
      ensures cells[k].key == s.cells[if n > i || k < i then k else k + 1].key
    {
    }
  }

  lemma AdvanceRefines<J, T>(s: RefList<J, T>, j: J)
    requires Valid(s) && j in s.iters && s.iters[j].Some?
    ensures Valid(Advance(s, j))
    ensures Abs(Advance(s, j)) == P.Step(Abs(s), P.Advance(j))
  {
    var key := s.iters[j].value;
    var n := AdvanceFirstStep(s, j);
    DetachSound(s, j);
    var d := Detach(s, j);
    LandingRefines(d, j, n, key);
    assert d.(cells := d.cells) == d;
    assert (s.iters - {j})[j := P.Next(Live(s.cells), key)] == s.iters[j := P.Next(Live(s.cells), key)];
  }

  /** Skipping on from node `n` and taking hold there. */
  lemma LandingRefines<J, T>(d: RefList<J, T>, j: J, n: nat, key: int)
    requires Sound(d) && j !in d.iters && n <= |d.cells|
    requires forall k :: 0 <= k < n ==> d.cells[k].key <= key
    requires forall k :: n <= k < |d.cells| ==> d.cells[k].key > key
    ensures Skip(d.cells, n).0 == d.cells
    ensures var at := KeyAt(d.cells, Skip(d.cells, n).1);
            && at == P.Next(Live(d.cells), key)
            && Sound(Attach(d, j, at)) && Live(Attach(d, j, at).cells) == Live(d.cells)
            && Attach(d, j, at).iters == d.iters[j := at]
  {
    assert Open(0);
    SkipStops(d.cells, n);
    SkipFindsNext(d.cells, n, key);
    var m := Skip(d.cells, n).1;
    if m < |d.cells| {
      IndexFound(d.cells, m);
    }
    AttachSound(d, j, KeyAt(d.cells, m));
  }

  lemma AttachLikeRefines<J, T>(s: RefList<J, T>, j: J, k: J)
    requires Valid(s) && j !in s.iters
    ensures Valid(AttachLike(s, j, k)) && Abs(AttachLike(s, j, k)) == Abs(s).(cursors := P.Place(s.iters, j, k))
  {
    assert Open(0);
    if k in s.iters {
      AttachSound(s, j, s.iters[k]);
    } else {
      assert s.iters - {j} == s.iters;
    }
  }

  lemma AssignRefines<J, T>(s: RefList<J, T>, j: J, k: J)
    requires Valid(s)
    ensures Valid(Step(s, P.Assign(j, k))) && Abs(Step(s, P.Assign(j, k))) == P.Step(Abs(s), P.Assign(j, k))
  {
    if j == k {
      assert P.Place(s.iters, j, k) == s.iters;
    } else {
      assert P.Place(s.iters - {j}, j, k) == P.Place(s.iters, j, k);
      DetachSound(s, j);
      var d := Detach(s, j);
      assert Valid(d) && j !in d.iters;
      AttachLikeRefines(d, j, k);
    }
  }

  lemma MoveRefines<J, T>(s: RefList<J, T>, j: J, k: J)
    requires Valid(s) && j !in s.iters
    ensures Valid(Step(s, P.Move(j, k))) && Abs(Step(s, P.Move(j, k))) == P.Step(Abs(s), P.Move(j, k))
  {
    if j != k {
      TransferSound(s, j, k);
    }
  }

  lemma MoveAssignRefines<J, T>(s: RefList<J, T>, j: J, k: J)
    requires Valid(s)
    ensures Valid(Step(s, P.MoveAssign(j, k)))
    ensures Abs(Step(s, P.MoveAssign(j, k))) == P.Step(Abs(s), P.MoveAssign(j, k))
  {
    if j != k {
      assert P.Shift(s.iters - {j}, j, k) == P.Shift(s.iters, j, k);
      DetachSound(s, j);
      var d := Detach(s, j);
      assert Sound(d) && j !in d.iters && d.lo == s.lo && d.hi == s.hi;
      TransferSound(d, j, k);
    }
  }

  lemma ClearRefines<J, T>(s: RefList<J, T>)
    requires Valid(s)
    ensures Valid(Step(s, P.Clear)) && Abs(Step(s, P.Clear)) == P.Step(Abs(s), P.Clear)
  {
    assert Open(0);
    ClearSound(s.cells, s.iters, 0, s.lo, s.hi);
    ClearEmpties(s.cells, 0);
  }

  lemma IteratorStepRefines<J, T>(s: RefList<J, T>, op: P.Op<J, T>)
    requires Valid(s) && P.Enabled(s.iters, op)
    requires op.Copy? || op.Assign? || op.Move? || op.MoveAssign? || op.Destroy?
    ensures Valid(Step(s, op))
    ensures Abs(Step(s, op)) == P.Step(Abs(s), op)
  {
    match op
    case Copy(j, k) => AttachLikeRefines(s, j, k);
    case Assign(j, k) => AssignRefines(s, j, k);
    case Move(j, k) => MoveRefines(s, j, k);
    case MoveAssign(j, k) => MoveAssignRefines(s, j, k);
    case Destroy(j) => DetachSound(s, j);
  }

  /**
   The simulation: under the invariant, one operation of the reference-counted list keeps the
   invariant and means exactly one operation of the plain list.
   */
  lemma StepRefines<J, T>(s: RefList<J, T>, op: P.Op<J, T>)
    requires Valid(s)
    ensures Valid(Step(s, op))
    ensures Abs(Step(s, op)) == P.Step(Abs(s), op)
  {
    if P.Enabled(s.iters, op) {
      match op
      case AddBack(t) => AddBackRefines(s, t);
      case AddFront(t) => AddFrontRefines(s, t);
      case Remove(t) => RemoveRefines(s, t);
      case Clear => ClearRefines(s);
      case Begin(j) => BeginRefines(s, j);
      case Advance(j) => AdvanceRefines(s, j);
      case _ => IteratorStepRefines(s, op);
    }
  }

  lemma NewKeyUnreferenced<J, T>(s: RefList<J, T>, key: int)
    requires Valid(s) && !(s.lo <= key < s.hi)
    ensures Refs(s.iters, key) == 0
  {
    assert Open(0);
    forall j | j in s.iters ensures s.iters[j] != Some(key) {
    }
    assert Holders(s.iters, key) == {};
  }

  lemma AddBackRefines<J, T>(s: RefList<J, T>, t: T)
    requires Valid(s)
    ensures Valid(Step(s, P.AddBack(t))) && Abs(Step(s, P.AddBack(t))) == P.Step(Abs(s), P.AddBack(t))
  {
    assert Open(0);
    var s' := Step(s, P.AddBack(t));
    NewKeyUnreferenced(s, s.hi);
    LiveConcat(s.cells, [Cell(s.hi, 0, Some(t))]);
    forall j | j in s'.iters && s'.iters[j].Some? ensures IndexOf(s'.cells, s'.iters[j].value) < |s'.cells| {
      IndexFound(s'.cells, IndexOf(s.cells, s.iters[j].value));
    }
  }

  lemma AddFrontCounted<J, T>(s: RefList<J, T>, c: Cell<T>)
    requires Valid(s) && c.key == s.lo - 1 && c.count == 0 && !c.Removed()
    ensures Counted([c] + s.cells, s.iters)
  {
    assert Open(0);
    NewKeyUnreferenced(s, s.lo - 1);
    forall j | j in s.iters && s.iters[j].Some? ensures IndexOf([c] + s.cells, s.iters[j].value) < |[c] + s.cells| {
      IndexFound([c] + s.cells, 1 + IndexOf(s.cells, s.iters[j].value));
    }
  }

  lemma AddFrontRefines<J, T>(s: RefList<J, T>, t: T)
    requires Valid(s)
    ensures Valid(Step(s, P.AddFront(t))) && Abs(Step(s, P.AddFront(t))) == P.Step(Abs(s), P.AddFront(t))
  {
    assert Open(0);
    var c := Cell(s.lo - 1, 0, Some(t));
    AddFrontCounted(s, c);
    assert ([c] + s.cells)[1..] == s.cells;
  }

  /** Once every iterator is gone or at the end, the stored nodes are exactly the live items. */
  lemma NoIteratorsNoTombstones<J, T>(s: RefList<J, T>)
    requires Valid(s) && forall j :: j in s.iters ==> s.iters[j].None?
    ensures |s.cells| == |Live(s.cells)|
    ensures forall i :: 0 <= i < |s.cells| ==>
        s.cells[i].count == 0 && Some(Live(s.cells)[i].item) == s.cells[i].item
  {
    assert Open(0);
    forall i | 0 <= i < |s.cells| ensures s.cells[i].count == 0 {
      assert Holders(s.iters, s.cells[i].key) == {};
    }
    AllLive(s.cells);
  }

  lemma {:induction false} AllLive<T>(cells: seq<Cell<T>>)
    requires forall i :: 0 <= i < |cells| ==> !cells[i].Removed()
    ensures |Live(cells)| == |cells|
    ensures forall i :: 0 <= i < |cells| ==> Some(Live(cells)[i].item) == cells[i].item
  {
    if cells != [] {
      AllLive(cells[1..]);
      assert forall i :: 0 < i < |cells| ==> cells[i] == cells[1..][i - 1];
    }
  }
}
