/**
 The reference meaning of a list that may change while it is iterated: a plain sequence of
 entries plus a set of named cursors. There are no reference counts and no tombstones here.

 Every entry carries an integer key that records where it was added: `add_back` takes the next
 key above all earlier ones, `add_front` the next below. Keys are never reused, so key order is
 list order even between entries that were never in the list together.
 */
module PlainList {
  import opened Options

  datatype Entry<T> = Entry(key: int, item: T)

  /** A cursor is the key it stands on, or None at the end; entries may vanish from under it. */
  datatype Plain<J, T> = Plain(entries: seq<Entry<T>>, lo: int, hi: int, cursors: map<J, Option<int>>)

  /** Everything a program can do with one list and its iterators. */
  datatype Op<J, T> =
    | AddBack(item: T)
    | AddFront(item: T)
    | Remove(item: T)
    | Clear
    | Begin(it: J)
    | Copy(it: J, other: J)
    | Assign(it: J, other: J)
    | Move(it: J, other: J)
    | MoveAssign(it: J, other: J)
    | Advance(it: J)
    | Destroy(it: J)

  /** Constructors need a fresh iterator; `++` needs one that is not at the end. */
  predicate Enabled<J, T>(cursors: map<J, Option<int>>, op: Op<J, T>) {
    match op
    case Begin(j) => j !in cursors
    case Copy(j, _) => j !in cursors
    case Move(j, _) => j !in cursors
    case Advance(j) => j in cursors && cursors[j].Some?
    case _ => true
  }

  /** The key of the first entry, if any. */
  function First<T>(entries: seq<Entry<T>>): Option<int> {
    if entries == [] then None else Some(entries[0].key)
  }

  /** The key of the first entry beyond `key`, if any. */
  function Next<T>(entries: seq<Entry<T>>, key: int): Option<int> {
    if entries == [] then None
    else if entries[0].key > key then Some(entries[0].key)
    else Next(entries[1..], key)
  }

  /** The entries without the first one that holds `item`. */
  function Without<T(==)>(entries: seq<Entry<T>>, item: T): seq<Entry<T>> {
    if entries == [] then []
    else if entries[0].item == item then entries[1..]
    else [entries[0]] + Without(entries[1..], item)
  }

  /** Cursor `it` now stands where `other` stands, or nowhere if `other` stands nowhere. */
  function Place<J>(cursors: map<J, Option<int>>, it: J, other: J): map<J, Option<int>> {
    if other in cursors then cursors[it := cursors[other]] else cursors - {it}
  }

  /** As `Place`, and `other` is left standing nowhere. */
  function Shift<J>(cursors: map<J, Option<int>>, it: J, other: J): map<J, Option<int>> {
    if it == other then cursors else Place(cursors, it, other) - {other}
  }

  /** One operation; a program that cannot perform it is left where it was. */
  function Step<J, T(==)>(p: Plain<J, T>, op: Op<J, T>): Plain<J, T> {
    if !Enabled(p.cursors, op) then p else
    match op
    case AddBack(t) => p.(entries := p.entries + [Entry(p.hi, t)], hi := p.hi + 1)
    case AddFront(t) => p.(entries := [Entry(p.lo - 1, t)] + p.entries, lo := p.lo - 1)
    case Remove(t) => p.(entries := Without(p.entries, t))
    case Clear => p.(entries := [])
    case Begin(j) => p.(cursors := p.cursors[j := First(p.entries)])
    case Copy(j, k) => p.(cursors := Place(p.cursors, j, k))
    case Assign(j, k) => p.(cursors := Place(p.cursors, j, k))
    case Move(j, k) => p.(cursors := Shift(p.cursors, j, k))
    case MoveAssign(j, k) => p.(cursors := Shift(p.cursors, j, k))
    case Advance(j) => p.(cursors := p.cursors[j := Next(p.entries, p.cursors[j].value)])
    case Destroy(j) => p.(cursors := p.cursors - {j})
  }

  ghost predicate Sorted<T>(entries: seq<Entry<T>>) {
    forall a, b :: 0 <= a < b < |entries| ==> entries[a].key < entries[b].key
  }

  /** Keys are in list order and within the range handed out so far. */
  ghost predicate Valid<J, T>(p: Plain<J, T>) {
    && p.lo <= p.hi
    && Sorted(p.entries)
    && (forall e :: e in p.entries ==> p.lo <= e.key < p.hi)
  }

  ghost predicate Holds<T>(entries: seq<Entry<T>>, key: int) {
    exists i :: 0 <= i < |entries| && entries[i].key == key
  }

  lemma {:induction false} NextIsLeast<T>(entries: seq<Entry<T>>, key: int)
    requires Sorted(entries)
    ensures var n := Next(entries, key);
            && (n.Some? ==> n.value > key && Holds(entries, n.value))
            && (forall e :: e in entries && e.key > key ==> n.Some? && n.value <= e.key)
  {
    if entries != [] && entries[0].key <= key {
      NextIsLeast(entries[1..], key);
      var n := Next(entries[1..], key);
      if n.Some? {
        var i :| 0 <= i < |entries[1..]| && entries[1..][i].key == n.value;
        assert entries[i + 1].key == n.value;
      }
      forall e | e in entries && e.key > key ensures e in entries[1..] {
        var i :| 0 <= i < |entries| && entries[i] == e;
        assert entries[1..][i - 1] == e;
      }
    } else if entries != [] {
      assert entries[0].key == Next(entries, key).value;
    }
  }

  lemma {:induction false} WithoutKeepsOrder<T>(entries: seq<Entry<T>>, item: T)
    requires Sorted(entries)
    ensures Sorted(Without(entries, item))
    ensures forall e :: e in Without(entries, item) ==> e in entries
  {
    if entries != [] && entries[0].item != item {
      WithoutKeepsOrder(entries[1..], item);
      var rest := Without(entries[1..], item);
      forall e | e in rest ensures entries[0].key < e.key {
        assert e in entries[1..];
      }
    }
  }

  lemma StepKeepsValid<J, T>(p: Plain<J, T>, op: Op<J, T>)
    requires Valid(p)
    ensures Valid(Step(p, op))
    ensures Step(p, op).lo <= p.lo && p.hi <= Step(p, op).hi
  {
    if op.Remove? {
      WithoutKeepsOrder(p.entries, op.item);
    }
  }

  /** An entry present after a step was there before it, or is the one the step added. */
  lemma StepOnlyAdds<J, T>(p: Plain<J, T>, op: Op<J, T>, e: Entry<T>)
    requires Valid(p) && e in Step(p, op).entries
    ensures e in p.entries || e.key == p.hi || e.key == p.lo - 1
  {
    if op.Remove? {
      WithoutKeepsOrder(p.entries, op.item);
    }
  }

  /** The entries from a cursor's place on. */
  function Since<T>(entries: seq<Entry<T>>, from: Option<int>): seq<Entry<T>> {
    if from.None? || entries == [] then []
    else if entries[0].key >= from.value then entries
    else Since(entries[1..], from)
  }

  lemma {:induction false} SinceNext<T>(entries: seq<Entry<T>>, key: int)
    requires Sorted(entries) && Holds(entries, key)
    ensures |Since(entries, Some(key))| == 1 + |Since(entries, Next(entries, key))|
    ensures Next(entries, key).Some? ==> Holds(entries, Next(entries, key).value)
  {
    NextIsLeast(entries, key);
    var i :| 0 <= i < |entries| && entries[i].key == key;
    if i == 0 {
      SinceIsAll(entries[1..]);
      NextIsFirst(entries[1..], key);
    } else {
      assert entries[1..][i - 1].key == key;
      SinceNext(entries[1..], key);
    }
  }

  lemma SinceIsAll<T>(entries: seq<Entry<T>>)
    ensures Since(entries, First(entries)) == entries
  {
  }

  lemma NextIsFirst<T>(entries: seq<Entry<T>>, key: int)
    requires forall i :: 0 <= i < |entries| ==> entries[i].key > key
    ensures Next(entries, key) == First(entries)
  {
  }
}
