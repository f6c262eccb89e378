/**
 The table of commands. It is an ordered map searched from a lower bound with an early stop, and
 it must answer as if it were a plain list, searched from its first addition.
 */
module CommandSets {
  import opened Options
  import opened Text

  datatype Addition<T> = Addition(name: string, value: T, level: int)

  // ----- the plain list

  /** A command of level at most `level` whose name starts with `name`, whatever the case of either. */
  predicate Fits<T>(a: Addition<T>, name: string, level: int) {
    a.level <= level && LowerCase(name) <= LowerCase(a.name)
  }

  /** The first addition that fits, leaving out names that were added before. */
  function Scan<T>(history: seq<Addition<T>>, taken: set<string>, name: string, level: int): Option<T>
    decreases |history|
  {
    if history == [] then None else
    var a := history[0];
    if LowerCase(a.name) !in taken && Fits(a, name, level) then Some(a.value)
    else Scan(history[1..], taken + {LowerCase(a.name)}, name, level)
  }

  ghost predicate Repeated<T>(history: seq<Addition<T>>, i: nat)
    requires i < |history|
  {
    exists j :: 0 <= j < i && LowerCase(history[j].name) == LowerCase(history[i].name)
  }

  ghost predicate Candidate<T>(history: seq<Addition<T>>, i: nat, name: string, level: int) {
    i < |history| && !Repeated(history, i) && Fits(history[i], name, level)
  }

  ghost predicate Free<T>(history: seq<Addition<T>>, taken: set<string>, i: nat, name: string, level: int) {
    Candidate(history, i, name, level) && LowerCase(history[i].name) !in taken
  }

  /** What the scan gives, in terms of positions. */
  lemma {:induction false} ScanFindsFirst<T>(
      history: seq<Addition<T>>, taken: set<string>, name: string, level: int) returns (i: nat)
    ensures match Scan(history, taken, name, level)
            case None => forall k :: !Free(history, taken, k, name, level)
            case Some(value) =>
              && Free(history, taken, i, name, level) && value == history[i].value
              && forall k :: Free(history, taken, k, name, level) ==> i <= k
    decreases |history|
  {
    i := 0;
    if history != [] && !Free(history, taken, 0, name, level) {
      var taken' := taken + {LowerCase(history[0].name)};
      var n := ScanFindsFirst(history[1..], taken', name, level);
      forall k: nat ensures Free(history, taken, k + 1, name, level) <==> Free(history[1..], taken', k, name, level) {
        FreeShifts(history, taken, k, name, level);
      }
      assert forall k: nat :: Free(history, taken, k, name, level) ==>
          k > 0 && Free(history[1..], taken', k - 1, name, level);
      i := n + 1;
    }
  }

  lemma FreeShifts<T>(history: seq<Addition<T>>, taken: set<string>, k: nat, name: string, level: int)
    requires history != []
    ensures Free(history, taken, k + 1, name, level) <==>
        Free(history[1..], taken + {LowerCase(history[0].name)}, k, name, level)
  {
    var rest := history[1..];
    assert forall j :: 0 <= j < |rest| ==> rest[j] == history[j + 1];
    if k < |rest| {
      if Repeated(rest, k) {
        var j :| 0 <= j < k && LowerCase(rest[j].name) == LowerCase(rest[k].name);
        assert LowerCase(history[j + 1].name) == LowerCase(history[k + 1].name);
      }
      if Repeated(history, k + 1) {
        var j :| 0 <= j < k + 1 && LowerCase(history[j].name) == LowerCase(history[k + 1].name);
        assert j > 0 ==> LowerCase(rest[j - 1].name) == LowerCase(rest[k].name);
      }
    }
  }

  // ----- the same in plain words

  /** The same letter, capital or small, or the same character. */
  ghost predicate Alike(c: char, d: char) {
    || c == d
    || ('A' <= c <= 'Z' && d as int == c as int + 32)
    || ('A' <= d <= 'Z' && c as int == d as int + 32)
  }

  ghost predicate Abbreviates(typed: string, name: string) {
    |typed| <= |name| && forall i :: 0 <= i < |typed| ==> Alike(typed[i], name[i])
  }

  ghost predicate SameName(a: string, b: string) {
    |a| == |b| && Abbreviates(a, b)
  }

  /** The level is high enough, the name begins with what was typed, and nobody had added that name before. */
  ghost predicate Answers<T>(history: seq<Addition<T>>, i: nat, typed: string, level: int) {
    && i < |history| && history[i].level <= level && Abbreviates(typed, history[i].name)
    && forall j :: 0 <= j < i ==> !SameName(history[j].name, history[i].name)
  }

  lemma AbbreviatesMeans(typed: string, name: string)
    ensures LowerCase(typed) <= LowerCase(name) <==> Abbreviates(typed, name)
    ensures LowerCase(typed) == LowerCase(name) <==> SameName(typed, name)
  {
    var a, b := LowerCase(typed), LowerCase(name);
    forall i | 0 <= i < |typed| && i < |name| ensures a[i] == b[i] <==> Alike(typed[i], name[i]) {
      CaseMeans(typed[i], name[i]);
    }
    if |typed| <= |name| && forall i :: 0 <= i < |typed| ==> a[i] == b[i] {
      assert a == b[..|a|];
    }
    if a <= b {
      assert forall i :: 0 <= i < |typed| ==> a[i] == b[..|a|][i];
    }
  }

  lemma AnswersMeans<T>(history: seq<Addition<T>>, i: nat, typed: string, level: int)
    ensures Answers(history, i, typed, level) <==> Free(history, {}, i, typed, level)
  {
    if i < |history| {
      AbbreviatesMeans(typed, history[i].name);
      forall j | 0 <= j < i
        ensures LowerCase(history[j].name) == LowerCase(history[i].name) <==>
            SameName(history[j].name, history[i].name)
      {
        AbbreviatesMeans(history[j].name, history[i].name);
      }
    }
  }

  /** The scan gives the first addition that answers, and nothing only if none does. */
  lemma ScanAnswers<T>(history: seq<Addition<T>>, typed: string, level: int)
    ensures match Scan(history, {}, typed, level)
            case None => forall k: nat :: !Answers(history, k, typed, level)
            case Some(value) =>
              exists i: nat :: Answers(history, i, typed, level) && value == history[i].value
                && forall k: nat :: Answers(history, k, typed, level) ==> i <= k
  {
    var i := ScanFindsFirst(history, {}, typed, level);
    forall k: nat ensures Answers(history, k, typed, level) <==> Free(history, {}, k, typed, level) {
      AnswersMeans(history, k, typed, level);
    }
  }

  // ----- names in order

  predicate Less(a: string, b: string) {
    b != [] && (a == [] || a[0] < b[0] || (a[0] == b[0] && Less(a[1..], b[1..])))
  }

  lemma {:induction false} LessOrder(a: string, b: string)
    ensures Less(a, b) || a == b || Less(b, a)
    ensures !(Less(a, b) && Less(b, a)) && !Less(a, a)
  {
    if a != [] && b != [] && a[0] == b[0] {
      LessOrder(a[1..], b[1..]);
      assert a[1..] == b[1..] ==> a == [a[0]] + a[1..] && b == [b[0]] + b[1..];
    }
    if a != [] {
      LessOrder(a[1..], a[1..]);
    }
  }

  lemma {:induction false} LessTransitive(a: string, b: string, c: string)
    requires Less(a, b) && Less(b, c)
    ensures Less(a, c)
  {
    if a != [] && a[0] == b[0] == c[0] {
      LessTransitive(a[1..], b[1..], c[1..]);
    }
  }

  /** A name sorts after each of its prefixes. */
  lemma {:induction false} PrefixNotAfter(prefix: string, s: string)
    requires prefix <= s
    ensures !Less(s, prefix)
  {
    if prefix != [] {
      PrefixNotAfter(prefix[1..], s[1..]);
    }
  }

  /** Between a prefix and a name that has it, every name has it. */
  lemma {:induction false} PrefixBlock(prefix: string, a: string, b: string)
    requires !Less(a, prefix) && Less(a, b) && prefix <= b
    ensures prefix <= a
  {
    if prefix != [] {
      assert a != [] && a[0] == prefix[0];
      PrefixBlock(prefix[1..], a[1..], b[1..]);
      assert a == [a[0]] + a[1..] && prefix == [prefix[0]] + prefix[1..];
    }
  }

  // ----- the ordered map

  datatype Item<T> = Item(value: T, level: int, order: int)
  datatype Entry<T> = Entry(name: string, item: Item<T>)

  ghost predicate Ordered<T>(commands: seq<Entry<T>>) {
    forall i, j :: 0 <= i < j < |commands| ==> Less(commands[i].name, commands[j].name)
  }

  /** The entry is the one addition its order number stands for. */
  ghost predicate Records<T>(e: Entry<T>, history: seq<Addition<T>>) {
    && 0 <= e.item.order < |history| && !Repeated(history, e.item.order)
    && var a := history[e.item.order];
    && e.name == LowerCase(a.name) && e.item.value == a.value && e.item.level == a.level
  }

  /** The additions and the map that should come of them. */
  ghost predicate Indexes<T>(commands: seq<Entry<T>>, history: seq<Addition<T>>) {
    && Ordered(commands)
    && (forall k :: 0 <= k < |commands| ==> Records(commands[k], history))
    && (forall i :: 0 <= i < |history| && !Repeated(history, i) ==> Indexed(commands, i))
  }

  ghost predicate Indexed<T>(commands: seq<Entry<T>>, i: int) {
    exists k :: 0 <= k < |commands| && commands[k].item.order == i
  }

  ghost predicate IsLowerBound<T>(commands: seq<Entry<T>>, name: string, at: nat) {
    && at <= |commands|
    && (forall i :: 0 <= i < at ==> Less(commands[i].name, name))
    && (forall i :: at <= i < |commands| ==> !Less(commands[i].name, name))
  }

  lemma {:induction false} FirstAdded<T>(history: seq<Addition<T>>, i: nat) returns (j: nat)
    requires i < |history|
    ensures j <= i && !Repeated(history, j) && LowerCase(history[j].name) == LowerCase(history[i].name)
    decreases i
  {
    if Repeated(history, i) {
      var k :| 0 <= k < i && LowerCase(history[k].name) == LowerCase(history[i].name);
      j := FirstAdded(history, k);
    } else {
      j := i;
    }
  }

  lemma RepeatedGrows<T>(history: seq<Addition<T>>, a: Addition<T>, i: nat)
    requires i < |history|
    ensures Repeated(history + [a], i) <==> Repeated(history, i)
  {
    var longer := history + [a];
    assert forall j :: 0 <= j < |history| ==> longer[j] == history[j];
    if Repeated(history, i) {
      var j :| 0 <= j < i && LowerCase(history[j].name) == LowerCase(history[i].name);
      assert LowerCase(longer[j].name) == LowerCase(longer[i].name);
    }
  }

  lemma OnlyAt<T>(commands: seq<Entry<T>>, name: string, at: nat, k: nat)
    requires Ordered(commands) && IsLowerBound(commands, name, at)
    requires k < |commands| && commands[k].name == name
    ensures k == at
  {
    LessOrder(name, name);
    LessOrder(commands[at].name, name);
  }

  /** The name is in the map exactly if it was added before; then it stands at the lower bound. */
  lemma AtLowerBound<T>(commands: seq<Entry<T>>, history: seq<Addition<T>>, a: Addition<T>, at: nat)
    requires Indexes(commands, history) && IsLowerBound(commands, LowerCase(a.name), at)
    ensures Repeated(history + [a], |history|) <==> at < |commands| && commands[at].name == LowerCase(a.name)
  {
    var name, longer := LowerCase(a.name), history + [a];
    if at < |commands| && commands[at].name == name {
      var j := commands[at].item.order;
      assert LowerCase(longer[j].name) == LowerCase(longer[|history|].name);
    }
    if Repeated(longer, |history|) {
      var j :| 0 <= j < |history| && LowerCase(longer[j].name) == LowerCase(longer[|history|].name);
      var i := FirstAdded(history, j);
      var k :| 0 <= k < |commands| && commands[k].item.order == i;
      OnlyAt(commands, name, at, k);
    }
  }

  lemma InsertKeepsOrder<T>(commands: seq<Entry<T>>, e: Entry<T>, at: nat)
    requires Ordered(commands) && IsLowerBound(commands, e.name, at)
    requires at < |commands| ==> commands[at].name != e.name
    ensures Ordered(commands[..at] + [e] + commands[at..])
  {
    forall k | at <= k < |commands| ensures Less(e.name, commands[k].name) {
      LessOrder(e.name, commands[at].name);
      if at < k {
        LessTransitive(e.name, commands[at].name, commands[k].name);
      }
    }
  }

  lemma InsertIndexes<T>(commands: seq<Entry<T>>, history: seq<Addition<T>>, a: Addition<T>, at: nat)
    requires Indexes(commands, history) && IsLowerBound(commands, LowerCase(a.name), at)
    ensures var e := Entry(LowerCase(a.name), Item(a.value, a.level, |history|));
            var there := at < |commands| && commands[at].name == e.name;
            Indexes(if there then commands else commands[..at] + [e] + commands[at..], history + [a])
  {
    var e := Entry(LowerCase(a.name), Item(a.value, a.level, |history|));
    var there := at < |commands| && commands[at].name == e.name;
    var commands', history' := if there then commands else commands[..at] + [e] + commands[at..], history + [a];
    AtLowerBound(commands, history, a, at);
    if !there {
      InsertKeepsOrder(commands, e, at);
      assert Records(e, history');
    }
    forall k | 0 <= k < |commands'| ensures Records(commands'[k], history') {
      assert there || k == at || commands'[k] == commands[if k < at then k else k - 1];
      if there || k != at {
        RepeatedGrows(history, a, commands'[k].item.order);
      }
    }
    InsertCovers(commands, history, a, at, commands');
  }

  lemma InsertCovers<T>(
      commands: seq<Entry<T>>, history: seq<Addition<T>>, a: Addition<T>, at: nat, commands': seq<Entry<T>>)
    requires Indexes(commands, history) && at <= |commands|
    requires var e := Entry(LowerCase(a.name), Item(a.value, a.level, |history|));
             commands' == commands[..at] + [e] + commands[at..]
             || (commands' == commands && Repeated(history + [a], |history|))
    ensures forall i :: 0 <= i <= |history| && !Repeated(history + [a], i) ==> Indexed(commands', i)
  {
    forall i | 0 <= i <= |history| && !Repeated(history + [a], i) ensures Indexed(commands', i) {
      if i == |history| {
        assert commands'[at].item.order == i;
      } else {
        RepeatedGrows(history, a, i);
        var k :| 0 <= k < |commands| && commands[k].item.order == i;
        assert commands'[if commands' == commands || k < at then k else k + 1].item.order == i;
      }
    }
  }

  class CommandSet<T> {
    var commands: seq<Entry<T>>  // std::map: the entries in name order
    var order: int
    ghost var history: seq<Addition<T>>

    ghost predicate Valid()
      reads this
    {
      order == |history| && Indexes(commands, history)
    }

    constructor ()
      ensures Valid() && history == []
    {
      commands, order, history := [], 0, [];
    }

    /** The first entry whose name is not before `name`. */
    method LowerBound(name: string) returns (at: nat)
      requires Ordered(commands)
      ensures IsLowerBound(commands, name, at)
    {
      at := 0;
      while at < |commands| && Less(commands[at].name, name)
        invariant at <= |commands|
        invariant forall i :: 0 <= i < at ==> Less(commands[i].name, name)
      {
        at := at + 1;
      }
      forall i | at <= i < |commands| ensures !Less(commands[i].name, name) {
        if i > at && Less(commands[i].name, name) {
          LessTransitive(commands[at].name, commands[i].name, name);
        }
      }
    }

    /** `try_emplace`: a name already there keeps its first value, but an order number is used up. */
    method Add(nameIn: string, value: T, level: int)
      requires Valid()
      modifies this
      ensures Valid() && history == old(history) + [Addition(nameIn, value, level)]
    {
      var name := LowerCase(nameIn);
      var item := Item(value, level, order);
      order := order + 1;
      var at := LowerBound(name);
      InsertIndexes(commands, history, Addition(nameIn, value, level), at);
      if at == |commands| || commands[at].name != name {
        commands := commands[..at] + [Entry(name, item)] + commands[at..];
      }
      history := history + [Addition(nameIn, value, level)];
    }

    method Get(nameIn: string, level: int) returns (result: Option<T>)
      requires Valid()
      ensures result == Scan(history, {}, nameIn, level)
      ensures result.None? ==> forall k: nat :: !Answers(history, k, nameIn, level)
      ensures result.Some? ==> exists i: nat ::
          Answers(history, i, nameIn, level) && result.value == history[i].value
          && forall k: nat :: Answers(history, k, nameIn, level) ==> i <= k
    {
      ScanAnswers(history, nameIn, level);
      result := Search(nameIn, level);
    }

    method Search(nameIn: string, level: int) returns (result: Option<T>)
      requires Valid()
      ensures result == Scan(history, {}, nameIn, level)
    {
      var name := LowerCase(nameIn);
      result := None;
      var bestOrder := order;
      var it := LowerBound(name);
      ghost var best := -1;
      NoneGoodBefore(commands, it, name, level);
      while it < |commands|
        invariant it <= |commands| && !exists k :: it <= k < |commands| && Less(commands[k].name, name)
        invariant IsBest(commands, it, name, level, order, best, bestOrder, result)
      {
        var e := commands[it];
        if e.item.level > level {
          it := it + 1;
          continue;
        }
        if !(name <= e.name) {
          NoneGoodAfter(commands, it, name, level);
          break;
        }
        if e.item.order < bestOrder {
          bestOrder, result := e.item.order, Some(e.item.value);
          best := it;
        }
        it := it + 1;
      }
      assert IsBest(commands, |commands|, name, level, order, best, bestOrder, result);
      BestIsScanned(commands, history, nameIn, level, best, bestOrder, result);
    }
  }

  predicate Good<T>(e: Entry<T>, name: string, level: int) {
    e.item.level <= level && name <= e.name
  }

  /** The best of the first `n` entries, if any is good, is at `best`. */
  ghost predicate IsBest<T>(
      commands: seq<Entry<T>>, n: nat, name: string, level: int, order: int,
      best: int, bestOrder: int, result: Option<T>)
    requires n <= |commands|
  {
    && (forall k :: 0 <= k < n && Good(commands[k], name, level) ==> bestOrder <= commands[k].item.order)
    && if best < 0 then bestOrder == order && result == None
       else best < n && Good(commands[best], name, level)
            && bestOrder == commands[best].item.order && result == Some(commands[best].item.value)
  }

  lemma NotBefore(name: string, s: string)
    requires Less(s, name)
    ensures !(name <= s)
  {
    if name <= s {
      PrefixNotAfter(name, s);
    }
  }

  lemma NoneGoodBefore<T>(commands: seq<Entry<T>>, at: nat, name: string, level: int)
    requires IsLowerBound(commands, name, at)
    ensures forall k :: 0 <= k < at ==> !Good(commands[k], name, level)
  {
    forall k | 0 <= k < at ensures !Good(commands[k], name, level) {
      NotBefore(name, commands[k].name);
    }
  }

  /** Once a name does not have the prefix, no later one has. */
  lemma NoneGoodAfter<T>(commands: seq<Entry<T>>, at: nat, name: string, level: int)
    requires Ordered(commands) && at < |commands|
    requires !Less(commands[at].name, name) && !(name <= commands[at].name)
    ensures forall k :: at <= k < |commands| ==> !Good(commands[k], name, level)
  {
    forall k | at <= k < |commands| ensures !Good(commands[k], name, level) {
      if k > at && name <= commands[k].name {
        PrefixBlock(name, commands[at].name, commands[k].name);
      }
    }
  }

  lemma BestIsScanned<T>(
      commands: seq<Entry<T>>, history: seq<Addition<T>>, name: string, level: int,
      best: int, bestOrder: int, result: Option<T>)
    requires Indexes(commands, history)
    requires IsBest(commands, |commands|, LowerCase(name), level, |history|, best, bestOrder, result)
    ensures result == Scan(history, {}, name, level)
  {
    var i := ScanFindsFirst(history, {}, name, level);
    if best >= 0 {
      assert Free(history, {}, bestOrder, name, level);
    }
    if Scan(history, {}, name, level).Some? {
      var k :| 0 <= k < |commands| && commands[k].item.order == i;
      assert Good(commands[k], LowerCase(name), level);
    }
  }

  // ----- what a level can and cannot learn

  /** The additions a character of level `level` may use, in order. */
  function Visible<T>(history: seq<Addition<T>>, level: int): seq<Addition<T>> {
    if history == [] then []
    else (if history[0].level <= level then [history[0]] else []) + Visible(history[1..], level)
  }

  /** No addition above `level` has the name of one at or below it. */
  ghost predicate DifferentlyNamed<T>(history: seq<Addition<T>>, level: int) {
    forall i, j :: 0 <= i < |history| && 0 <= j < |history| && history[i].level > level >= history[j].level ==>
      LowerCase(history[i].name) != LowerCase(history[j].name)
  }

  /** The first addition that fits is the one found when nothing above the level is there at all. */
  ghost predicate FirstFit<T>(history: seq<Addition<T>>, i: nat, name: string, level: int) {
    i < |history| && Fits(history[i], name, level) && forall k :: 0 <= k < i ==> !Fits(history[k], name, level)
  }

  /** The first addition that fits and whose name is new is the one found in the whole table. */
  ghost predicate Wins<T>(history: seq<Addition<T>>, i: nat, name: string, level: int) {
    Candidate(history, i, name, level) && forall k: nat :: Candidate(history, k, name, level) ==> i <= k
  }

  /**
   An addition at or below the level whose name was taken before, although nothing at or below the
   level before it has that name or one that starts with it.
   */
  ghost predicate Shadowed<T>(history: seq<Addition<T>>, j: nat, level: int) {
    j < |history| && Repeated(history, j) && FirstFit(history, j, history[j].name, level)
  }

  ghost predicate Unshadowed<T>(history: seq<Addition<T>>, level: int) {
    forall j: nat :: !Shadowed(history, j, level)
  }

  lemma LeastFit<T>(history: seq<Addition<T>>, name: string, level: int, n: nat) returns (i: nat)
    requires n < |history| && Fits(history[n], name, level)
    ensures i <= n && FirstFit(history, i, name, level)
  {
    i := 0;
    while !Fits(history[i], name, level)
      invariant i <= n && forall k :: 0 <= k < i ==> !Fits(history[k], name, level)
      decreases n - i
    {
      i := i + 1;
    }
  }

  /** The first addition that fits a name is also the first that fits its own name. */
  lemma FitsItself<T>(history: seq<Addition<T>>, i: nat, name: string, level: int)
    requires FirstFit(history, i, name, level)
    ensures FirstFit(history, i, history[i].name, level)
  {
  }

  /** Without shadowed additions the first that fits wins, whatever is typed; and only then. */
  lemma InvisibleExactly<T>(history: seq<Addition<T>>, level: int)
    ensures (forall name, i: nat :: FirstFit(history, i, name, level) <==> Wins(history, i, name, level)) <==>
        Unshadowed(history, level)
  {
    if Unshadowed(history, level) {
      forall name, i: nat ensures FirstFit(history, i, name, level) <==> Wins(history, i, name, level) {
        FirstFitWins(history, i, name, level);
      }
    }
    forall j: nat | Shadowed(history, j, level)
      ensures FirstFit(history, j, history[j].name, level) && !Wins(history, j, history[j].name, level)
    {
    }
  }

  lemma FirstFitWins<T>(history: seq<Addition<T>>, i: nat, name: string, level: int)
    requires Unshadowed(history, level)
    ensures FirstFit(history, i, name, level) <==> Wins(history, i, name, level)
  {
    if FirstFit(history, i, name, level) {
      FitsItself(history, i, name, level);
      assert !Shadowed(history, i, level);
    }
    if Wins(history, i, name, level) {
      var k := LeastFit(history, name, level, i);
      FitsItself(history, k, name, level);
      assert !Shadowed(history, k, level);
      assert Candidate(history, k, name, level);
    }
  }

  /** What is typed gets the answer it would get if there were nothing above the level. */
  ghost predicate Hidden<T>(history: seq<Addition<T>>, name: string, level: int) {
    Scan(history, {}, name, level) == Scan(Visible(history, level), {}, name, level)
  }

  /** The answer of the scan is the winner, if there is one. */
  lemma ScanGivesWinner<T>(history: seq<Addition<T>>, name: string, level: int) returns (i: nat)
    ensures match Scan(history, {}, name, level)
            case None => forall k: nat :: !Candidate(history, k, name, level)
            case Some(value) => Wins(history, i, name, level) && value == history[i].value
  {
    i := ScanFindsFirst(history, {}, name, level);
    assert forall k: nat :: Candidate(history, k, name, level) ==> Free(history, {}, k, name, level);
  }

  /** With all additions above the level gone, the answer of the scan is the first that fits. */
  lemma {:induction false} VisibleGivesFirstFit<T>(
      history: seq<Addition<T>>, taken: set<string>, name: string, level: int)
    returns (i: nat)
    requires forall k :: 0 <= k < |history| && Fits(history[k], name, level) ==> LowerCase(history[k].name) !in taken
    ensures match Scan(Visible(history, level), taken, name, level)
            case None => forall k: nat :: !FirstFit(history, k, name, level)
            case Some(value) => FirstFit(history, i, name, level) && value == history[i].value
    decreases |history|
  {
    i := 0;
    if history != [] && !Fits(history[0], name, level) {
      FirstFitShifts(history, name, level);
      ScanPasses(history, taken, name, level);
      i := VisibleGivesFirstFit(history[1..], TakenAfter(history, taken, level), name, level);
      i := i + 1;
    }
  }

  function TakenAfter<T>(history: seq<Addition<T>>, taken: set<string>, level: int): set<string>
    requires history != []
  {
    if history[0].level <= level then taken + {LowerCase(history[0].name)} else taken
  }

  lemma ScanPasses<T>(history: seq<Addition<T>>, taken: set<string>, name: string, level: int)
    requires history != [] && !Fits(history[0], name, level)
    ensures Scan(Visible(history, level), taken, name, level) ==
        Scan(Visible(history[1..], level), TakenAfter(history, taken, level), name, level)
  {
    if history[0].level <= level {
      assert Visible(history, level)[1..] == Visible(history[1..], level);
    } else {
      assert Visible(history, level) == Visible(history[1..], level);
    }
  }

  lemma FirstFitShifts<T>(history: seq<Addition<T>>, name: string, level: int)
    requires history != [] && !Fits(history[0], name, level)
    ensures forall k: nat :: FirstFit(history, k, name, level) ==> k > 0 && FirstFit(history[1..], k - 1, name, level)
    ensures forall k: nat :: FirstFit(history[1..], k, name, level) ==> FirstFit(history, k + 1, name, level)
    ensures forall k :: 0 <= k < |history[1..]| ==> history[1..][k] == history[k + 1]
  {
  }

  /** Without shadowed additions, no answer depends on what there is above the level. */
  lemma UnshadowedAnswers<T>(history: seq<Addition<T>>, name: string, level: int)
    requires Unshadowed(history, level)
    ensures Hidden(history, name, level)
  {
    var i := ScanGivesWinner(history, name, level);
    var k := VisibleGivesFirstFit(history, {}, name, level);
    FirstFitWins(history, i, name, level);
    FirstFitWins(history, k, name, level);
    if Wins(history, i, name, level) && FirstFit(history, k, name, level) {
      assert i == k;
    }
  }

  /**
   A level gets exactly the answers it would get if there were nothing above it if and only if no
   addition is shadowed, provided additions can be told apart by their values.
   */
  lemma LevelLearnsNothingExactly<T>(history: seq<Addition<T>>, level: int)
    requires forall i, j :: 0 <= i < j < |history| ==> history[i].value != history[j].value
    ensures (forall name :: Hidden(history, name, level)) <==> Unshadowed(history, level)
  {
    forall name | Unshadowed(history, level) ensures Hidden(history, name, level) {
      UnshadowedAnswers(history, name, level);
    }
    forall j: nat | Shadowed(history, j, level) ensures !Hidden(history, history[j].name, level) {
      var name := history[j].name;
      var i := ScanGivesWinner(history, name, level);
      var k := VisibleGivesFirstFit(history, {}, name, level);
      assert FirstFit(history, j, name, level);
      assert k == j && (Wins(history, i, name, level) ==> i != j);
    }
  }

  /** Two tables with the same additions up to a level, and none of them shadowed, give it the same answers. */
  lemma HigherLevelsAreInvisible<T>(h1: seq<Addition<T>>, h2: seq<Addition<T>>, name: string, level: int)
    requires Visible(h1, level) == Visible(h2, level)
    requires Unshadowed(h1, level) && Unshadowed(h2, level)
    ensures Scan(h1, {}, name, level) == Scan(h2, {}, name, level)
  {
    UnshadowedAnswers(h1, name, level);
    UnshadowedAnswers(h2, name, level);
  }

  /** So it is when no addition above the level has the name of one at or below it. */
  lemma DifferentNamesCastNoShadow<T>(history: seq<Addition<T>>, level: int)
    requires DifferentlyNamed(history, level)
    ensures Unshadowed(history, level)
  {
  }

  /** A later addition of the same name above the level does no harm ... */
  lemma LaterNameCastsNoShadow<T>(value: T, hidden: T)
    ensures var h := [Addition("go", value, 0), Addition("GO", hidden, 1)];
            !DifferentlyNamed(h, 0) && Unshadowed(h, 0)
  {
    var h := [Addition("go", value, 0), Addition("GO", hidden, 1)];
    assert LowerCase("GO") == LowerCase("go");
    assert h[1].level > 0 >= h[0].level;
  }

  /** ... but an earlier one hides the lower one. */
  lemma SameNameHides<T>(value: T, hidden: T)
    ensures var low, high := Addition("go", value, 0), Addition("GO", hidden, 1);
            && Visible([low], 0) == Visible([high, low], 0) && Shadowed([high, low], 1, 0)
            && Scan([low], {}, "go", 0) == Some(value) && Scan([high, low], {}, "go", 0) == None
  {
    var low, high := Addition("go", value, 0), Addition("GO", hidden, 1);
    assert LowerCase("GO") == LowerCase("go");
    assert [high, low][1..] == [low] && [low][1..] == [];
    assert LowerCase([high, low][0].name) == LowerCase([high, low][1].name);
    assert Scan([low], {LowerCase("GO")}, "go", 0) == None;
    assert {} + {LowerCase("GO")} == {LowerCase("GO")};
  }
}
