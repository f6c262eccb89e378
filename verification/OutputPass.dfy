/**
 The output half of the game loop: every pass gives each descriptor one turn to send what it has
 buffered, in whatever order. Text climbs from victims to snoopers, and since no chain of
 snoopers is longer than the number of descriptors, it has all left after that many passes.
 */
module OutputPass {
  import opened Options
  import opened Folding
  import opened SnoopGraph
  import opened Descriptors

  /** The buffer after some more writes; one that overflows starts again from nothing. */
  function Appended(buf: string, processing: bool, pieces: seq<string>): string
    decreases |pieces|
  {
    if pieces == [] then buf else
    var next := match Written(buf, processing, pieces[0]) case None => "" case Some(b) => b;
    Appended(next, processing, pieces[1..])
  }

  /** Some of the writes does not fit. */
  predicate Overflows(buf: string, processing: bool, pieces: seq<string>)
    decreases |pieces|
  {
    pieces != [] &&
    match Written(buf, processing, pieces[0])
    case None => true
    case Some(b) => Overflows(b, processing, pieces[1..])
  }

  function Joined(pieces: seq<string>): string {
    if pieces == [] then "" else pieces[0] + Joined(pieces[1..])
  }

  /** If all the writes fit, what was there stands first and then all that was written. */
  lemma {:induction false} AppendedExactly(buf: string, processing: bool, pieces: seq<string>)
    requires !Overflows(buf, processing, pieces)
    ensures Appended(buf, processing, pieces) ==
        buf + ((if pieces == [] then "" else Break(buf, processing)) + Joined(pieces))
    decreases |pieces|
  {
    if pieces == [] {
      assert buf + ("" + "") == buf;
    } else {
      var b := Written(buf, processing, pieces[0]).value;
      WrittenExactly(buf, processing, pieces[0]);
      AppendedExactly(b, processing, pieces[1..]);
      if b == "" {
        assert processing && Break(b, processing) == "";
      }
      assert Break(b, processing) == "";
      Regroup(buf, Break(buf, processing), pieces[0], Joined(pieces[1..]));
    }
  }

  lemma Regroup(a: string, b: string, c: string, d: string)
    ensures (a + b + c) + ("" + d) == a + (b + (c + d))
  {
  }

  /** What is written for the player just before a flush. */
  function Closing(d: Descriptor): seq<string>
    reads d
  {
    if d.paging then ["[Hit Return to continue]\n\r"] else if d.playing then d.prompt else []
  }

  /** The text of a descriptor's next flush. */
  function Outgoing(d: Descriptor): string
    reads d
  {
    Appended(d.outbuf, d.processing, Closing(d))
  }

  /** `process_output`: a paging notice or a prompt may be added before the flush, and a go-ahead sent after it. */
  method ProcessOutput(d: Descriptor, takes: bool, ghost all: set<Descriptor>) returns (ok: bool)
    requires Consistent(all) && d in all
    modifies d`outbuf, d`overflowed, d`sent, d.snoopBy`outbuf, d.snoopBy`overflowed
    ensures Consistent(all) && d.outbuf == ""
    ensures d.closed ==> ok && d.overflowed == old(d.overflowed) && d.sent == old(d.sent)
    ensures !d.closed ==>
        && d.sent == old(d.sent + Outgoing(d))
        && (d.overflowed <==> old(d.overflowed || Overflows(d.outbuf, d.processing, Closing(d))))
        && (ok <==> takes || (old(Outgoing(d)) == "" && !(d.playing && !d.paging)))
    ensures !d.closed ==> forall y :: y in d.snoopBy ==>
        (y.overflowed <==> old(y.overflowed) || !Fits(old(Outgoing(d)), d.character, y.processing, old(y.outbuf)))
    ensures !d.closed ==> forall y :: y in d.snoopBy && !y.overflowed ==>
        Forwarded(old(Outgoing(d)), d.character, y.processing, old(y.outbuf), y.outbuf)
  {
    d.NoSelfSnooping(all);
    WriteClosing(d, all);
    ok := d.FlushOutput(takes, all);
    if d.playing && !d.closed && !d.paging && ok {
      ok := takes;  // the go-ahead
    }
  }

  method WriteClosing(d: Descriptor, ghost all: set<Descriptor>)
    requires Consistent(all) && d in all
    modifies d`outbuf, d`overflowed
    ensures Consistent(all)
    ensures d.closed ==> d.outbuf == old(d.outbuf) && d.overflowed == old(d.overflowed)
    ensures !d.closed ==>
        && d.outbuf == old(Outgoing(d))
        && (d.overflowed <==> old(d.overflowed || Overflows(d.outbuf, d.processing, Closing(d))))
  {
    if d.paging {
      OnePiece(d.outbuf, d.processing, "[Hit Return to continue]\n\r");
      d.Write("[Hit Return to continue]\n\r");
    } else if d.playing {
      WritePrompt(d);
    }
    LinksKept(all);
  }

  lemma OnePiece(buf: string, processing: bool, piece: string)
    ensures Appended(buf, processing, [piece]) ==
        match Written(buf, processing, piece) case None => "" case Some(b) => b
    ensures Overflows(buf, processing, [piece]) <==> Written(buf, processing, piece).None?
  {
    assert [piece][1..] == [];
  }

  method WritePrompt(d: Descriptor)
    modifies d`outbuf, d`overflowed
    ensures d.closed ==> d.outbuf == old(d.outbuf) && d.overflowed == old(d.overflowed)
    ensures !d.closed ==>
        && d.outbuf == old(Appended(d.outbuf, d.processing, d.prompt))
        && (d.overflowed <==> old(d.overflowed || Overflows(d.outbuf, d.processing, d.prompt)))
  {
    var i := 0;
    assert d.prompt[0..] == d.prompt;
    while i < |d.prompt|
      invariant i <= |d.prompt|
      invariant d.closed ==> d.outbuf == old(d.outbuf) && d.overflowed == old(d.overflowed)
      invariant !d.closed ==>
          Appended(d.outbuf, d.processing, d.prompt[i..]) == old(Appended(d.outbuf, d.processing, d.prompt))
      invariant !d.closed ==>
          (d.overflowed || Overflows(d.outbuf, d.processing, d.prompt[i..]) <==>
           old(d.overflowed || Overflows(d.outbuf, d.processing, d.prompt)))
    {
      assert d.prompt[i..][0] == d.prompt[i] && d.prompt[i..][1..] == d.prompt[i + 1..];
      d.Write(d.prompt[i]);
      i := i + 1;
    }
    assert d.prompt[i..] == [];
  }

  /** A turn comes to a descriptor that has answered a command or has something to show. */
  predicate Takes(d: Descriptor)
    reads d
  {
    d.processing || d.outbuf != ""
  }

  /** What a turn ends with: the connection fails if it does not take something it is given. */
  predicate Fails(d: Descriptor, takes: bool)
    reads d
  {
    Takes(d) && !d.closed && !takes && (Outgoing(d) != "" || (d.playing && !d.paging))
  }

  /**
   One descriptor's turn. If it comes, every snooper with room for it gets all that goes out, and if
   the connection fails, the news that its victim has gone; the descriptor is closed then and only
   then. Nobody else gets anything, and if the turn does not come nothing happens.
   */
  method Turn(d: Descriptor, takes: bool, ghost all: set<Descriptor>)
    requires Consistent(all) && d in all
    modifies all`snooping, all`snoopBy, all`outbuf, all`overflowed, d`closed, d`sent
    ensures Consistent(all) && d.outbuf == ""
    ensures d.closed <==> old(d.closed) || old(Fails(d, takes))
    ensures !old(Fails(d, takes)) ==>
        forall x :: x in all ==> x.snooping == old(x.snooping) && x.snoopBy == old(x.snoopBy)
    ensures old(Fails(d, takes)) ==> forall x :: x in all && x != d ==>
        x.snooping == old(x.snooping) - {d} && x.snoopBy == old(x.snoopBy) - {d}
    ensures forall x :: x in all && old(x.overflowed) ==> x.overflowed
    ensures forall y :: y in all && y != d && (!old(Takes(d)) || y !in old(d.snoopBy)) ==>
        y.outbuf == old(y.outbuf) && y.overflowed == old(y.overflowed)
    ensures !old(Takes(d)) || old(d.closed) ==> d.sent == old(d.sent) && d.overflowed == old(d.overflowed)
    ensures old(Takes(d) && !d.closed) && !old(Fails(d, takes)) ==>
        && d.sent == old(d.sent + Outgoing(d))
        && (d.overflowed <==> old(d.overflowed || Overflows(d.outbuf, d.processing, Closing(d))))
        && forall y :: y in old(d.snoopBy) ==>
             && (y.overflowed <==>
                   old(y.overflowed) || !Fits(old(Outgoing(d)), d.character, y.processing, old(y.outbuf)))
             && (!y.overflowed ==> Forwarded(old(Outgoing(d)), d.character, y.processing, old(y.outbuf), y.outbuf))
    ensures old(Fails(d, takes)) ==> forall y :: y in old(d.snoopBy) && !y.overflowed ==>
        Parted(old(Outgoing(d)), d.character, y.processing, old(y.outbuf)) == Some(y.outbuf)
  {
    if d.processing || d.outbuf != "" {
      d.NoSelfSnooping(all);
      var ok := ProcessOutput(d, takes, all);
      if !ok {
        GiveUp(d, all);
      }
    }
  }

  method GiveUp(d: Descriptor, ghost all: set<Descriptor>)
    requires Consistent(all) && d in all && d.outbuf == ""
    modifies all`snooping, all`snoopBy, all`outbuf, all`overflowed, d`closed, d`sent
    ensures Consistent(all) && d.closed && d.outbuf == ""
    ensures forall x :: x in all && x != d ==>
        x.snooping == old(x.snooping) - {d} && x.snoopBy == old(x.snoopBy) - {d}
    ensures forall x :: x in all && old(x.overflowed) ==> x.overflowed
    ensures forall y :: y in all && y != d && y !in old(d.snoopBy) ==>
        y.outbuf == old(y.outbuf) && y.overflowed == old(y.overflowed)
    ensures forall y :: y in old(d.snoopBy) && !y.overflowed ==>
        Written(old(y.outbuf), y.processing, Farewell(d.character)) == Some(y.outbuf)
  {
    d.outbuf := "";
    LinksKept(all);
    d.Close(all);
  }

  /** Whoever still has text heads a chain of `k` snooped descriptors, one more after its turn. */
  ghost predicate Climbing(all: set<Descriptor>, g: Graph<Descriptor>, k: nat, done: set<Descriptor>)
    reads all
  {
    forall n {:trigger Open(n)} :: Open(n) ==>
      forall d :: d in all && d.outbuf != "" ==> Chain(g, d, k + if d in done then 1 else 0)
  }

  lemma ClimbingStarts(all: set<Descriptor>, g: Graph<Descriptor>)
    ensures Climbing(all, g, 1, {})
  {
    forall d | d in all ensures Chain(g, d, 1) {
      ChainOfOne(g, d);
    }
  }

  /** Once all have had their turns, all have climbed. */
  lemma ClimbedAll(all: set<Descriptor>, g: Graph<Descriptor>, k: nat, done: set<Descriptor>)
    requires Climbing(all, g, k, done) && all <= done
    ensures Climbing(all, g, k + 1, {})
  {
    assert Open(0);
  }

  ghost predicate Under(all: set<Descriptor>, g: Graph<Descriptor>)
    reads all
  {
    g.Keys == all && forall n {:trigger Open(n)} :: Open(n) ==> forall d :: d in all ==> d.snooping <= g[d]
  }

  lemma ChainShrinks<V>(g: Graph<V>, d: V, k: nat, n: nat)
    requires Chain(g, d, n) && k <= n
    ensures Chain(g, d, k)
  {
  }

  // ----- nothing is lost on the way

  /** What matters about one descriptor at one moment. */
  datatype Snap = Snap(
    sent: string, outbuf: string, snoopBy: set<Descriptor>, name: Option<string>, closed: bool, overflowed: bool)
  {
    function Stream(): string { sent + outbuf }
  }

  ghost function Snaps(all: set<Descriptor>): map<Descriptor, Snap>
    reads all
  {
    map d | d in all :: Snap(d.sent, d.outbuf, d.snoopBy, d.character, d.closed, d.overflowed)
  }

  /** Between the two moments `piece` was added, in one piece, to what had been shown. */
  ghost predicate Shown(before: string, after: string, piece: string) {
    exists x, y :: after == before + x + piece + y
  }

  lemma ShownLater(before: string, after: string, later: string, piece: string)
    requires Shown(before, after, piece) && after <= later
    ensures Shown(before, later, piece)
  {
    var x, y :| after == before + x + piece + y;
    var z := later[|after|..];
    assert later == before + x + piece + (y + z);
  }

  lemma ShownEarlier(earlier: string, before: string, after: string, piece: string)
    requires earlier <= before && Shown(before, after, piece)
    ensures Shown(earlier, after, piece)
  {
    var x, y :| after == before + x + piece + y;
    var w := before[|earlier|..];
    assert after == earlier + (w + x) + piece + y;
  }

  /** What a snooper is to be shown of what its victim had buffered. */
  function Share(victim: Snap): string {
    (if victim.name.Some? then victim.name.value else "") + "> " + victim.outbuf
  }

  ghost predicate Smooth(a: map<Descriptor, Snap>, b: map<Descriptor, Snap>) {
    forall n {:trigger Open(n)} :: Open(n) ==>
      b.Keys == a.Keys && forall x :: x in a ==> b[x].closed == a[x].closed && !b[x].overflowed
  }

  /** From `a` to `b`, in which the descriptors in `done` have had their turns. */
  ghost predicate Flowed(a: map<Descriptor, Snap>, b: map<Descriptor, Snap>, done: set<Descriptor>) {
    forall n {:trigger Open(n)} :: Open(n) ==>
      && (forall x :: x in a ==>
            x in b && b[x].name == a[x].name && b[x].snoopBy == a[x].snoopBy && a[x].Stream() <= b[x].Stream())
      && (forall x :: x in a && x !in done ==> a[x].outbuf <= b[x].outbuf)
      && (forall d, y :: d in done && d in a && y in a[d].snoopBy && y in a && a[d].outbuf != "" && a[d].name.Some? ==>
            Shown(a[y].Stream(), b[y].Stream(), Share(a[d])))
  }

  /** What one turn of `d` does, if all goes well. */
  ghost predicate TurnFlows(b: map<Descriptor, Snap>, c: map<Descriptor, Snap>, d: Descriptor) {
    forall n {:trigger Open(n)} :: Open(n) ==>
      && c.Keys == b.Keys && d in b
      && (forall x :: x in b ==>
            c[x].name == b[x].name && c[x].snoopBy == b[x].snoopBy && b[x].Stream() <= c[x].Stream())
      && (forall x :: x in b && x != d ==> b[x].outbuf <= c[x].outbuf)
      && (b[d].outbuf != "" && b[d].name.Some? ==>
            forall y :: y in b[d].snoopBy && y in b ==>
              Shown(b[y].Stream(), c[y].Stream(), Share(b[d])))
  }

  lemma FlowsOn(
      a: map<Descriptor, Snap>, b: map<Descriptor, Snap>, c: map<Descriptor, Snap>, done: set<Descriptor>,
      d: Descriptor)
    requires Flowed(a, b, done) && TurnFlows(b, c, d) && a.Keys == b.Keys
    ensures Flowed(a, c, done + {d})
  {
    assert Open(0);
    forall v, y | v in done + {d} && v in a && y in a[v].snoopBy && y in a && a[v].outbuf != "" && a[v].name.Some?
      ensures Shown(a[y].Stream(), c[y].Stream(), Share(a[v]))
    {
      if v in done {
        ShownLater(a[y].Stream(), b[y].Stream(), c[y].Stream(), Share(a[v]));
      } else {
        ShownEarlier(a[y].Stream(), b[y].Stream(), c[y].Stream(), Share(b[d]));
        ShareGrows(a[v], b[v], a[y].Stream(), c[y].Stream());
      }
    }
  }

  lemma ShareGrows(a: Snap, b: Snap, before: string, after: string)
    requires a.name == b.name && a.outbuf <= b.outbuf && Shown(before, after, Share(b))
    ensures Shown(before, after, Share(a))
  {
    var x, y :| after == before + x + Share(b) + y;
    var more := b.outbuf[|a.outbuf|..];
    assert Share(b) == Share(a) + more;
    assert after == before + x + Share(a) + (more + y);
  }

  /** A snooper that has had room for a flush shows name, arrow and text in one piece. */
  lemma SnooperShows(
      sent: string, before: string, processing: bool, name: string, text: string, after: string, start: string)
    requires text != "" && Forwarded(text, Some(name), processing, before, after) && start <= text
    ensures before <= after && Shown(sent + before, sent + after, name + "> " + start)
  {
    ForwardedExactly(before, processing, name, text);
    var more := text[|start|..];
    assert text == start + more;
    assert name + "> " + text == (name + "> " + start) + more;
    assert sent + after == (sent + before) + Break(before, processing) + (name + "> " + start) + more;
  }

  // ----- passes

  /** One pass over the descriptors, each of which gets at least one turn. */
  method Pass(order: seq<Descriptor>, ghost all: set<Descriptor>, ghost g: Graph<Descriptor>, ghost k: nat)
    requires Consistent(all) && Under(all, g) && Climbing(all, g, k, {})
    requires forall d :: d in all <==> d in order
    requires k > 1 ==> forall d :: d in all ==> !d.processing
    requires k >= 1
    modifies all`snooping, all`snoopBy, all`outbuf, all`overflowed, all`closed, all`sent
    ensures Consistent(all) && Under(all, g) && Climbing(all, g, k + 1, {})
    ensures Carried(old(Snaps(all)), Snaps(all), all)
  {
    ghost var done := {};
    ghost var a := Snaps(all);
    NothingCarried(a);
    for i := 0 to |order|
      invariant Consistent(all) && Under(all, g) && Climbing(all, g, k, done)
      invariant done <= all && forall j :: 0 <= j < i ==> order[j] in done
      invariant Carried(a, Snaps(all), done)
    {
      var takes := *;
      TurnClimbs(order[i], takes, all, g, k, done, a);
      done := done + {order[i]};
    }
    assert done == all;
    ClimbedAll(all, g, k, done);
  }

  /** Nothing has been lost since `a` in which the descriptors in `done` have had their turns, if all has gone well. */
  ghost predicate Carried(a: map<Descriptor, Snap>, b: map<Descriptor, Snap>, done: set<Descriptor>) {
    forall n {:trigger Open(n)} :: Open(n) ==> Rough(a, b) && (Smooth(a, b) ==> Flowed(a, b, done))
  }

  lemma NothingCarried(a: map<Descriptor, Snap>)
    ensures Carried(a, a, {})
  {
    NothingFlowed(a);
  }

  lemma CarriedOn(
      a: map<Descriptor, Snap>, b: map<Descriptor, Snap>, c: map<Descriptor, Snap>, done: set<Descriptor>,
      d: Descriptor)
    requires Carried(a, b, done) && Rough(b, c) && (Smooth(b, c) ==> TurnFlows(b, c, d))
    ensures Carried(a, c, done + {d})
  {
    assert Open(0);
    RoughOn(a, b, c);
    if Smooth(a, c) {
      SmoothBefore(a, b, c);
      FlowsOn(a, b, c, done, d);
    }
  }

  lemma CarriedPass(
      a: map<Descriptor, Snap>, b: map<Descriptor, Snap>, c: map<Descriptor, Snap>, all: set<Descriptor>, later: bool)
    requires Carried(a, b, if later then all else {}) && Carried(b, c, all) && a.Keys == all
    ensures Carried(a, c, all)
  {
    assert Open(0);
    RoughOn(a, b, c);
    if Smooth(a, c) {
      SmoothBefore(a, b, c);
      PassesAdd(a, b, c, all, later);
    }
  }

  lemma CarriedMeans(a: map<Descriptor, Snap>, b: map<Descriptor, Snap>, done: set<Descriptor>)
    requires Carried(a, b, done)
    ensures a.Keys == b.Keys && (Smooth(a, b) ==> Flowed(a, b, done))
  {
    assert Open(0);
  }

  /** Closed stays closed, and what has overflowed once counts as overflowed. */
  ghost predicate Rough(a: map<Descriptor, Snap>, b: map<Descriptor, Snap>) {
    forall n {:trigger Open(n)} :: Open(n) ==>
      b.Keys == a.Keys && forall x :: x in a ==> (a[x].closed ==> b[x].closed) && (a[x].overflowed ==> b[x].overflowed)
  }

  lemma RoughOn(a: map<Descriptor, Snap>, b: map<Descriptor, Snap>, c: map<Descriptor, Snap>)
    requires Rough(a, b) && Rough(b, c)
    ensures Rough(a, c)
  {
    assert Open(0);
  }

  lemma SmoothBefore(a: map<Descriptor, Snap>, b: map<Descriptor, Snap>, c: map<Descriptor, Snap>)
    requires Rough(a, b) && Rough(b, c) && Smooth(a, c)
    ensures Smooth(a, b) && Smooth(b, c)
  {
    assert Open(0);
  }

  lemma NothingFlowed(a: map<Descriptor, Snap>)
    ensures Flowed(a, a, {}) && Rough(a, a)
  {
  }

  /** After its own turn a descriptor has only what comes from one that climbed at least as far. */
  method TurnClimbs(
      d: Descriptor, takes: bool, ghost all: set<Descriptor>, ghost g: Graph<Descriptor>, ghost k: nat,
      ghost done: set<Descriptor>, ghost a: map<Descriptor, Snap>)
    requires Consistent(all) && Under(all, g) && Climbing(all, g, k, done) && d in all
    requires Carried(a, Snaps(all), done)
    requires k >= 1 && (k > 1 ==> !d.processing)
    modifies all`snooping, all`snoopBy, all`outbuf, all`overflowed, d`closed, d`sent
    ensures Consistent(all) && Under(all, g) && Climbing(all, g, k, done + {d})
    ensures Carried(a, Snaps(all), done + {d})
  {
    ghost var b := Snaps(all);
    assert Open(0);
    TakeTurn(d, takes, all);
    CarriedOn(a, b, Snaps(all), done, d);
    forall y | y in all && y.outbuf != ""
      ensures Chain(g, y, k + if y in done + {d} then 1 else 0)
    {
      if y.outbuf != old(y.outbuf) {
        if k == 1 {
          ChainOfOne(g, d);
        } else {
          ChainShrinks(g, d, k, k + if d in done then 1 else 0);
        }
        ChainGrows(g, y, d, k);
        ChainShrinks(g, y, k, k + 1);
      }
    }
  }

  /** A turn, and what it shows. */
  method TakeTurn(d: Descriptor, takes: bool, ghost all: set<Descriptor>)
    requires Consistent(all) && d in all
    modifies all`snooping, all`snoopBy, all`outbuf, all`overflowed, d`closed, d`sent
    ensures Consistent(all) && d.outbuf == ""
    ensures forall x :: x in all ==> x.snooping <= old(x.snooping)
    ensures forall y :: y in all && y != d && y.outbuf != old(y.outbuf) ==>
        d in old(y.snooping) && (old(d.processing) || old(d.outbuf) != "")
    ensures Rough(old(Snaps(all)), Snaps(all))
    ensures Smooth(old(Snaps(all)), Snaps(all)) ==> TurnFlows(old(Snaps(all)), Snaps(all), d)
  {
    ghost var b := Snaps(all);
    d.NoSelfSnooping(all);
    ghost var text := TurnIfSmooth(d, takes, all);
    RoughTurn(b, Snaps(all));
    if Smooth(b, Snaps(all)) {
      SmoothMeans(b, Snaps(all), d);
      ghost var answering := map x | x in all :: x.processing;
      assert forall x :: x in all ==> !Snaps(all)[x].overflowed;
      TurnShows(b, Snaps(all), d, text, answering);
    }
  }

  /** A turn, and what has gone out if the connection held and nobody overflowed. */
  method TurnIfSmooth(d: Descriptor, takes: bool, ghost all: set<Descriptor>) returns (ghost text: string)
    requires Consistent(all) && d in all
    modifies all`snooping, all`snoopBy, all`outbuf, all`overflowed, d`closed, d`sent
    ensures Consistent(all) && d.outbuf == "" && (old(d.closed) ==> d.closed)
    ensures forall x :: x in all ==> x.snooping <= old(x.snooping) && (old(x.overflowed) ==> x.overflowed)
    ensures forall y :: y in all && y != d && y.outbuf != old(y.outbuf) ==>
        d in old(y.snooping) && (old(d.processing) || old(d.outbuf) != "")
    ensures d.closed == old(d.closed) && !d.overflowed ==> old(d.outbuf) <= text && d.sent == old(d.sent) + text
    ensures d.closed == old(d.closed) ==> forall x :: x in all ==> x.snoopBy == old(x.snoopBy)
    ensures d.closed == old(d.closed) ==> forall y :: y in old(d.snoopBy) && !y.overflowed ==>
        Forwarded(text, d.character, y.processing, old(y.outbuf), y.outbuf)
  {
    text := if Takes(d) && !d.closed then Outgoing(d) else "";
    if !Overflows(d.outbuf, d.processing, Closing(d)) {
      AppendedExactly(d.outbuf, d.processing, Closing(d));
    }
    Turn(d, takes, all);
  }

  lemma RoughTurn(b: map<Descriptor, Snap>, c: map<Descriptor, Snap>)
    requires b.Keys == c.Keys
    requires forall x :: x in b ==> (b[x].closed ==> c[x].closed) && (b[x].overflowed ==> c[x].overflowed)
    ensures Rough(b, c)
  {
  }

  lemma SmoothMeans(b: map<Descriptor, Snap>, c: map<Descriptor, Snap>, d: Descriptor)
    requires Smooth(b, c) && d in b
    ensures b.Keys == c.Keys && c[d].closed == b[d].closed && forall x :: x in c ==> !c[x].overflowed
  {
    assert Open(0);
  }

  /** In a turn in which all goes well, all of `text` goes out, and to every snooper. */
  lemma TurnShows(
      b: map<Descriptor, Snap>, c: map<Descriptor, Snap>, d: Descriptor, text: string, answering: map<Descriptor, bool>)
    requires c.Keys == b.Keys == answering.Keys && d in b && d !in b[d].snoopBy && b[d].outbuf <= text
    requires forall x :: x in b ==> c[x].name == b[x].name && c[x].snoopBy == b[x].snoopBy
    requires forall x :: x in b && x != d ==> c[x].sent == b[x].sent
    requires forall x :: x in b && x != d && x !in b[d].snoopBy ==> c[x].outbuf == b[x].outbuf
    requires c[d].sent == b[d].sent + text && c[d].outbuf == ""
    requires forall y :: y in b[d].snoopBy && y in b ==>
        Forwarded(text, b[d].name, answering[y], b[y].outbuf, c[y].outbuf)
    ensures TurnFlows(b, c, d)
  {
    var more := text[|b[d].outbuf|..];
    assert text == b[d].outbuf + more && c[d].Stream() == b[d].Stream() + more;
    forall y | y in b[d].snoopBy && y in b
      ensures b[y].outbuf <= c[y].outbuf && b[y].Stream() <= c[y].Stream()
      ensures b[d].outbuf != "" && b[d].name.Some? ==> Shown(b[y].Stream(), c[y].Stream(), Share(b[d]))
    {
      SnooperGains(b[y], c[y], b[d], text, answering[y]);
    }
  }

  lemma SnooperGains(y: Snap, y': Snap, d: Snap, text: string, answering: bool)
    requires y'.sent == y.sent && d.outbuf <= text && Forwarded(text, d.name, answering, y.outbuf, y'.outbuf)
    ensures y.outbuf <= y'.outbuf && y.Stream() <= y'.Stream()
    ensures d.outbuf != "" && d.name.Some? ==> Shown(y.Stream(), y'.Stream(), Share(d))
  {
    if text != "" && d.name.Some? {
      SnooperShows(y.sent, y.outbuf, answering, d.name.value, text, y'.outbuf, d.outbuf);
      var more := y'.outbuf[|y.outbuf|..];
      assert y'.Stream() == y.Stream() + more;
    }
  }

  /**
   With no new commands, as many passes as there are descriptors leave every buffer empty, in
   whatever order each pass goes and whichever connections break on the way. The commands of the
   loop turn before the first pass may still have left their mark on it. If no connection breaks and
   nothing overflows, all that anybody had buffered has been sent to each of their snoopers too.
   */
  method Quiesce(orders: seq<seq<Descriptor>>, ghost all: set<Descriptor>)
    requires Consistent(all) && |orders| >= |all|
    requires forall i, d :: 0 <= i < |orders| ==> (d in all <==> d in orders[i])
    modifies all
    ensures Consistent(all)
    ensures forall d :: d in all ==> d.outbuf == ""
    ensures Smooth(old(Snaps(all)), Snaps(all)) ==>
        var a, b := old(Snaps(all)), Snaps(all);
        forall d, y :: d in all && y in all && y in a[d].snoopBy && a[d].outbuf != "" && a[d].name.Some? ==>
          Shown(a[y].Stream(), b[y].sent, a[d].name.value + "> " + a[d].outbuf)
  {
    ghost var g := GraphOf(all);
    ghost var a := Snaps(all);
    ClimbingStarts(all, g);
    NothingCarried(a);
    for i := 0 to |orders|
      invariant Consistent(all) && Under(all, g) && Climbing(all, g, i + 1, {})
      invariant Carried(a, Snaps(all), if i == 0 then {} else all)
    {
      OneTurnOfTheLoop(orders[i], i, all, g, a);
    }
    CarriedMeans(a, Snaps(all), if |orders| == 0 then {} else all);
    AllEmpty(all, g, |orders|);
    if Smooth(a, Snaps(all)) {
      AllSent(a, Snaps(all), all);
    }
  }

  /** The output half of one turn of the game loop; commands can only have come before the first. */
  method OneTurnOfTheLoop(
      order: seq<Descriptor>, i: nat, ghost all: set<Descriptor>, ghost g: Graph<Descriptor>,
      ghost a: map<Descriptor, Snap>)
    requires Consistent(all) && Under(all, g) && Climbing(all, g, i + 1, {}) && a.Keys == all
    requires Carried(a, Snaps(all), if i == 0 then {} else all) && forall d :: d in all <==> d in order
    modifies all
    ensures Consistent(all) && Under(all, g) && Climbing(all, g, i + 2, {})
    ensures Carried(a, Snaps(all), all)
  {
    if i > 0 {
      assert Open(0);
      NoCommands(order, all);
    }
    ghost var b := Snaps(all);
    Pass(order, all, g, i + 1);
    CarriedPass(a, b, Snaps(all), all, i > 0);
  }

  lemma PassesAdd(
      a: map<Descriptor, Snap>, b: map<Descriptor, Snap>, c: map<Descriptor, Snap>, all: set<Descriptor>, later: bool)
    requires a.Keys == b.Keys == c.Keys == all
    requires Flowed(a, b, if later then all else {}) && Flowed(b, c, all)
    ensures Flowed(a, c, all)
  {
    assert Open(0);
    forall d, y | d in all && y in a[d].snoopBy && y in a && a[d].outbuf != "" && a[d].name.Some?
      ensures Shown(a[y].Stream(), c[y].Stream(), Share(a[d]))
    {
      if later {
        ShownLater(a[y].Stream(), b[y].Stream(), c[y].Stream(), Share(a[d]));
      } else {
        ShownEarlier(a[y].Stream(), b[y].Stream(), c[y].Stream(), Share(b[d]));
        ShareGrows(a[d], b[d], a[y].Stream(), c[y].Stream());
      }
    }
  }

  lemma AllEmpty(all: set<Descriptor>, g: Graph<Descriptor>, n: nat)
    requires Climbing(all, g, n + 1, {}) && g.Keys == all && |all| <= n && Within(g) && Acyclic(g)
    ensures forall d :: d in all ==> d.outbuf == ""
  {
    assert Open(0);
    forall d | d in all ensures d.outbuf == "" {
      if d.outbuf != "" {
        ChainFits(g, d, n + 1);
      }
    }
  }

  lemma AllSent(a: map<Descriptor, Snap>, b: map<Descriptor, Snap>, all: set<Descriptor>)
    requires Flowed(a, b, all) && a.Keys == b.Keys == all && forall x :: x in all ==> b[x].outbuf == ""
    ensures forall d, y :: d in all && y in all && y in a[d].snoopBy && a[d].outbuf != "" && a[d].name.Some? ==>
        Shown(a[y].Stream(), b[y].sent, a[d].name.value + "> " + a[d].outbuf)
  {
    assert Open(0);
    forall y | y in all ensures b[y].Stream() == b[y].sent {
      assert b[y].sent + "" == b[y].sent;
    }
  }

  /** The start of a loop turn in which nobody has typed anything. */
  method NoCommands(order: seq<Descriptor>, ghost all: set<Descriptor>)
    requires Consistent(all) && forall d :: d in all <==> d in order
    modifies all`processing
    ensures Consistent(all) && (forall d :: d in all ==> !d.processing)
    ensures Snaps(all) == old(Snaps(all))
  {
    for i := 0 to |order|
      invariant forall j :: 0 <= j < i ==> !order[j].processing
    {
      order[i].processing := false;
    }
    LinksKept(all);
  }
}
