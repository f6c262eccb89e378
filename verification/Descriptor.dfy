/**
 Connections that may snoop on each other, and the text that is forwarded from a snooped
 connection to its snoopers. `all` is the set of live descriptors; who snoops on whom is the
 graph from snooper to victim.
 */
module Descriptors {
  import opened Options
  import opened SnoopGraph

  const MAX_OUTPUT_BUF_SIZE := 32000

  /** The buffer after one write; None if it would overflow. */
  function Written(buf: string, processing: bool, message: string): Option<string> {
    var start := if buf == "" && !processing then "\n\r" else buf;
    if |start| + |message| > MAX_OUTPUT_BUF_SIZE then None else Some(start + message)
  }

  /** The line break that is put before the first text, unless an answer to a command goes before it. */
  function Break(buf: string, processing: bool): string {
    if buf == "" && !processing then "\n\r" else ""
  }

  /** A write that fits adds its text behind what is there, one that does not fit adds nothing. */
  lemma WrittenExactly(buf: string, processing: bool, message: string)
    ensures Written(buf, processing, message) ==
        if |buf + Break(buf, processing) + message| <= 32000 then Some(buf + Break(buf, processing) + message) else None
  {
    assert buf + "" == buf && "" + "\n\r" == "\n\r";
  }

  /** Name, arrow and text, one write after the other. */
  function ForwardedTo(buf: string, processing: bool, name: string, text: string): Option<string> {
    match Written(buf, processing, name)
    case None => None
    case Some(named) =>
      match Written(named, processing, "> ")
      case None => None
      case Some(pointed) => Written(pointed, processing, text)
  }

  /** All that arrives at a snooper, if it fits, is the name, the arrow and the text, in one piece. */
  lemma ForwardedExactly(buf: string, processing: bool, name: string, text: string)
    requires ForwardedTo(buf, processing, name, text).Some?
    ensures ForwardedTo(buf, processing, name, text).value == buf + (Break(buf, processing) + (name + "> " + text))
  {
    var named := Written(buf, processing, name).value;
    var pointed := Written(named, processing, "> ").value;
    WrittenExactly(buf, processing, name);
    WrittenExactly(named, processing, "> ");
    WrittenExactly(pointed, processing, text);
    assert named + "" == named && pointed + "" == pointed;
    assert named == "" ==> processing;
    assert pointed != "";
  }

  /** What a snooper is told when its victim goes. */
  function Farewell(character: Option<string>): string {
    "Your victim (" + (if character.Some? then character.value else "unknown") + ") has left the game.\n\r"
  }

  ghost function GraphOf(all: set<Descriptor>): (g: Graph<Descriptor>)
    reads all
    ensures g.Keys == all && forall d :: d in all ==> g[d] == d.snooping
  {
    map d | d in all :: d.snooping
  }

  /**
   The links are mirrored, stay among the live descriptors, never involve a closed one, and form
   no cycle; a closed descriptor has nothing left to send.
   */
  ghost predicate Consistent(all: set<Descriptor>)
    reads all
  {
    && Mirrored(all)
    && (forall d :: d in all && d.closed ==> d.snooping == {} && d.snoopBy == {} && d.outbuf == "")
    && Acyclic(GraphOf(all))
  }

  ghost predicate Mirrored(all: set<Descriptor>)
    reads all
  {
    && (forall d :: d in all ==> d.snooping <= all && d.snoopBy <= all)
    && (forall a, b :: a in all && b in all ==> (b in a.snooping <==> a in b.snoopBy))
  }

  class Descriptor {
    var closed: bool
    var snooping: set<Descriptor>
    var snoopBy: set<Descriptor>
    var outbuf: string
    var processing: bool
    var character: Option<string>  // the name of the character, if there is one
    var paging: bool
    var playing: bool
    var prompt: seq<string>        // what the prompt would add, piece by piece
    var overflowed: bool           // a write did not fit; what follows from that is not modelled
    ghost var sent: string         // everything that has been handed to the connection

    // ----- snooping

    method TryStartSnooping(other: Descriptor, ghost all: set<Descriptor>) returns (ok: bool)
      requires Consistent(all) && this in all && other in all
      modifies this`snooping, other`snoopBy
      ensures Consistent(all)
      ensures closed || other.closed ==> !ok
      ensures !closed && !other.closed ==>
          (ok <==> other in old(snooping) || Clear(old(GraphOf(all)), {this}, other))
      ensures snooping == old(snooping) + (if ok then {other} else {})
      ensures other.snoopBy == old(other.snoopBy) + (if ok then {this} else {})
    {
      if closed || other.closed {
        return false;
      }
      if other in snooping {
        return true;
      }
      var checker := new SnoopLoopChecker(this);
      ghost var g := GraphOf(all);
      var duplicate := checker.Snoops(other, g);
      if duplicate {
        return false;
      }
      Link(other, all);
      return true;
    }

    method Link(other: Descriptor, ghost all: set<Descriptor>)
      requires Consistent(all) && this in all && other in all && !closed && !other.closed
      requires !Reaches(GraphOf(all), other, this)
      modifies this`snooping, other`snoopBy
      ensures Consistent(all)
      ensures snooping == old(snooping) + {other} && other.snoopBy == old(other.snoopBy) + {this}
    {
      ghost var g := GraphOf(all);
      other.snoopBy := other.snoopBy + {this};
      snooping := snooping + {other};
      LinkKeepsAcyclic(g, this, other);
      assert GraphOf(all) == SnoopGraph.Linked(g, this, other);
    }

    method StopSnooping(other: Descriptor, ghost all: set<Descriptor>)
      requires Consistent(all) && this in all && other in all
      modifies this`snooping, other`snoopBy
      ensures Consistent(all)
      ensures snooping == old(snooping) - {other} && other.snoopBy == old(other.snoopBy) - {this}
    {
      ghost var g := GraphOf(all);
      other.snoopBy := other.snoopBy - {this};
      snooping := snooping - {other};
      assert Mirrored(all);
      FewerLinksAcyclic(all, g);
    }

    lemma FewerLinksAcyclic(all: set<Descriptor>, g: Graph<Descriptor>)
      requires Acyclic(g) && g.Keys == all && forall d :: d in all ==> d.snooping <= g[d]
      ensures Acyclic(GraphOf(all))
    {
      SubgraphAcyclic(GraphOf(all), g);
    }

    method StopAllSnooping(ghost all: set<Descriptor>)
      requires Consistent(all) && this in all
      modifies this`snooping, snooping`snoopBy
      ensures Consistent(all) && snooping == {}
      ensures forall d :: d in old(snooping) ==> d.snoopBy == old(d.snoopBy) - {this}
    {
      ghost var before := snooping;
      while snooping != {}
        invariant Consistent(all) && snooping <= before
        invariant forall d :: d in before ==> d.snoopBy == old(d.snoopBy) - if d in snooping then {} else {this}
        decreases snooping
      {
        var d :| d in snooping;
        StopSnooping(d, all);
      }
    }

    // ----- output

    method Write(message: string)
      modifies this`outbuf, this`overflowed
      ensures closed ==> outbuf == old(outbuf) && overflowed == old(overflowed)
      ensures !closed ==>
          match Written(old(outbuf), processing, message)
          case Some(buf) => outbuf == buf && overflowed == old(overflowed)
          case None => outbuf == "" && overflowed
    {
      if closed {
        return;
      }
      if outbuf == "" && !processing {
        outbuf := outbuf + "\n\r";
      }
      if |outbuf| + |message| > MAX_OUTPUT_BUF_SIZE {
        outbuf, overflowed := "", true;
        return;
      }
      outbuf := outbuf + message;
    }

    /** One snooper's share of a flush. */
    method Forward(name: string, text: string)
      modifies this`outbuf, this`overflowed
      ensures closed ==> outbuf == old(outbuf) && overflowed == old(overflowed)
      ensures !closed ==> (overflowed <==> old(overflowed) || ForwardedTo(old(outbuf), processing, name, text).None?)
      ensures !closed && !overflowed ==> ForwardedTo(old(outbuf), processing, name, text) == Some(outbuf)
    {
      Write(name);
      Write("> ");
      Write(text);
    }

    /**
     Empties the buffer, having sent its text under the character's name to every snooper. Whether
     the connection takes the text is up to the network (`takes`).
     */
    method FlushOutput(takes: bool, ghost all: set<Descriptor>) returns (ok: bool)
      requires Consistent(all) && this in all
      modifies this`outbuf, this`sent, snoopBy`outbuf, snoopBy`overflowed
      ensures Consistent(all) && outbuf == "" && sent == old(sent) + old(outbuf)
      ensures ok <==> old(outbuf) == "" || takes
      ensures old(outbuf) == "" ==> forall y :: y in snoopBy ==> y.outbuf == old(y.outbuf)
      ensures forall y :: y in snoopBy ==>
          (y.overflowed <==> old(y.overflowed) || !Fits(old(outbuf), character, y.processing, old(y.outbuf)))
      ensures forall y :: y in snoopBy && !y.overflowed ==>
          Forwarded(old(outbuf), character, y.processing, old(y.outbuf), y.outbuf)
    {
      NoSelfSnooping(all);
      if outbuf == "" || closed {
        assert sent + outbuf == sent;
        return true;
      }
      if character.Some? {
        var pending := snoopBy;
        while pending != {}
          invariant pending <= snoopBy
          invariant outbuf == old(outbuf) && sent == old(sent)
          invariant forall y :: y in pending ==> y.outbuf == old(y.outbuf)
          invariant forall y :: y in pending ==> y.overflowed == old(y.overflowed)
          invariant forall y :: y in snoopBy - pending ==>
              (y.overflowed <==> old(y.overflowed) || !Fits(outbuf, character, y.processing, old(y.outbuf)))
          invariant forall y :: y in snoopBy - pending && !y.overflowed ==>
              Forwarded(outbuf, character, y.processing, old(y.outbuf), y.outbuf)
          decreases pending
        {
          var y :| y in pending;
          y.Forward(character.value, outbuf);
          pending := pending - {y};
        }
      }
      ok := takes;
      sent := sent + outbuf;
      outbuf := "";
      LinksKept(all);
    }

    lemma NoSelfSnooping(all: set<Descriptor>)
      requires Consistent(all) && this in all
      ensures this !in snooping && this !in snoopBy
    {
      ReachesSelf(GraphOf(all), this);
    }

    /** Tells each snooper and drops its link. */
    method DropSnoopers(ghost all: set<Descriptor>)
      requires Consistent(all) && this in all && !closed
      modifies this`snoopBy, snoopBy`snooping, snoopBy`outbuf, snoopBy`overflowed
      ensures Consistent(all) && snoopBy == {}
      ensures forall d :: d in old(snoopBy) ==> d.snooping == old(d.snooping) - {this}
      ensures forall y :: y in old(snoopBy) && old(y.overflowed) ==> y.overflowed
      ensures forall y :: y in old(snoopBy) && !y.overflowed ==>
          Written(old(y.outbuf), y.processing, Farewell(character)) == Some(y.outbuf)
    {
      NoSelfSnooping(all);
      ghost var before := snoopBy;
      while snoopBy != {}
        invariant forall y :: y in before && old(y.overflowed) ==> y.overflowed
        invariant forall y :: y in snoopBy ==> y.outbuf == old(y.outbuf)
        invariant forall y :: y in before - snoopBy && !y.overflowed ==>
            Written(old(y.outbuf), y.processing, Farewell(character)) == Some(y.outbuf)
        invariant Consistent(all) && snoopBy <= before
        invariant forall d :: d in before ==> d.snooping == old(d.snooping) - if d in snoopBy then {} else {this}
        decreases snoopBy
      {
        var snooper :| snooper in snoopBy;
        Dismiss(snooper, all);
      }
    }

    method Dismiss(snooper: Descriptor, ghost all: set<Descriptor>)
      requires Consistent(all) && this in all && !closed && snooper in snoopBy
      modifies this`snoopBy, snooper`snooping, snooper`outbuf, snooper`overflowed
      ensures Consistent(all) && snoopBy == old(snoopBy) - {snooper}
      ensures snooper.snooping == old(snooper.snooping) - {this}
      ensures old(snooper.overflowed) ==> snooper.overflowed
      ensures !snooper.overflowed ==>
          Written(old(snooper.outbuf), snooper.processing, Farewell(character)) == Some(snooper.outbuf)
    {
      snooper.Write(Farewell(character));
      LinksKept(all);
      snooper.StopSnooping(this, all);
    }

    /** What is still buffered goes out first, then the news. */
    method TakeLeave(ghost all: set<Descriptor>)
      requires Consistent(all) && this in all && !closed
      modifies this`snoopBy, this`outbuf, this`sent, snoopBy`snooping, snoopBy`outbuf, snoopBy`overflowed
      ensures Consistent(all) && snoopBy == {} && outbuf == ""
      ensures forall y :: y in old(snoopBy) && old(y.overflowed) ==> y.overflowed
      ensures forall d :: d in old(snoopBy) ==> d.snooping == old(d.snooping) - {this}
      ensures forall y :: y in old(snoopBy) && !y.overflowed ==>
          Parted(old(outbuf), character, y.processing, old(y.outbuf)) == Some(y.outbuf)
    {
      NoSelfSnooping(all);
      var takes := *;
      var ok := FlushOutput(takes, all);
      DropSnoopers(all);
    }

    /** Saying goodbye to the snoopers and dropping every link, in both directions. */
    method Close(ghost all: set<Descriptor>)
      requires Consistent(all) && this in all
      modifies all`snooping, all`snoopBy, all`outbuf, all`overflowed, this`closed, this`sent
      ensures Consistent(all) && closed && forall d :: d in all && old(d.overflowed) ==> d.overflowed
      ensures forall d :: d in all && d != this ==>
          d.snooping == old(d.snooping) - {this} && d.snoopBy == old(d.snoopBy) - {this}
      ensures forall d :: d in all && d != this && d !in old(snoopBy) ==>
          d.outbuf == old(d.outbuf) && d.overflowed == old(d.overflowed)
      ensures forall y :: y in old(snoopBy) && !y.overflowed ==>
          Parted(old(outbuf), character, y.processing, old(y.outbuf)) == Some(y.outbuf)
    {
      if closed {
        return;
      }
      Unlink(all);
      label unlinked:
      closed := true;
      LinksKept@unlinked(all);
    }

    method Unlink(ghost all: set<Descriptor>)
      requires Consistent(all) && this in all && !closed
      modifies all`snooping, all`snoopBy, all`outbuf, all`overflowed, this`sent
      ensures Consistent(all) && snooping == {} && snoopBy == {} && outbuf == ""
      ensures forall d :: d in all && old(d.overflowed) ==> d.overflowed
      ensures forall d :: d in all && d != this ==>
          d.snooping == old(d.snooping) - {this} && d.snoopBy == old(d.snoopBy) - {this}
      ensures forall d :: d in all && d != this && d !in old(snoopBy) ==>
          d.outbuf == old(d.outbuf) && d.overflowed == old(d.overflowed)
      ensures forall y :: y in old(snoopBy) && !y.overflowed ==>
          Parted(old(outbuf), character, y.processing, old(y.outbuf)) == Some(y.outbuf)
    {
      NoSelfSnooping(all);
      TakeLeave(all);
      StopAllSnooping(all);
    }
  }

  /** What a snooper's buffer becomes when its victim's buffer is flushed. */
  ghost predicate Forwarded(text: string, character: Option<string>, processing: bool, before: string, after: string) {
    if text == "" || character.None? then after == before
    else ForwardedTo(before, processing, character.value, text) == Some(after)
  }

  /** Whether a snooper has room for all that a flush of its victim's buffer brings. */
  ghost predicate Fits(text: string, character: Option<string>, processing: bool, before: string) {
    text == "" || character.None? || ForwardedTo(before, processing, character.value, text).Some?
  }

  /** What a snooper's buffer becomes when its victim closes. */
  function Parted(text: string, character: Option<string>, processing: bool, before: string): Option<string> {
    match if text == "" || character.None? then Some(before) else ForwardedTo(before, processing, character.value, text)
    case None => None
    case Some(mid) => Written(mid, processing, Farewell(character))
  }

  /** Nothing but links and closing matters to consistency. */
  twostate lemma LinksKept(all: set<Descriptor>)
    requires old(Consistent(all))
    requires forall d :: d in all ==> d.snooping == old(d.snooping) && d.snoopBy == old(d.snoopBy)
    requires forall d :: d in all && d.closed ==> d.snooping == {} && d.snoopBy == {} && d.outbuf == ""
    ensures Consistent(all) && GraphOf(all) == old(GraphOf(all))
  {
    assert GraphOf(all) == old(GraphOf(all));
  }

  class SnoopLoopChecker {
    var alreadySeen: set<Descriptor>

    constructor (d: Descriptor)
      ensures alreadySeen == {d}
    {
      alreadySeen := {d};
    }

    /** True if the search from `d` comes upon a descriptor for the second time. */
    method Snoops(d: Descriptor, ghost g: Graph<Descriptor>) returns (duplicate: bool)
      requires Within(g) && d in g && alreadySeen <= g.Keys
      requires forall x :: x in g ==> x.snooping == g[x]
      modifies this
      ensures duplicate <==> !Clear(g, old(alreadySeen), d)
      ensures !duplicate ==>
          && old(alreadySeen) <= alreadySeen <= g.Keys
          && (forall x :: Reaches(g, d, x) ==> x in alreadySeen)
          && (forall x :: x in alreadySeen ==> x in old(alreadySeen) || Reaches(g, d, x))
      decreases g.Keys - alreadySeen
    {
      ghost var seen0 := alreadySeen;
      if d in alreadySeen {
        SeenIsNotClear(g, seen0, d);
        return true;
      }
      alreadySeen := alreadySeen + {d};
      var pending := d.snooping;
      while pending != {}
        invariant pending <= g[d] && alreadySeen <= g.Keys
        invariant Explored(g, seen0, d, g[d] - pending, alreadySeen)
        decreases pending
      {
        var c :| c in pending;
        ghost var done, seen := g[d] - pending, alreadySeen;
        duplicate := Snoops(c, g);
        if duplicate {
          ExploreFails(g, seen0, d, done, seen, c);
          return;
        }
        ExploreNext(g, seen0, d, done, seen, c, alreadySeen);
        pending := pending - {c};
        assert g[d] - pending == done + {c};
      }
      assert g[d] - pending == g[d];
      ExploreDone(g, seen0, d, alreadySeen);
      duplicate := false;
    }
  }
}
