/**
 Duels over whole runs: a duel is in progress only between two players who each asked for it, and
 no record outlives its ticks.
 */
module DuelRuns {
  import opened DuelBook

  /** Each of the two holds a record of the other. */
  predicate Paired<P(==)>(d: Book<P>, a: P, b: P) {
    Faces(d, a, b) && Faces(d, b, a)
  }

  // ----- consent

  /** The state after the first `n` events. */
  function After<P(==)>(events: seq<Event<P>>, n: nat): Book<P>
    requires n <= |events|
  {
    if n == 0 then map[] else Step(After(events, n - 1), events[n - 1])
  }

  lemma {:induction false} AfterMatching<P>(events: seq<Event<P>>, n: nat)
    requires n <= |events|
    ensures Matching(After(events, n))
  {
    if n > 0 {
      AfterMatching(events, n - 1);
      StepKeepsMatching(After(events, n - 1), events[n - 1]);
    }
  }

  /** The two have held their records without a break since just after event `i`. */
  ghost predicate PairedSince<P>(events: seq<Event<P>>, i: nat, n: nat, a: P, b: P)
    requires n <= |events|
  {
    forall m :: i < m <= n ==> Paired(After(events, m), a, b)
  }

  ghost predicate Asked<P>(events: seq<Event<P>>, i: nat, a: P, b: P) {
    i < |events| && events[i] == Command(a, b)
  }

  /** What one event can do to two players who are paired after it. */
  lemma StepPair<P>(d: Book<P>, e: Event<P>, a: P, b: P)
    requires Matching(d) && Paired(Step(d, e), a, b)
    ensures var d' := Step(d, e);
            if !Paired(d, a, b) then
              || (e == Command(a, b) && d'[a].state.Accepted? && d'[b].state.Invited?)
              || (e == Command(b, a) && d'[b].state.Accepted? && d'[a].state.Invited?)
            else
              || (d'[a].state == d[a].state && d'[b].state == d[b].state)
              || (e == Command(b, a) && d[a].state.Accepted? && d'[a].state.Accepted? && d'[b].state.Accepted?)
              || (e == Command(a, b) && d[b].state.Accepted? && d'[a].state.Accepted? && d'[b].state.Accepted?)
  {
  }

  /**
   Of two players who are paired after `n` events, one asked at some event `i` since which their
   records have stood, and unless the other has asked too, only the first one has agreed.
   */
  lemma {:induction false} PairOrigin<P>(events: seq<Event<P>>, n: nat, a: P, b: P)
    returns (i: nat, j: nat, first: P, second: P)
    requires n <= |events| && Paired(After(events, n), a, b)
    ensures (first == a && second == b) || (first == b && second == a)
    ensures i < n && Asked(events, i, first, second) && PairedSince(events, i, n, a, b)
    ensures var d := After(events, n);
            d[first].state.Accepted? && (d[second].state.Accepted? ==> i < j < n && Asked(events, j, second, first))
  {
    assert n > 0;
    var d, e := After(events, n - 1), events[n - 1];
    AfterMatching(events, n - 1);
    StepPair(d, e, a, b);
    if Paired(d, a, b) {
      i, j, first, second := PairOrigin(events, n - 1, a, b);
      if d[second].state.Invited? {
        j := n - 1;
      }
    } else {
      i, j := n - 1, n - 1;
      first, second := e.challenger, e.challengee;
    }
  }

  /**
   In every run of commands, ticks and departures among any players: a duel is in progress only
   if each of the two typed `duel` at the other, at two different moments, and their records have
   stood without a break since the first of them.
   */
  lemma ProgressNeedsConsent<P>(events: seq<Event<P>>, a: P, b: P)
    requires IsDuelInProgress(After(events, |events|), a, b)
    ensures exists i, j ::
        && i < j && PairedSince(events, i, |events|, a, b)
        && ((Asked(events, i, a, b) && Asked(events, j, b, a)) || (Asked(events, i, b, a) && Asked(events, j, a, b)))
  {
    AfterMatching(events, |events|);
    var i, j, first, second := PairOrigin(events, |events|, a, b);
  }

  // ----- time

  /** One stretch of play: commands and departures, then a tick that checks every player once. */
  datatype Turn<P> = Turn(play: seq<Event<P>>, tick: seq<Event<P>>)

  function Checks<P(==)>(events: seq<Event<P>>, p: P): nat
    decreases |events|
  {
    if events == [] then 0 else (if events[0] == Check(p) then 1 else 0) + Checks(events[1..], p)
  }

  ghost predicate NoChecks<P>(events: seq<Event<P>>) {
    forall i :: 0 <= i < |events| ==> !events[i].Check?
  }

  ghost predicate NoCommands<P>(events: seq<Event<P>>) {
    forall i :: 0 <= i < |events| ==> !events[i].Command?
  }

  /** A tick may end duels in passing, but nobody types commands during it. */
  ghost predicate TurnOk<P>(t: Turn<P>, a: P, b: P) {
    NoChecks(t.play) && NoCommands(t.tick) && Checks(t.tick, a) == 1 && Checks(t.tick, b) == 1
  }

  /** The two stay paired through all the events. */
  predicate Lasts<P(==)>(d: Book<P>, events: seq<Event<P>>, a: P, b: P)
    decreases |events|
  {
    Paired(d, a, b) && (events == [] || Lasts(Step(d, events[0]), events[1..], a, b))
  }

  function Play<P(==)>(d: Book<P>, t: Turn<P>): Book<P> {
    Run(Run(d, t.play), t.tick)
  }

  predicate LastsTurns<P(==)>(d: Book<P>, turns: seq<Turn<P>>, a: P, b: P)
    decreases |turns|
  {
    Paired(d, a, b) &&
    (turns == [] ||
     (Lasts(d, turns[0].play, a, b) && Lasts(Run(d, turns[0].play), turns[0].tick, a, b)
      && LastsTurns(Play(d, turns[0]), turns[1..], a, b)))
  }

  ghost predicate Agreed<P>(d: Book<P>, a: P, b: P)
    requires Paired(d, a, b)
  {
    d[a].state.Accepted? && d[b].state.Accepted?
  }

  /** The two sides have the same time left, as they do between ticks. */
  ghost predicate InStep<P>(d: Book<P>, a: P, b: P) {
    Paired(d, a, b) && d[a].ticks == d[b].ticks
  }

  /** The most ticks the pair can still see: accepting once more gives 10 anew. */
  ghost function Left<P>(d: Book<P>, a: P, b: P): int
    requires Paired(d, a, b)
  {
    if Agreed(d, a, b) then d[a].ticks else DUEL_TIMEOUT_TICKS - 1 + d[a].ticks
  }

  /** Play between ticks never gives a pair more time in hand, and never undoes an agreement. */
  lemma {:induction false} PlayKeepsTime<P>(d: Book<P>, events: seq<Event<P>>, a: P, b: P)
    requires Matching(d) && InStep(d, a, b) && NoChecks(events) && Lasts(d, events, a, b)
    ensures var d' := Run(d, events);
            && Matching(d') && InStep(d', a, b) && Left(d', a, b) <= Left(d, a, b)
            && (Agreed(d, a, b) ==> Agreed(d', a, b))
            && (!Agreed(d', a, b) ==> d'[a].ticks == d[a].ticks)
    decreases |events|
  {
    if events != [] {
      var d1 := Step(d, events[0]);
      StepKeepsMatching(d, events[0]);
      assert Paired(d1, a, b);
      EventKeepsTime(d, events[0], a, b);
      PlayKeepsTime(d1, events[1..], a, b);
    }
  }

  lemma EventKeepsTime<P>(d: Book<P>, e: Event<P>, a: P, b: P)
    requires Matching(d) && InStep(d, a, b) && !e.Check? && Paired(Step(d, e), a, b)
    ensures var d' := Step(d, e);
            && InStep(d', a, b) && Left(d', a, b) <= Left(d, a, b)
            && (Agreed(d, a, b) ==> Agreed(d', a, b))
            && (!Agreed(d', a, b) ==> d'[a].ticks == d[a].ticks)
  {
  }

  lemma {:induction false} TickCountsDown<P>(d: Book<P>, events: seq<Event<P>>, a: P, b: P)
    requires Matching(d) && NoCommands(events) && Lasts(d, events, a, b)
    ensures var d' := Run(d, events);
            && Matching(d') && Paired(d', a, b)
            && d'[a].ticks == d[a].ticks - Checks(events, a) && d'[a].state == d[a].state
            && d'[b].ticks == d[b].ticks - Checks(events, b) && d'[b].state == d[b].state
    decreases |events|
  {
    if events != [] {
      var d1 := Step(d, events[0]);
      StepKeepsMatching(d, events[0]);
      assert Paired(d1, a, b);
      TickCountsDown(d1, events[1..], a, b);
    }
  }

  lemma TurnTakesTime<P>(d: Book<P>, t: Turn<P>, a: P, b: P)
    requires Matching(d) && InStep(d, a, b) && TurnOk(t, a, b)
    requires Lasts(d, t.play, a, b) && Lasts(Run(d, t.play), t.tick, a, b)
    ensures var d' := Play(d, t);
            && Matching(d') && InStep(d', a, b) && Left(d', a, b) < Left(d, a, b)
            && (Agreed(d, a, b) ==> Agreed(d', a, b))
            && (!Agreed(d', a, b) ==> d'[a].ticks == d[a].ticks - 1)
  {
    PlayKeepsTime(d, t.play, a, b);
    TickCountsDown(Run(d, t.play), t.tick, a, b);
  }

  /** A pair that is still there after some turns had more time in hand than turns went by. */
  lemma {:induction false} PairsRunOut<P>(d: Book<P>, turns: seq<Turn<P>>, a: P, b: P)
    requires Matching(d) && InStep(d, a, b)
    requires (forall i :: 0 <= i < |turns| ==> TurnOk(turns[i], a, b)) && LastsTurns(d, turns, a, b)
    ensures |turns| < Left(d, a, b)
    ensures Agreed(d, a, b) ==> |turns| < d[a].ticks
    decreases |turns|
  {
    if turns != [] {
      TurnTakesTime(d, turns[0], a, b);
      PairsRunOut(Play(d, turns[0]), turns[1..], a, b);
    }
  }

  function Played<P(==)>(d: Book<P>, turns: seq<Turn<P>>): Book<P>
    decreases |turns|
  {
    if turns == [] then d else Played(Play(d, turns[0]), turns[1..])
  }

  /** An invitation that is still unanswered after some turns had more ticks than turns went by. */
  lemma {:induction false} InvitationsRunOut<P>(d: Book<P>, turns: seq<Turn<P>>, a: P, b: P)
    requires Matching(d) && InStep(d, a, b)
    requires (forall i :: 0 <= i < |turns| ==> TurnOk(turns[i], a, b)) && LastsTurns(d, turns, a, b)
    ensures Paired(Played(d, turns), a, b)
    ensures !Agreed(Played(d, turns), a, b) ==> !Agreed(d, a, b) && |turns| < d[a].ticks
    decreases |turns|
  {
    if turns != [] {
      TurnTakesTime(d, turns[0], a, b);
      InvitationsRunOut(Play(d, turns[0]), turns[1..], a, b);
    }
  }

  /**
   From the command that creates a record pair: it is gone by the 11th tick whatever happens, by
   the 2nd if it is not answered; and an accepted one is gone by the 10th tick after acceptance.
   */
  lemma RecordsExpire<P>(d: Book<P>, a: P, b: P, turns: seq<Turn<P>>)
    requires Matching(d) && a != b && a !in d && b !in d
    requires (forall i :: 0 <= i < |turns| ==> TurnOk(turns[i], a, b))
    ensures var d0 := Step(d, Command(a, b));
            && Paired(d0, a, b)
            && (LastsTurns(d0, turns, a, b) ==>
                  && |turns| <= 10
                  && Paired(Played(d0, turns), a, b)
                  && (!Agreed(Played(d0, turns), a, b) ==> |turns| <= 1))
  {
    var d0 := Step(d, Command(a, b));
    StepKeepsMatching(d, Command(a, b));
    if LastsTurns(d0, turns, a, b) {
      PairsRunOut(d0, turns, a, b);
      InvitationsRunOut(d0, turns, a, b);
    }
  }

  lemma AcceptedDuelsExpire<P>(d: Book<P>, a: P, b: P, turns: seq<Turn<P>>)
    requires Matching(d) && a != b && Paired(d, a, b) && d[a].state.Accepted? && d[b].state.Invited?
    requires (forall i :: 0 <= i < |turns| ==> TurnOk(turns[i], a, b))
    ensures var d0 := Step(d, Command(b, a));
            && Paired(d0, a, b) && Agreed(d0, a, b)
            && (LastsTurns(d0, turns, a, b) ==> |turns| <= 9)
  {
    var d0 := Step(d, Command(b, a));
    StepKeepsMatching(d, Command(b, a));
    if LastsTurns(d0, turns, a, b) {
      PairsRunOut(d0, turns, a, b);
    }
  }

  /** A tick in which nothing else happens leaves a pair alone exactly if it has more than one tick left. */
  lemma TickExact<P>(d: Book<P>, a: P, b: P)
    requires Matching(d) && InStep(d, a, b)
    ensures var d' := Run(d, [Check(a), Check(b)]);
            if d[a].ticks > 1 then
              && InStep(d', a, b) && d'[a].ticks == d[a].ticks - 1
              && d'[a].state == d[a].state && d'[b].state == d[b].state
            else a !in d' && b !in d'
  {
    var d1 := Step(d, Check(a));
    var both := [Check(a), Check(b)];
    assert both[1..] == [Check(b)] && [Check(b)][1..] == [];
    assert Run(d1, [Check(b)]) == Run(Step(d1, Check(b)), []);
    assert Run(d, both) == Run(d1, both[1..]);
  }

  function Rounds<P(==)>(d: Book<P>, a: P, b: P, n: nat): Book<P>
    decreases n
  {
    if n == 0 then d else Rounds(Run(d, [Check(a), Check(b)]), a, b, n - 1)
  }

  /** Left to themselves, a pair sees out exactly the ticks it has: 2 from an invitation, 10 from an acceptance. */
  lemma {:induction false} UndisturbedPairsLast<P>(d: Book<P>, a: P, b: P, n: nat)
    requires Matching(d) && InStep(d, a, b)
    ensures n < d[a].ticks ==> InStep(Rounds(d, a, b, n), a, b) && Rounds(d, a, b, n)[a].ticks == d[a].ticks - n
    ensures n == d[a].ticks ==> a !in Rounds(d, a, b, n) && b !in Rounds(d, a, b, n)
    decreases n
  {
    if n > 0 {
      TickExact(d, a, b);
      var d1 := Run(d, [Check(a), Check(b)]);
      if d[a].ticks > 1 {
        RunKeepsMatching(d, [Check(a), Check(b)]);
        UndisturbedPairsLast(d1, a, b, n - 1);
      }
    }
  }

  /** The ticks a pair starts with, and gets when the invitation is accepted. */
  lemma TicksGiven<P>(d: Book<P>, a: P, b: P)
    requires Matching(d) && a != b && a !in d && b !in d
    ensures var d1 := Step(d, Command(a, b));
            var d2 := Step(d1, Command(b, a));
            && InStep(d1, a, b) && d1[a].ticks == 2 && !Agreed(d1, a, b)
            && InStep(d2, a, b) && d2[a].ticks == 10 && IsDuelInProgress(d2, a, b) && IsDuelInProgress(d2, b, a)
  {
  }

  // ----- what pairs survive

  ghost predicate Bounded<P>(d: Book<P>) {
    forall p :: p in d ==> d[p].ticks <= 10
  }

  lemma {:induction false} AfterBounded<P>(events: seq<Event<P>>, n: nat)
    requires n <= |events|
    ensures Bounded(After(events, n))
  {
    if n > 0 {
      AfterBounded(events, n - 1);
    }
  }

  ghost predicate Leaves<P>(e: Event<P>, p: P) {
    e == End(p)
  }

  lemma EventSpares<P>(d: Book<P>, e: Event<P>, a: P, b: P)
    requires Matching(d) && Bounded(d) && Paired(d, a, b) && !Leaves(e, a) && !Leaves(e, b)
    requires d[a].ticks > Checks([e], a) && d[b].ticks > Checks([e], b)
    ensures var d' := Step(d, e);
            && Matching(d') && Bounded(d') && Paired(d', a, b)
            && d'[a].ticks >= d[a].ticks - Checks([e], a) && d'[b].ticks >= d[b].ticks - Checks([e], b)
  {
    StepKeepsMatching(d, e);
    match e
    case Command(x, y) =>
      CommandsEndNothing(d, x, y, a);
      CommandsEndNothing(d, x, y, b);
      if x != y {
        CommandExactly(d, x, y);
      }
    case Check(x) =>
      assert [e][1..] == [];
      CheckExactly(d, x, a);
      CheckExactly(d, x, b);
    case End(x) =>
      EndExactly(d, x, a);
      EndExactly(d, x, b);
  }

  /**
   Whatever anybody types and whoever else leaves, a pair lasts as long as neither of the two leaves
   and neither has been checked as often as it has ticks.
   */
  lemma {:induction false} PairsSurvive<P>(d: Book<P>, events: seq<Event<P>>, a: P, b: P)
    requires Matching(d) && Bounded(d) && Paired(d, a, b)
    requires forall i :: 0 <= i < |events| ==> !Leaves(events[i], a) && !Leaves(events[i], b)
    requires Checks(events, a) < d[a].ticks && Checks(events, b) < d[b].ticks
    ensures Lasts(d, events, a, b)
    decreases |events|
  {
    if events != [] {
      var e, rest := events[0], events[1..];
      assert [e][1..] == [];
      assert Checks(events, a) == Checks([e], a) + Checks(rest, a);
      assert Checks(events, b) == Checks([e], b) + Checks(rest, b);
      assert !Leaves(events[0], a) && !Leaves(events[0], b);
      EventSpares(d, e, a, b);
      PairsSurvive(Step(d, e), rest, a, b);
    }
  }

  /** The same from the start of every run: a pair that is there after `n` events lasts through the next ones. */
  lemma PairsSurviveInRuns<P>(before: seq<Event<P>>, events: seq<Event<P>>, a: P, b: P)
    requires Paired(After(before, |before|), a, b)
    requires forall i :: 0 <= i < |events| ==> !Leaves(events[i], a) && !Leaves(events[i], b)
    requires var d := After(before, |before|); Checks(events, a) < d[a].ticks && Checks(events, b) < d[b].ticks
    ensures Lasts(After(before, |before|), events, a, b)
  {
    AfterMatching(before, |before|);
    AfterBounded(before, |before|);
    PairsSurvive(After(before, |before|), events, a, b);
  }
}
