/**
 Duels as values. Each player holds at most half a record: who the rival is, how many ticks are
 left and whether this side has agreed. Nothing but the two halves ties a duel together.
 */
module DuelBook {

  const INVITATION_TIMEOUT_TICKS := 2
  const DUEL_TIMEOUT_TICKS := 10

  datatype State = Invited | Accepted

  datatype Half<P> = Half(rival: P, ticks: int, state: State)

  /** The players who hold a half record. */
  type Book<P> = map<P, Half<P>>

  /** `duel` typed by one player at another, the timeout check of one player, or an end: quit, disconnect, defeat. */
  datatype Event<P> = Command(challenger: P, challengee: P) | Check(player: P) | End(player: P)

  // ----- what each event does

  function SendInvitation<P>(d: Book<P>, a: P, b: P): Book<P> {
    d[a := Half(b, INVITATION_TIMEOUT_TICKS, Accepted)][b := Half(a, INVITATION_TIMEOUT_TICKS, Invited)]
  }

  function AcceptInvitation<P>(d: Book<P>, a: P, b: P): Book<P>
    requires a in d && b in d
  {
    d[a := Half(d[a].rival, DUEL_TIMEOUT_TICKS, Accepted)][b := Half(d[b].rival, DUEL_TIMEOUT_TICKS, Accepted)]
  }

  function IsDuelAccepted<P>(d: Book<P>, a: P): bool {
    a in d && d[a].state.Accepted?
  }

  /** The command, once the two are known to be allowed to duel. */
  function NegotiateDuel<P(==)>(d: Book<P>, a: P, b: P): Book<P> {
    if IsDuelAccepted(d, a) then d
    else if a in d && d[a].rival != b then d
    else if b in d then
      if d[b].rival == a && a in d then AcceptInvitation(d, a, b) else d
    else SendInvitation(d, a, b)
  }

  function TerminateDuel<P>(d: Book<P>, a: P): Book<P> {
    if a in d then d - {a, d[a].rival} else d
  }

  function CheckTimeout<P>(d: Book<P>, a: P): Book<P> {
    if a !in d then d else
    var d' := d[a := d[a].(ticks := d[a].ticks - 1)];
    if d'[a].ticks > 0 then d' else TerminateDuel(d', a)
  }

  /** Nobody may duel themselves; such a command is turned down. */
  function Step<P(==)>(d: Book<P>, e: Event<P>): Book<P> {
    match e
    case Command(a, b) => if a == b then d else NegotiateDuel(d, a, b)
    case Check(a) => CheckTimeout(d, a)
    case End(a) => TerminateDuel(d, a)
  }

  function Run<P(==)>(d: Book<P>, events: seq<Event<P>>): Book<P>
    decreases |events|
  {
    if events == [] then d else Run(Step(d, events[0]), events[1..])
  }

  function IsDuelInProgress<P(==)>(d: Book<P>, a: P, b: P): bool {
    IsDuelAccepted(d, a) && IsDuelAccepted(d, b) && d[a].rival == b
  }

  // ----- the matching

  /** `b` is `a`'s rival. */
  predicate Faces<P(==)>(d: Book<P>, a: P, b: P) {
    a in d && d[a].rival == b
  }

  /** A rival's record points back, nobody faces themselves, time is left, and one side has agreed. */
  ghost predicate Matching<P>(d: Book<P>) {
    forall a :: a in d ==>
      && d[a].rival != a && d[a].ticks > 0
      && Faces(d, d[a].rival, a)
      && !(d[a].state.Invited? && d[d[a].rival].state.Invited?)
  }

  lemma StepKeepsMatching<P>(d: Book<P>, e: Event<P>)
    requires Matching(d)
    ensures Matching(Step(d, e))
  {
    match e
    case Command(a, b) =>
      if a != b {
        CommandKeepsMatching(d, a, b);
      }
    case Check(a) => CheckKeepsMatching(d, a);
    case End(a) => NobodyIsLeftBehind(d, a);
  }

  lemma CommandKeepsMatching<P>(d: Book<P>, a: P, b: P)
    requires Matching(d) && a != b
    ensures Matching(NegotiateDuel(d, a, b))
  {
  }

  lemma CheckKeepsMatching<P>(d: Book<P>, a: P)
    requires Matching(d)
    ensures Matching(CheckTimeout(d, a))
  {
  }

  lemma {:induction false} RunKeepsMatching<P>(d: Book<P>, events: seq<Event<P>>)
    requires Matching(d)
    ensures Matching(Run(d, events))
    decreases |events|
  {
    if events != [] {
      StepKeepsMatching(d, events[0]);
      RunKeepsMatching(Step(d, events[0]), events[1..]);
    }
  }

  /** When somebody has left, no record is left that speaks of them. */
  lemma NobodyIsLeftBehind<P>(d: Book<P>, a: P)
    requires Matching(d)
    ensures a !in TerminateDuel(d, a) && forall p :: p in TerminateDuel(d, a) ==> TerminateDuel(d, a)[p].rival != a
  {
  }

  // ----- each event in full

  /**
   A command by one player at another: two players without records get an invitation of 2 ticks; the
   invited side answering its own inviter makes it a duel of 10 ticks; otherwise nothing happens.
   */
  lemma CommandExactly<P>(d: Book<P>, a: P, b: P)
    requires Matching(d) && a != b
    ensures Step(d, Command(a, b)) ==
        if a !in d && b !in d then d[a := Half(b, 2, Accepted)][b := Half(a, 2, Invited)]
        else if a in d && d[a].rival == b && d[a].state == Invited then
          d[a := Half(b, 10, Accepted)][b := Half(a, 10, Accepted)]
        else d
  {
    assert Faces(d, a, b) ==> Faces(d, b, a);
    assert Faces(d, b, a) ==> Faces(d, a, b);
  }

  /**
   No command ends a record or gives its holder another rival; and commands change records that are
   there exactly if the invited side answers its own inviter.
   */
  lemma CommandsEndNothing<P>(d: Book<P>, a: P, b: P, p: P)
    requires Matching(d) && p in d
    ensures var d' := Step(d, Command(a, b)); p in d' && d'[p].rival == d[p].rival
    ensures Step(d, Command(a, b))[p] != d[p] ==>
        a != b && Faces(d, a, b) && d[a].state == Invited && (p == a || p == b)
    ensures a != b && Faces(d, a, b) && d[a].state == Invited ==> Step(d, Command(a, b))[a] != d[a]
  {
    if a != b {
      CommandExactly(d, a, b);
      assert Faces(d, a, b) ==> Faces(d, b, a);
    }
  }

  /** An end takes away the two records of one pair, and leaves every other as it was. */
  lemma EndExactly<P>(d: Book<P>, a: P, p: P)
    requires Matching(d)
    ensures p in Step(d, End(a)) <==> p in d && p != a && !Faces(d, a, p)
    ensures p in Step(d, End(a)) ==> Step(d, End(a))[p] == d[p]
  {
  }

  /** A check takes one tick from one record, and both records away with the last one. */
  lemma CheckExactly<P>(d: Book<P>, a: P, p: P)
    requires Matching(d)
    ensures var d' := Step(d, Check(a));
            && (p in d' <==> p in d && !(a in d && d[a].ticks == 1 && (p == a || p == d[a].rival)))
            && (p in d' ==> d'[p] == if p == a then Half(d[a].rival, d[a].ticks - 1, d[a].state) else d[p])
  {
  }
}
