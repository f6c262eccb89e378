/**
 Duels as the game keeps them: half a record in each player object, changed in place. `BookOf`
 is the book of all players; every method does to it what `DuelBook` says.
 */
module Duel {
  import opened Options
  import D = DuelBook

  const MIN_DUELLING_LEVEL := 20
  const MAX_DUELLING_LEVEL_RANGE := 10

  /** What decides whether somebody may duel; `linked` is whether a connection controls the character. */
  datatype Profile = Profile(npc: bool, immortal: bool, linked: bool, level: int, preoccupied: bool, charmed: bool)

  class Player {
    var duel: Option<D.Half<Player>>
    var fighting: Player?
    var profile: Profile

    constructor (profile: Profile)
      ensures duel == None && fighting == null && this.profile == profile
    {
      duel, fighting := None, null;
      this.profile := profile;
    }

    predicate IsSwitched()
      reads this`profile
    {
      profile.npc && profile.linked
    }
  }

  datatype Objection = NotAPlayer | Oneself | Deity | Controlled | LevelsApart | NotReady | Disconnected

  /** `validate_duellists`: the first reason why the two may not duel, if there is one. */
  function ValidateDuellists(ch: Player, challengee: Player): (objection: Option<Objection>)
    reads ch`profile, challengee`profile
    ensures objection.None? <==> MayDuel(ch, challengee)
  {
    if challengee.profile.npc then Some(NotAPlayer)
    else if ch == challengee then Some(Oneself)
    else if ch.profile.immortal || challengee.profile.immortal then Some(Deity)
    else if ch.IsSwitched() || challengee.IsSwitched() then Some(Controlled)
    else if challengee.profile.level < MIN_DUELLING_LEVEL
        || Distance(ch.profile.level, challengee.profile.level) > MAX_DUELLING_LEVEL_RANGE then Some(LevelsApart)
    else if challengee.profile.preoccupied || challengee.profile.charmed then Some(NotReady)
    else if !challengee.profile.npc && !challengee.profile.linked then Some(Disconnected)
    else None
  }

  function Distance(a: int, b: int): int {
    if a < b then b - a else a - b
  }

  /** Two mortals near enough in level, neither a controlled creature, the other a connected player and ready. */
  ghost predicate MayDuel(ch: Player, other: Player)
    reads ch`profile, other`profile
  {
    var mine, theirs := ch.profile, other.profile;
    && ch != other && !mine.immortal && !(mine.npc && mine.linked)
    && !theirs.npc && !theirs.immortal && theirs.linked && !theirs.preoccupied && !theirs.charmed
    && theirs.level >= 20 && mine.level - 10 <= theirs.level <= mine.level + 10
  }

  ghost function BookOf(all: set<Player>): D.Book<Player>
    reads all
  {
    map p | p in all && p.duel.Some? :: p.duel.value
  }

  /** The records form a matching among the players there are. */
  ghost predicate Valid(all: set<Player>)
    reads all
  {
    && D.Matching(BookOf(all))
    && forall p :: p in all && p.duel.Some? ==> p.duel.value.rival in all
  }

  method SendInvitation(challenger: Player, challengee: Player, ghost all: set<Player>)
    requires challenger in all && challengee in all
    modifies challenger`duel, challengee`duel
    ensures BookOf(all) == D.SendInvitation(old(BookOf(all)), challenger, challengee)
  {
    challenger.duel := Some(D.Half(challengee, D.INVITATION_TIMEOUT_TICKS, D.Accepted));
    challengee.duel := Some(D.Half(challenger, D.INVITATION_TIMEOUT_TICKS, D.Invited));
  }

  method AcceptInvitation(challenger: Player, challengee: Player, ghost all: set<Player>)
    requires challenger in all && challengee in all && challenger.duel.Some? && challengee.duel.Some?
    modifies challenger`duel, challengee`duel
    ensures BookOf(all) == D.AcceptInvitation(old(BookOf(all)), challenger, challengee)
  {
    challenger.duel := Some(challenger.duel.value.(ticks := D.DUEL_TIMEOUT_TICKS));
    challengee.duel := Some(challengee.duel.value.(ticks := D.DUEL_TIMEOUT_TICKS));
    challenger.duel := Some(challenger.duel.value.(state := D.Accepted));
    challengee.duel := Some(challengee.duel.value.(state := D.Accepted));
  }

  predicate IsDuelAccepted(ch: Player)
    reads ch
  {
    ch.duel.Some? && ch.duel.value.state.Accepted?
  }

  predicate IsDuelInProgress(ch: Player, rival: Player)
    reads ch, rival
  {
    IsDuelAccepted(ch) && IsDuelAccepted(rival) && ch.duel.value.rival == rival
  }

  method IssueOrAcceptInvitation(challenger: Player, challengee: Player, ghost all: set<Player>)
    requires Valid(all) && challenger in all && challengee in all && !IsDuelAccepted(challenger)
    modifies challenger`duel, challengee`duel
    ensures BookOf(all) == D.NegotiateDuel(old(BookOf(all)), challenger, challengee)
  {
    if challenger.duel.Some? && !IsDuelAccepted(challenger) && challenger.duel.value.rival != challengee {
      return;
    }
    if challengee.duel.Some? {
      if challengee.duel.value.rival == challenger {
        assert D.Faces(BookOf(all), challengee, challenger);
        AcceptInvitation(challenger, challengee, all);
      }
    } else {
      SendInvitation(challenger, challengee, all);
    }
  }

  /**
   `do_duel`: nothing happens in a safe room, to nobody in particular, or where there is an
   objection. Only players have the data that the negotiation goes on to read, so it is not defined
   for a creature that has got past the objections.
   */
  method DoDuel(ch: Player, challengee: Player?, safeRoom: bool, ghost all: set<Player>) returns (defined: bool)
    requires Valid(all) && ch in all && (challengee != null ==> challengee in all)
    modifies ch`duel, (if challengee == null then {} else {challengee})`duel
    ensures Valid(all)
    ensures !defined <==> !safeRoom && challengee != null && MayDuel(ch, challengee) && ch.profile.npc
    ensures BookOf(all) ==
        if safeRoom || challengee == null || !MayDuel(ch, challengee) || ch.profile.npc then old(BookOf(all))
        else D.Step(old(BookOf(all)), D.Command(ch, challengee))
  {
    if safeRoom || challengee == null || ValidateDuellists(ch, challengee).Some? {
      return true;
    }
    if ch.profile.npc {
      return false;
    }
    NegotiateDuel(ch, challengee, all);
    return true;
  }

  /** The command itself. It would let somebody invite themselves; only the objections prevent that. */
  method NegotiateDuel(challenger: Player, challengee: Player, ghost all: set<Player>)
    requires Valid(all) && challenger in all && challengee in all
    modifies challenger`duel, challengee`duel
    ensures BookOf(all) == D.NegotiateDuel(old(BookOf(all)), challenger, challengee)
    ensures forall p :: p in old(BookOf(all)) ==>
        p in BookOf(all) && BookOf(all)[p].rival == old(BookOf(all))[p].rival
    ensures old(IsDuelAccepted(challenger)) ==> BookOf(all) == old(BookOf(all))
    ensures challenger != challengee ==>
        Valid(all) && BookOf(all) == D.Step(old(BookOf(all)), D.Command(challenger, challengee))
  {
    ghost var before := BookOf(all);
    if !IsDuelAccepted(challenger) {
      IssueOrAcceptInvitation(challenger, challengee, all);
    }
    forall p | p in before && challenger != challengee
      ensures p in D.Step(before, D.Command(challenger, challengee))
      ensures D.Step(before, D.Command(challenger, challengee))[p].rival == before[p].rival
    {
      D.CommandsEndNothing(before, challenger, challengee, p);
    }
    if challenger != challengee {
      D.StepKeepsMatching(before, D.Command(challenger, challengee));
      RivalsKnown(all);
    }
  }

  /** In a matching every rival is somebody who holds a record, so one of the players. */
  lemma RivalsKnown(all: set<Player>)
    requires D.Matching(BookOf(all))
    ensures Valid(all)
  {
    forall p | p in all && p.duel.Some? ensures p.duel.value.rival in all {
      assert p in BookOf(all) && D.Faces(BookOf(all), p.duel.value.rival, p);
    }
  }

  method TerminateDuel(ch: Player, ghost all: set<Player>)
    requires ch in all && (ch.duel.Some? ==> ch.duel.value.rival in all)
    modifies all`duel
    ensures BookOf(all) == D.TerminateDuel(old(BookOf(all)), ch)
    ensures old(Valid(all)) ==> Valid(all)
  {
    ghost var before := BookOf(all);
    if ch.duel.Some? {
      var rival := ch.duel.value.rival;
      ch.duel := None;
      if rival.duel.Some? {
        rival.duel := None;
      }
    }
    assert BookOf(all) == D.TerminateDuel(before, ch);
    if old(Valid(all)) {
      D.StepKeepsMatching(before, D.End(ch));
      RivalsKnown(all);
    }
  }

  /** One player's check in a tick. If it ends a duel in progress, the two stop fighting each other. */
  method CheckDuelTimeout(ch: Player, ghost all: set<Player>)
    requires Valid(all) && ch in all
    modifies all`duel, all`fighting
    ensures Valid(all)
    ensures BookOf(all) == D.Step(old(BookOf(all)), D.Check(ch))
    ensures forall p :: p in all && p.fighting != old(p.fighting) ==>
        && p.fighting == null && old(p.fighting) != null
        && D.IsDuelInProgress(old(BookOf(all)), ch, if p == ch then old(p.fighting) else p)
    ensures forall p :: p in all && D.IsDuelInProgress(old(BookOf(all)), ch, p) && p !in BookOf(all) ==>
        ch.fighting != p && p.fighting != ch
  {
    ghost var before := BookOf(all);
    D.StepKeepsMatching(before, D.Check(ch));
    if ch.duel.None? {
      return;
    }
    ch.duel := Some(ch.duel.value.(ticks := ch.duel.value.ticks - 1));
    if ch.duel.value.ticks > 0 {
      assert BookOf(all) == D.CheckTimeout(before, ch);
      RivalsKnown(all);
      return;
    }
    var rival := ch.duel.value.rival;
    if IsDuelInProgress(ch, rival) {
      if ch.fighting == rival {
        ch.fighting := null;
      }
      if rival.fighting == ch {
        rival.fighting := null;
      }
    }
    assert BookOf(all) == before[ch := before[ch].(ticks := before[ch].ticks - 1)];
    TerminateDuel(ch, all);
    RivalsKnown(all);
  }

  /** One tick: every player is checked once, in the order of the character list. */
  method Tick(order: seq<Player>, ghost all: set<Player>)
    requires Valid(all) && forall i :: 0 <= i < |order| ==> order[i] in all
    modifies all`duel, all`fighting
    ensures Valid(all)
    ensures BookOf(all) == D.Run(old(BookOf(all)), seq(|order|, i requires 0 <= i < |order| => D.Check(order[i])))
  {
    ghost var checks := seq(|order|, i requires 0 <= i < |order| => D.Check(order[i]));
    for i := 0 to |order|
      invariant Valid(all)
      invariant D.Run(BookOf(all), checks[i..]) == D.Run(old(BookOf(all)), checks)
    {
      assert checks[i..][0] == checks[i] && checks[i..][1..] == checks[i + 1..];
      CheckDuelTimeout(order[i], all);
    }
  }
}
