/**
 * The interactive blackjack of `gamba_bot/cogs/blackjack.py`: the natural
 * checks of the command, and the view whose Hit, Stick and timeout all end
 * in one single-flight finalization that settles the hand at most once.
 *
 * The round engine (`BlackjackRound`, `create_blackjack_round`, `hand_total`,
 * `is_blackjack`, `dealer_must_hit`) is imported by the source from a part of
 * `gamba_bot/services/games.py` that is not part of this model. Its three
 * rules are therefore parameters (`Rules`) about which nothing is assumed,
 * and the dealt round is an input.
 */
module Blackjack {
  import opened Wrappers
  import opened Ledger
  import Games

  /** A card token such as "AS" or "10H". */
  type Card = string

  /** A round: the shoe (drawn from its end) and the two hands. */
  datatype Round = Round(deck: seq<Card>, playerHand: seq<Card>, dealerHand: seq<Card>)

  /** `hand_total`, `is_blackjack` and `dealer_must_hit`, left uninterpreted. */
  datatype Rules = Rules(
    handTotal: seq<Card> -> int,
    isBlackjack: seq<Card> -> bool,
    dealerMustHit: seq<Card> -> bool)

  /** `player_hit`: the last card of the deck moves to the end of the player's hand. */
  function PlayerHit(r: Round): (r': Round)
    requires r.deck != []
    ensures r'.deck + [r.deck[|r.deck| - 1]] == r.deck
    ensures r'.playerHand == r.playerHand + [r.deck[|r.deck| - 1]]
    ensures r'.dealerHand == r.dealerHand
  {
    Round(r.deck[..|r.deck| - 1], r.playerHand + [r.deck[|r.deck| - 1]], r.dealerHand)
  }

  /** `dealer_hit`: the last card of the deck moves to the end of the dealer's hand. */
  function DealerHit(r: Round): (r': Round)
    requires r.deck != []
    ensures r'.deck + [r.deck[|r.deck| - 1]] == r.deck
    ensures r'.dealerHand == r.dealerHand + [r.deck[|r.deck| - 1]]
    ensures r'.playerHand == r.playerHand
  {
    Round(r.deck[..|r.deck| - 1], r.playerHand, r.dealerHand + [r.deck[|r.deck| - 1]])
  }

  /**
   * The dealer's turn of `stick`: draw while `dealer_must_hit` says so and
   * the deck has a card. Every card is drawn onto a hand that must still
   * hit, and the dealer stops unless the deck ran out; the dealer keeps
   * the hand it had and adds cards only from the deck, and no card is
   * created or lost.
   */
  function DealerDraws(rules: Rules, r: Round): (r': Round)
    ensures rules.dealerMustHit(r'.dealerHand) ==> r'.deck == []
    ensures forall k :: |r.dealerHand| <= k < |r'.dealerHand| ==> rules.dealerMustHit(r'.dealerHand[..k])
    ensures r'.playerHand == r.playerHand
    ensures r.dealerHand <= r'.dealerHand && r'.deck <= r.deck
    ensures multiset(r'.deck) + multiset(r'.dealerHand) == multiset(r.deck) + multiset(r.dealerHand)
    decreases |r.deck|
  {
    if !rules.dealerMustHit(r.dealerHand) || r.deck == [] then
      r
    else
      var next := DealerHit(r);
      assert multiset(next.deck) + multiset(next.dealerHand) == multiset(r.deck) + multiset(r.dealerHand) by {
        assert r.deck == next.deck + [r.deck[|r.deck| - 1]];
      }
      var r' := DealerDraws(rules, next);
      MustHitBeforeEachDraw(rules, r.dealerHand, next.dealerHand, r'.dealerHand);
      r'
  }

  /** Extending a run of draws by one at its start: the hand before the first draw had to hit as well. */
  lemma MustHitBeforeEachDraw(rules: Rules, hand: seq<Card>, next: seq<Card>, final: seq<Card>)
    requires rules.dealerMustHit(hand) && |next| == |hand| + 1 && hand <= next <= final
    requires forall k :: |next| <= k < |final| ==> rules.dealerMustHit(final[..k])
    ensures forall k :: |hand| <= k < |final| ==> rules.dealerMustHit(final[..k])
  {
    assert final[..|hand|] == hand;
  }

  /**
   * How `stick` resolves the hand once the dealer has stopped: a dealer bust
   * or a higher player total wins `int(1.5 * stake)`, a lower one loses the
   * stake, and equal totals push.
   */
  function StickDelta(stake: int, playerTotal: int, dealerTotal: int): (d: int)
    requires stake >= 1
    ensures d > 0 <==> dealerTotal > 21 || playerTotal > dealerTotal
    ensures d > 0 ==> d == Games.WinDelta(stake)
    ensures d < 0 <==> dealerTotal <= 21 && playerTotal < dealerTotal
    ensures d < 0 ==> d == -stake
  {
    if dealerTotal > 21 then Games.WinDelta(stake)
    else if playerTotal > dealerTotal then Games.WinDelta(stake)
    else if playerTotal < dealerTotal then -stake
    else 0
  }

  /** What the command finds right after the deal. */
  datatype Opening = DealerNatural | PlayerNatural | NoNatural

  /** The dealer's natural is looked at first, so it wins even against a player natural. */
  function OpeningOf(rules: Rules, r: Round): (o: Opening)
    ensures o == DealerNatural <==> rules.isBlackjack(r.dealerHand)
    ensures o == PlayerNatural <==> !rules.isBlackjack(r.dealerHand) && rules.isBlackjack(r.playerHand)
  {
    if rules.isBlackjack(r.dealerHand) then DealerNatural
    else if rules.isBlackjack(r.playerHand) then PlayerNatural
    else NoNatural
  }

  /** Both hands natural: the player loses the stake. */
  lemma DealerNaturalPrecedence(rules: Rules, r: Round)
    requires rules.isBlackjack(r.dealerHand) && rules.isBlackjack(r.playerHand)
    ensures OpeningOf(rules, r) == DealerNatural
  {
  }

  /** How a call of `_finalize_round` ended. */
  datatype Finalized = AlreadyFinished | SettleFailed | Settled(newBalance: int)

  function FinalizedFrom(result: Result<UserRecord, LedgerError>): Finalized {
    match result
    case Success(record) => Settled(record.balance)
    case Failure(_) => SettleFailed
  }

  datatype HitOutcome = DrawFailed | Drew(card: Card, total: int) | Busted(card: Card, total: int, finalized: Finalized)

  datatype StickOutcome = DeckExhausted | Resolved(delta: int, finalized: Finalized)

  class BlackjackView {
    const db: Database
    const rules: Rules
    /** The user of the originating interaction; `userId` is theirs. */
    const user: User
    const userId: int
    const stake: int
    var roundState: Round
    var finished: bool
    /** How many times this view has called `settle_bet`. */
    ghost var settleCalls: nat

    ghost predicate Valid()
      reads this, db
    {
      && db.Valid()
      && userId == user.id
      && stake >= 1
      && settleCalls <= 1
      && (!finished ==> settleCalls == 0)
    }

    constructor (db: Database, rules: Rules, user: User, stake: int, roundState: Round)
      requires db.Valid() && stake >= 1
      ensures Valid()
      ensures this.db == db && this.rules == rules && this.user == user && this.stake == stake
      ensures this.roundState == roundState && !finished && settleCalls == 0
    {
      this.db := db;
      this.rules := rules;
      this.user := user;
      this.userId := user.id;
      this.stake := stake;
      this.roundState := roundState;
      finished := false;
      settleCalls := 0;
    }

    /** `interaction_check`: only the user who started the hand may press its buttons. */
    method InteractionCheck(presserId: int) returns (allowed: bool)
      ensures allowed <==> presserId == userId
    {
      allowed := presserId == userId;
    }

    /**
     * What one call of `_finalize_round` with `delta` does, given the ledger,
     * the flag and the call count it started from: nothing once finished;
     * otherwise it sets `finished` and settles exactly once, and `finished`
     * stays set whether or not the settlement succeeds.
     */
    ghost predicate FinalizeEffect(users0: Users, finished0: bool, calls0: nat, delta: int, now: Timestamp, f: Finalized)
      reads this, db
    {
      if finished0 then
        f == AlreadyFinished && db.users == users0 && finished && settleCalls == calls0
      else
        var s := Settle(users0, db.startingBalance, user, stake, delta, now);
        && finished
        && settleCalls == calls0 + 1
        && db.users == s.users
        && f == FinalizedFrom(s.result)
    }

    /** `_finalize_round`: single-flight; the first call settles, every later one does nothing. */
    method FinalizeRound(delta: int, now: Timestamp) returns (f: Finalized)
      requires Valid()
      modifies this, db
      ensures Valid()
      ensures roundState == old(roundState)
      ensures FinalizeEffect(old(db.users), old(finished), old(settleCalls), delta, now, f)
    {
      if finished {
        return AlreadyFinished;
      }
      finished := true;
      settleCalls := settleCalls + 1;
      var result := db.SettleBet(user, stake, delta, now);
      f := FinalizedFrom(result);
    }

    /** `on_timeout`: forfeit the stake, unless the hand is already finished. */
    method OnTimeout(now: Timestamp) returns (f: Finalized)
      requires Valid()
      modifies this, db
      ensures Valid()
      ensures roundState == old(roundState)
      ensures FinalizeEffect(old(db.users), old(finished), old(settleCalls), -stake, now, f)
    {
      if finished {
        return AlreadyFinished;
      }
      f := FinalizeRound(-stake, now);
    }

    /**
     * `hit`: draw one card for the player; above 21 the hand is finalized
     * as a loss of the stake, otherwise it goes on with nothing settled. An
     * empty deck makes the draw fail before anything changes.
     */
    method Hit(now: Timestamp) returns (o: HitOutcome)
      requires Valid()
      modifies this, db
      ensures Valid()
      ensures old(roundState.deck) == [] ==>
                o == DrawFailed && roundState == old(roundState) && finished == old(finished)
                && settleCalls == old(settleCalls) && db.users == old(db.users)
      ensures old(roundState.deck) != [] ==>
                var card := old(roundState.deck)[|old(roundState.deck)| - 1];
                var total := rules.handTotal(roundState.playerHand);
                && roundState == PlayerHit(old(roundState))
                && (total > 21 ==>
                      o.Busted? && o.card == card && o.total == total
                      && FinalizeEffect(old(db.users), old(finished), old(settleCalls), -stake, now, o.finalized))
                && (total <= 21 ==>
                      o == Drew(card, total) && finished == old(finished)
                      && settleCalls == old(settleCalls) && db.users == old(db.users))
    {
      if roundState.deck == [] {
        return DrawFailed;
      }
      var card := roundState.deck[|roundState.deck| - 1];
      roundState := PlayerHit(roundState);
      var total := rules.handTotal(roundState.playerHand);
      if total > 21 {
        var f := FinalizeRound(-stake, now);
        o := Busted(card, total, f);
      } else {
        o := Drew(card, total);
      }
    }

    /**
     * `stick`: the dealer draws while `dealer_must_hit`, then the hand is
     * finalized with the delta of the resolution table. Running out of
     * cards on the dealer's turn ends the call with nothing settled.
     */
    method Stick(now: Timestamp) returns (o: StickOutcome)
      requires Valid()
      modifies this, db
      ensures Valid()
      ensures var drawn := DealerDraws(rules, old(roundState));
              && roundState == drawn
              && (rules.dealerMustHit(drawn.dealerHand) ==>
                    o == DeckExhausted && finished == old(finished)
                    && settleCalls == old(settleCalls) && db.users == old(db.users))
              && (!rules.dealerMustHit(drawn.dealerHand) ==>
                    var delta := StickDelta(stake, rules.handTotal(drawn.playerHand), rules.handTotal(drawn.dealerHand));
                    o.Resolved? && o.delta == delta
                    && FinalizeEffect(old(db.users), old(finished), old(settleCalls), delta, now, o.finalized))
    {
      while rules.dealerMustHit(roundState.dealerHand)
        invariant DealerDraws(rules, roundState) == DealerDraws(rules, old(roundState))
        invariant finished == old(finished) && settleCalls == old(settleCalls) && db.users == old(db.users)
        decreases |roundState.deck|
      {
        if roundState.deck == [] {
          return DeckExhausted;
        }
        roundState := DealerHit(roundState);
      }
      var playerTotal := rules.handTotal(roundState.playerHand);
      var dealerTotal := rules.handTotal(roundState.dealerHand);
      var delta := StickDelta(stake, playerTotal, dealerTotal);
      var f := FinalizeRound(delta, now);
      o := Resolved(delta, f);
    }
  }

  /** What `blackjack_cmd` answers. */
  datatype CommandReply =
    | InsufficientBalance
    | DealerBlackjack(newBalance: int)
    | PlayerBlackjack(win: int, newBalance: int)
    | HandStarted

  class BlackjackCog {
    const db: Database
    const rules: Rules

    constructor (db: Database, rules: Rules)
      ensures this.db == db && this.rules == rules
    {
      this.db := db;
      this.rules := rules;
    }

    /**
     * `blackjack_cmd` with the freshly dealt `round`: refuse a stake above
     * the balance before anything is dealt or settled; settle a dealer
     * natural as a loss and a player-only natural as `int(1.5 * stake)` at
     * once; otherwise open a view on the hand with nothing settled.
     */
    method BlackjackCmd(user: User, stake: int, round: Round, now: Timestamp) returns (reply: CommandReply, view: BlackjackView?)
      requires Games.ValidStake(stake)
      requires db.Valid()
      modifies db
      ensures db.Valid()
      ensures var before := BalanceBefore(old(db.users), db.startingBalance, user.id);
              var ensured := Upsert(old(db.users), db.startingBalance, user, now);
              && (before < stake ==> reply == InsufficientBalance && view == null && db.users == ensured)
              && (before >= stake && OpeningOf(rules, round) == DealerNatural ==>
                    && reply == DealerBlackjack(before - stake) && view == null
                    && db.users == Settle(old(db.users), db.startingBalance, user, stake, -stake, now).users)
              && (before >= stake && OpeningOf(rules, round) == PlayerNatural ==>
                    && reply == PlayerBlackjack(Games.WinDelta(stake), before + Games.WinDelta(stake)) && view == null
                    && db.users == Settle(old(db.users), db.startingBalance, user, stake, Games.WinDelta(stake), now).users)
              && (before >= stake && OpeningOf(rules, round) == NoNatural ==>
                    && reply == HandStarted && view != null && fresh(view) && view.Valid()
                    && view.db == db && view.rules == rules && view.user == user && view.stake == stake
                    && view.roundState == round && !view.finished && view.settleCalls == 0
                    && db.users == ensured)
    {
      var record := db.EnsureUser(user, now);
      if record.balance < stake {
        return InsufficientBalance, null;
      }
      ghost var ensured := db.users;
      SettleAfterUpsert(old(db.users), db.startingBalance, user, stake, -stake, now);
      SettleAfterUpsert(old(db.users), db.startingBalance, user, stake, Games.WinDelta(stake), now);
      match OpeningOf(rules, round)
      case DealerNatural =>
        var settled := db.SettleBet(user, stake, -stake, now);
        reply, view := DealerBlackjack(settled.value.balance), null;
      case PlayerNatural =>
        var delta := Games.WinDelta(stake);
        var settled := db.SettleBet(user, stake, delta, now);
        reply, view := PlayerBlackjack(delta, settled.value.balance), null;
      case NoNatural =>
        view := new BlackjackView(db, rules, user, stake, round);
        reply := HandStarted;
    }
  }
}
