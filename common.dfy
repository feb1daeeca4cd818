/**
 * The shared play-and-settle helper of `gamba_bot/cogs/common.py`
 * (`EconomyCog.play`) and the wording of its reply. The game's outcome
 * arrives as a value: the draw it depends on is made outside the model.
 */
module Economy {
  import opened Wrappers
  import opened Text
  import opened Ledger
  import opened Games

  /** The three forms of the "You ..." sentence. */
  datatype Wording = WonCredits(amount: int) | Pushed | LostCredits(amount: int)

  /**
   * The outcome sentence: a won result reports `max(delta, 0)`, a lost
   * result with delta 0 is a push, anything else reports `abs(delta)` lost.
   */
  function OutcomeWording(r: GameResult): (w: Wording)
    ensures w.WonCredits? <==> r.won
    ensures w.WonCredits? ==> w.amount >= 0 && (w.amount == r.delta || (w.amount == 0 && r.delta < 0))
    ensures w == Pushed <==> !r.won && r.delta == 0
    ensures w.LostCredits? ==> w.amount > 0 && (w.amount == r.delta || w.amount == -r.delta)
  {
    if r.won then WonCredits(if r.delta > 0 then r.delta else 0)
    else if r.delta == 0 then Pushed
    else LostCredits(if r.delta < 0 then -r.delta else r.delta)
  }

  /** The sentence names its kind first and ends in "` credits"; the number between the backticks reads back as the amount. */
  function WordingText(w: Wording): (s: string)
    ensures w.WonCredits? ==> |s| >= 14 && s[..5] == "won `"
    ensures w == Pushed ==> s == "pushed and kept your credits"
    ensures w.LostCredits? ==> |s| >= 15 && s[..6] == "lost `"
    ensures !w.Pushed? ==> s[|s| - 9..] == "` credits"
    ensures w.WonCredits? ==> s[5..|s| - 9] == IntToText(w.amount)
    ensures w.LostCredits? ==> s[6..|s| - 9] == IntToText(w.amount)
    ensures w.WonCredits? && w.amount >= 0 ==> AllDigits(s[5..|s| - 9]) && DigitsValue(s[5..|s| - 9]) == w.amount
    ensures w.LostCredits? && w.amount >= 0 ==> AllDigits(s[6..|s| - 9]) && DigitsValue(s[6..|s| - 9]) == w.amount
  {
    match w
    case WonCredits(n) =>
      Enclosed("won `", IntToText(n), "` credits");
      "won `" + IntToText(n) + "` credits"
    case Pushed => "pushed and kept your credits"
    case LostCredits(n) =>
      Enclosed("lost `", IntToText(n), "` credits");
      "lost `" + IntToText(n) + "` credits"
  }

  /**
   * For every outcome the games can produce (`play` is handed roulette, poker,
   * minesweeper and wordlinks), the sentence names the
   * signed change exactly: a gain or a push reads "won", a loss reads
   * "lost" with the stake taken, and the "pushed" sentence never appears
   * (a push comes back from poker and quick blackjack as `won` with delta 0).
   */
  lemma SettleableWording(stake: int, r: GameResult)
    requires Settleable(stake, r)
    ensures OutcomeWording(r) != Pushed
    ensures r.delta >= 0 ==> OutcomeWording(r) == WonCredits(r.delta)
    ensures r.delta < 0 ==> OutcomeWording(r) == LostCredits(-r.delta) && -r.delta <= stake
  {
  }

  /** A push from poker reads "won `0` credits". */
  lemma PokerPushReadsWonZero(stake: int, rank: int)
    requires ValidStake(stake) && 0 <= rank < |Ranks|
    ensures OutcomeWording(Poker(stake, rank, rank)) == WonCredits(0)
  {
  }

  /** What `play` leaves the user with. */
  datatype PlayReply =
    | StakeRejected
    | InsufficientBalance
    | Reported(wording: Wording, newBalance: int, message: string)

  /** The reply: the bold title line, the game's detail, the outcome sentence, then the new balance between backticks. */
  function ReportMessage(title: string, r: GameResult, newBalance: int): (s: string)
    ensures var head, n := "**" + title + "**\n", IntToText(newBalance);
            var middle := r.detail + "\nYou " + WordingText(OutcomeWording(r)) + ".\nNew balance: `";
            && |s| == |head| + |middle| + |n| + 1
            && s[..|head|] == head
            && s[|head|..|s| - |n| - 1] == middle
            && s[|s| - |n| - 1..|s| - 1] == n
            && s[|s| - 1] == '`'
  {
    var head := "**" + title + "**\n";
    var middle := r.detail + "\nYou " + WordingText(OutcomeWording(r)) + ".\nNew balance: `";
    Closed(head, middle, IntToText(newBalance), '`')
  }

  /** A game outcome settles whenever the player can cover the stake, and moves the balance by exactly its delta. */
  lemma SettleableGameSettles(users: Users, startingBalance: int, user: User, stake: int, r: GameResult, now: Timestamp)
    requires stake > 0 && Settleable(stake, r)
    requires BalanceBefore(users, startingBalance, user.id) >= stake
    ensures var s := Settle(users, startingBalance, user, stake, r.delta, now);
            s.result.Success? && s.result.value.balance == BalanceBefore(users, startingBalance, user.id) + r.delta
  {
  }

  class EconomyCog {
    const db: Database

    constructor (db: Database)
      ensures this.db == db
    {
      this.db := db;
    }

    /**
     * `play`: refuse a stake that is not positive before anything else;
     * otherwise ensure the account, take the game's outcome, settle it once
     * with the same stake and the outcome's delta, and report.
     */
    method Play(user: User, stake: int, title: string, result: GameResult, now: Timestamp) returns (reply: PlayReply)
      requires db.Valid()
      modifies db
      ensures db.Valid()
      ensures stake <= 0 ==> reply == StakeRejected && db.users == old(db.users)
      ensures stake > 0 ==>
                var s := Settle(old(db.users), db.startingBalance, user, stake, result.delta, now);
                && db.users == s.users
                && (s.result.Failure? ==> reply == InsufficientBalance)
                && (s.result.Success? ==>
                      && reply.Reported?
                      && reply.wording == OutcomeWording(result)
                      && reply.newBalance == s.result.value.balance == db.users[user.id].balance
                      && reply.message == ReportMessage(title, result, reply.newBalance))
    {
      if stake <= 0 {
        return StakeRejected;
      }
      var _ := db.EnsureUser(user, now);
      SettleAfterUpsert(old(db.users), db.startingBalance, user, stake, result.delta, now);
      var settled := db.SettleBet(user, stake, result.delta, now);
      match settled
      case Failure(_) =>
        reply := InsufficientBalance;
      case Success(record) =>
        reply := Reported(OutcomeWording(result), record.balance, ReportMessage(title, result, record.balance));
    }
  }
}
