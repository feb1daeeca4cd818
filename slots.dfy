/**
 * The interactive slot machine of `gamba_bot/cogs/slots.py`: three hold
 * toggles, a spin that settles one stake, and the balance guard of the
 * command. The view reads the stake and the balance as cents (see README).
 *
 * The weighted reels (`spin_slot_reels`) and the paytable
 * (`evaluate_slots`) are imported by the source from a part of
 * `gamba_bot/services/games.py` that is not part of this model: a spin's
 * reel outcome is a function supplied with the press, and the paytable a
 * function fixed for the view, with nothing assumed about either.
 */
module Slots {
  import opened Wrappers
  import opened Ledger
  import opened Text
  import opened Currency

  type Symbol = string

  /** `SlotResult`: the gross payout, the net change `gross - stake`, and the explanation. */
  datatype SlotResult = SlotResult(grossWin: int, netDelta: int, reason: string)

  /** The three kinds of footer a settled spin shows. */
  datatype FooterKind = WinFooter | BreakEvenFooter | LossFooter

  /** The footer follows the sign of the net change. */
  function FooterKindOf(netDelta: int): (k: FooterKind)
    ensures k == WinFooter <==> netDelta > 0
    ensures k == BreakEvenFooter <==> netDelta == 0
    ensures k == LossFooter <==> netDelta < 0
  {
    if netDelta > 0 then WinFooter else if netDelta == 0 then BreakEvenFooter else LossFooter
  }

  const WinPrefix := "You won "
  const LossPrefix := "No payout. Lost "

  /** The footer of a settled spin, by the sign of the net change: a win names the gross payout and a loss the amount lost, both as `format_cents` writes them. */
  function FooterText(r: SlotResult): (s: string)
    ensures r.netDelta > 0 ==> |s| > |WinPrefix| && s[..|WinPrefix|] == WinPrefix
    ensures r.netDelta > 0 ==> var gross := FormatCents(r.grossWin);
      |s| > |WinPrefix| + |gross| && s[|WinPrefix|..|WinPrefix| + |gross|] == gross
    ensures r.netDelta > 0 ==> s[|WinPrefix| + |FormatCents(r.grossWin)|..] == " (net +" + FormatCents(r.netDelta) + ")."
    ensures r.netDelta == 0 ==> s == "Break-even spin."
    ensures r.netDelta < 0 ==> |s| > |LossPrefix| && s[..|LossPrefix|] == LossPrefix
    ensures r.netDelta < 0 ==> s[|LossPrefix|..|s| - 1] == FormatCents(-r.netDelta) && s[|s| - 1] == '.'
  {
    match FooterKindOf(r.netDelta)
    case WinFooter =>
      var net := " (net +" + FormatCents(r.netDelta) + ").";
      Enclosed(WinPrefix, FormatCents(r.grossWin), net);
      WinPrefix + FormatCents(r.grossWin) + net
    case BreakEvenFooter => "Break-even spin."
    case LossFooter =>
      Enclosed(LossPrefix, FormatCents(-r.netDelta), ".");
      LossPrefix + FormatCents(-r.netDelta) + "."
  }

  predicate AllHeld(holds: seq<bool>) {
    forall i :: 0 <= i < |holds| ==> holds[i]
  }

  datatype SpinOutcome = AllReelsHeld | SettleFailed | Spun(footer: string)

  class SlotsView {
    const db: Database
    const user: User
    const userId: int
    /** The stake of every spin, in cents. */
    const stake: int
    /** `evaluate_slots`, left uninterpreted. */
    const evaluate: (seq<Symbol>, int) -> SlotResult
    /** The balance shown, as of the last successful settlement. */
    var balance: int
    const holds: array<bool>
    var stops: seq<int>
    var symbols: seq<Symbol>
    var lastResult: Option<SlotResult>
    /** Whether `_disable_inputs` has run. */
    var inputsDisabled: bool

    ghost predicate Valid()
      reads this, db
    {
      db.Valid() && holds.Length == 3 && userId == user.id && stake >= 1
    }

    /** A new view starts from the user's record, a first spin with nothing held, and no hold set. */
    constructor (db: Database, user: User, stake: int, record: UserRecord,
                 evaluate: (seq<Symbol>, int) -> SlotResult, firstSpin: (seq<int>, seq<Symbol>))
      requires db.Valid() && stake >= 1
      ensures Valid() && fresh(holds)
      ensures this.db == db && this.user == user && this.stake == stake && this.evaluate == evaluate
      ensures holds[..] == [false, false, false]
      ensures balance == record.balance && stops == firstSpin.0 && symbols == firstSpin.1
      ensures lastResult == None && !inputsDisabled
    {
      this.db := db;
      this.user := user;
      this.userId := user.id;
      this.stake := stake;
      this.evaluate := evaluate;
      balance := record.balance;
      holds := new bool[3] [false, false, false];
      stops, symbols := firstSpin.0, firstSpin.1;
      lastResult := None;
      inputsDisabled := false;
    }

    /** `interaction_check`: only the user who opened the machine may press its buttons. */
    method InteractionCheck(presserId: int) returns (allowed: bool)
      ensures allowed <==> presserId == userId
    {
      allowed := presserId == userId;
    }

    /** `on_timeout`: every button is disabled; nothing else changes. */
    method OnTimeout()
      requires Valid()
      modifies this`inputsDisabled
      ensures Valid() && inputsDisabled
    {
      inputsDisabled := true;
    }

    /** `toggle_hold`: flip one reel's hold and leave the other two alone. */
    method ToggleHold(reelIndex: int)
      requires Valid() && 0 <= reelIndex < 3
      modifies holds
      ensures Valid()
      ensures holds[reelIndex] == !old(holds[reelIndex])
      ensures forall j :: 0 <= j < 3 && j != reelIndex ==> holds[j] == old(holds[j])
    {
      holds[reelIndex] := !holds[reelIndex];
    }

    /**
     * `spin` with `spinReels` standing for `spin_slot_reels` on this press:
     * refused while all three reels are held; otherwise the reels move, the
     * result is recorded, and one stake is settled with its net change. A
     * failed settlement disables the buttons and keeps the shown balance; a
     * successful one shows the settled balance and a footer by the sign of
     * the net change.
     */
    method Spin(spinReels: (seq<int>, seq<bool>) -> (seq<int>, seq<Symbol>), now: Timestamp) returns (o: SpinOutcome)
      requires Valid()
      modifies this, db
      ensures Valid()
      ensures AllHeld(old(holds[..])) ==>
                && o == AllReelsHeld
                && stops == old(stops) && symbols == old(symbols) && balance == old(balance)
                && lastResult == old(lastResult) && inputsDisabled == old(inputsDisabled)
                && db.users == old(db.users)
      ensures !AllHeld(old(holds[..])) ==>
                var spun := spinReels(old(stops), old(holds[..]));
                var result := evaluate(spun.1, stake);
                var s := Settle(old(db.users), db.startingBalance, user, stake, result.netDelta, now);
                && stops == spun.0 && symbols == spun.1
                && lastResult == Some(result)
                && db.users == s.users
                && (s.result.Failure? ==> o == SettleFailed && inputsDisabled && balance == old(balance))
                && (s.result.Success? ==>
                      && o == Spun(FooterText(result))
                      && balance == s.result.value.balance == db.users[user.id].balance
                      && inputsDisabled == old(inputsDisabled))
    {
      if holds[0] && holds[1] && holds[2] {
        assert AllHeld(holds[..]);
        return AllReelsHeld;
      }
      var spun := spinReels(stops, holds[..]);
      stops, symbols := spun.0, spun.1;
      var result := evaluate(symbols, stake);
      lastResult := Some(result);
      ghost var expected := Settle(db.users, db.startingBalance, user, stake, result.netDelta, now);
      var settled := db.SettleBet(user, stake, result.netDelta, now);
      assert settled == expected.result && db.users == expected.users;
      if settled.Failure? {
        inputsDisabled := true;
        o := SettleFailed;
      } else {
        balance := settled.value.balance;
        o := Spun(FooterText(result));
      }
    }
  }

  /** What `slots_cmd` answers; `StakeRaised` is the `ValueError` of the stake parser escaping the command. */
  datatype CommandReply = StakeRaised | InsufficientBalance | MachineOpened

  /** A stake of at least one hundredth of a credit, as the command's range requires, always parses. */
  lemma SlotsStakeParses(stake: Decimal)
    requires AtMost(Decimal(1, 2), stake)
    ensures ParseCreditsToCents(stake).Success?
  {
    ParseWholeCents(1);
    ParseCreditsToCentsMonotone(Decimal(1, 2), stake);
  }

  class SlotsCog {
    const db: Database

    constructor (db: Database)
      ensures this.db == db
    {
      this.db := db;
    }

    /**
     * `slots_cmd`: parse the stake into cents (a refused stake raises
     * before the ledger is touched), ensure the account, refuse a stake above the
     * balance, and otherwise open a machine showing the balance.
     */
    method SlotsCmd(user: User, stake: Decimal, now: Timestamp,
                    evaluate: (seq<Symbol>, int) -> SlotResult, firstSpin: (seq<int>, seq<Symbol>))
      returns (reply: CommandReply, view: SlotsView?)
      requires db.Valid()
      modifies db
      ensures db.Valid()
      ensures ParseCreditsToCents(stake).Failure? ==>
                reply == StakeRaised && view == null && db.users == old(db.users)
      ensures ParseCreditsToCents(stake).Success? ==>
                var cents := ParseCreditsToCents(stake).value;
                var ensured := Upsert(old(db.users), db.startingBalance, user, now);
                && db.users == ensured
                && (ensured[user.id].balance < cents ==> reply == InsufficientBalance && view == null)
                && (ensured[user.id].balance >= cents ==>
                      && reply == MachineOpened && view != null && fresh(view) && view.Valid()
                      && view.stake == cents && view.balance == ensured[user.id].balance
                      && view.db == db && view.user == user && view.evaluate == evaluate
                      && view.holds[..] == [false, false, false]
                      && view.stops == firstSpin.0 && view.symbols == firstSpin.1
                      && view.lastResult == None && !view.inputsDisabled)
    {
      var parsed := ParseCreditsToCents(stake);
      if parsed.Failure? {
        return StakeRaised, null;
      }
      var cents := parsed.value;
      var record := db.EnsureUser(user, now);
      if record.balance < cents {
        return InsufficientBalance, null;
      }
      view := new SlotsView(db, user, cents, record, evaluate, firstSpin);
      reply := MachineOpened;
    }
  }
}
