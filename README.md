# Gamba bot ledger and games, in Dafny

This project models the core of a Discord gambling bot. Each user has a
credit balance in an SQLite ledger. Wagers are settled by a guarded
read-modify-write that never lets a balance go negative. The games
service has six one-shot games, each producing a `(won, delta, detail)`
outcome. Four of them (roulette, poker, minesweeper and wordlinks) are
handed by their cogs to a shared `play` helper that settles and reports
them. The simple `slots` and quick `blackjack` games are modelled too, but
no loaded cog calls them. Two interactive games keep state across button
presses:

- blackjack, where Hit, Stick and the timeout all end in a single-flight
  finalization that settles the hand at most once;
- a three-reel slot machine with hold toggles. It converts its stake to
  cents with a small decimal codec.

The ledger holds one integer balance per user, but the source reads it
in two units. The slot machine treats it as cents: it shows it with
`format_cents` and compares and settles it against a stake in cents
(`gamba_bot/cogs/slots.py:105-106`, `:196`). Everything else treats it as
whole credits: the starting balance, `play`'s report, and the
integer-stake cogs. The model keeps the single integer, as the source
does, and does not reconcile the two readings.

Modules (one file each):

| module | file | models |
|---|---|---|
| `Wrappers` | `wrappers.dfy` | `Option` and `Result` |
| `Text` | `text.dfy` | Python's `str(int)` and the digit strings `Decimal(...)` reads |
| `Currency` | `currency.dfy` | `gamba_bot/utils/currency.py` |
| `Ledger` | `database.dfy` | `gamba_bot/database.py` |
| `Games` | `games.dfy` | `gamba_bot/services/games.py` |
| `Economy` | `common.dfy` | `gamba_bot/cogs/common.py` |
| `Blackjack` | `blackjack.dfy` | `gamba_bot/cogs/blackjack.py` |
| `Slots` | `slots.dfy` | `gamba_bot/cogs/slots.py` |

How the model is set up:

- The `users` table is a `map<int, UserRecord>` field of the `Database`
  class. `ensure_user` and `settle_bet` are the pure functions `Upsert` and
  `Settle`. The class methods `EnsureUser` and `SettleBet` perform them
  step by step and are proved equal to them.
- The two views are classes whose fields the button handlers update.
- A ghost counter of `settle_bet` calls proves the blackjack view settles
  at most once.
- Each random draw of a game is a parameter, restricted to the range its
  `random` call produces.
- Each handler reads the clock once, through its `now` parameter.
- The blackjack round engine and the weighted slot reels and paytable
  live in a part of `gamba_bot/services/games.py` that is not part of
  this model. They are function-valued parameters about which nothing is
  assumed.

Two modelling decisions:

- A Hit or a dealer draw takes the *last* card of the deck, which is
  treated as a stack. The engine that deals is not part of this model.
- `slots_cmd` does not catch the `ValueError` of a stake that parses to
  zero cents. The model returns `StakeRaised`, with the ledger untouched.

## Model

| member | source | states |
|---|---|---|
| Ledger.Upsert | gamba_bot/database.py:52-68 | The key set gains exactly the user. A new row has the starting balance and `created_at == updated_at == now`. An existing row keeps its balance and creation time and takes the current name and time. Every other row is unchanged. The primary-key invariant is kept. |
| Ledger.Settle | gamba_bot/database.py:88-116 | Succeeds iff `stake > 0`, the balance read is at least the stake, and `balance + delta >= 0`. A non-positive stake fails before the table is touched. The other failures keep the upsert and are the insufficient-balance error. `BalanceBelowStake` is raised exactly when the balance is below a positive stake. Success stores and returns `balance + delta` with the new name and time. Other rows are untouched. |
| Ledger.UpsertIdempotent | gamba_bot/database.py:55-64 | Repeating the upsert at the same time changes nothing. |
| Ledger.UpsertKeepsBalances | gamba_bot/database.py:59-61 | A later `ensure_user` never changes any balance or the key set. |
| Ledger.SettleAfterUpsert | gamba_bot/database.py:88-92 | Settling right after an upsert equals settling on the table before it. This is why callers may call `ensure_user` first. |
| Ledger.SettlePreservesNonNegative | gamba_bot/database.py:101-107 | With a non-negative starting balance, neither an upsert nor a settlement makes any balance negative. |
| Ledger.Database.constructor | gamba_bot/database.py:24-27 | An empty table with the configured starting balance. |
| Ledger.Database.EnsureUser | gamba_bot/database.py:52-68 | The table becomes `Upsert` of the old one, and the row read back is the user's row. |
| Ledger.Database.GetUser | gamba_bot/database.py:70-86 | Returns a row iff one is stored under the id; that row carries the id. |
| Ledger.Database.SettleBet | gamba_bot/database.py:88-116 | The new table and the returned row or error are exactly `Settle` of the old table. |
| Games.WheelColour | gamba_bot/services/games.py:15 | 0 is green, the other even pockets red, the odd ones black. |
| Games.Roulette | gamba_bot/services/games.py:13-22 | Won iff the pick is the wheel's colour. Green pays 14x, red or black 1x, a loss costs the stake. The outcome is settleable. |
| Games.SlotSymbolsDistinct | gamba_bot/services/games.py:26 | The five symbols are pairwise different. |
| Games.Slots | gamba_bot/services/games.py:25-33 | Three equal symbols pay 5x, exactly two equal pay 1x, all different lose the stake. The outcome is settleable. |
| Games.WinDelta | gamba_bot/services/games.py:40 | `int(stake * 1.5)`: the truncation of 3·stake/2, at least the stake. |
| Games.QuickBlackjack | gamba_bot/services/games.py:36-43 | A higher player total wins `int(1.5 * stake)`, equal totals push with `won` and delta 0, a lower total loses the stake. |
| Games.IndexOfDistinct | gamba_bot/services/games.py:50 | In a list without repeats, looking up an element gives back its position. |
| Games.RanksDistinct | gamba_bot/services/games.py:47 | The thirteen ranks are pairwise different. |
| Games.RankIndex | gamba_bot/services/games.py:47-50 | Looking up a drawn rank gives back the position it was drawn from. |
| Games.Poker | gamba_bot/services/games.py:46-56 | A higher rank wins 2x, equal ranks push with `won` and delta 0, a lower rank loses the stake. |
| Games.SafeDelta | gamba_bot/services/games.py:62 | `int(stake * 1.2)`: the truncation of 6·stake/5, at least the stake. |
| Games.Minesweeper | gamba_bot/services/games.py:59-63 | The mined tile loses the stake. Any other tile wins `int(stake * 1.2)`. |
| Games.WordTableLengths | gamba_bot/services/games.py:67-75 | Each number in the word table is its word's length. |
| Games.Wordlinks | gamba_bot/services/games.py:66-79 | Won iff the guess is the drawn word's length. A win pays 3x, a loss costs the stake. |
| Economy.OutcomeWording | gamba_bot/cogs/common.py:44-49 | "won" iff `won`, with `max(delta, 0)`. "pushed" iff not won and delta 0. Otherwise "lost" with `abs(delta)`. |
| Economy.SettleableWording | gamba_bot/cogs/common.py:44-49 | For every outcome any of the six games produces (the four that reach `play` among them), the sentence is never "pushed". A gain or push reads won `delta`, a loss reads lost `-delta`, at most the stake. |
| Economy.PokerPushReadsWonZero | gamba_bot/cogs/common.py:44-45 | A poker push is reported as "won `0` credits". |
| Economy.SettleableGameSettles | gamba_bot/database.py:101-107 | A settleable outcome always settles when the balance covers the stake, and moves the balance by exactly its delta. |
| Economy.WordingText | gamba_bot/cogs/common.py:44-49 | The sentence starts with "won \`" or "lost \`" by its kind, and the push sentence is "pushed and kept your credits". Both other sentences end in "\` credits". The text between the backticks is exactly `str` of the amount: canonical digits, which for a non-negative amount read back as that amount. |
| Economy.ReportMessage | gamba_bot/cogs/common.py:50-55 | The message is, in order: the title in bold on its own line, the game's detail, the line "You <wording>.", "New balance: \`", `str` of the new balance, and a closing backtick. |
| Economy.EconomyCog.constructor | gamba_bot/cogs/common.py:13-14 | Holds the bot's ledger. |
| Economy.EconomyCog.Play | gamba_bot/cogs/common.py:16-54 | A non-positive stake is refused and the ledger untouched. Otherwise the ledger becomes `Settle` of the old one with the game's delta. Failure replies "insufficient balance". Success reports the wording, the stored balance and the message. |
| Blackjack.PlayerHit | gamba_bot/cogs/blackjack.py:132 | The deck's last card moves to the end of the player's hand. |
| Blackjack.DealerHit | gamba_bot/cogs/blackjack.py:154 | The deck's last card moves to the end of the dealer's hand. |
| Blackjack.DealerDraws | gamba_bot/cogs/blackjack.py:153-154 | Every card is drawn onto a dealer hand for which `dealer_must_hit` held. The dealer stops at the first hand that need not hit, unless the deck ran out. The player's hand is unchanged, the dealer's old hand is a prefix of the new one, and the deck shrinks from its end. No card is created or lost. |
| Blackjack.MustHitBeforeEachDraw | gamba_bot/cogs/blackjack.py:153-154 | One draw made while the dealer had to hit, followed by draws each made while the dealer had to hit, gives draws that were all made while the dealer had to hit. |
| Blackjack.StickDelta | gamba_bot/cogs/blackjack.py:156-170 | A dealer bust or a higher player total wins `int(1.5 * stake)`. A lower player total, with the dealer at most 21, loses the stake. Everything else pushes. |
| Blackjack.OpeningOf | gamba_bot/cogs/blackjack.py:200-214 | A dealer natural is found iff the dealer has blackjack. A player natural is found iff the player has one and the dealer does not. |
| Blackjack.DealerNaturalPrecedence | gamba_bot/cogs/blackjack.py:200-212 | When both hands are naturals, the dealer's is taken. |
| Blackjack.BlackjackView.constructor | gamba_bot/cogs/blackjack.py:51-66 | The view holds the round, is not finished, and has settled nothing. |
| Blackjack.BlackjackView.InteractionCheck | gamba_bot/cogs/blackjack.py:68-75 | A press is accepted iff it comes from the hand's owner. |
| Blackjack.BlackjackView.FinalizeRound | gamba_bot/cogs/blackjack.py:87-128 | Once finished it does nothing. Otherwise it sets `finished`, settles exactly once with the given delta, and stays finished even when the settlement fails. At most one settlement per view is an invariant. |
| Blackjack.BlackjackView.OnTimeout | gamba_bot/cogs/blackjack.py:77-85 | Finalizes with the loss of the stake, or does nothing once finished. |
| Blackjack.BlackjackView.Hit | gamba_bot/cogs/blackjack.py:130-149 | Draws the last card for the player. Above 21 it finalizes with the loss of the stake; otherwise nothing is settled. |
| Blackjack.BlackjackView.Stick | gamba_bot/cogs/blackjack.py:151-176 | The round becomes `DealerDraws` of the old one. The hand is finalized with `StickDelta` of the two totals. |
| Blackjack.BlackjackCog.constructor | gamba_bot/cogs/blackjack.py:180-181 | Holds the ledger and the round rules. |
| Blackjack.BlackjackCog.BlackjackCmd | gamba_bot/cogs/blackjack.py:186-245 | A stake above the balance is refused after the upsert. A dealer natural settles `-stake`. A player-only natural settles `int(1.5 * stake)`. Otherwise a fresh, unfinished view opens on the dealt round with nothing settled. |
| Currency.RoundHalfUp | gamba_bot/utils/currency.py:5-6 | ROUND_HALF_UP: the nearest integer, with halves going away from zero. |
| Currency.Quantize | gamba_bot/utils/currency.py:5 | Two places and the same sign. The result is the nearest hundredth for both signs, with halves going away from zero. |
| Currency.ScaleToCents | gamba_bot/utils/currency.py:6 | The nearest whole number of hundredths for both signs, with halves going away from zero. |
| Currency.ScaleToCentsIsExact | gamba_bot/utils/currency.py:6 | After quantizing, scaling by 100 rounds nothing. |
| Currency.QuantizedCents | gamba_bot/utils/currency.py:5-7 | The quantized amount is a positive number of hundredths iff the amount is at least half a cent. |
| Currency.ParseCreditsToCents | gamba_bot/utils/currency.py:4-9 | The result is the nearest whole number of cents (halves up), at least 1. The parser raises iff the amount is below half a cent. |
| Currency.ParseCreditsToCentsMonotone | gamba_bot/utils/currency.py:4-9 | A larger amount never parses to fewer cents, and never fails once a smaller one parsed. |
| Currency.ParseDecimal | gamba_bot/utils/currency.py:5 | `Decimal(text)`, restricted to fixed-point text. Text is accepted iff it is an optional leading `-` followed by digits with at most one dot and at least one digit. A value read is negative only if the text starts with `-`. |
| Currency.Negated | gamba_bot/utils/currency.py:5 | A leading `-` keeps the places and flips the sign; a refused text stays refused. |
| Currency.ParseUnsignedDecimal | gamba_bot/utils/currency.py:5 | Accepts text iff it holds only digits, at most one dot and at least one digit. The value is non-negative, with fewer places than characters. A plain digit string reads as its digits with no places. |
| Currency.UnsignedShape | gamba_bot/utils/currency.py:5 | Text split at its first dot into two digit strings contains only digits and that one dot, and at least one digit unless both parts are empty. |
| Currency.UnsignedTextSplits | gamba_bot/utils/currency.py:5 | Text of digits with at most one dot and at least one digit splits at its first dot into two digit strings, not both empty. |
| Currency.FormatCents | gamba_bot/utils/currency.py:12-13 | A leading `-` iff negative, then at least one whole digit with no leading zero unless the whole part is 0, a dot and exactly two decimals. |
| Currency.MagnitudeText | gamba_bot/utils/currency.py:13 | Whole credits with no leading zero unless they are 0, a dot and two digits. |
| Currency.MagnitudeTextReadsBack | gamba_bot/utils/currency.py:13 | Reading the unsigned text back gives the cents over two places. |
| Currency.MagnitudeDigits | gamba_bot/utils/currency.py:13 | The whole-credit digits followed by the two decimals denote the number of cents. |
| Currency.DotSplits | gamba_bot/utils/currency.py:5 | Digits, a dot and digits read back as both digit strings joined, over as many places as follow the dot. |
| Currency.SignedTextReadsBack | gamba_bot/utils/currency.py:5 | A leading `-` negates what the rest of the text reads as. |
| Currency.FormatCentsReadsBack | gamba_bot/utils/currency.py:12-13 | `Decimal(format_cents(c))` is exactly `c / 100` with two places. |
| Currency.ParseWholeCents | gamba_bot/utils/currency.py:4-9 | An amount in whole cents parses to exactly those cents. |
| Currency.ParseFormattedCents | gamba_bot/utils/currency.py:4-13 | Formatting then parsing a positive number of cents gives the same cents back. |
| Text.NatToText | gamba_bot/cogs/common.py:45-54 | `str(n)`: non-empty digits with no leading zero, a single digit iff below 10. |
| Text.IntToText | gamba_bot/cogs/common.py:49-54 | `str(i)`: starts with `-` iff negative. What follows the optional `-` is canonical digits (no leading zero unless zero itself) whose value is the absolute value of `i`. |
| Text.NatToTextRoundTrip | gamba_bot/utils/currency.py:5 | Reading the digits of `str(n)` gives `n`. |
| Text.DigitsValueAppend | gamba_bot/utils/currency.py:5 | The value of two digit strings put together is the first shifted past the second, plus the second. |
| Text.IndexOf | gamba_bot/services/games.py:50-51 | `list.index`: the first position holding the value. When the value is absent it returns the length. That is this model's convention: `list.index` would raise and `str.find` would return -1. The decimal reader also uses it to find the dot. |
| Slots.FooterKindOf | gamba_bot/cogs/slots.py:171-176 | The footer is a win iff net > 0, break-even iff net = 0, a loss iff net < 0. |
| Slots.FooterText | gamba_bot/cogs/slots.py:171-176 | By the sign of the net change: a win starts "You won " followed by `format_cents` of the gross payout. Break-even is "Break-even spin.". The win text then ends with " (net +", `format_cents` of the net change, and ").". A loss is "No payout. Lost ", then `format_cents` of the amount lost, then a full stop. |
| Slots.SlotsView.constructor | gamba_bot/cogs/slots.py:50-77 | Fresh holds all off, the record's balance, the first spin's stops and symbols, and no last result. |
| Slots.SlotsView.InteractionCheck | gamba_bot/cogs/slots.py:116-120 | A press is accepted iff it comes from the machine's owner. |
| Slots.SlotsView.OnTimeout | gamba_bot/cogs/slots.py:122-128 | Every input is disabled. |
| Slots.SlotsView.ToggleHold | gamba_bot/cogs/slots.py:130-134 | Exactly the chosen reel's hold flips. |
| Slots.SlotsView.Spin | gamba_bot/cogs/slots.py:144-178 | With all reels held nothing changes. Otherwise the stops and symbols are the reels' new outcome, the result is recorded, and the ledger becomes `Settle` with the net delta. A failure disables the inputs and keeps the shown balance. A success shows the stored balance and a footer chosen by the net delta's sign. |
| Slots.SlotsStakeParses | gamba_bot/cogs/slots.py:191-194 | Any stake the command accepts (at least 0.01) parses. |
| Slots.SlotsCog.constructor | gamba_bot/cogs/slots.py:182-183 | Holds the ledger. |
| Slots.SlotsCog.SlotsCmd | gamba_bot/cogs/slots.py:188-211 | A stake that parses to no cents raises before the ledger is touched. Otherwise the user is upserted. A balance below the stake in cents is refused. Otherwise a fresh machine opens. It has that stake, the balance, the ledger, the user, the paytable and the first spin's stops and symbols, with no holds, no last result and its inputs enabled. |

## Left out

- Concurrency is not modelled. Each `ensure_user` and `settle_bet` is one atomic step, so the read-then-write race between two concurrent settlements is not modelled. The `asyncio.Lock`s of the views are represented only by the single-flight flag they protect.
- SQLite, WAL mode, connections, `initialize` and `close`: the table is a map.
- Ledger.Database.constructor: starts from an empty table. The SQLite file persists, however, and `CREATE TABLE IF NOT EXISTS` (`gamba_bot/database.py:34-44`) keeps the rows of earlier runs. No contract relies on the table starting empty.
- The two units of the one balance: slots reads it as cents and the rest of the bot as credits. The model does not reconcile them (see above).
- The clock: several `datetime.now()` reads inside one handler are collapsed into one `now` parameter.
- `random`: each draw is a parameter within its range.
- `asyncio.sleep` and the response deferrals do not change state and are left out.
- Discord embeds, button labels and styles, ephemeral flags and message edits are left out. `_blackjack_embed`, `build_embed` and `_sync_hold_buttons` are presentation only.
- `show_winnings` and `slot_paytable_lines` only display the paytable, which is not part of this model.
- `spin_slot_reels`, `evaluate_slots`, `create_blackjack_round`, `hand_total`, `is_blackjack` and `dealer_must_hit` are not part of this model. They are parameters, so nothing about a paytable or hand values is proved.
- Blackjack.BlackjackView.FinalizeRound: `disable_all_items()` (`gamba_bot/cogs/blackjack.py:99`) has no field of its own. It runs exactly when `finished` is set, so `finished` also stands for "buttons disabled".
- Blackjack.BlackjackView.Hit: taking a card from an empty deck (an exception in the engine) is modelled as `DrawFailed` with nothing changed.
- Blackjack.BlackjackView.Stick: the engine's behaviour when the dealer must hit on an empty deck is modelled as `DeckExhausted`, with nothing settled.
- Currency.ParseCreditsToCents: the float-to-`str` step is not modelled; the input is the decimal that `str(amount)` denotes. Exponent notation, `inf` and `nan`, and the 28-digit precision of the default decimal context are not modelled either.
- Currency.ParseDecimal: reads only the fixed-point text that `str` of a float in the command's range and `format_cents` produce. A `+` sign, an exponent, surrounding spaces, underscores, `inf` and `nan`, which Python's `Decimal` also accepts, are refused here.
- Currency.FormatCents: exact for every integer. Python's 28-digit context would round amounts of 10^28 cents or more.
- Games.WinDelta: `int(stake * 1.5)` in binary floating point is modelled as exact integer truncation, which agrees for the command stakes 1 to 1,000,000.
- Games.SafeDelta: `int(stake * 1.2)` is modelled the same way, for the same stakes.
- Games.Slots: `random.choices` draws positions in the symbol list; the symbols are identified by those positions.
- `gamba_bot/utils/respond.py`, `gamba_bot/config.py` (the starting balance is the `Database` constructor's parameter), `bot.py` and the game cogs' registration are outside the core.
