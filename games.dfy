/**
 * The six outcome generators of `gamba_bot/services/games.py`. Each one maps
 * a stake and the random draw it makes to `(won, delta, detail)`; the draw is
 * a parameter here, constrained to the range the `random` call produces.
 */
module Games {
  import opened Text

  /** The stake bounds every command declares (`app_commands.Range[int, 1, 1_000_000]`). */
  const MaxStake := 1_000_000

  predicate ValidStake(stake: int) {
    1 <= stake <= MaxStake
  }

  datatype GameResult = GameResult(won: bool, delta: int, detail: string)

  /** What every generator promises the ledger: it loses at most the stake, and `won` means the delta is not negative. */
  predicate Settleable(stake: int, r: GameResult) {
    r.delta >= -stake && (r.won <==> r.delta >= 0)
  }

  // ---------------------------------------------------------------- roulette

  datatype Colour = Red | Black | Green

  function ColourName(c: Colour): string {
    match c
    case Red => "red"
    case Black => "black"
    case Green => "green"
  }

  /** The pocket colours: 0 is green, the other even numbers red, the odd ones black. */
  function WheelColour(wheel: int): (c: Colour)
    requires 0 <= wheel <= 36
    ensures c == Green <==> wheel == 0
    ensures c == Red <==> wheel > 0 && wheel % 2 == 0
    ensures c == Black <==> wheel % 2 == 1
  {
    if wheel == 0 then Green else if wheel % 2 == 0 then Red else Black
  }

  /** `roulette(stake, pick)` for the drawn `wheel` in 0..36. */
  function Roulette(stake: int, pick: Colour, wheel: int): (r: GameResult)
    requires ValidStake(stake) && 0 <= wheel <= 36
    ensures r.won <==> pick == WheelColour(wheel)
    ensures r.won && pick == Green ==> r.delta == 14 * stake
    ensures r.won && pick != Green ==> r.delta == stake
    ensures !r.won ==> r.delta == -stake
    ensures Settleable(stake, r)
  {
    var actual := WheelColour(wheel);
    var detail := "Ball landed on " + ColourName(actual) + " (" + IntToText(wheel) + ").";
    if pick == actual then
      var win := if pick == Green then stake * 14 else stake;
      GameResult(true, win, detail)
    else
      GameResult(false, -stake, detail)
  }

  // ------------------------------------------------------------ simple slots

  const SlotSymbols: seq<string> := ["7", "BAR", "Cherry", "Bell", "Star"]

  lemma SlotSymbolsDistinct(i: int, j: int)
    requires 0 <= i < |SlotSymbols| && 0 <= j < |SlotSymbols|
    ensures SlotSymbols[i] == SlotSymbols[j] <==> i == j
  {
  }

  /** `slots(stake)` for the three symbols drawn, given by their positions in the symbol list. */
  function Slots(stake: int, a: int, b: int, c: int): (r: GameResult)
    requires ValidStake(stake)
    requires 0 <= a < |SlotSymbols| && 0 <= b < |SlotSymbols| && 0 <= c < |SlotSymbols|
    ensures a == b == c ==> r.won && r.delta == 5 * stake
    ensures !(a == b == c) && (a == b || b == c || a == c) ==> r.won && r.delta == stake
    ensures a != b && b != c && a != c ==> !r.won && r.delta == -stake
    ensures Settleable(stake, r)
  {
    SlotSymbolsDistinct(a, b);
    SlotSymbolsDistinct(b, c);
    SlotSymbolsDistinct(a, c);
    var x, y, z := SlotSymbols[a], SlotSymbols[b], SlotSymbols[c];
    var line := x + " | " + y + " | " + z;
    if x == y == z then
      GameResult(true, stake * 5, line + " - jackpot!")
    else if x == y || y == z || x == z then
      GameResult(true, stake, line + " - small win.")
    else
      GameResult(false, -stake, line + " - no match.")
  }

  // ------------------------------------------------------- quick blackjack

  /** `int(stake * 1.5)`, the truncated one-and-a-half times stake (exact in floating point for these stakes). */
  function WinDelta(stake: int): (d: int)
    requires stake >= 1
    ensures 2 * d <= 3 * stake < 2 * d + 2
    ensures stake <= d && d >= 1
  {
    (3 * stake) / 2
  }

  /** `blackjack(stake)` for the drawn totals, each in 12..21. */
  function QuickBlackjack(stake: int, player: int, dealer: int): (r: GameResult)
    requires ValidStake(stake) && 12 <= player <= 21 && 12 <= dealer <= 21
    ensures player > dealer ==> r.won && r.delta == WinDelta(stake)
    ensures player == dealer ==> r.won && r.delta == 0
    ensures player < dealer ==> !r.won && r.delta == -stake
    ensures Settleable(stake, r)
  {
    if player > dealer then
      GameResult(true, WinDelta(stake), "Player " + IntToText(player) + " vs Dealer " + IntToText(dealer))
    else if player == dealer then
      GameResult(true, 0, "Push: " + IntToText(player) + " vs " + IntToText(dealer))
    else
      GameResult(false, -stake, "Player " + IntToText(player) + " vs Dealer " + IntToText(dealer))
  }

  // ------------------------------------------------------------------ poker

  const Ranks: seq<string> := ["2", "3", "4", "5", "6", "7", "8", "9", "10", "J", "Q", "K", "A"]

  predicate Distinct(s: seq<string>) {
    forall j, k :: 0 <= j < k < |s| ==> s[j] != s[k]
  }

  lemma RanksDistinct()
    ensures Distinct(Ranks)
  {
  }

  /** In a list without repeats, looking an element up gives back its position. */
  lemma IndexOfDistinct(s: seq<string>, i: int)
    requires Distinct(s) && 0 <= i < |s|
    ensures IndexOf(s, s[i]) == i
  {
  }

  /** Looking a drawn rank up gives back the position it was drawn from. */
  lemma RankIndex(i: int)
    requires 0 <= i < |Ranks|
    ensures IndexOf(Ranks, Ranks[i]) == i
  {
    RanksDistinct();
    IndexOfDistinct(Ranks, i);
  }

  /** `poker(stake)` for the drawn ranks, given by their positions in 2..A. */
  function Poker(stake: int, player: int, house: int): (r: GameResult)
    requires ValidStake(stake) && 0 <= player < |Ranks| && 0 <= house < |Ranks|
    ensures player > house ==> r.won && r.delta == 2 * stake
    ensures player == house ==> r.won && r.delta == 0
    ensures player < house ==> !r.won && r.delta == -stake
    ensures Settleable(stake, r)
  {
    var p, h := Ranks[player], Ranks[house];
    RankIndex(player);
    RankIndex(house);
    var pi, hi := IndexOf(Ranks, p), IndexOf(Ranks, h);
    if pi > hi then
      GameResult(true, stake * 2, "You drew " + p + ", house drew " + h + ".")
    else if pi == hi then
      GameResult(true, 0, "Both drew " + p + ".")
    else
      GameResult(false, -stake, "You drew " + p + ", house drew " + h + ".")
  }

  // ------------------------------------------------------------ minesweeper

  /** `int(stake * 1.2)`, truncated (the floating-point product rounds to it for these stakes). */
  function SafeDelta(stake: int): (d: int)
    requires stake >= 1
    ensures 5 * d <= 6 * stake < 5 * d + 5
    ensures stake <= d && d >= 1
  {
    (6 * stake) / 5
  }

  /** `minesweeper(stake, tiles)` for the drawn `mine` in 1..6. */
  function Minesweeper(stake: int, tiles: int, mine: int): (r: GameResult)
    requires ValidStake(stake) && 1 <= mine <= 6
    ensures tiles == mine ==> !r.won && r.delta == -stake
    ensures tiles != mine ==> r.won && r.delta == SafeDelta(stake)
    ensures Settleable(stake, r)
  {
    if tiles == mine then
      GameResult(false, -stake, "Tile " + IntToText(tiles) + " had a mine.")
    else
      GameResult(true, SafeDelta(stake), "Tile " + IntToText(tiles) + " was safe. Mine was " + IntToText(mine) + ".")
  }

  // -------------------------------------------------------------- wordlinks

  const WordTable: seq<(string, int)> :=
    [("discord", 7), ("roulette", 8), ("casino", 6), ("balance", 7), ("blackjack", 9)]

  /** Every number in the table is the length of its word. */
  lemma WordTableLengths(i: int)
    requires 0 <= i < |WordTable|
    ensures WordTable[i].1 == |WordTable[i].0|
  {
  }

  /** `wordlinks(stake, guess)` for the drawn table entry. */
  function Wordlinks(stake: int, guess: int, entry: int): (r: GameResult)
    requires ValidStake(stake) && 0 <= entry < |WordTable|
    ensures r.won <==> guess == |WordTable[entry].0|
    ensures r.won ==> r.delta == 3 * stake
    ensures !r.won ==> r.delta == -stake
    ensures Settleable(stake, r)
  {
    WordTableLengths(entry);
    var (word, actual) := WordTable[entry];
    var detail := "Length of \"" + word + "\" is " + IntToText(actual) + ".";
    if guess == actual then GameResult(true, stake * 3, detail) else GameResult(false, -stake, detail)
  }
}
