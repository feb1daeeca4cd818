/**
 * The credit ledger of `gamba_bot/database.py`: one row per user, created
 * with the configured starting balance on first contact, and a guarded
 * read-modify-write that settles a wager. The SQLite table is a map from
 * user id to row; the clock reading of each call is its `now` parameter.
 */
module Ledger {
  import opened Wrappers

  /** An ISO-8601 time stamp, as the source stores it. */
  type Timestamp = string

  /** The two attributes of a chat user that the ledger reads. */
  datatype User = User(id: int, displayName: string)

  /** One row of the `users` table. */
  datatype UserRecord = UserRecord(
    userId: int,
    displayName: string,
    balance: int,
    createdAt: Timestamp,
    updatedAt: Timestamp)

  /** What `settle_bet` raises: `ValueError` for the stake, `InsufficientBalanceError` for the balance. */
  datatype LedgerError =
    | StakeNotPositive
    | BalanceBelowStake(balance: int, stake: int)
    | NegativeBalance
  {
    predicate IsInsufficientBalance() {
      BalanceBelowStake? || NegativeBalance?
    }
  }

  type Users = map<int, UserRecord>

  /** Every row is stored under its own user id (the primary key). */
  predicate Keyed(users: Users) {
    forall id :: id in users ==> users[id].userId == id
  }

  predicate NonNegative(users: Users) {
    forall id :: id in users ==> users[id].balance >= 0
  }

  /** The balance a settlement for `id` reads: the stored one, or the starting balance of a row about to be created. */
  function BalanceBefore(users: Users, startingBalance: int, id: int): int {
    if id in users then users[id].balance else startingBalance
  }

  /**
   * The `INSERT ... ON CONFLICT(user_id) DO UPDATE` of `ensure_user`: a new
   * user gets a row with the starting balance; an existing row keeps its
   * balance and creation time and takes the current name and time.
   */
  function Upsert(users: Users, startingBalance: int, user: User, now: Timestamp): (u: Users)
    ensures u.Keys == users.Keys + {user.id}
    ensures u[user.id].displayName == user.displayName && u[user.id].updatedAt == now
    ensures u[user.id].balance == BalanceBefore(users, startingBalance, user.id)
    ensures user.id in users ==>
              u[user.id].createdAt == users[user.id].createdAt && u[user.id].userId == users[user.id].userId
    ensures user.id !in users ==> u[user.id] == UserRecord(user.id, user.displayName, startingBalance, now, now)
    ensures forall id :: id in users && id != user.id ==> u[id] == users[id]
    ensures Keyed(users) ==> Keyed(u)
  {
    if user.id in users then
      users[user.id := users[user.id].(displayName := user.displayName, updatedAt := now)]
    else
      users[user.id := UserRecord(user.id, user.displayName, startingBalance, now, now)]
  }

  /** The table after a call of `settle_bet` and what the call returns or raises. */
  datatype Settlement = Settlement(users: Users, result: Result<UserRecord, LedgerError>)

  /**
   * `settle_bet`: refuses a stake that is not positive before touching the
   * table; otherwise upserts the row, refuses when the balance is below the
   * stake or would go negative (the upsert stays), and else stores
   * `balance + delta` with the current name and time and returns the row.
   */
  function Settle(users: Users, startingBalance: int, user: User, stake: int, delta: int, now: Timestamp): (s: Settlement)
    ensures var before := BalanceBefore(users, startingBalance, user.id);
            s.result.Success? <==> stake > 0 && before >= stake && before + delta >= 0
    ensures stake <= 0 ==> s == Settlement(users, Failure(StakeNotPositive))
    ensures stake > 0 && s.result.Failure? ==>
              s.users == Upsert(users, startingBalance, user, now) && s.result.error.IsInsufficientBalance()
    ensures s.result == Failure(BalanceBelowStake(BalanceBefore(users, startingBalance, user.id), stake)) <==>
              stake > 0 && BalanceBefore(users, startingBalance, user.id) < stake
    ensures s.result.Success? ==>
              && s.users.Keys == users.Keys + {user.id}
              && s.result.value == s.users[user.id]
              && s.users[user.id].balance == BalanceBefore(users, startingBalance, user.id) + delta
              && s.users[user.id].displayName == user.displayName
              && s.users[user.id].updatedAt == now
              && s.users[user.id].createdAt == (if user.id in users then users[user.id].createdAt else now)
    ensures forall id :: id in users && id != user.id ==> id in s.users && s.users[id] == users[id]
    ensures Keyed(users) ==> Keyed(s.users)
  {
    if stake <= 0 then
      Settlement(users, Failure(StakeNotPositive))
    else
      var ensured := Upsert(users, startingBalance, user, now);
      var balance := ensured[user.id].balance;
      if balance < stake then
        Settlement(ensured, Failure(BalanceBelowStake(balance, stake)))
      else if balance + delta < 0 then
        Settlement(ensured, Failure(NegativeBalance))
      else
        var row := ensured[user.id].(balance := balance + delta, displayName := user.displayName, updatedAt := now);
        Settlement(ensured[user.id := row], Success(row))
  }

  /** Repeating the upsert changes nothing more: `ensure_user` is idempotent at a given time. */
  lemma UpsertIdempotent(users: Users, startingBalance: int, user: User, now: Timestamp)
    ensures var once := Upsert(users, startingBalance, user, now);
            Upsert(once, startingBalance, user, now) == once
  {
    var once := Upsert(users, startingBalance, user, now);
    assert once[user.id := once[user.id].(displayName := user.displayName, updatedAt := now)] == once;
  }

  /** Calling `ensure_user` again, at any later time, never changes a balance. */
  lemma UpsertKeepsBalances(users: Users, startingBalance: int, user: User, now: Timestamp, later: Timestamp)
    ensures var once := Upsert(users, startingBalance, user, now);
            var twice := Upsert(once, startingBalance, user, later);
            twice.Keys == once.Keys && forall id :: id in once ==> twice[id].balance == once[id].balance
  {
  }

  /** A settlement that upserts first, as `settle_bet` does, is the same as one on the table before the upsert. */
  lemma SettleAfterUpsert(users: Users, startingBalance: int, user: User, stake: int, delta: int, now: Timestamp)
    requires stake > 0
    ensures Settle(Upsert(users, startingBalance, user, now), startingBalance, user, stake, delta, now)
         == Settle(users, startingBalance, user, stake, delta, now)
  {
    UpsertIdempotent(users, startingBalance, user, now);
  }

  /** With a non-negative starting balance, no upsert or settlement makes any balance negative. */
  lemma SettlePreservesNonNegative(users: Users, startingBalance: int, user: User, stake: int, delta: int, now: Timestamp)
    requires NonNegative(users) && startingBalance >= 0
    ensures NonNegative(Upsert(users, startingBalance, user, now))
    ensures NonNegative(Settle(users, startingBalance, user, stake, delta, now).users)
  {
  }

  /**
   * The ledger. `users` stands for the SQLite `users` table; `ensure_user`
   * and `settle_bet` are atomic steps here (see README, "Left out").
   */
  class Database {
    const startingBalance: int
    var users: Users

    ghost predicate Valid()
      reads this
    {
      Keyed(users)
    }

    constructor (startingBalance: int)
      ensures Valid()
      ensures this.startingBalance == startingBalance && users == map[]
    {
      this.startingBalance := startingBalance;
      users := map[];
    }

    /** `ensure_user`: upsert the row, then read it back. */
    method EnsureUser(user: User, now: Timestamp) returns (record: UserRecord)
      requires Valid()
      modifies this
      ensures Valid()
      ensures users == Upsert(old(users), startingBalance, user, now)
      ensures record == users[user.id] && record.userId == user.id
    {
      users := Upsert(users, startingBalance, user, now);
      var row := GetUser(user.id);
      record := row.value;
    }

    /** `get_user`: the row stored under `userId`, if any. */
    function GetUser(userId: int): (r: Option<UserRecord>)
      requires Valid()
      reads this
      ensures r.Some? <==> userId in users
      ensures r.Some? ==> r.value == users[userId] && r.value.userId == userId
    {
      if userId in users then Some(users[userId]) else None
    }

    /** `settle_bet`, step by step: check the stake, upsert, read, check, write, read back. */
    method SettleBet(user: User, stake: int, delta: int, now: Timestamp) returns (result: Result<UserRecord, LedgerError>)
      requires Valid()
      modifies this
      ensures Valid()
      ensures Settlement(users, result) == Settle(old(users), startingBalance, user, stake, delta, now)
    {
      if stake <= 0 {
        return Failure(StakeNotPositive);
      }
      var _ := EnsureUser(user, now);
      var balance := users[user.id].balance;
      if balance < stake {
        return Failure(BalanceBelowStake(balance, stake));
      }
      var newBalance := balance + delta;
      if newBalance < 0 {
        return Failure(NegativeBalance);
      }
      users := users[user.id := users[user.id].(balance := newBalance, displayName := user.displayName, updatedAt := now)];
      var row := GetUser(user.id);
      result := Success(row.value);
    }
  }
}
