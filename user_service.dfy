/**
 * The account store of src/services/userService.ts: the `users` table,
 * reduced to what settlement reads and writes, an account id and its
 * balance.
 */
module UserService {
  import opened Orders

  /** The balance a new account is inserted with. */
  const DEFAULT_BALANCE: real := 100000.0

  datatype UserError = AlreadyExists(userId: string)

  /** `(await getUser(userId))?.balance ?? 0`: an unknown account reads as balance 0. */
  function BalanceOf(balances: map<string, real>, userId: string): (b: real)
    ensures userId !in balances ==> b == 0.0
    ensures userId in balances ==> b == balances[userId]
  {
    if userId in balances then balances[userId] else 0.0
  }

  /**
   * `UPDATE users SET balance = ? WHERE id = ?`: an absolute write to that
   * account only; an unknown id matches no row and nothing changes.
   */
  function Written(balances: map<string, real>, userId: string, newBalance: real): (r: map<string, real>)
    ensures r.Keys == balances.Keys
    ensures userId in balances ==> r[userId] == newBalance
    ensures forall u :: u in balances && u != userId ==> r[u] == balances[u]
  {
    if userId in balances then balances[userId := newBalance] else balances
  }

  class UserStore {
    var balances: map<string, real>

    constructor ()
      ensures balances == map[]
    {
      balances := map[];
    }

    /** `getUser`: the account's balance, or none for an unknown id. */
    function GetUser(userId: string): (r: Option<real>)
      reads this
      ensures r.Some? <==> userId in balances
      ensures r.Some? ==> r.value == BalanceOf(balances, userId)
    {
      if userId in balances then Some(balances[userId]) else None
    }

    /**
     * `createUser`: a new id gets an account holding DEFAULT_BALANCE; an
     * id that already has one violates the primary key and is rejected
     * with nothing changed.
     */
    method CreateUser(userId: string) returns (r: Outcome<UserError>)
      modifies this
      ensures r.Pass? <==> userId !in old(balances)
      ensures r.Pass? ==> balances == old(balances)[userId := DEFAULT_BALANCE]
      ensures r.Pass? ==> GetUser(userId) == Some(DEFAULT_BALANCE)
      ensures r.Fail? ==> r == Fail(AlreadyExists(userId)) && balances == old(balances)
    {
      if userId in balances {
        return Fail(AlreadyExists(userId));
      }
      balances := balances[userId := DEFAULT_BALANCE];
      return Pass;
    }

    /** `updateUserBalance`: writes the absolute new balance of that account only. */
    method UpdateUserBalance(userId: string, newBalance: real)
      modifies this
      ensures balances == Written(old(balances), userId, newBalance)
      ensures GetUser(userId) == if userId in old(balances) then Some(newBalance) else None
      ensures forall u :: u != userId ==> GetUser(u) == old(GetUser(u))
    {
      balances := Written(balances, userId, newBalance);
    }
  }
}
