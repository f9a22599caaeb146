/**
 * Account balances of the ledger: a map from account identifier to an
 * integer amount in minor currency units. The two single-account writes
 * the service issues (`decrement` and `increment` on one user row) are
 * Debit and Credit; the net effect of one transfer is Move.
 */
module Balances {

  type AccountId = string

  type BalanceMap = map<AccountId, int>

  /** The `update({ balance: { decrement: amount } })` write on one account. */
  function Debit(b: BalanceMap, id: AccountId, amount: int): (m: BalanceMap)
    requires id in b
    ensures m.Keys == b.Keys
    ensures m[id] == b[id] - amount
    ensures forall a :: a in b && a != id ==> m[a] == b[a]
  {
    b[id := b[id] - amount]
  }

  /** The `update({ balance: { increment: amount } })` write on one account. */
  function Credit(b: BalanceMap, id: AccountId, amount: int): (m: BalanceMap)
    requires id in b
    ensures m.Keys == b.Keys
    ensures m[id] == b[id] + amount
    ensures forall a :: a in b && a != id ==> m[a] == b[a]
  {
    b[id := b[id] + amount]
  }

  /**
   * The observable effect of moving `amount` from `from` to `to`: the same
   * accounts exist, `from` loses and `to` gains the amount when they differ,
   * a move onto the same account changes nothing, and every other account
   * keeps its balance.
   */
  predicate Moved(b: BalanceMap, m: BalanceMap, from: AccountId, to: AccountId, amount: int)
  {
    && m.Keys == b.Keys
    && from in b && to in b
    && (from != to ==> m[from] == b[from] - amount && m[to] == b[to] + amount)
    && (from == to ==> m[from] == b[from])
    && (forall a :: a in b && a != from && a != to ==> m[a] == b[a])
  }

  /** Net balance change of one transfer, account by account. */
  function Move(b: BalanceMap, from: AccountId, to: AccountId, amount: int): (m: BalanceMap)
    requires from in b && to in b
    ensures Moved(b, m, from, to, amount)
  {
    map a | a in b :: b[a] - (if a == from then amount else 0) + (if a == to then amount else 0)
  }

  /** Moved pins the resulting map down completely. */
  lemma MovedDetermines(b: BalanceMap, m1: BalanceMap, m2: BalanceMap, from: AccountId, to: AccountId, amount: int)
    requires Moved(b, m1, from, to, amount) && Moved(b, m2, from, to, amount)
    ensures m1 == m2
  {
  }

  /** The two writes of a transfer, debit first and credit second, net to Move. */
  lemma MoveIsDebitThenCredit(b: BalanceMap, from: AccountId, to: AccountId, amount: int)
    requires from in b && to in b
    ensures Credit(Debit(b, from, amount), to, amount) == Move(b, from, to, amount)
  {
    MovedDetermines(b, Credit(Debit(b, from, amount), to, amount), Move(b, from, to, amount), from, to, amount);
  }

  /** The two writes of a reversal, credit first and debit second, net to Move. */
  lemma MoveIsCreditThenDebit(b: BalanceMap, from: AccountId, to: AccountId, amount: int)
    requires from in b && to in b
    ensures Debit(Credit(b, to, amount), from, amount) == Move(b, from, to, amount)
  {
    MovedDetermines(b, Debit(Credit(b, to, amount), from, amount), Move(b, from, to, amount), from, to, amount);
  }

  /** Moving an amount back along the same two accounts restores every balance. */
  lemma MoveBack(b: BalanceMap, from: AccountId, to: AccountId, amount: int)
    requires from in b && to in b
    ensures Move(Move(b, from, to, amount), to, from, amount) == b
  {
  }

  /** Sum of all balances. */
  ghost function Total(b: BalanceMap): int
    decreases |b|
  {
    if b == map[] then 0
    else
      var k :| k in b;
      b[k] + Total(b - {k})
  }

  /** Any account can be split off the sum, whichever one Total picks first. */
  lemma {:induction false} TotalRemove(b: BalanceMap, k: AccountId)
    requires k in b
    ensures Total(b) == b[k] + Total(b - {k})
    decreases |b|
  {
    var j :| j in b && Total(b) == b[j] + Total(b - {j});
    if j != k {
      TotalRemove(b - {j}, k);
      TotalRemove(b - {k}, j);
      assert b - {j} - {k} == b - {k} - {j};
    }
  }

  /** Changing one balance changes the sum by exactly the difference. */
  lemma TotalChange(b: BalanceMap, m: BalanceMap, k: AccountId)
    requires k in b && m.Keys == b.Keys
    requires forall a :: a in b && a != k ==> m[a] == b[a]
    ensures Total(m) == Total(b) - b[k] + m[k]
  {
    TotalRemove(b, k);
    TotalRemove(m, k);
    assert m - {k} == b - {k};
  }

  /** A debit lowers the sum by exactly the amount. */
  lemma DebitTotal(b: BalanceMap, id: AccountId, amount: int)
    requires id in b
    ensures Total(Debit(b, id, amount)) == Total(b) - amount
  {
    TotalChange(b, Debit(b, id, amount), id);
  }

  /** A credit raises the sum by exactly the amount. */
  lemma CreditTotal(b: BalanceMap, id: AccountId, amount: int)
    requires id in b
    ensures Total(Credit(b, id, amount)) == Total(b) + amount
  {
    TotalChange(b, Credit(b, id, amount), id);
  }

  /** A move neither creates nor destroys money. */
  lemma MoveConservesTotal(b: BalanceMap, from: AccountId, to: AccountId, amount: int)
    requires from in b && to in b
    ensures Total(Move(b, from, to, amount)) == Total(b)
  {
    var d := Debit(b, from, amount);
    MoveIsDebitThenCredit(b, from, to, amount);
    DebitTotal(b, from, amount);
    CreditTotal(d, to, amount);
  }

  predicate NonNegative(b: BalanceMap)
  {
    forall a :: a in b ==> b[a] >= 0
  }

  /** A move of a non-negative amount that `from` can cover keeps every balance non-negative. */
  lemma MovePreservesNonNegative(b: BalanceMap, from: AccountId, to: AccountId, amount: int)
    requires from in b && to in b
    requires NonNegative(b) && 0 <= amount <= b[from]
    ensures NonNegative(Move(b, from, to, amount))
  {
  }
}
