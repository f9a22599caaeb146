/**
 * The transfer/reversal engine of the transactions service.
 *
 * A Store is what one atomic unit of work sees: the account balances, the
 * transaction records by id, and the id the next record will get. Transfer
 * and Reverse are the pure meaning of one call; the class TransactionService
 * performs the same calls as step-by-step writes to its fields and is proved
 * to end in the state, and return the result, that they give.
 */
module Ledger {
  import opened Balances

  type TxId = nat

  datatype TransactionRecord = TransactionRecord(
    id: TxId,
    senderId: AccountId,
    recipientId: AccountId,
    amount: int,
    reversed: bool)

  /** The three rejections the service raises, each before any write. */
  datatype Error =
    | SenderOrRecipientNotFound
    | InsufficientBalance
    | NotFoundOrAlreadyReversed

  datatype Result<T> = Ok(value: T) | Err(error: Error)

  datatype Store = Store(
    balances: BalanceMap,
    records: map<TxId, TransactionRecord>,
    nextId: TxId)

  /** State after a call, with what the call returned. */
  datatype Step = Step(after: Store, result: Result<TransactionRecord>)

  /**
   * Every record is filed under its own id, that id was handed out already,
   * both parties are existing accounts, and the amount is positive.
   */
  predicate WellFormed(st: Store)
  {
    forall id :: id in st.records ==>
      && st.records[id].id == id
      && id < st.nextId
      && st.records[id].senderId in st.balances
      && st.records[id].recipientId in st.balances
      && st.records[id].amount > 0
  }

  /** A record changes only by its reversed flag going from false to true. */
  predicate Evolved(before: TransactionRecord, after: TransactionRecord)
  {
    && after.(reversed := before.reversed) == before
    && (before.reversed ==> after.reversed)
  }

  /** Records are never removed, and each one only evolves. */
  predicate RecordsEvolve(before: map<TxId, TransactionRecord>, after: map<TxId, TransactionRecord>)
  {
    && before.Keys <= after.Keys
    && forall id :: id in before ==> Evolved(before[id], after[id])
  }

  lemma RecordsEvolveTransitive(r0: map<TxId, TransactionRecord>, r1: map<TxId, TransactionRecord>, r2: map<TxId, TransactionRecord>)
    requires RecordsEvolve(r0, r1) && RecordsEvolve(r1, r2)
    ensures RecordsEvolve(r0, r2)
  {
  }

  /**
   * transferMoney: reject a missing sender or recipient, then a sender
   * balance strictly below the amount; otherwise move the amount and file a
   * new, unreversed record under a fresh id. Self-transfers are not rejected.
   */
  function Transfer(st: Store, senderId: AccountId, recipientId: AccountId, amount: int): (r: Step)
    requires amount > 0
    ensures r.result.Ok? <==>
      senderId in st.balances && recipientId in st.balances && st.balances[senderId] >= amount
    ensures r.result == Err(SenderOrRecipientNotFound) <==>
      senderId !in st.balances || recipientId !in st.balances
    ensures r.result == Err(InsufficientBalance) <==>
      senderId in st.balances && recipientId in st.balances && st.balances[senderId] < amount
    ensures r.result.Err? ==> r.after == st
    ensures r.result.Ok? ==>
      && r.result.value == TransactionRecord(st.nextId, senderId, recipientId, amount, false)
      && Moved(st.balances, r.after.balances, senderId, recipientId, amount)
      && r.after.records == st.records[st.nextId := r.result.value]
      && r.after.nextId == st.nextId + 1
      && r.after.balances[senderId] >= 0
  {
    if senderId !in st.balances || recipientId !in st.balances then
      Step(st, Err(SenderOrRecipientNotFound))
    else if st.balances[senderId] < amount then
      Step(st, Err(InsufficientBalance))
    else
      var record := TransactionRecord(st.nextId, senderId, recipientId, amount, false);
      Step(Store(Move(st.balances, senderId, recipientId, amount), st.records[st.nextId := record], st.nextId + 1),
           Ok(record))
  }

  /**
   * reverseTransaction: reject a missing or already reversed record;
   * otherwise move its amount back from the recipient to the sender, with no
   * check that the recipient can cover it, and mark the record reversed.
   */
  function Reverse(st: Store, transactionId: TxId): (r: Step)
    requires WellFormed(st)
    ensures r.result.Err? <==> transactionId !in st.records || st.records[transactionId].reversed
    ensures r.result.Err? ==> r.result.error == NotFoundOrAlreadyReversed && r.after == st
    ensures r.result.Ok? ==>
      var t := st.records[transactionId];
      && r.result.value == t.(reversed := true)
      && Moved(st.balances, r.after.balances, t.recipientId, t.senderId, t.amount)
      && r.after.records == st.records[transactionId := r.result.value]
      && r.after.nextId == st.nextId
  {
    if transactionId !in st.records || st.records[transactionId].reversed then
      Step(st, Err(NotFoundOrAlreadyReversed))
    else
      var t := st.records[transactionId];
      var updated := t.(reversed := true);
      Step(Store(Move(st.balances, t.recipientId, t.senderId, t.amount), st.records[transactionId := updated], st.nextId),
           Ok(updated))
  }

  /** A transfer keeps the store invariant, leaves every existing record as it was, and adds at most one record, under an unused id. */
  lemma TransferKeepsRecords(st: Store, senderId: AccountId, recipientId: AccountId, amount: int)
    requires WellFormed(st) && amount > 0
    ensures
      var r := Transfer(st, senderId, recipientId, amount);
      && WellFormed(r.after)
      && RecordsEvolve(st.records, r.after.records)
      && (forall id :: id in st.records ==> r.after.records[id] == st.records[id])
      && (r.result.Ok? ==> st.nextId !in st.records && |r.after.records| == |st.records| + 1)
  {
    var r := Transfer(st, senderId, recipientId, amount);
    if r.result.Ok? {
      assert st.nextId !in st.records;
      forall id | id in st.records
        ensures Evolved(st.records[id], r.after.records[id])
      {
      }
    } else {
      forall id | id in st.records
        ensures Evolved(st.records[id], r.after.records[id])
      {
      }
    }
  }

  /** A reversal keeps the store invariant and changes no record but by its flag. */
  lemma ReverseKeepsRecords(st: Store, transactionId: TxId)
    requires WellFormed(st)
    ensures
      var r := Reverse(st, transactionId);
      WellFormed(r.after) && RecordsEvolve(st.records, r.after.records)
  {
    var r := Reverse(st, transactionId);
    forall id | id in st.records
      ensures Evolved(st.records[id], r.after.records[id])
    {
    }
  }

  lemma TransferConservesTotal(st: Store, senderId: AccountId, recipientId: AccountId, amount: int)
    requires amount > 0
    ensures Total(Transfer(st, senderId, recipientId, amount).after.balances) == Total(st.balances)
  {
    if Transfer(st, senderId, recipientId, amount).result.Ok? {
      MoveConservesTotal(st.balances, senderId, recipientId, amount);
    }
  }

  lemma ReverseConservesTotal(st: Store, transactionId: TxId)
    requires WellFormed(st)
    ensures Total(Reverse(st, transactionId).after.balances) == Total(st.balances)
  {
    if Reverse(st, transactionId).result.Ok? {
      var t := st.records[transactionId];
      MoveConservesTotal(st.balances, t.recipientId, t.senderId, t.amount);
    }
  }

  /** A transfer never drives a balance negative: the sender check covers the debit. */
  lemma TransferPreservesNonNegative(st: Store, senderId: AccountId, recipientId: AccountId, amount: int)
    requires amount > 0
    requires NonNegative(st.balances)
    ensures NonNegative(Transfer(st, senderId, recipientId, amount).after.balances)
  {
    if Transfer(st, senderId, recipientId, amount).result.Ok? {
      MovePreservesNonNegative(st.balances, senderId, recipientId, amount);
    }
  }

  /** Sending to oneself still needs the funds, and then leaves every balance as it was. */
  lemma SelfTransferIsNetZero(st: Store, id: AccountId, amount: int)
    requires amount > 0
    ensures Transfer(st, id, id, amount).result.Ok? <==> id in st.balances && st.balances[id] >= amount
    ensures Transfer(st, id, id, amount).after.balances == st.balances
  {
    var r := Transfer(st, id, id, amount);
    if r.result.Ok? {
      assert Moved(st.balances, st.balances, id, id, amount);
      MovedDetermines(st.balances, r.after.balances, st.balances, id, id, amount);
    }
  }

  /** Reversing the record a transfer just created restores both balances exactly. */
  lemma TransferThenReverseRestores(st: Store, senderId: AccountId, recipientId: AccountId, amount: int)
    requires WellFormed(st) && amount > 0
    requires Transfer(st, senderId, recipientId, amount).result.Ok?
    ensures
      var t := Transfer(st, senderId, recipientId, amount);
      && WellFormed(t.after)
      && var v := Reverse(t.after, t.result.value.id);
      && v.result == Ok(t.result.value.(reversed := true))
      && v.after.balances == st.balances
      && v.after.records == st.records[st.nextId := t.result.value.(reversed := true)]
  {
    var t := Transfer(st, senderId, recipientId, amount);
    TransferKeepsRecords(st, senderId, recipientId, amount);
    var record := t.result.value;
    assert t.after.records[st.nextId] == record;
    var v := Reverse(t.after, st.nextId);
    assert v.after.balances == st.balances by {
      MoveBack(st.balances, senderId, recipientId, amount);
      assert t.after.balances == Move(st.balances, senderId, recipientId, amount);
      assert v.after.balances == Move(t.after.balances, recipientId, senderId, amount);
    }
    assert st.records[st.nextId := record][st.nextId := record.(reversed := true)]
        == st.records[st.nextId := record.(reversed := true)];
  }

  /** A reversal is accepted at most once: any later reversal of the record fails and changes nothing. */
  lemma SecondReversalFails(st: Store, transactionId: TxId)
    requires WellFormed(st)
    requires Reverse(st, transactionId).result.Ok?
    ensures
      var once := Reverse(st, transactionId).after;
      WellFormed(once) && Reverse(once, transactionId) == Step(once, Err(NotFoundOrAlreadyReversed))
  {
    ReverseKeepsRecords(st, transactionId);
  }

  /** One call into the service. */
  datatype Request =
    | TransferRequest(senderId: AccountId, recipientId: AccountId, amount: int)
    | ReverseRequest(transactionId: TxId)

  /** Amounts reaching the service are positive. */
  predicate Admissible(q: Request)
  {
    q.TransferRequest? ==> q.amount > 0
  }

  function Apply(st: Store, q: Request): (r: Step)
    requires WellFormed(st) && Admissible(q)
    ensures WellFormed(r.after)
    ensures RecordsEvolve(st.records, r.after.records)
  {
    match q
    case TransferRequest(s, t, amount) =>
      TransferKeepsRecords(st, s, t, amount);
      Transfer(st, s, t, amount)
    case ReverseRequest(id) =>
      ReverseKeepsRecords(st, id);
      Reverse(st, id)
  }

  /** The store after the calls `qs`, one after another, each one all-or-nothing. */
  function Run(st: Store, qs: seq<Request>): (r: Store)
    requires WellFormed(st)
    requires forall i :: 0 <= i < |qs| ==> Admissible(qs[i])
    ensures WellFormed(r)
    decreases |qs|
  {
    if qs == [] then st else Run(Apply(st, qs[0]).after, qs[1..])
  }

  /** No sequence of transfers and reversals changes the sum of all balances. */
  lemma {:induction false} RunConservesTotal(st: Store, qs: seq<Request>)
    requires WellFormed(st)
    requires forall i :: 0 <= i < |qs| ==> Admissible(qs[i])
    ensures Total(Run(st, qs).balances) == Total(st.balances)
    decreases |qs|
  {
    if qs != [] {
      var next := Apply(st, qs[0]).after;
      match qs[0] {
        case TransferRequest(s, t, amount) => TransferConservesTotal(st, s, t, amount);
        case ReverseRequest(id) => ReverseConservesTotal(st, id);
      }
      RunConservesTotal(next, qs[1..]);
    }
  }

  /** Over any sequence of calls, records stay, keep their parties and amount, and stay reversed once reversed. */
  lemma {:induction false} RunEvolvesRecords(st: Store, qs: seq<Request>)
    requires WellFormed(st)
    requires forall i :: 0 <= i < |qs| ==> Admissible(qs[i])
    ensures RecordsEvolve(st.records, Run(st, qs).records)
    decreases |qs|
  {
    if qs == [] {
      assert RecordsEvolve(st.records, st.records) by {
        forall id | id in st.records
          ensures Evolved(st.records[id], st.records[id])
        {
        }
      }
    } else {
      var next := Apply(st, qs[0]).after;
      RunEvolvesRecords(next, qs[1..]);
      RecordsEvolveTransitive(st.records, next.records, Run(next, qs[1..]).records);
    }
  }

  /** Once a record is reversed, no later sequence of calls makes it reversible again. */
  lemma ReversedStaysFinal(st: Store, qs: seq<Request>, transactionId: TxId)
    requires WellFormed(st)
    requires forall i :: 0 <= i < |qs| ==> Admissible(qs[i])
    requires transactionId in st.records && st.records[transactionId].reversed
    ensures Reverse(Run(st, qs), transactionId).result == Err(NotFoundOrAlreadyReversed)
  {
    RunEvolvesRecords(st, qs);
    assert Evolved(st.records[transactionId], Run(st, qs).records[transactionId]);
  }

  /** Accounts A = 1000 and B = 0: 100 from A to B gives 900/100, its reversal 1000/0, a second reversal fails. */
  lemma TransferAndReverseScenario()
    ensures
      var st := Store(map["A" := 1000, "B" := 0], map[], 0);
      var t := Transfer(st, "A", "B", 100);
      && t.result == Ok(TransactionRecord(0, "A", "B", 100, false))
      && t.after.balances == map["A" := 900, "B" := 100]
      && WellFormed(t.after)
      && var v := Reverse(t.after, 0);
      && v.result == Ok(TransactionRecord(0, "A", "B", 100, true))
      && v.after.balances == map["A" := 1000, "B" := 0]
      && WellFormed(v.after)
      && Reverse(v.after, 0) == Step(v.after, Err(NotFoundOrAlreadyReversed))
  {
    var st := Store(map["A" := 1000, "B" := 0], map[], 0);
    var t := Transfer(st, "A", "B", 100);
    MovedDetermines(st.balances, t.after.balances, map["A" := 900, "B" := 100], "A", "B", 100);
    TransferThenReverseRestores(st, "A", "B", 100);
    ReverseKeepsRecords(t.after, 0);
  }

  /**
   * Reversal does not check that the recipient can still cover the amount.
   * Starting from non-negative balances, with `a` able to pay `x` and `b`
   * holding less than `x` (say 100 and 0): `a` sends `x` to `b`, `b` sends
   * it back, and the first transfer is reversed. All three calls are
   * accepted, and `b` ends below zero.
   */
  lemma ReversalCanOverdraw(st: Store, a: AccountId, b: AccountId, x: int)
    requires WellFormed(st) && NonNegative(st.balances)
    requires a in st.balances && b in st.balances && a != b
    requires 0 < x <= st.balances[a] && st.balances[b] < x
    ensures
      var t1 := Transfer(st, a, b, x);
      var t2 := Transfer(t1.after, b, a, x);
      && t1.result.Ok? && t2.result.Ok?
      && WellFormed(t2.after)
      && Reverse(t2.after, st.nextId).result.Ok?
      && Reverse(t2.after, st.nextId).after.balances[b] == st.balances[b] - x < 0
  {
    var t1 := Transfer(st, a, b, x);
    TransferKeepsRecords(st, a, b, x);
    var t2 := Transfer(t1.after, b, a, x);
    TransferKeepsRecords(t1.after, b, a, x);
    assert t2.after.records[st.nextId] == t1.result.value;
  }

  /**
   * The service over a live store: its fields are the balances, the
   * records and the id generator, and each call writes them one by one.
   */
  class TransactionService {
    var balances: BalanceMap
    var records: map<TxId, TransactionRecord>
    var nextId: TxId

    function State(): Store
      reads this
    {
      Store(balances, records, nextId)
    }

    ghost predicate Valid()
      reads this
    {
      WellFormed(State())
    }

    /** A store holding the given accounts and no transactions yet. */
    constructor (accounts: BalanceMap)
      ensures Valid()
      ensures State() == Store(accounts, map[], 0)
    {
      balances := accounts;
      records := map[];
      nextId := 0;
    }

    method TransferMoney(senderId: AccountId, recipientId: AccountId, amount: int) returns (res: Result<TransactionRecord>)
      requires Valid() && amount > 0
      modifies this
      ensures Valid()
      ensures Step(State(), res) == Transfer(old(State()), senderId, recipientId, amount)
    {
      ghost var before := State();
      TransferKeepsRecords(before, senderId, recipientId, amount);
      if senderId !in balances || recipientId !in balances {
        return Err(SenderOrRecipientNotFound);
      }
      if balances[senderId] < amount {
        return Err(InsufficientBalance);
      }
      MoveIsDebitThenCredit(balances, senderId, recipientId, amount);
      balances := Debit(balances, senderId, amount);
      balances := Credit(balances, recipientId, amount);
      var record := TransactionRecord(nextId, senderId, recipientId, amount, false);
      records := records[nextId := record];
      nextId := nextId + 1;
      res := Ok(record);
      assert Step(State(), res) == Transfer(before, senderId, recipientId, amount);
    }

    method ReverseTransaction(transactionId: TxId) returns (res: Result<TransactionRecord>)
      requires Valid()
      modifies this
      ensures Valid()
      ensures Step(State(), res) == Reverse(old(State()), transactionId)
    {
      ghost var before := State();
      ReverseKeepsRecords(before, transactionId);
      if transactionId !in records || records[transactionId].reversed {
        return Err(NotFoundOrAlreadyReversed);
      }
      var t := records[transactionId];
      MoveIsCreditThenDebit(balances, t.recipientId, t.senderId, t.amount);
      balances := Credit(balances, t.senderId, t.amount);
      balances := Debit(balances, t.recipientId, t.amount);
      var updated := t.(reversed := true);
      records := records[transactionId := updated];
      res := Ok(updated);
      assert Step(State(), res) == Reverse(before, transactionId);
    }
  }
}
