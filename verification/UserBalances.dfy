/** A depositor's shares in one pool tier and the withdrawal queue over them. */
module UserBalances {
  import opened Numbers

  const MAX_Q4W_SIZE: nat := 20
  const Q4W_LOCK_TIME: nat := 17 * DAY_SECONDS

  /** Shares queued for withdrawal and the time they may leave. */
  datatype Q4W = Q4W(amount: int, exp: nat)

  /** The stored balance: active shares, and queued entries oldest first. */
  datatype UserRecord = UserRecord(shares: int, q4w: seq<Q4W>)

  const EMPTY_USER := UserRecord(0, [])

  predicate Amounts(q: seq<Q4W>) {
    forall i | 0 <= i < |q| :: 0 <= q[i].amount
  }

  predicate Sorted(q: seq<Q4W>) {
    forall i, j | 0 <= i < j < |q| :: q[i].exp <= q[j].exp
  }

  predicate ExpiresBy(q: seq<Q4W>, time: int) {
    forall i | 0 <= i < |q| :: q[i].exp <= time
  }

  function Queued(q: seq<Q4W>): int {
    if q == [] then 0 else q[0].amount + Queued(q[1..])
  }

  /** Shares in entries whose lock has run out, wherever they sit in the queue. */
  function Matured(q: seq<Q4W>, now: nat): int {
    if q == [] then 0 else (if q[0].exp <= now then q[0].amount else 0) + Matured(q[1..], now)
  }

  // Specification of the three queue operations.

  function QueueShares(u: UserRecord, toQ: int, now: nat): Result<UserRecord> {
    if u.shares < toQ then Failure(BalanceError)
    else if |u.q4w| >= MAX_Q4W_SIZE then Failure(TooManyQ4WEntries)
    else if !FitsU64(now + Q4W_LOCK_TIME) then Failure(Trap)
    else Success(UserRecord(u.shares - toQ, u.q4w + [Q4W(toQ, now + Q4W_LOCK_TIME)]))
  }

  function WithdrawQueue(q: seq<Q4W>, left: int, now: nat): Result<seq<Q4W>> {
    if q == [] then
      if left > 0 then Failure(BalanceError) else Success([])
    else if q[0].exp > now then Failure(NotExpired)
    else if q[0].amount > left then Success([q[0].(amount := q[0].amount - left)] + q[1..])
    else if q[0].amount == left then Success(q[1..])
    else WithdrawQueue(q[1..], left - q[0].amount, now)
  }

  function DequeueQueue(q: seq<Q4W>, left: int): Result<seq<Q4W>> {
    if q == [] then
      if left > 0 then Failure(BalanceError) else Success([])
    else
      var last := q[|q| - 1];
      if last.amount > left then Success(q[..|q| - 1] + [last.(amount := last.amount - left)])
      else if last.amount == left then Success(q[..|q| - 1])
      else DequeueQueue(q[..|q| - 1], left - last.amount)
  }

  function WithdrawShares(u: UserRecord, toWithdraw: int, now: nat): Result<UserRecord> {
    var q :- WithdrawQueue(u.q4w, toWithdraw, now);
    Success(u.(q4w := q))
  }

  function DequeueShares(u: UserRecord, toDequeue: int): Result<UserRecord> {
    var q :- DequeueQueue(u.q4w, toDequeue);
    Success(u.(q4w := q))
  }

  /** The working copy an operation edits before it stores it back. An abort discards the copy. */
  class UserBalance {
    var shares: int
    var q4w: seq<Q4W>

    constructor (stored: UserRecord)
      ensures Record() == stored
    {
      shares, q4w := stored.shares, stored.q4w;
    }

    function Record(): UserRecord
      reads this
    {
      UserRecord(shares, q4w)
    }

    method AddShares(toAdd: int) returns (r: Result<()>)
      modifies this
      ensures r.Success? <==> FitsI128(old(shares) + toAdd)
      ensures r.Failure? ==> r.error == Trap
      ensures r.Success? ==> Record() == UserRecord(old(shares) + toAdd, old(q4w))
    {
      if !FitsI128(shares + toAdd) {
        return Failure(Trap);
      }
      shares := shares + toAdd;
      return Success(());
    }

    method QueueSharesForWithdrawal(toQ: int, now: nat) returns (r: Result<()>)
      modifies this
      ensures match QueueShares(old(Record()), toQ, now)
              case Failure(e) => r == Failure(e)
              case Success(u) => r.Success? && Record() == u
    {
      if shares < toQ {
        return Failure(BalanceError);
      }
      if |q4w| >= MAX_Q4W_SIZE {
        return Failure(TooManyQ4WEntries);
      }
      shares := shares - toQ;
      if !FitsU64(now + Q4W_LOCK_TIME) {
        return Failure(Trap);
      }
      q4w := q4w + [Q4W(toQ, now + Q4W_LOCK_TIME)];
      return Success(());
    }

    method WithdrawSharesFromQueue(toWithdraw: int, now: nat) returns (r: Result<()>)
      requires 0 <= toWithdraw
      modifies this
      ensures match WithdrawShares(old(Record()), toWithdraw, now)
              case Failure(e) => r == Failure(e)
              case Success(u) => r.Success? && Record() == u
    {
      var leftToWithdraw := toWithdraw;
      ghost var spec := WithdrawQueue(q4w, toWithdraw, now);
      var n := |q4w|;
      for index := 0 to n
        invariant shares == old(shares)
        invariant |q4w| == n - index
        invariant 0 < leftToWithdraw || toWithdraw == leftToWithdraw
        invariant spec == WithdrawQueue(q4w, leftToWithdraw, now)
      {
        var cur := q4w[0];
        q4w := q4w[1..];
        if cur.exp <= now {
          if cur.amount > leftToWithdraw {
            cur := cur.(amount := cur.amount - leftToWithdraw);
            leftToWithdraw := 0;
            q4w := [cur] + q4w;
            return Success(());
          } else if cur.amount == leftToWithdraw {
            leftToWithdraw := 0;
            return Success(());
          } else {
            leftToWithdraw := leftToWithdraw - cur.amount;
          }
        } else {
          return Failure(NotExpired);
        }
      }
      if leftToWithdraw > 0 {
        return Failure(BalanceError);
      }
      return Success(());
    }

    method DequeueSharesFromQueue(toDequeue: int) returns (r: Result<()>)
      requires 0 <= toDequeue
      modifies this
      ensures match DequeueShares(old(Record()), toDequeue)
              case Failure(e) => r == Failure(e)
              case Success(u) => r.Success? && Record() == u
    {
      var leftToDequeue := toDequeue;
      ghost var spec := DequeueQueue(q4w, toDequeue);
      var n := |q4w|;
      for index := 0 to n
        invariant shares == old(shares)
        invariant |q4w| == n - index
        invariant 0 < leftToDequeue || toDequeue == leftToDequeue
        invariant spec == DequeueQueue(q4w, leftToDequeue)
      {
        var cur := q4w[|q4w| - 1];
        q4w := q4w[..|q4w| - 1];
        if cur.amount > leftToDequeue {
          cur := cur.(amount := cur.amount - leftToDequeue);
          leftToDequeue := 0;
          q4w := q4w + [cur];
          return Success(());
        } else if cur.amount == leftToDequeue {
          leftToDequeue := 0;
          return Success(());
        } else {
          leftToDequeue := leftToDequeue - cur.amount;
        }
      }
      if leftToDequeue > 0 {
        return Failure(BalanceError);
      }
      return Success(());
    }
  }

  // The queue as a sequence of unit shares, each labelled with its expiry.

  ghost function Repeat(exp: nat, amount: nat): seq<nat> {
    seq(amount, _ => exp)
  }

  ghost function Units(q: seq<Q4W>): seq<nat>
    requires Amounts(q)
  {
    if q == [] then [] else Repeat(q[0].exp, q[0].amount) + Units(q[1..])
  }

  lemma {:induction false} UnitsAppend(q: seq<Q4W>, p: seq<Q4W>)
    requires Amounts(q) && Amounts(p)
    ensures Amounts(q + p) && Units(q + p) == Units(q) + Units(p)
  {
    if q == [] {
      assert q + p == p;
    } else {
      assert (q + p)[1..] == q[1..] + p;
      UnitsAppend(q[1..], p);
    }
  }

  lemma {:induction false} UnitsCount(q: seq<Q4W>)
    requires Amounts(q)
    ensures |Units(q)| == Queued(q) >= 0
  {
    if q != [] {
      UnitsCount(q[1..]);
    }
  }

  lemma UnitsOne(entry: Q4W)
    requires 0 <= entry.amount
    ensures Units([entry]) == Repeat(entry.exp, entry.amount)
  {
    assert Units([entry][1..]) == [];
  }

  lemma {:induction false} QueuedAppend(q: seq<Q4W>, p: seq<Q4W>)
    ensures Queued(q + p) == Queued(q) + Queued(p)
  {
    if q == [] {
      assert q + p == p;
    } else {
      assert (q + p)[1..] == q[1..] + p;
      QueuedAppend(q[1..], p);
    }
  }

  lemma QueuedOne(entry: Q4W)
    ensures Queued([entry]) == entry.amount
  {
    assert [entry][1..] == [];
  }

  /** Queueing moves exactly `toQ` shares behind everything already queued, locked for 17 days. */
  lemma QueueAppendsUnits(u: UserRecord, toQ: int, now: nat)
    requires Amounts(u.q4w) && 0 <= toQ && QueueShares(u, toQ, now).Success?
    ensures var v := QueueShares(u, toQ, now).value;
            && Amounts(v.q4w)
            && Units(v.q4w) == Units(u.q4w) + Repeat(now + Q4W_LOCK_TIME, toQ)
            && v.shares + Queued(v.q4w) == u.shares + Queued(u.q4w) && v.shares == u.shares - toQ
            && (Sorted(u.q4w) && ExpiresBy(u.q4w, now + Q4W_LOCK_TIME) ==>
                  Sorted(v.q4w) && ExpiresBy(v.q4w, now + Q4W_LOCK_TIME))
  {
    var entry := Q4W(toQ, now + Q4W_LOCK_TIME);
    UnitsAppend(u.q4w, [entry]);
    UnitsOne(entry);
    QueuedAppend(u.q4w, [entry]);
    QueuedOne(entry);
  }

  /** Withdrawing removes exactly the `left` earliest units, and only matured ones. */
  lemma {:induction false} WithdrawTakesEarliest(q: seq<Q4W>, left: int, now: nat)
    requires Amounts(q) && 0 <= left && WithdrawQueue(q, left, now).Success?
    ensures var r := WithdrawQueue(q, left, now).value;
            && Amounts(r) && left <= |Units(q)| && Units(r) == Units(q)[left..]
            && (forall i | 0 <= i < left :: Units(q)[i] <= now)
            && Queued(r) == Queued(q) - left && |r| <= |q|
            && (Sorted(q) ==> Sorted(r)) && (forall t | ExpiresBy(q, t) :: ExpiresBy(r, t))
  {
    UnitsCount(q);
    if q != [] {
      var head := q[0];
      UnitsCount(q[1..]);
      if head.amount > left {
        var kept := head.(amount := head.amount - left);
        assert Repeat(head.exp, head.amount)[left..] == Repeat(kept.exp, kept.amount);
        UnitsAppend([kept], q[1..]);
        UnitsOne(kept);
        assert ([kept] + q[1..])[1..] == q[1..];
      } else if head.amount < left {
        WithdrawTakesEarliest(q[1..], left - head.amount, now);
        forall t | ExpiresBy(q, t) ensures ExpiresBy(WithdrawQueue(q, left, now).value, t) {
          assert ExpiresBy(q[1..], t);
        }
      } else {
        assert Units(q)[left..] == Units(q[1..]);
      }
    }
  }

  lemma SplitLast(q: seq<Q4W>)
    requires Amounts(q) && q != []
    ensures var init, last := q[..|q| - 1], q[|q| - 1];
            && Amounts(init)
            && Units(q) == Units(init) + Repeat(last.exp, last.amount)
            && Queued(q) == Queued(init) + last.amount
            && |Units(init)| == Queued(init) >= 0
  {
    var init, last := q[..|q| - 1], q[|q| - 1];
    assert q == init + [last];
    UnitsAppend(init, [last]);
    UnitsOne(last);
    QueuedAppend(init, [last]);
    QueuedOne(last);
    UnitsCount(init);
  }

  /** Dequeueing removes exactly the `left` latest units, matured or not. */
  lemma {:induction false} DequeueTakesLatest(q: seq<Q4W>, left: int)
    requires Amounts(q) && 0 <= left
    ensures DequeueQueue(q, left).Success? <==> left <= Queued(q)
    ensures DequeueQueue(q, left).Success? ==>
              var r := DequeueQueue(q, left).value;
              && Amounts(r) && left <= |Units(q)| && Units(r) == Units(q)[..|Units(q)| - left]
              && Queued(r) == Queued(q) - left
    ensures DequeueQueue(q, left).Failure? ==> DequeueQueue(q, left).error == BalanceError
  {
    UnitsCount(q);
    if q != [] {
      hide Units, Queued;
      SplitLast(q);
      var init, last := q[..|q| - 1], q[|q| - 1];
      if last.amount > left {
        var r := init + [last.(amount := last.amount - left)];
        SplitLast(r);
        assert r[..|r| - 1] == init;
      } else if last.amount < left {
        DequeueTakesLatest(init, left - last.amount);
      }
    }
  }

  lemma {:induction false} DequeueKeepsOrder(q: seq<Q4W>, left: int)
    requires DequeueQueue(q, left).Success?
    ensures var r := DequeueQueue(q, left).value;
            |r| <= |q| && (Sorted(q) ==> Sorted(r)) && (forall t | ExpiresBy(q, t) :: ExpiresBy(r, t))
  {
    if q != [] && q[|q| - 1].amount < left {
      var init := q[..|q| - 1];
      DequeueKeepsOrder(init, left - q[|q| - 1].amount);
      forall t | ExpiresBy(q, t) ensures ExpiresBy(DequeueQueue(q, left).value, t) {
        assert ExpiresBy(init, t);
      }
    }
  }

  lemma {:induction false} MaturedBounds(q: seq<Q4W>, now: nat)
    requires Amounts(q)
    ensures 0 <= Matured(q, now) <= Queued(q)
    ensures (forall i | 0 <= i < |q| :: q[i].exp > now) ==> Matured(q, now) == 0
  {
    if q != [] {
      MaturedBounds(q[1..], now);
    }
  }

  /** On a sorted queue a withdrawal succeeds exactly when the matured shares cover it. Asking for
      nothing is the exception: it only needs the first entry, if any, to be matured. When the request
      fails, the error says whether an unmatured entry was in the way. */
  lemma {:induction false} WithdrawSucceedsIff(q: seq<Q4W>, left: int, now: nat)
    requires Amounts(q) && Sorted(q) && 0 <= left
    ensures WithdrawQueue(q, left, now).Success? <==>
              if left == 0 then q == [] || q[0].exp <= now else left <= Matured(q, now)
    ensures WithdrawQueue(q, left, now).Failure? ==>
              WithdrawQueue(q, left, now).error
                == (if q != [] && q[|q| - 1].exp > now then NotExpired else BalanceError)
  {
    if q != [] {
      MaturedBounds(q[1..], now);
      if q[0].exp > now {
        assert Matured(q, now) == 0;
      } else if q[0].amount < left {
        WithdrawSucceedsIff(q[1..], left - q[0].amount, now);
      }
    }
  }

  /** The sum a forced withdrawal computes, stopping at the first unmatured entry. */
  function MaturedPrefix(q: seq<Q4W>, now: nat): int {
    if q == [] || q[0].exp > now then 0 else q[0].amount + MaturedPrefix(q[1..], now)
  }

  /** On a sorted queue the prefix misses nothing, and withdrawing it cannot fail and leaves no
      matured share behind. */
  lemma {:induction false} ForcedWithdrawalComplete(q: seq<Q4W>, now: nat)
    requires Amounts(q) && Sorted(q) && 0 < MaturedPrefix(q, now)
    ensures MaturedPrefix(q, now) == Matured(q, now)
    ensures var r := WithdrawQueue(q, MaturedPrefix(q, now), now);
            && r.Success?
            && Matured(r.value, now) == 0
            && (forall i | 0 <= i < |r.value| && r.value[i].exp <= now :: r.value[i].amount == 0)
  {
    PrefixIsMatured(q, now);
    WithdrawMaturedLeavesNone(q, Matured(q, now), now);
  }

  lemma {:induction false} PrefixIsMatured(q: seq<Q4W>, now: nat)
    requires Amounts(q) && Sorted(q)
    ensures MaturedPrefix(q, now) == Matured(q, now)
  {
    if q != [] {
      if q[0].exp > now {
        MaturedBounds(q, now);
      } else {
        PrefixIsMatured(q[1..], now);
      }
    }
  }

  lemma {:induction false} WithdrawMaturedLeavesNone(q: seq<Q4W>, left: int, now: nat)
    requires Amounts(q) && Sorted(q) && 0 < left == Matured(q, now)
    ensures var r := WithdrawQueue(q, left, now);
            && r.Success? && Amounts(r.value)
            && Matured(r.value, now) == 0
            && (forall i | 0 <= i < |r.value| && r.value[i].exp <= now :: r.value[i].amount == 0)
  {
    MaturedBounds(q, now);
    MaturedBounds(q[1..], now);
    if q[0].exp <= now {
      if q[0].amount < left {
        WithdrawMaturedLeavesNone(q[1..], left - q[0].amount, now);
      } else {
        NoMaturedShares(q[1..], now);
      }
    }
  }

  lemma {:induction false} NoMaturedShares(q: seq<Q4W>, now: nat)
    requires Amounts(q) && Matured(q, now) == 0
    ensures forall i | 0 <= i < |q| && q[i].exp <= now :: q[i].amount == 0
  {
    if q != [] {
      MaturedBounds(q[1..], now);
      NoMaturedShares(q[1..], now);
      forall i | 0 <= i < |q| && q[i].exp <= now ensures q[i].amount == 0 {
        if i > 0 {
          assert q[i] == q[1..][i - 1];
        }
      }
    }
  }
}
