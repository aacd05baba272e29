/** Seven-day emission streams, the reward-per-share index they feed, and user accrual against it.

    Stream amounts are BLNT scaled by 10^7; the index and user carries are scaled by a further 10^7. */
module Streams {
  import opened Numbers
  import opened PoolBalances

  const STREAM_SECONDS: nat := 604_800

  datatype EmissionData = EmissionData(
    expiration: nat,
    eps: nat,
    index: int,
    indexCarry: int,
    lastTime: nat,
    scheduleCarry: int)

  datatype UserEmission = UserEmission(accrued: int, carry: int, index: int)

  const EMPTY_EMISSION := UserEmission(0, 0, 0)

  predicate ValidData(d: EmissionData) {
    0 <= d.index && 0 <= d.indexCarry && 0 <= d.scheduleCarry < STREAM_SECONDS
  }

  predicate ValidUser(u: UserEmission) {
    0 <= u.accrued && 0 <= u.carry < SCALAR_14 && 0 <= u.index
  }

  function Active(b: PoolRecord): int {
    b.shares - b.q4w
  }

  function StreamEnd(d: EmissionData, now: nat): nat {
    if now <= d.expiration then now else d.expiration
  }

  /** Once the end has passed, the schedule remainder is gone. */
  predicate EndedClean(d: EmissionData) {
    d.expiration <= d.lastTime ==> d.scheduleCarry == 0
  }

  /** What the stream releases between its last checkpoint and `now`; the schedule remainder comes
      with the final second. */
  function Emitted(d: EmissionData, now: nat): int {
    var end := StreamEnd(d, now);
    if end > d.lastTime then
      (end - d.lastTime) * d.eps + (if end == d.expiration then d.scheduleCarry else 0)
    else 0
  }

  /** Bring a stream and its index up to `now`. */
  function Advance(d: EmissionData, b: PoolRecord, now: nat): Result<EmissionData> {
    if !ValidData(d) || d.lastTime > now || b.shares < b.q4w then Failure(InvalidEmissionValue)
    else
      var end := StreamEnd(d, now);
      var credited :- if Active(b) > 0 && end > d.lastTime
                      then Credit(d, Emitted(d, now), Active(b)) else Success(d);
      Success(credited.(
        scheduleCarry := if end == d.expiration && end > d.lastTime then 0 else d.scheduleCarry,
        lastTime := now))
  }

  /** Spread an emitted amount over the active shares, keeping the undivided remainder. */
  function Credit(d: EmissionData, emitted: int, active: int): Result<EmissionData>
    requires active > 0
  {
    var numerator := emitted * SCALAR_7 + d.indexCarry;
    var increment :- I128(numerator / active);
    var carry :- I128(numerator - increment * active);
    var index :- I128(d.index + increment);
    Success(d.(index := index, indexCarry := carry))
  }

  /** Fold a pending amount and everything unstreamed into a fresh seven-day stream. `existing` has
      already been advanced to `now`. */
  function Restream(existing: Option<EmissionData>, pending: int, now: nat): Result<EmissionData> {
    var d := StreamOrNew(existing, now);
    var total := ScaledTotal(d, pending, now);
    var eps :- I128(total / STREAM_SECONDS);
    var carry :- I128(total - eps * STREAM_SECONDS);
    var rate :- U64(eps);
    var expiration :- U64(now + STREAM_SECONDS);
    var next := EmissionData(expiration, rate, d.index, d.indexCarry, now, carry);
    if ValidData(next) then Success(next) else Failure(InvalidEmissionValue)
  }

  function StreamOrNew(existing: Option<EmissionData>, now: nat): EmissionData {
    match existing
    case None => EmissionData(0, 0, 0, 0, now, 0)
    case Some(d) => d
  }

  function ScaledTotal(d: EmissionData, pending: int, now: nat): int {
    pending * SCALAR_7 + Max(0, d.expiration - now) * d.eps + d.scheduleCarry
  }

  /** Shares times index growth. */
  function Earned(shares: int, from: int, to: int): int {
    shares * (to - from)
  }

  function Accrue(u: UserEmission, shares: int, index: int): Result<UserEmission> {
    if shares < 0 || index < u.index then Failure(InvalidEmissionValue)
    else
      var numerator := Earned(shares, u.index, index) + u.carry;
      var gained :- I128(numerator / SCALAR_14);
      var carry :- I128(numerator - gained * SCALAR_14);
      var accrued :- I128(u.accrued + gained);
      var next := UserEmission(accrued, carry, index);
      if ValidUser(next) then Success(next) else Failure(InvalidEmissionValue)
  }

  method AdvanceEmissionData(stored: EmissionData, pool: PoolRecord, now: nat) returns (r: Result<EmissionData>)
    ensures r == Advance(stored, pool, now)
  {
    var data := stored;
    if !ValidData(data) {
      return Failure(InvalidEmissionValue);
    }
    if data.lastTime > now || pool.shares < pool.q4w {
      return Failure(InvalidEmissionValue);
    }
    var streamEnd := Min(now, data.expiration);
    var activeShares := pool.shares - pool.q4w;
    if activeShares > 0 && streamEnd > data.lastTime {
      var emittedScaled := (streamEnd - data.lastTime) * data.eps
                           + (if streamEnd == data.expiration then data.scheduleCarry else 0);
      var numerator := emittedScaled * SCALAR_7 + data.indexCarry;
      var increment := numerator / activeShares;
      if !FitsI128(increment) {
        return Failure(Overflow);
      }
      var carry := numerator - increment * activeShares;
      if !FitsI128(carry) {
        return Failure(Overflow);
      }
      data := data.(indexCarry := carry);
      if !FitsI128(data.index + increment) {
        return Failure(Overflow);
      }
      data := data.(index := data.index + increment);
    }
    if streamEnd == data.expiration && streamEnd > data.lastTime {
      data := data.(scheduleCarry := 0);
    }
    data := data.(lastTime := now);
    return Success(data);
  }

  method UpdateUserEmissions(stored: UserEmission, shares: int, currentIndex: int) returns (r: Result<UserEmission>)
    ensures r == Accrue(stored, shares, currentIndex)
  {
    var data := stored;
    if shares < 0 || currentIndex < data.index {
      return Failure(InvalidEmissionValue);
    }
    var numerator := shares * (currentIndex - data.index) + data.carry;
    var accrued := numerator / SCALAR_14;
    if !FitsI128(accrued) {
      return Failure(Overflow);
    }
    var carry := numerator - accrued * SCALAR_14;
    if !FitsI128(carry) {
      return Failure(Overflow);
    }
    data := data.(carry := carry);
    if !FitsI128(data.accrued + accrued) {
      return Failure(Overflow);
    }
    data := data.(accrued := data.accrued + accrued, index := currentIndex);
    if !ValidUser(data) {
      return Failure(InvalidEmissionValue);
    }
    return Success(data);
  }

  /** The fresh stream of `set_backstop_emission_eps`. */
  method RestreamEmission(existing: Option<EmissionData>, pending: int, now: nat) returns (r: Result<EmissionData>)
    ensures r == Restream(existing, pending, now)
  {
    var data := if existing.Some? then existing.value else EmissionData(0, 0, 0, 0, now, 0);
    var remainingSeconds := Max(0, data.expiration - now);
    var scaledTotal := pending * SCALAR_7 + remainingSeconds * data.eps + data.scheduleCarry;
    var eps := scaledTotal / STREAM_SECONDS;
    if !FitsI128(eps) {
      return Failure(Overflow);
    }
    var carry := scaledTotal - eps * STREAM_SECONDS;
    if !FitsI128(carry) {
      return Failure(Overflow);
    }
    data := data.(scheduleCarry := carry);
    if !FitsU64(eps) {
      return Failure(Overflow);
    }
    data := data.(eps := eps);
    if !FitsU64(now + STREAM_SECONDS) {
      return Failure(Overflow);
    }
    data := data.(expiration := now + STREAM_SECONDS, lastTime := now);
    if !ValidData(data) {
      return Failure(InvalidEmissionValue);
    }
    return Success(data);
  }

  // Conservation.

  /** BLNT times 10^7 still to be streamed. */
  function Scheduled(d: EmissionData): int {
    Max(0, d.expiration - d.lastTime) * d.eps + d.scheduleCarry
  }

  /** Stream value released while nobody held active shares: it credits no depositor. */
  function Forfeited(d: EmissionData, b: PoolRecord, now: nat): int {
    if Active(b) > 0 then 0 else Emitted(d, now)
  }

  lemma EmittedLeavesSchedule(d: EmissionData, now: nat)
    requires ValidData(d) && d.lastTime <= now
    ensures 0 <= Emitted(d, now)
    ensures var end := StreamEnd(d, now);
            var carry := if end == d.expiration && end > d.lastTime then 0 else d.scheduleCarry;
            Scheduled(d.(scheduleCarry := carry, lastTime := now)) == Scheduled(d) - Emitted(d, now)
  {
    var end := StreamEnd(d, now);
    if end > d.lastTime {
      MulNonNegative(end - d.lastTime, d.eps);
      assert (d.expiration - d.lastTime) * d.eps == (d.expiration - end) * d.eps + (end - d.lastTime) * d.eps;
    }
  }

  lemma CreditExact(d: EmissionData, emitted: int, active: int)
    requires active > 0 && ValidData(d) && 0 <= emitted
    ensures match Credit(d, emitted, active)
            case Failure(e) => e == Overflow
            case Success(c) =>
              && d.index <= c.index <= I128_MAX && 0 <= c.indexCarry < active
              && c == d.(index := c.index, indexCarry := c.indexCarry)
              && emitted * SCALAR_7 + d.indexCarry == Earned(active, d.index, c.index) + c.indexCarry
  {
    var numerator := emitted * SCALAR_7 + d.indexCarry;
    DivBounds(numerator, active);
    DivMonotone(0, numerator, active);
    var q := numerator / active;
    assert q * active == active * q;
    assert (d.index + q) - d.index == q;
  }

  /** Advancing conserves: what leaves the schedule reaches the index, its carry, or nobody. Only
      overflow can stop it. */
  lemma AdvanceConserves(d: EmissionData, b: PoolRecord, now: nat)
    requires ValidData(d) && d.lastTime <= now && b.q4w <= b.shares
    ensures match Advance(d, b, now)
            case Failure(e) => e == Overflow
            case Success(a) =>
              && ValidData(a) && a.lastTime == now && d.index <= a.index
              && (d.index <= I128_MAX ==> a.index <= I128_MAX) && (EndedClean(d) ==> EndedClean(a))
              && a.eps == d.eps && a.expiration == d.expiration
              && 0 <= Forfeited(d, b, now)
              && SCALAR_7 * Scheduled(d) + d.indexCarry
                 == SCALAR_7 * Scheduled(a) + a.indexCarry + Earned(Active(b), d.index, a.index)
                    + SCALAR_7 * Forfeited(d, b, now)
  {
    hide Emitted, Scheduled, Earned, Credit;
    EmittedLeavesSchedule(d, now);
    var end := StreamEnd(d, now);
    var carry := if end == d.expiration && end > d.lastTime then 0 else d.scheduleCarry;
    EarnedFacts(Active(b), d.index, d.index, d.index);
    if Active(b) > 0 && end > d.lastTime {
      CreditExact(d, Emitted(d, now), Active(b));
      if Credit(d, Emitted(d, now), Active(b)).Success? {
        var c := Credit(d, Emitted(d, now), Active(b)).value;
        ScheduleIgnoresIndex(d.(scheduleCarry := carry, lastTime := now), c.index, c.indexCarry);
      }
    } else if end <= d.lastTime {
      NothingEmitted(d, now);
    }
  }

  lemma NothingEmitted(d: EmissionData, now: nat)
    requires StreamEnd(d, now) <= d.lastTime
    ensures Emitted(d, now) == 0
  {
  }

  lemma ScheduleIgnoresIndex(d: EmissionData, index: int, carry: int)
    ensures Scheduled(d.(index := index, indexCarry := carry)) == Scheduled(d)
  {
  }

  lemma EarnedFacts(shares: int, a: int, b: int, c: int)
    ensures Earned(shares, a, b) + Earned(shares, b, c) == Earned(shares, a, c)
    ensures 0 <= shares && a <= b ==> 0 <= Earned(shares, a, b)
    ensures Earned(shares, a, a) == 0 && Earned(0, a, b) == 0
  {
    if 0 <= shares && a <= b {
      MulNonNegative(shares, b - a);
    }
  }

  lemma EarnedByMoreShares(s: int, t: int, a: int)
    ensures Earned(s, a, a) == Earned(t, a, a)
  {
  }

  /** A restart keeps every unstreamed unit and adds the pending amount exactly. */
  lemma RestreamConserves(existing: Option<EmissionData>, pending: int, now: nat)
    requires existing.Some? ==> ValidData(existing.value) && existing.value.lastTime == now
    requires 0 < pending && Restream(existing, pending, now).Success?
    ensures var prior := StreamOrNew(existing, now);
            var d := Restream(existing, pending, now).value;
            && ValidData(d) && EndedClean(d) && d.lastTime == now && d.index == prior.index
            && d.indexCarry == prior.indexCarry
            && Scheduled(d) == Scheduled(prior) + SCALAR_7 * pending
  {
    var prior := StreamOrNew(existing, now);
    var total := ScaledTotal(prior, pending, now);
    DivBounds(total, STREAM_SECONDS);
    assert total / STREAM_SECONDS * STREAM_SECONDS == STREAM_SECONDS * (total / STREAM_SECONDS);
  }

  lemma RestreamOnlyOverflows(existing: Option<EmissionData>, pending: int, now: nat)
    requires existing.Some? ==> ValidData(existing.value) && existing.value.lastTime == now
    requires 0 < pending && Restream(existing, pending, now).Failure?
    ensures Restream(existing, pending, now).error == Overflow
  {
    var prior := StreamOrNew(existing, now);
    DivBounds(ScaledTotal(prior, pending, now), STREAM_SECONDS);
  }

  /** 10^14 times everything a user has earned and not yet been paid, at a given index. */
  function Owed(u: UserEmission, shares: int, index: int): int {
    SCALAR_14 * u.accrued + u.carry + Earned(shares, u.index, index)
  }

  /** Accrual moves earnings into `accrued` and `carry` without changing what is owed. */
  lemma AccrueConserves(u: UserEmission, shares: int, index: int)
    requires ValidUser(u) && 0 <= shares && u.index <= index
    ensures match Accrue(u, shares, index)
            case Failure(e) => e == Overflow
            case Success(v) =>
              && ValidUser(v) && v.index == index && u.accrued <= v.accrued <= I128_MAX
              && SCALAR_14 * v.accrued + v.carry == Owed(u, shares, index)
              && Owed(v, shares, index) == Owed(u, shares, index)
  {
    EarnedFacts(shares, u.index, index, index);
    var numerator := Earned(shares, u.index, index) + u.carry;
    AccrueArithmetic(numerator);
    hide Earned;
  }

  lemma AccrueArithmetic(numerator: int)
    requires 0 <= numerator
    ensures 0 <= numerator / SCALAR_14
    ensures 0 <= numerator - numerator / SCALAR_14 * SCALAR_14 < SCALAR_14
  {
    DivBounds(numerator, SCALAR_14);
    DivMonotone(0, numerator, SCALAR_14);
  }

  // What each update computes, spelled out.

  /** Advancing, second by second: with active shares, ten million times the value released since the last
      checkpoint, and the carry, are divided by them; the index takes the quotient and the carry the rest. The
      schedule remainder is released with the last second. Refused exactly when the index leaves 128 bits. */
  lemma AdvanceExact(d: EmissionData, b: PoolRecord, now: nat)
    requires ValidData(d) && d.lastTime <= now && ValidPool(b)
    ensures var r, active := Advance(d, b, now), b.shares - b.q4w;
            var end := if now <= d.expiration then now else d.expiration;
            var runs := end > d.lastTime;
            var released :=
              if runs then (end - d.lastTime) * d.eps + (if end == d.expiration then d.scheduleCarry else 0) else 0;
            && (r.Failure? ==> r.error == Overflow)
            && (r.Failure? <==> runs && 0 < active
                                && d.index + (SCALAR_7 * released + d.indexCarry) / active > I128_MAX)
            && (r.Success? ==>
                  var a := r.value;
                  && a.lastTime == now && a.expiration == d.expiration && a.eps == d.eps
                  && a.scheduleCarry == (if runs && end == d.expiration then 0 else d.scheduleCarry)
                  && (runs && 0 < active ==>
                        && 0 <= a.indexCarry < active
                        && (a.index - d.index) * active + a.indexCarry == SCALAR_7 * released + d.indexCarry)
                  && (!runs || active == 0 ==> a.index == d.index && a.indexCarry == d.indexCarry))
  {
    hide Emitted, Credit;
    EmittedSpelledOut(d, now);
    EmittedLeavesSchedule(d, now);
    var active := b.shares - b.q4w;
    if 0 < active && StreamEnd(d, now) > d.lastTime {
      CreditSpelledOut(d, Emitted(d, now), active);
    }
  }

  lemma EmittedSpelledOut(d: EmissionData, now: nat)
    ensures var end := if now <= d.expiration then now else d.expiration;
            Emitted(d, now)
            == if end > d.lastTime then
                 (end - d.lastTime) * d.eps + (if end == d.expiration then d.scheduleCarry else 0) else 0
  {
  }

  lemma CreditSpelledOut(d: EmissionData, emitted: int, active: int)
    requires 0 < active <= I128_MAX && ValidData(d) && 0 <= emitted
    ensures var r, growth := Credit(d, emitted, active), (SCALAR_7 * emitted + d.indexCarry) / active;
            && (r.Success? <==> d.index + growth <= I128_MAX) && (r.Failure? ==> r.error == Overflow)
            && (r.Success? ==>
                  && r.value == d.(index := d.index + growth, indexCarry := r.value.indexCarry)
                  && 0 <= r.value.indexCarry < active
                  && (r.value.index - d.index) * active + r.value.indexCarry == SCALAR_7 * emitted + d.indexCarry)
  {
    var numerator := emitted * SCALAR_7 + d.indexCarry;
    assert numerator == SCALAR_7 * emitted + d.indexCarry;
    DivBounds(numerator, active);
    DivMonotone(0, numerator, active);
    assert numerator / active * active == active * (numerator / active);
  }

  /** Accruing: shares times index growth, and the carry, in units of 10^14. Refused exactly when the accrued
      amount leaves 128 bits. */
  lemma AccrueExact(u: UserEmission, shares: int, index: int)
    requires ValidUser(u) && 0 <= shares && u.index <= index
    ensures var r, gain := Accrue(u, shares, index), shares * (index - u.index) + u.carry;
            && (r.Success? <==> u.accrued + gain / SCALAR_14 <= I128_MAX) && (r.Failure? ==> r.error == Overflow)
            && (r.Success? ==>
                  && r.value.index == index && 0 <= r.value.carry < SCALAR_14
                  && (r.value.accrued - u.accrued) * SCALAR_14 + r.value.carry == gain)
  {
    MulNonNegative(shares, index - u.index);
    AccrueArithmetic(shares * (index - u.index) + u.carry);
    DivBounds(shares * (index - u.index) + u.carry, SCALAR_14);
  }

  /** A restart streams the pending amount and all that was not yet streamed evenly over the next seven days, to
      the unit; the index and its carry stay. Refused exactly for a rate or an end over 64 bits. */
  lemma RestreamExact(existing: Option<EmissionData>, pending: int, now: nat)
    requires existing.Some? ==> ValidData(existing.value) && existing.value.lastTime == now
    requires 0 < pending
    ensures var r := Restream(existing, pending, now);
            var left := match existing
                        case None => 0
                        case Some(d) => (if d.expiration > now then (d.expiration - now) * d.eps else 0)
                                        + d.scheduleCarry;
            && (r.Failure? ==> r.error == Overflow)
            && (r.Success? <==> (SCALAR_7 * pending + left) / 604_800 <= U64_MAX && now + 604_800 <= U64_MAX)
            && (r.Success? ==>
                  var d := r.value;
                  && d.lastTime == now && d.expiration == now + 604_800
                  && d.eps * 604_800 + d.scheduleCarry == SCALAR_7 * pending + left && 0 <= d.scheduleCarry < 604_800
                  && (match existing
                      case None => d.index == 0 && d.indexCarry == 0
                      case Some(e) => d.index == e.index && d.indexCarry == e.indexCarry))
  {
    var prior := StreamOrNew(existing, now);
    var total := ScaledTotal(prior, pending, now);
    MulNonNegative(Max(0, prior.expiration - now), prior.eps);
    DivBounds(total, STREAM_SECONDS);
    DivMonotone(0, total, STREAM_SECONDS);
    assert total / STREAM_SECONDS * STREAM_SECONDS == STREAM_SECONDS * (total / STREAM_SECONDS);
  }

  // Independence of the number of checkpoints.

  lemma CreditTwice(d: EmissionData, e1: int, e2: int, active: int)
    requires active > 0 && FitsI128(active) && ValidData(d) && 0 <= e1 && 0 <= e2
    ensures Credit(d, e1 + e2, active) ==
            match Credit(d, e1, active)
            case Failure(e) => Failure(e)
            case Success(c) => Credit(c, e2, active)
  {
    var n1 := e1 * SCALAR_7 + d.indexCarry;
    var q1 := n1 / active;
    var c1 := n1 - q1 * active;
    var n2 := e2 * SCALAR_7 + c1;
    var q2 := n2 / active;
    var n := (e1 + e2) * SCALAR_7 + d.indexCarry;
    DivisionInSteps(n1, e2 * SCALAR_7, active);
    assert n == n1 + e2 * SCALAR_7;
    assert n / active == q1 + q2;
    assert 0 <= q1 && 0 <= q2;
    assert n - (q1 + q2) * active == n2 - q2 * active;
    assert 0 <= c1 < active && 0 <= n2 - q2 * active < active;
  }

  lemma DivisionInSteps(n: int, more: int, d: int)
    requires d > 0 && 0 <= n && 0 <= more
    ensures var c := n - n / d * d;
            && 0 <= c < d && 0 <= n / d && 0 <= (more + c) / d
            && (n + more) / d == n / d + (more + c) / d
            && n + more - (n / d + (more + c) / d) * d == more + c - (more + c) / d * d
            && 0 <= more + c - (more + c) / d * d < d
  {
    DivBounds(n, d);
    DivMonotone(0, n, d);
    var q := n / d;
    var c := n - q * d;
    assert q * d == d * q;
    DivBounds(more + c, d);
    DivMonotone(0, more + c, d);
    var p := (more + c) / d;
    assert d * (q + p) == d * q + d * p;
    assert (q + p) * d == d * (q + p) && p * d == d * p;
    DivUnique(n + more, d, q + p);
  }

  lemma EmittedInSteps(d: EmissionData, mid: nat, now: nat, c: EmissionData)
    requires ValidData(d) && d.lastTime <= mid <= now
    requires c.expiration == d.expiration && c.eps == d.eps && c.lastTime == mid
    requires c.scheduleCarry == if StreamEnd(d, mid) == d.expiration && StreamEnd(d, mid) > d.lastTime then 0
             else d.scheduleCarry
    ensures Emitted(d, now) == Emitted(d, mid) + Emitted(c, now)
    ensures 0 <= Emitted(d, mid) && 0 <= Emitted(c, now)
  {
    var e1, e2 := StreamEnd(d, mid), StreamEnd(d, now);
    EmittedLeavesSchedule(d, mid);
    if e2 > mid {
      MulNonNegative(e2 - mid, d.eps);
      assert (e2 - d.lastTime) * d.eps == (mid - d.lastTime) * d.eps + (e2 - mid) * d.eps;
    }
  }

  /** An extra checkpoint in between changes nothing, not even whether the advance overflows. */
  lemma AdvanceInSteps(d: EmissionData, b: PoolRecord, mid: nat, now: nat)
    requires d.lastTime <= mid <= now && 0 <= b.q4w && FitsI128(b.shares)
    ensures Advance(d, b, now) ==
            match Advance(d, b, mid)
            case Failure(e) => Failure(e)
            case Success(c) => Advance(c, b, now)
  {
    if ValidData(d) && b.q4w <= b.shares {
      hide Emitted, Credit;
      var active := Active(b);
      var e1, e2 := StreamEnd(d, mid), StreamEnd(d, now);
      AdvanceConserves(d, b, mid);
      var c0 := d.(lastTime := mid, scheduleCarry := if e1 == d.expiration && e1 > d.lastTime then 0
          else d.scheduleCarry);
      EmittedInSteps(d, mid, now, c0);
      if active > 0 {
        CreditKeepsSchedule(d, Emitted(d, mid), active, mid, c0.scheduleCarry);
        CreditKeepsSchedule(d, Emitted(d, now), active, now, c0.scheduleCarry);
        if e1 > d.lastTime {
          var first := Credit(d, Emitted(d, mid), active);
          CreditTwice(d, Emitted(d, mid), Emitted(c0, now), active);
          if first.Success? {
            var c := first.value.(scheduleCarry := c0.scheduleCarry, lastTime := mid);
            EmittedIgnoresIndex(c0, c.index, c.indexCarry, now);
            if e2 > mid {
              CreditKeepsSchedule(first.value, Emitted(c0, now), active, mid, c0.scheduleCarry);
            } else {
              NothingEmitted(c0, now);
            }
          }
        } else if e2 > mid {
          CreditKeepsSchedule(d, Emitted(d, now), active, mid, c0.scheduleCarry);
          NothingEmitted(d, mid);
        }
      }
    }
  }

  lemma EmittedIgnoresIndex(d: EmissionData, index: int, carry: int, now: nat)
    ensures Emitted(d.(index := index, indexCarry := carry), now) == Emitted(d, now)
  {
  }

  /** Crediting does not look at, or touch, the clock or the schedule carry. */
  lemma CreditKeepsSchedule(d: EmissionData, emitted: int, active: int, time: nat, carry: int)
    requires active > 0
    ensures Credit(d.(lastTime := time, scheduleCarry := carry), emitted, active) ==
            match Credit(d, emitted, active)
            case Failure(e) => Failure(e)
            case Success(c) => Success(c.(lastTime := time, scheduleCarry := carry))
    ensures Credit(d, emitted, active).Success? ==>
              var c := Credit(d, emitted, active).value;
              c == d.(index := c.index, indexCarry := c.indexCarry)
  {
  }

  predicate Increasing(start: nat, times: seq<nat>) {
    && (times != [] ==> start <= times[0])
    && (forall i, j | 0 <= i < j < |times| :: times[i] <= times[j])
  }

  function AdvanceThrough(d: EmissionData, b: PoolRecord, times: seq<nat>): Result<EmissionData>
    decreases |times|
  {
    if times == [] then Success(d)
    else
      var c :- Advance(d, b, times[0]);
      AdvanceThrough(c, b, times[1..])
  }

  /** Poke independence: with the shares unchanged, any increasing run of checkpoints ends in the same
      stream, index and carries as the single last one. */
  lemma {:induction false} PokeIndependence(d: EmissionData, b: PoolRecord, times: seq<nat>)
    requires times != [] && Increasing(d.lastTime, times) && 0 <= b.q4w && FitsI128(b.shares)
    ensures AdvanceThrough(d, b, times) == Advance(d, b, times[|times| - 1])
    decreases |times|
  {
    var rest := times[1..];
    if rest == [] {
      var c := Advance(d, b, times[0]);
    } else {
      AdvanceInSteps(d, b, times[0], times[|times| - 1]);
      var first := Advance(d, b, times[0]);
      if first.Success? {
        AdvanceSetsClock(d, b, times[0]);
        assert rest[|rest| - 1] == times[|times| - 1];
        PokeIndependence(first.value, b, rest);
      }
    }
  }

  lemma AdvanceSetsClock(d: EmissionData, b: PoolRecord, now: nat)
    requires Advance(d, b, now).Success?
    ensures Advance(d, b, now).value.lastTime == now
  {
  }

  lemma AccrueInSteps(u: UserEmission, shares: int, mid: int, index: int)
    requires ValidUser(u) && 0 <= shares && u.index <= mid <= index
    ensures Accrue(u, shares, index) ==
            match Accrue(u, shares, mid)
            case Failure(e) => Failure(e)
            case Success(v) => Accrue(v, shares, index)
  {
    EarnedFacts(shares, u.index, mid, index);
    EarnedFacts(shares, mid, index, index);
    hide Earned;
    DivisionInSteps(Earned(shares, u.index, mid) + u.carry, Earned(shares, mid, index), SCALAR_14);
  }

  function AccrueThrough(u: UserEmission, shares: int, indexes: seq<int>): Result<UserEmission>
    decreases |indexes|
  {
    if indexes == [] then Success(u)
    else
      var v :- Accrue(u, shares, indexes[0]);
      AccrueThrough(v, shares, indexes[1..])
  }

  /** A user's accrued amount and carry depend on the index reached, not on how many checkpoints were
      taken on the way. */
  lemma {:induction false} UserPokeIndependence(u: UserEmission, shares: int, indexes: seq<int>)
    requires ValidUser(u) && 0 <= shares && indexes != [] && u.index <= indexes[0]
    requires forall i, j | 0 <= i < j < |indexes| :: indexes[i] <= indexes[j]
    ensures AccrueThrough(u, shares, indexes) == Accrue(u, shares, indexes[|indexes| - 1])
    decreases |indexes|
  {
    var rest := indexes[1..];
    if rest == [] {
      var v := Accrue(u, shares, indexes[0]);
    } else {
      AccrueInSteps(u, shares, indexes[0], indexes[|indexes| - 1]);
      AccrueConserves(u, shares, indexes[0]);
      var first := Accrue(u, shares, indexes[0]);
      if first.Success? {
        assert rest[|rest| - 1] == indexes[|indexes| - 1];
        UserPokeIndependence(first.value, shares, rest);
      }
    }
  }

  lemma AllReleased(d: EmissionData, b: PoolRecord, now: nat)
    requires ValidData(d) && d.lastTime < d.expiration <= now && ValidPool(b) && Active(b) > 0
    requires Advance(d, b, now).Success?
    ensures var a := Advance(d, b, now).value;
            && 0 <= a.indexCarry < Active(b) && Scheduled(a) == 0
            && (a.index - d.index) * Active(b) + a.indexCarry == SCALAR_7 * Scheduled(d) + d.indexCarry
  {
    AdvanceExact(d, b, now);
    hide Advance;
  }

  /** A stream that runs to its end over unchanged active shares, however often it is checkpointed on the way,
      has raised the index by all that was scheduled and carried at the start, but for less than one index unit
      for each active share. */
  lemma RunsOut(d: EmissionData, b: PoolRecord, times: seq<nat>)
    requires ValidData(d) && ValidPool(b) && 0 < Active(b)
    requires times != [] && Increasing(d.lastTime, times) && d.lastTime < d.expiration <= times[|times| - 1]
    requires AdvanceThrough(d, b, times).Success?
    ensures var a := AdvanceThrough(d, b, times).value;
            var streamed := SCALAR_7 * ((d.expiration - d.lastTime) * d.eps + d.scheduleCarry) + d.indexCarry;
            && a.scheduleCarry == 0 && a.lastTime >= a.expiration
            && streamed - Active(b) < (a.index - d.index) * Active(b) <= streamed
  {
    hide Advance, AdvanceThrough;
    var last := times[|times| - 1];
    PokeIndependence(d, b, times);
    AllReleased(d, b, last);
    AdvanceExact(d, b, last);
  }
}
