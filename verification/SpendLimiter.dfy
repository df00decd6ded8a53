/**
 * The daily spend limiter: one Redis key per session, read and rewritten by one atomic script.
 *
 * Amounts are integer micro-dollars and times are milliseconds. A key holds its total and, unless it was stored
 * without one, an expiry instant; it still exists at that instant and is gone after it.
 */
module SpendLimiter {
  import opened Prelude

  datatype Key = Absent | Present(total: int, expiry: Option<int>)

  predicate Live(k: Key, now: int) {
    k.Present? && (k.expiry.Some? ==> now <= k.expiry.value)
  }

  /** `PTTL`: -2 without a key, -1 without an expiry, else the remaining time. */
  function Pttl(k: Key, now: int): int {
    if !Live(k, now) then -2 else if k.expiry.None? then -1 else k.expiry.value - now
  }

  function Spent(k: Key, now: int): int {
    if Live(k, now) then k.total else 0
  }

  datatype Reply = Reply(allowed: bool, currentSpent: int, newTotal: int)

  /** The script: refuse above the limit, else add and keep the remaining lifetime if there is one. */
  function Eval(k: Key, now: int, amount: int, limit: int, ttl: int): (Key, Reply) {
    var spent := Spent(k, now);
    if spent + amount > limit then (k, Reply(false, spent, spent))
    else
      var pttl := Pttl(k, now);
      (Present(spent + amount, Some(now + if pttl > 0 then pttl else ttl)), Reply(true, spent, spent + amount))
  }

  // ---- runs ---------------------------------------------------------------------------------------

  datatype Call = Call(now: int, amount: int)

  /** An allowed spend, with the number of the key lifetime it fell into. */
  datatype Spend = Spend(now: int, amount: int, life: nat)

  /** `openedAt` is the time at which the current key lifetime began; lifetime 0 is the warm-up seed's. */
  datatype History = History(key: Key, log: seq<Spend>, life: nat, openedAt: int)

  datatype Limits = Limits(limit: int, ttl: int, seed: Key)

  predicate LimitsOk(c: Limits) {
    c.limit >= 0 && c.ttl > 0 && (c.seed.Present? ==> 0 <= c.seed.total <= c.limit)
  }

  predicate Ordered(calls: seq<Call>) {
    && (forall i :: 0 <= i < |calls| ==> calls[i].amount >= 0)
    && (forall i, j :: 0 <= i < j < |calls| ==> calls[i].now <= calls[j].now)
  }

  function Next(c: Limits, h: History, call: Call): History {
    var (key, reply) := Eval(h.key, call.now, call.amount, c.limit, c.ttl);
    if !reply.allowed then h.(key := key)
    else if Live(h.key, call.now) then h.(key := key, log := h.log + [Spend(call.now, call.amount, h.life)])
    else History(key, h.log + [Spend(call.now, call.amount, h.life + 1)], h.life + 1, call.now)
  }

  function Exec(c: Limits, calls: seq<Call>): History {
    if calls == [] then History(c.seed, [], 0, 0)
    else Next(c, Exec(c, calls[..|calls| - 1]), calls[|calls| - 1])
  }

  /** Allowed spends of one key lifetime. */
  function LifeSum(log: seq<Spend>, life: nat): int {
    if log == [] then 0
    else LifeSum(log[..|log| - 1], life) + if log[|log| - 1].life == life then log[|log| - 1].amount else 0
  }

  predicate InWindow(x: Spend, from: int, length: int) {
    from <= x.now < from + length
  }

  /** Allowed spends in the half-open interval of `length` starting at `from`. */
  function WindowSum(log: seq<Spend>, from: int, length: int): int {
    if log == [] then 0
    else
      var last := log[|log| - 1];
      WindowSum(log[..|log| - 1], from, length) + if InWindow(last, from, length) then last.amount else 0
  }

  lemma LifeSumSnoc(log: seq<Spend>, x: Spend, life: nat)
    ensures LifeSum(log + [x], life) == LifeSum(log, life) + if x.life == life then x.amount else 0
  {
    assert (log + [x])[..|log|] == log;
  }

  lemma {:induction false} NoSuchLife(log: seq<Spend>, life: nat)
    requires forall i :: 0 <= i < |log| ==> log[i].life != life
    ensures LifeSum(log, life) == 0
  {
    if log != [] { NoSuchLife(log[..|log| - 1], life); }
  }

  // ---- invariant ----------------------------------------------------------------------------------

  function SeedOf(c: Limits, life: nat): int {
    if life == 0 && c.seed.Present? then c.seed.total else 0
  }

  ghost predicate Bounded(log: seq<Spend>, life: nat, now: int) {
    forall i :: 0 <= i < |log| ==> log[i].amount >= 0 && log[i].life <= life && log[i].now <= now
  }

  /**
   * Spends of an earlier lifetime precede the current one, and those two lifetimes back precede it by more than
   * `ttl`.
   */
  ghost predicate Behind(log: seq<Spend>, life: nat, openedAt: int, ttl: int) {
    && (forall i :: 0 <= i < |log| && log[i].life < life ==> log[i].now <= openedAt)
    && (forall i :: 0 <= i < |log| && log[i].life + 2 <= life ==> log[i].now + ttl < openedAt)
  }

  ghost predicate Sorted(log: seq<Spend>) {
    forall i, j :: 0 <= i < j < |log| ==> log[i].life <= log[j].life
  }

  /** Two lifetimes apart means more than `ttl` apart. */
  ghost predicate Spaced(log: seq<Spend>, ttl: int) {
    forall i, j :: 0 <= i < j < |log| && log[j].life >= log[i].life + 2 ==> log[j].now > log[i].now + ttl
  }

  ghost predicate LogInv(c: Limits, h: History, now: int) {
    Bounded(h.log, h.life, now) && Behind(h.log, h.life, h.openedAt, c.ttl) && Sorted(h.log) && Spaced(h.log, c.ttl)
  }

  lemma SnocKeeps(log: seq<Spend>, x: Spend, life: nat, before: int, ttl: int)
    requires Sorted(log) && Spaced(log, ttl) && Bounded(log, life, before)
    requires x.life >= life && x.now >= before && x.amount >= 0
    requires forall i :: 0 <= i < |log| && log[i].life + 2 <= x.life ==> log[i].now + ttl < x.now
    ensures Sorted(log + [x]) && Spaced(log + [x], ttl) && Bounded(log + [x], x.life, x.now)
  {
  }

  /** The stored total is the seed of its lifetime plus the spends allowed in it, and the key outlives a whole `ttl`. */
  ghost predicate KeyInv(c: Limits, h: History) {
    && (forall g: nat :: LifeSum(h.log, g) + SeedOf(c, g) <= c.limit)
    && (h.key.Present? ==> h.key.total == SeedOf(c, h.life) + LifeSum(h.log, h.life))
    && (h.life > 0 ==> h.key.Present? && h.key.expiry.Some? && h.key.expiry.value >= h.openedAt + c.ttl)
    && (h.life == 0 ==> h.key.Present? == c.seed.Present?)
  }

  lemma NextLog(c: Limits, h: History, call: Call, before: int)
    requires LimitsOk(c) && LogInv(c, h, before) && KeyInv(c, h) && before <= call.now && call.amount >= 0
    requires h.life > 0 ==> h.openedAt <= before
    ensures LogInv(c, Next(c, h, call), call.now)
    ensures Next(c, h, call).life > 0 ==> Next(c, h, call).openedAt <= call.now
  {
    var t := Next(c, h, call);
    if |t.log| > |h.log| {
      SnocKeeps(h.log, t.log[|h.log|], h.life, before, c.ttl);
    }
  }

  lemma AllLifeSums(log: seq<Spend>, x: Spend)
    ensures forall g: nat :: LifeSum(log + [x], g) == LifeSum(log, g) + if x.life == g then x.amount else 0
  {
    forall g: nat ensures LifeSum(log + [x], g) == LifeSum(log, g) + if x.life == g then x.amount else 0 {
      LifeSumSnoc(log, x, g);
    }
  }

  /** An allowed spend that finds the key live: the same lifetime goes on. */
  lemma NextKeyLive(c: Limits, h: History, call: Call)
    requires LimitsOk(c) && KeyInv(c, h) && call.amount >= 0
    requires Live(h.key, call.now) && h.key.total + call.amount <= c.limit
    ensures KeyInv(c, Next(c, h, call))
  {
    AllLifeSums(h.log, Spend(call.now, call.amount, h.life));
  }

  /** An allowed spend that finds no live key: a new lifetime begins. */
  lemma NextKeyFresh(c: Limits, h: History, call: Call, before: int)
    requires LimitsOk(c) && Bounded(h.log, h.life, before) && KeyInv(c, h) && call.amount >= 0
    requires !Live(h.key, call.now) && call.amount <= c.limit
    ensures KeyInv(c, Next(c, h, call))
  {
    NoSuchLife(h.log, h.life + 1);
    AllLifeSums(h.log, Spend(call.now, call.amount, h.life + 1));
  }

  lemma NextKey(c: Limits, h: History, call: Call, before: int)
    requires LimitsOk(c) && LogInv(c, h, before) && KeyInv(c, h) && before <= call.now && call.amount >= 0
    ensures KeyInv(c, Next(c, h, call))
  {
    if Spent(h.key, call.now) + call.amount <= c.limit {
      if Live(h.key, call.now) { NextKeyLive(c, h, call); } else { NextKeyFresh(c, h, call, before); }
    }
  }

  lemma {:induction false} ExecInv(c: Limits, calls: seq<Call>)
    requires LimitsOk(c) && Ordered(calls)
    ensures var h := Exec(c, calls); var now := if calls == [] then 0 else calls[|calls| - 1].now;
      LogInv(c, h, now) && KeyInv(c, h) && (h.life > 0 ==> h.openedAt <= now)
  {
    if calls != [] {
      var init := calls[..|calls| - 1];
      ExecInv(c, init);
      var h := Exec(c, init);
      var call := calls[|calls| - 1];
      var before := if init == [] then call.now else init[|init| - 1].now;
      if init != [] { assert init[|init| - 1] == calls[|init| - 1]; }
      NextLog(c, h, call, before);
      NextKey(c, h, call, before);
    }
  }

  // ---- theorems over every run ----------------------------------------------------------------------

  /**
   * Within one key lifetime the seed and the allowed spends never exceed the limit, and the stored total is exactly
   * their sum.
   */
  lemma LifetimeWithinLimit(c: Limits, calls: seq<Call>, life: nat)
    requires LimitsOk(c) && Ordered(calls)
    ensures var h := Exec(c, calls);
      && SeedOf(c, life) + LifeSum(h.log, life) <= c.limit
      && (h.key.Present? ==> h.key.total == SeedOf(c, h.life) + LifeSum(h.log, h.life))
  {
    ExecInv(c, calls);
  }

  lemma {:induction false} WindowWithinTwoLives(log: seq<Spend>, from: int, length: int, life: nat)
    requires forall i :: 0 <= i < |log| ==> log[i].amount >= 0
    requires forall i :: 0 <= i < |log| && InWindow(log[i], from, length) ==>
      log[i].life == life || log[i].life == life + 1
    ensures WindowSum(log, from, length) <= LifeSum(log, life) + LifeSum(log, life + 1)
  {
    if log != [] { WindowWithinTwoLives(log[..|log| - 1], from, length, life); }
  }

  lemma {:induction false} EmptyWindow(log: seq<Spend>, from: int, length: int)
    requires forall i :: 0 <= i < |log| ==> !InWindow(log[i], from, length)
    ensures WindowSum(log, from, length) == 0
  {
    if log != [] { EmptyWindow(log[..|log| - 1], from, length); }
  }

  lemma {:induction false} FirstInWindow(log: seq<Spend>, from: int, length: int) returns (i: nat)
    requires exists k :: 0 <= k < |log| && InWindow(log[k], from, length)
    ensures i < |log| && InWindow(log[i], from, length)
    ensures forall k :: 0 <= k < i ==> !InWindow(log[k], from, length)
  {
    i := 0;
    while !InWindow(log[i], from, length)
      invariant i < |log|
      invariant exists k :: i <= k < |log| && InWindow(log[k], from, length)
      invariant forall k :: 0 <= k < i ==> !InWindow(log[k], from, length)
      decreases |log| - i
    {
      i := i + 1;
    }
  }

  lemma TwoLives(log: seq<Spend>, from: int, ttl: int, i: nat)
    requires Sorted(log) && Spaced(log, ttl) && i < |log| && InWindow(log[i], from, ttl)
    requires forall k :: 0 <= k < i ==> !InWindow(log[k], from, ttl)
    ensures forall j :: 0 <= j < |log| && InWindow(log[j], from, ttl) ==>
      log[j].life == log[i].life || log[j].life == log[i].life + 1
  {
  }

  /** Any half-open interval as long as the key's lifetime holds allowed spends of at most twice the limit. */
  lemma RollingWindowBound(c: Limits, calls: seq<Call>, from: int)
    requires LimitsOk(c) && Ordered(calls)
    ensures WindowSum(Exec(c, calls).log, from, c.ttl) <= 2 * c.limit
  {
    ExecInv(c, calls);
    var h := Exec(c, calls);
    if exists k :: 0 <= k < |h.log| && InWindow(h.log[k], from, c.ttl) {
      var i := FirstInWindow(h.log, from, c.ttl);
      var life := h.log[i].life;
      TwoLives(h.log, from, c.ttl, i);
      WindowWithinTwoLives(h.log, from, c.ttl, life);
      LifetimeWithinLimit(c, calls, life);
      LifetimeWithinLimit(c, calls, life + 1);
    } else {
      EmptyWindow(h.log, from, c.ttl);
    }
  }

  lemma {:induction false} WindowWithinLife(log: seq<Spend>, from: int, length: int, life: nat)
    requires forall i :: 0 <= i < |log| ==> log[i].amount >= 0
    requires forall i :: 0 <= i < |log| && InWindow(log[i], from, length) ==> log[i].life == life
    ensures WindowSum(log, from, length) <= LifeSum(log, life)
  {
    if log != [] { WindowWithinLife(log[..|log| - 1], from, length, life); }
  }

  /** A window of any length whose spends share one key lifetime holds at most the limit, less the lifetime's seed. */
  lemma OneLifetimeWindow(c: Limits, calls: seq<Call>, from: int, length: int, life: nat)
    requires LimitsOk(c) && Ordered(calls)
    requires AllOfLife(Exec(c, calls).log, from, length, life)
    ensures WindowSum(Exec(c, calls).log, from, length) <= c.limit - SeedOf(c, life)
  {
    ExecInv(c, calls);
    WindowWithinLife(Exec(c, calls).log, from, length, life);
    LifetimeWithinLimit(c, calls, life);
  }

  /** A window of one ttl that exceeds the limit spans an expiry: it holds spends of two consecutive lifetimes. */
  lemma OverLimitSpansExpiry(c: Limits, calls: seq<Call>, from: int)
    requires LimitsOk(c) && Ordered(calls) && WindowSum(Exec(c, calls).log, from, c.ttl) > c.limit
    ensures var log := Exec(c, calls).log;
      exists i, j :: 0 <= i < j < |log| && InWindow(log[i], from, c.ttl) && InWindow(log[j], from, c.ttl)
                     && log[j].life == log[i].life + 1
  {
    ExecInv(c, calls);
    var log := Exec(c, calls).log;
    if forall k :: 0 <= k < |log| ==> !InWindow(log[k], from, c.ttl) {
      EmptyWindow(log, from, c.ttl);
    } else {
      var i := FirstInWindow(log, from, c.ttl);
      if AllOfLife(log, from, c.ttl, log[i].life) {
        OneLifetimeWindow(c, calls, from, c.ttl, log[i].life);
      } else {
        NextLife(log, from, c.ttl, i);
      }
    }
  }

  predicate AllOfLife(log: seq<Spend>, from: int, length: int, life: nat) {
    forall j :: 0 <= j < |log| && InWindow(log[j], from, length) ==> log[j].life == life
  }

  /** A spend of another lifetime than the window's first comes later and belongs to the next one. */
  lemma NextLife(log: seq<Spend>, from: int, ttl: int, i: nat)
    requires Sorted(log) && Spaced(log, ttl) && i < |log| && InWindow(log[i], from, ttl)
    requires forall k :: 0 <= k < i ==> !InWindow(log[k], from, ttl)
    requires !AllOfLife(log, from, ttl, log[i].life)
    ensures exists j :: i < j < |log| && InWindow(log[j], from, ttl) && log[j].life == log[i].life + 1
  {
    TwoLives(log, from, ttl, i);
    var j :| 0 <= j < |log| && InWindow(log[j], from, ttl) && log[j].life != log[i].life;
    assert i < j;
  }

  /** The factor two is needed: late and early spends around an expiry use the limit twice within three milliseconds. */
  lemma TwiceTheLimit(limit: int, ttl: int)
    requires limit > 0 && ttl >= 3
    ensures exists calls, from ::
      Ordered(calls) && WindowSum(Exec(Limits(limit, ttl, Absent), calls).log, from, ttl) == 2 * limit
  {
    var c := Limits(limit, ttl, Absent);
    var a := [Call(0, 0)];
    var b := a + [Call(ttl - 1, limit)];
    var d := b + [Call(ttl + 1, limit)];
    assert a[..0] == [] && b[..1] == a && d[..2] == b;
    assert Exec(c, a) == Next(c, Exec(c, []), a[0]);
    assert Exec(c, b) == Next(c, Exec(c, a), b[1]);
    assert Exec(c, b).key == Present(limit, Some(ttl));
    assert Exec(c, d) == Next(c, Exec(c, b), d[2]);
    var log := [Spend(0, 0, 1), Spend(ttl - 1, limit, 1), Spend(ttl + 1, limit, 2)];
    assert Exec(c, d).log == log;
    assert log[..2] == [log[0], log[1]] && log[..2][..1] == [log[0]] && [log[0]][..0] == [];
    assert WindowSum(log[..2][..1], ttl - 1, ttl) == 0;
    assert WindowSum(log[..2], ttl - 1, ttl) == limit;
    assert WindowSum(log, ttl - 1, ttl) == 2 * limit;
    assert Ordered(d);
  }

  // ---- the session gate in front of the limiter -----------------------------------------------------

  datatype Session = Session(id: string, revoked: bool, expiryAt: int)

  datatype Denial = NoSession | OverTxLimit | OverDailyLimit

  class HotState {
    var sessions: map<string, Session>
    var spend: map<string, Key>

    const DAY_MS := 86400_000

    constructor (sessions: map<string, Session>, spend: map<string, Key>)
      ensures this.sessions == sessions && this.spend == spend
    {
      this.sessions, this.spend := sessions, spend;
    }

    ghost predicate Usable(sessions: map<string, Session>, keyHash: string, now: int) {
      keyHash in sessions && !sessions[keyHash].revoked && sessions[keyHash].expiryAt >= now
    }

    /** A revoked or expired session is dropped from the cache. */
    method GetSessionKey(keyHash: string, now: int) returns (r: Option<Session>)
      modifies this`sessions
      ensures r == if Usable(old(sessions), keyHash, now) then Some(old(sessions)[keyHash]) else None
      ensures sessions == if r.None? then old(sessions) - {keyHash} else old(sessions)
    {
      if keyHash !in sessions {
        assert sessions - {keyHash} == sessions;
        return None;
      }
      var key := sessions[keyHash];
      if key.revoked || key.expiryAt < now {
        sessions := sessions - {keyHash};
        return None;
      }
      return Some(key);
    }

    /** An allowed spend leaves exactly the larger total on its key and keeps the expiry of a key that has time left. */
    method AtomicCheckAndIncrementSpend(id: string, now: int, amount: int, limit: int, ttl: int) returns (reply: Reply)
      modifies this`spend
      ensures reply.allowed ==>
        id in spend && spend[id].Present? && reply.newTotal == reply.currentSpent + amount <= limit
      ensures reply.allowed && ttl > 0 ==> Live(spend[id], now) && Spent(spend[id], now) == reply.newTotal
      ensures reply.allowed && id in old(spend) && Pttl(old(spend)[id], now) > 0 ==>
        spend[id].expiry == old(spend)[id].expiry
      ensures reply.allowed && (id !in old(spend) || Pttl(old(spend)[id], now) <= 0) ==>
        spend[id].expiry == Some(now + ttl)
      ensures !reply.allowed ==> spend == old(spend) && reply.currentSpent + amount > limit
      ensures var (key, r) := Eval(if id in old(spend) then old(spend)[id] else Absent, now, amount, limit, ttl);
        reply == r && spend == if r.allowed then old(spend)[id := key] else old(spend)
    {
      var current := if id in spend then spend[id] else Absent;
      var spent := 0;
      if Live(current, now) { spent := current.total; }
      if spent + amount > limit { return Reply(false, spent, spent); }
      var pttl := Pttl(current, now);
      if pttl > 0 {
        spend := spend[id := Present(spent + amount, Some(now + pttl))];
      } else {
        spend := spend[id := Present(spent + amount, Some(now + ttl))];
      }
      return Reply(true, spent, spent + amount);
    }

    /**
     * A payment passes exactly when its session is usable and both limits hold; only then is it recorded, on that
     * session's key alone.
     */
    method ValidateAndRecordSpending(keyHash: string, now: int, amount: int, perTx: int, daily: int)
      returns (denied: Option<Denial>)
      modifies this
      ensures denied == Some(NoSession) <==> !Usable(old(sessions), keyHash, now)
      ensures denied == Some(OverTxLimit) <==> Usable(old(sessions), keyHash, now) && amount > perTx
      ensures denied.Some? ==> spend == old(spend)
      ensures denied.None? ==>
        var id := old(sessions)[keyHash].id;
        var k := if id in old(spend) then old(spend)[id] else Absent;
        && amount <= perTx && Spent(k, now) + amount <= daily
        && spend == old(spend)[id := Eval(k, now, amount, daily, DAY_MS).0]
      ensures denied == Some(OverDailyLimit) ==>
        var id := old(sessions)[keyHash].id;
        Spent(if id in old(spend) then old(spend)[id] else Absent, now) + amount > daily
    {
      var session := GetSessionKey(keyHash, now);
      if session.None? { return Some(NoSession); }
      if amount > perTx { return Some(OverTxLimit); }
      var reply := AtomicCheckAndIncrementSpend(session.value.id, now, amount, daily, DAY_MS);
      if !reply.allowed { return Some(OverDailyLimit); }
      return None;
    }
  }
}
