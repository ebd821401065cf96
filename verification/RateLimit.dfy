/** The shared fixed-window limiter (backend/src/middleware/rate_limit.py): one INCR and
    EXPIRE NX per request, failing open when Redis does. */
module RateLimit {
  import opened Options
  import opened Redis
  import FailOpenLog

  datatype Request = Request(at: nat, ip: string, bucket: string, limit: nat, window: nat)

  predicate IsLocalIp(ip: string) {
    ip in {"127.0.0.1", "::1", "localhost", "testclient"} || "172.18." <= ip
  }

  function Key(r: Request): string { "rl:" + r.bucket + ":" + r.ip }

  lemma SameTail(head: string, x: string, y: string)
    ensures head + x == head + y <==> x == y
  {
    assert (head + x)[|head|..] == x && (head + y)[|head|..] == y;
  }

  /** Who shares a counter. In one bucket: exactly the requests from one address. Across buckets: only
      where one bucket's name, a colon and more is the other's, and the addresses make up for it. */
  lemma KeysShared(a: Request, b: Request)
    ensures a.bucket == b.bucket ==> (Key(a) == Key(b) <==> a.ip == b.ip)
    ensures Key(a) == Key(b) && |a.bucket| < |b.bucket| ==>
            a.bucket + ":" <= b.bucket && a.ip == b.bucket[|a.bucket| + 1..] + ":" + b.ip
    ensures Key(a) == Key(b) && |a.bucket| == |b.bucket| ==> a.bucket == b.bucket && a.ip == b.ip
  {
    var x, y := a.bucket + ":" + a.ip, b.bucket + ":" + b.ip;
    assert Key(a) == "rl:" + x && Key(b) == "rl:" + y;
    SameTail("rl:", x, y);
    if a.bucket == b.bucket { SameTail(a.bucket + ":", a.ip, b.ip); }
    if x == y {
      var n := |a.bucket|;
      assert x[..n] == a.bucket && x[n] == ':' && x[n + 1..] == a.ip;
      if n == |b.bucket| { assert y[..n] == b.bucket && y[n + 1..] == b.ip; }
      if n < |b.bucket| {
        assert y[..n + 1] == b.bucket[..n + 1];
        assert y[n + 1..] == b.bucket[n + 1..] + ":" + b.ip;
      }
    }
  }

  /** What one request does to Redis. */
  function After(store: Store, r: Request): Store {
    if IsLocalIp(r.ip) then store else Hit(store, r.at, Key(r), r.window)
  }

  predicate Admits(store: Store, r: Request) {
    IsLocalIp(r.ip) || Redis.Count(After(store, r), r.at, Key(r)) <= r.limit
  }

  // --------------------------------------------------------- bound over any trace

  predicate Ordered(rs: seq<Request>) {
    forall i, j | 0 <= i < j < |rs| :: rs[i].at <= rs[j].at
  }

  /** The requests counted under this key that get through, the rest of the trace (any
      other keys, any local requests) in between. */
  function Admitted(store: Store, rs: seq<Request>, key: string): nat
    decreases |rs|
  {
    if rs == [] then 0
    else
      (if !IsLocalIp(rs[0].ip) && Key(rs[0]) == key && Admits(store, rs[0]) then 1 else 0)
      + Admitted(After(store, rs[0]), rs[1..], key)
  }

  /** One limiter per key, and a stretch of time the requests fall in. */
  predicate OneLimiter(rs: seq<Request>, key: string, limit: nat, window: nat, from: nat, to: nat) {
    && window > 0
    && Ordered(rs)
    && (forall i | 0 <= i < |rs| :: from <= rs[i].at <= to)
    && (forall i | 0 <= i < |rs| && !IsLocalIp(rs[i].ip) ::
         && rs[i].window > 0
         && (Key(rs[i]) == key ==> rs[i].limit == limit && rs[i].window == window))
  }

  function Left(limit: nat, count: nat): nat { if count < limit then limit - count else 0 }

  /** How many more requests can get through from now up to an instant: what the running
      window has left, plus one whole limit if another window can open by then. */
  function Allowance(store: Store, now: nat, key: string, limit: nat, window: nat, to: nat): nat {
    var left := Left(limit, Redis.Count(store, now, key));
    var end := if Live(store, now, key) && store[key].expiry.Some? then store[key].expiry.value else now + window;
    left + if end <= to then limit else 0
  }

  /** At most two windows touch the stretch: a window running at its start ends after
      it, so a second one started then outlasts it. */
  predicate TwoWindows(store: Store, now: nat, key: string, window: nat, to: nat) {
    && now + window >= to
    && (Live(store, now, key) && store[key].expiry.Some? ==> store[key].expiry.value + window > to)
  }

  lemma AllowanceCoversStep(store: Store, now: nat, r: Request, key: string, limit: nat, window: nat, to: nat)
    requires now <= r.at <= to && window > 0
    requires !IsLocalIp(r.ip) ==> r.window > 0 && (Key(r) == key ==> r.limit == limit && r.window == window)
    requires TwoWindows(store, now, key, window, to)
    ensures TwoWindows(After(store, r), r.at, key, window, to)
    ensures (if !IsLocalIp(r.ip) && Key(r) == key && Admits(store, r) then 1 else 0)
            + Allowance(After(store, r), r.at, key, limit, window, to)
         <= Allowance(store, now, key, limit, window, to)
  {}

  lemma {:induction false} AllowanceCoversTrace(
    store: Store, now: nat, rs: seq<Request>, key: string, limit: nat, window: nat, to: nat)
    requires OneLimiter(rs, key, limit, window, now, to) && TwoWindows(store, now, key, window, to)
    ensures Admitted(store, rs, key) <= Allowance(store, now, key, limit, window, to)
    decreases |rs|
  {
    if rs != [] {
      AllowanceCoversStep(store, now, rs[0], key, limit, window, to);
      AllowanceCoversTrace(After(store, rs[0]), rs[0].at, rs[1..], key, limit, window, to);
    }
  }

  /** Whatever Redis holds at the start, any stretch of window seconds, both ends
      included, admits at most twice the limit under one key. */
  lemma TwiceTheLimit(store: Store, rs: seq<Request>, key: string, limit: nat, window: nat, from: nat)
    requires OneLimiter(rs, key, limit, window, from, from + window)
    ensures Admitted(store, rs, key) <= 2 * limit
  {
    AllowanceCoversTrace(store, from, rs, key, limit, window, from + window);
  }

  /** With one end left out it is one less: the hit that opened the earlier window lies
      outside the stretch. A counter INCR made is never 0. */
  lemma OneLessOnHalfOpen(store: Store, rs: seq<Request>, key: string, limit: nat, window: nat, from: nat)
    requires limit > 0 && window > 0
    requires OneLimiter(rs, key, limit, window, from, from + window - 1)
    requires Live(store, from, key) ==> Redis.Count(store, from, key) > 0
    ensures Admitted(store, rs, key) <= 2 * limit - 1
  {
    AllowanceCoversTrace(store, from, rs, key, limit, window, from + window - 1);
  }

  // ------------------------------------------------------------ the bound is met

  function Burst(r: Request, n: nat): seq<Request> { seq(n, _ => r) }

  function AfterBurst(store: Store, r: Request, n: nat): Store
    decreases n
  {
    if n == 0 then store else AfterBurst(After(store, r), r, n - 1)
  }

  lemma {:induction false} BurstAdmitted(store: Store, r: Request, n: nat, rest: seq<Request>)
    requires !IsLocalIp(r.ip) && r.window > 0
    requires Redis.Count(store, r.at, Key(r)) + n <= r.limit
    requires Live(store, r.at, Key(r)) ==> store[Key(r)].expiry == Some(r.at + r.window)
    ensures Admitted(store, Burst(r, n) + rest, Key(r)) == n + Admitted(AfterBurst(store, r, n), rest, Key(r))
    ensures n > 0 ==> var end := AfterBurst(store, r, n);
                      Key(r) in end && end[Key(r)].expiry == Some(r.at + r.window)
    decreases n
  {
    hide Key, IsLocalIp;
    if n == 0 {
      assert Burst(r, 0) + rest == rest;
    } else {
      HitMeaning(store, r.at, Key(r), r.window);
      assert (Burst(r, n) + rest)[1..] == Burst(r, n - 1) + rest;
      BurstAdmitted(After(store, r), r, n - 1, rest);
    }
  }

  /** limit requests now and limit more when the window ends all get through. */
  lemma TwiceTheLimitIsReached(r: Request)
    requires !IsLocalIp(r.ip) && r.window > 0
    ensures var rs := Burst(r, r.limit) + Burst(r.(at := r.at + r.window), r.limit);
            OneLimiter(rs, Key(r), r.limit, r.window, r.at, r.at + r.window)
            && Admitted(map[], rs, Key(r)) == 2 * r.limit
  {
    hide Key, IsLocalIp, Admitted, AfterBurst, Burst;
    var later := r.(at := r.at + r.window);
    SameKey(r, later);
    TwoBursts(r, later, r.limit);
    BurstAdmitted(map[], r, r.limit, Burst(later, r.limit));
    var store := AfterBurst(map[], r, r.limit);
    if r.limit == 0 {
      NoBurst(later);
      NothingAdmitted(store, Key(r));
    } else {
      BurstAdmitted(store, later, r.limit, []);
      assert Burst(later, r.limit) + [] == Burst(later, r.limit);
      NothingAdmitted(AfterBurst(store, later, r.limit), Key(r));
    }
  }

  lemma NoBurst(r: Request)
    ensures Burst(r, 0) == []
  {}

  lemma SameKey(r: Request, later: Request)
    requires later == r.(at := later.at)
    ensures Key(later) == Key(r)
  {}

  lemma NothingAdmitted(store: Store, key: string)
    ensures Admitted(store, [], key) == 0
  {}

  lemma TwoBursts(r: Request, later: Request, n: nat)
    requires !IsLocalIp(r.ip) && r.window > 0 && n == r.limit && later == r.(at := r.at + r.window)
    ensures OneLimiter(Burst(r, n) + Burst(later, n), Key(r), r.limit, r.window, r.at, later.at)
  {
    hide IsLocalIp;
    SameKey(r, later);
    hide Key;
  }

  // --------------------------------------------------------------- failing open

  /** The exceptions the limiter tells apart. */
  datatype Fault = Authentication | Authorization | Connection | Timeout | OtherRedis | Unexpected

  function Classify(f: Fault): string {
    match f
    case Authentication => "redis_rejected"
    case Authorization => "redis_rejected"
    case Connection => "redis_unavailable"
    case Timeout => "redis_unavailable"
    case OtherRedis => "redis_rejected"
    case Unexpected => "unexpected"
  }

  /** The limiter in one process, beside the Redis it shares. */
  class Limiter {
    var store: Store
    var lastLogged: map<string, nat>
    var suppressed: map<string, nat>
    ghost var lines: seq<FailOpenLog.Line>

    ghost function Book(): FailOpenLog.Book reads this { FailOpenLog.Book(lastLogged, suppressed, lines) }

    /** _log_fail_open; returns the suppressed count a written line carries. */
    method LogFailOpen(f: Fault, now: nat) returns (reported: Option<nat>)
      modifies this`lastLogged, this`suppressed, this`lines
      ensures Book() == FailOpenLog.Record(old(Book()), FailOpenLog.Call(Classify(f), now))
      ensures Classify(f) == if f.Connection? || f.Timeout? then "redis_unavailable"
                             else if f.Unexpected? then "unexpected" else "redis_rejected"
      ensures reported.Some? <==> !FailOpenLog.TooSoon(old(Book()), FailOpenLog.Call(Classify(f), now))
      ensures reported.Some? ==> lines == old(lines) + [FailOpenLog.Line(Classify(f), now, reported.value)]
    {
      var kind := Classify(f);
      var count := if kind in suppressed then suppressed[kind] else 0;
      if kind in lastLogged && now < lastLogged[kind] + FailOpenLog.LOG_INTERVAL_SECONDS {
        suppressed := suppressed[kind := count + 1];
        return None;
      }
      lastLogged := lastLogged[kind := now];
      suppressed := suppressed - {kind};
      lines := lines + [FailOpenLog.Line(kind, now, count)];
      return Some(count);
    }

    /** enforce_rate_limit. On a fault the MULTI was either carried out whole or not at
        all, and the request goes through; only a counted hit can be rejected. */
    method Enforce(r: Request, fault: Option<Fault>, carriedOut: bool) returns (rejected: bool)
      requires r.window > 0
      modifies this
      ensures store == if IsLocalIp(r.ip) || (fault.Some? && !carriedOut) then old(store) else After(old(store), r)
      ensures rejected <==> fault.None? && !Admits(old(store), r)
      ensures var local := r.ip in {"127.0.0.1", "::1", "localhost", "testclient"} || "172.18." <= r.ip;
              var key := "rl:" + r.bucket + ":" + r.ip;
              && (rejected <==> !local && fault.None? && Redis.Count(old(store), r.at, key) >= r.limit)
              && (store != old(store) ==> !local && store == Hit(old(store), r.at, key, r.window))
              && (!local && fault.None? ==> store == Hit(old(store), r.at, key, r.window))
      ensures Book() == if IsLocalIp(r.ip) || fault.None? then old(Book())
                        else FailOpenLog.Record(old(Book()), FailOpenLog.Call(Classify(fault.value), r.at))
    {
      if IsLocalIp(r.ip) { return false; }
      if fault.None? || carriedOut {
        store := Hit(store, r.at, Key(r), r.window);
      }
      if fault.Some? {
        var _ := LogFailOpen(fault.value, r.at);
        return false;
      }
      rejected := Redis.Count(store, r.at, Key(r)) > r.limit;
    }
  }
}
