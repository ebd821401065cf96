/** The Redis commands the limiters and counters use, each one atomic step on a store of
    counters with an optional expiry instant (seconds on one clock). */
module Redis {
  import opened Options

  datatype Entry = Entry(count: nat, expiry: Option<nat>)

  type Store = map<string, Entry>

  /** A key whose expiry has come no longer exists. */
  predicate Live(store: Store, now: nat, key: string) {
    key in store && (store[key].expiry.Some? ==> now < store[key].expiry.value)
  }

  /** GET of a counter, a missing one reading as 0. */
  function Count(store: Store, now: nat, key: string): nat {
    if Live(store, now, key) then store[key].count else 0
  }

  function Incr(store: Store, now: nat, key: string): Store {
    if Live(store, now, key) then store[key := store[key].(count := store[key].count + 1)]
    else store[key := Entry(1, None)]
  }

  /** EXPIRE key seconds NX: only a key without an expiry gets one. */
  function ExpireNx(store: Store, now: nat, key: string, seconds: nat): Store {
    if Live(store, now, key) && store[key].expiry.None? then
      store[key := store[key].(expiry := Some(now + seconds))]
    else store
  }

  function Expire(store: Store, now: nat, key: string, seconds: nat): Store {
    if Live(store, now, key) then store[key := store[key].(expiry := Some(now + seconds))] else store
  }

  function Delete(store: Store, key: string): Store { store - {key} }

  /** SET key 1 NX EX seconds, where it succeeds. */
  function SetNxEx(store: Store, now: nat, key: string, seconds: nat): Store {
    if Live(store, now, key) then store else store[key := Entry(1, Some(now + seconds))]
  }

  /** INCR and EXPIRE NX in one MULTI: one hit on a fixed window. */
  function Hit(store: Store, now: nat, key: string, window: nat): Store {
    ExpireNx(Incr(store, now, key), now, key, window)
  }

  /** A hit counts one more in the running window and leaves its end where it was; it
      opens a window only when none is running, and gives a counter that was left without
      an expiry one. Nothing else changes. */
  lemma HitMeaning(store: Store, now: nat, key: string, window: nat)
    requires window > 0
    ensures var after := Hit(store, now, key, window);
            && Live(after, now, key)
            && Count(after, now, key) == Count(store, now, key) + 1
            && after[key].expiry.Some?
            && after[key].expiry.value ==
               (if Live(store, now, key) && store[key].expiry.Some? then store[key].expiry.value else now + window)
            && after - {key} == store - {key}
  {}
}
