/** The request-time cache of source account states, and the log it refines. */
module StateCache {
  import opened Options

  function LowerChar(c: char): char {
    if 'A' <= c <= 'Z' then (c as int + 32) as char else c
  }

  /** Wallet addresses are ASCII, so lowering is per character. */
  function Lower(s: string): (r: string)
    ensures |r| == |s|
  {
    if s == [] then [] else [LowerChar(s[0])] + Lower(s[1..])
  }

  /** The same letter, in either case. */
  predicate SameLetter(c: char, d: char) {
    || c == d
    || ('A' <= c <= 'Z' && d as int == c as int + 32)
    || ('A' <= d <= 'Z' && c as int == d as int + 32)
  }

  /** Wallets are one and the same key exactly when they differ in the case of letters only. */
  lemma {:induction false} CaseIsIgnored(s: string, t: string)
    ensures Lower(s) == Lower(t) <==> |s| == |t| && forall i :: 0 <= i < |s| ==> SameLetter(s[i], t[i])
  {
    if s != [] && t != [] {
      CaseIsIgnored(s[1..], t[1..]);
      assert Lower(s)[0] == LowerChar(s[0]) && Lower(s)[1..] == Lower(s[1..]);
      assert Lower(t)[0] == LowerChar(t[0]) && Lower(t)[1..] == Lower(t[1..]);
      assert LowerChar(s[0]) == LowerChar(t[0]) <==> SameLetter(s[0], t[0]);
      if |s| == |t| {
        assert forall i :: 0 < i < |s| ==> s[i] == s[1..][i - 1] && t[i] == t[1..][i - 1];
      }
    }
  }

  /** A lowered source wallet and a perp dex. */
  type Key = (string, string)

  datatype Entry<T> = Entry(state: T, fetchedAt: real)

  /** What happened to the cache: a fetch that started at `requestedAt` was stored, or
      the sources outside a kept set were dropped. */
  datatype Event<T> =
    | Store(wallet: string, dex: string, state: T, requestedAt: real)
    | Retain(wallets: set<string>)

  function KeyFor(wallet: string, dex: string): Key { (Lower(wallet), dex) }

  function Apply<T>(entries: map<Key, Entry<T>>, e: Event<T>): map<Key, Entry<T>> {
    match e
    case Store(wallet, dex, state, at) =>
      var key := KeyFor(wallet, dex);
      if key in entries && entries[key].fetchedAt > at then entries else entries[key := Entry(state, at)]
    case Retain(wallets) =>
      var keep := set w | w in wallets :: Lower(w);
      map key | key in entries && key.0 in keep :: entries[key]
  }

  class SourceAccountStateCache<T(==)> {
    const maxAgeSeconds: real
    var entries: map<Key, Entry<T>>
    ghost var log: seq<Event<T>>

    ghost predicate Valid()
      reads this
    {
      entries == Run(log, |log|)
    }

    constructor (maxAgeSeconds: real)
      ensures Valid() && log == [] && this.maxAgeSeconds == maxAgeSeconds
    {
      this.maxAgeSeconds := maxAgeSeconds;
      entries := map[];
      log := [];
    }

    /** The stored entry, unless it is older than the limit counted from its request. */
    method Get(wallet: string, dex: string, now: real) returns (r: Option<Entry<T>>)
      requires Valid()
      ensures var key := KeyFor(wallet, dex);
              r == if key in entries && now - entries[key].fetchedAt <= maxAgeSeconds
                   then Some(entries[key]) else None
      ensures r.Some? <==> exists i :: Current(log, |log|, KeyFor(wallet, dex), i)
                                       && now - log[i].requestedAt <= maxAgeSeconds
      ensures forall i :: Current(log, |log|, KeyFor(wallet, dex), i) && r.Some? ==>
                            r.value == Entry(log[i].state, log[i].requestedAt)
    {
      var key := KeyFor(wallet, dex);
      CacheRefinesLog(log, |log|, key);
      if i :| Current(log, |log|, key, i) {
        forall j | Current(log, |log|, key, j) ensures i == j { CurrentIsUnique(log, |log|, key, i, j); }
      }
      if key !in entries || now - entries[key].fetchedAt > maxAgeSeconds {
        r := None;
      } else {
        r := Some(entries[key]);
      }
    }

    method Store(wallet: string, dex: string, state: T, requestedAt: real)
      requires Valid()
      modifies this
      ensures Valid() && log == old(log) + [Event.Store(wallet, dex, state, requestedAt)]
      ensures entries == Apply(old(entries), Event.Store(wallet, dex, state, requestedAt))
    {
      var key := KeyFor(wallet, dex);
      RunPrefix(log, Event.Store(wallet, dex, state, requestedAt), |log|);
      log := log + [Event.Store(wallet, dex, state, requestedAt)];
      if key in entries && entries[key].fetchedAt > requestedAt {
        return;
      }
      entries := entries[key := Entry(state, requestedAt)];
    }

    /** Deletes the keys of dropped sources one by one, as the source does. */
    method Retain(wallets: set<string>)
      requires Valid()
      modifies this
      ensures Valid() && log == old(log) + [Event.Retain(wallets)]
      ensures entries == Apply(old(entries), Event.Retain(wallets))
    {
      var keep := set w | w in wallets :: Lower(w);
      var before := entries;
      var drop := set key | key in entries && key.0 !in keep;
      var done: set<Key> := {};
      while done != drop
        invariant done <= drop <= before.Keys
        invariant entries == before - done
        invariant log == old(log)
        decreases drop - done
      {
        var rest := drop - done;
        assert drop == done + rest;
        var key :| key in rest;
        entries := entries - {key};
        done := done + {key};
      }
      assert entries == Apply(before, Event.Retain(wallets));
      RunPrefix(log, Event.Retain(wallets), |log|);
      log := log + [Event.Retain(wallets)];
    }
  }

  // ------------------------------------------------------- the log it refines

  /** The entries after the first n events. */
  function Run<T>(log: seq<Event<T>>, n: nat): map<Key, Entry<T>>
    requires n <= |log|
  {
    if n == 0 then map[] else Apply(Run(log, n - 1), log[n - 1])
  }

  lemma {:induction false} RunPrefix<T>(log: seq<Event<T>>, e: Event<T>, n: nat)
    requires n <= |log|
    ensures Run(log + [e], n) == Run(log, n)
  {
    if n > 0 { RunPrefix(log, e, n - 1); }
  }

  predicate StoresKey<T>(e: Event<T>, key: Key) { e.Store? && KeyFor(e.wallet, e.dex) == key }

  predicate DropsKey<T>(e: Event<T>, key: Key) {
    e.Retain? && forall w :: w in e.wallets ==> Lower(w) != key.0
  }

  /** Event i stored the key, and the key was not dropped since. */
  predicate Alive<T>(log: seq<Event<T>>, n: nat, key: Key, i: int)
    requires n <= |log|
  {
    0 <= i < n && StoresKey(log[i], key) && forall k :: i < k < n ==> !DropsKey(log[k], key)
  }

  /** Of all the stores since the key was last dropped, event i has the latest request,
      and among those that share it event i came last. */
  ghost predicate Current<T>(log: seq<Event<T>>, n: nat, key: Key, i: int)
    requires n <= |log|
  {
    && Alive(log, n, key, i)
    && forall j :: Alive(log, n, key, j) ==>
                     log[j].requestedAt <= log[i].requestedAt && (i < j ==> log[j].requestedAt < log[i].requestedAt)
  }

  /** Nothing was stored for the key since it was last dropped. */
  ghost predicate NoneAlive<T>(log: seq<Event<T>>, n: nat, key: Key)
    requires n <= |log|
  {
    forall i :: !Alive(log, n, key, i)
  }

  lemma AliveOneMore<T>(log: seq<Event<T>>, n: nat, key: Key)
    requires 0 < n <= |log|
    ensures forall j :: Alive(log, n, key, j) <==>
              (j == n - 1 && StoresKey(log[n - 1], key)) || (Alive(log, n - 1, key, j) && !DropsKey(log[n - 1], key))
  {
    forall j
      ensures Alive(log, n, key, j) <==>
              (j == n - 1 && StoresKey(log[n - 1], key)) || (Alive(log, n - 1, key, j) && !DropsKey(log[n - 1], key))
    {
      if Alive(log, n - 1, key, j) && !DropsKey(log[n - 1], key) {
        assert forall k :: j < k < n ==> !DropsKey(log[k], key);
      }
      if j < n - 1 && Alive(log, n, key, j) {
        assert !DropsKey(log[n - 1], key);
      }
    }
  }

  /** One event moves the entry of a key exactly as it moves the current store. */
  lemma EventMovesEntry<T>(entries: map<Key, Entry<T>>, e: Event<T>, key: Key)
    ensures DropsKey(e, key) ==> key !in Apply(entries, e)
    ensures !DropsKey(e, key) && !StoresKey(e, key) ==>
              (key in Apply(entries, e) <==> key in entries)
              && (key in entries ==> Apply(entries, e)[key] == entries[key])
    ensures StoresKey(e, key) ==>
              key in Apply(entries, e)
              && Apply(entries, e)[key] ==
                 if key in entries && entries[key].fetchedAt > e.requestedAt then entries[key]
                 else Entry(e.state, e.requestedAt)
  {
  }

  /** One event moves the current store as it moves the entry of the key. */
  lemma CurrentOneMore<T>(log: seq<Event<T>>, n: nat, key: Key, i: int)
    requires 0 < n <= |log| && !DropsKey(log[n - 1], key)
    requires Current(log, n - 1, key, i) || (StoresKey(log[n - 1], key) && NoneAlive(log, n - 1, key))
    ensures var e := log[n - 1];
            Current(log, n, key,
                    if StoresKey(e, key) && (!Current(log, n - 1, key, i) || log[i].requestedAt <= e.requestedAt)
                    then n - 1 else i)
  {
    hide StoresKey, DropsKey;
    AliveOneMore(log, n, key);
    if StoresKey(log[n - 1], key) { StoreIsAlive(log, n, key); }
  }

  lemma StoreIsAlive<T>(log: seq<Event<T>>, n: nat, key: Key)
    requires 0 < n <= |log| && StoresKey(log[n - 1], key)
    ensures Alive(log, n, key, n - 1)
  {
  }

  /** After any interleaving of slow and fast fetches and of drops, a key holds the state
      stored last among those with the latest request since it was last dropped, and it
      holds nothing exactly when nothing was stored since then. */
  lemma {:induction false} CacheRefinesLog<T>(log: seq<Event<T>>, n: nat, key: Key)
    requires n <= |log|
    ensures key in Run(log, n) ==>
              exists i :: Current(log, n, key, i) && Run(log, n)[key] == Entry(log[i].state, log[i].requestedAt)
    ensures key !in Run(log, n) ==> NoneAlive(log, n, key)
  {
    if n > 0 {
      var e := log[n - 1];
      CacheRefinesLog(log, n - 1, key);
      AliveOneMore(log, n, key);
      EventMovesEntry(Run(log, n - 1), e, key);
      hide Apply, Alive, Current, KeyFor, DropsKey;
      if key in Run(log, n) {
        if key in Run(log, n - 1) {
          var i :| Current(log, n - 1, key, i)
                   && Run(log, n - 1)[key] == Entry(log[i].state, log[i].requestedAt);
          CurrentOneMore(log, n, key, i);
        } else {
          CurrentOneMore(log, n, key, n - 1);
        }
      }
    }
  }

  /** A key has at most one current store. */
  lemma CurrentIsUnique<T>(log: seq<Event<T>>, n: nat, key: Key, i: int, j: int)
    requires n <= |log| && Current(log, n, key, i) && Current(log, n, key, j)
    ensures i == j
  {
  }
}
