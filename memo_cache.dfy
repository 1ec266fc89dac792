/**
 * The memoising cache of src/cache.js. `Cache(log, when)` builds a wrapper
 * factory over one Map: `cached(description, behaviour)(...args)` looks the
 * call up under the serialisation of `{description, arguments: args}`, logs
 * one `cacheMiss` record and runs the behaviour when nothing non-null is
 * stored, stores whatever the behaviour resolves to, and bypasses the Map
 * entirely when `when` is false.
 *
 * The pure functions Step and Run state what one call and a series of calls
 * do to the cache's state; the class Cache is the stateful object, and each
 * of its calls is proved to be one Step.
 */
module MemoCache {
  import opened Wrappers

  /**
   * The structural key `{description, arguments}`. Its JSON serialisation is
   * taken to be injective, so the key itself stands for its string.
   */
  datatype Key<A> = Key(description: string, arguments: seq<A>)

  /** The one record the cache logs: `{cacheMiss: key}`. */
  datatype LogRecord<A> = CacheMiss(key: Key<A>)

  /**
   * What awaiting the behaviour gives: a value, where None stands for
   * null/undefined, or a rejection.
   */
  datatype Outcome<V, E> = Resolved(value: Option<V>) | Rejected(error: E)

  /**
   * The cache's state: the Map (a stored null is a stored None), the log so
   * far, and the keys under which the behaviour was run, in order.
   */
  datatype State<A(==), V> = State(entries: map<Key<A>, Option<V>>, log: seq<LogRecord<A>>, invocations: seq<Key<A>>)

  /** One call of a wrapped behaviour with its arguments. */
  datatype Call<!A, V, E> = Call(description: string, behaviour: seq<A> -> Outcome<V, E>, arguments: seq<A>)

  function KeyOf<A, V, E>(c: Call<A, V, E>): Key<A> {
    Key(c.description, c.arguments)
  }

  function Empty<A(==), V>(): State<A, V> {
    State(map[], [], [])
  }

  /** `cache.get(keyString)`, with a missing entry read as undefined. */
  function Lookup<A(==), V>(entries: map<Key<A>, Option<V>>, key: Key<A>): Option<V> {
    if key in entries then entries[key] else None
  }

  /** One call of src/cache.js:3-21: the new state and the call's outcome. */
  function Step<A(==), V, E>(s: State<A, V>, enabled: bool, c: Call<A, V, E>): (State<A, V>, Outcome<V, E>) {
    var key := KeyOf(c);
    if !enabled then
      (s.(invocations := s.invocations + [key]), c.behaviour(c.arguments))
    else if Lookup(s.entries, key).Some? then
      (s, Resolved(Lookup(s.entries, key)))
    else
      var missed := s.(log := s.log + [CacheMiss(key)], invocations := s.invocations + [key]);
      match c.behaviour(c.arguments)
      case Rejected(e) => (missed, Rejected(e))
      case Resolved(v) => (missed.(entries := s.entries[key := v]), Resolved(v))
  }

  /** A series of calls, one after the other, with their outcomes in order. */
  function Run<A(==), V, E>(s: State<A, V>, enabled: bool, calls: seq<Call<A, V, E>>): (r: (State<A, V>, seq<Outcome<V, E>>))
    ensures |r.1| == |calls|
    decreases |calls|
  {
    if calls == [] then (s, [])
    else
      var (s1, o) := Step(s, enabled, calls[0]);
      var (s2, os) := Run(s1, enabled, calls[1..]);
      (s2, [o] + os)
  }

  /** With the cache disabled, the behaviour runs and its outcome is returned; the Map and the log are untouched. */
  lemma DisabledCallRuns<A, V, E>(s: State<A, V>, c: Call<A, V, E>)
    ensures var (s', o) := Step(s, false, c);
      && o == c.behaviour(c.arguments)
      && s'.entries == s.entries && s'.log == s.log
      && s'.invocations == s.invocations + [KeyOf(c)]
  {
  }

  /** A hit — a non-null stored value — returns that value and changes nothing: no run, no log record. */
  lemma HitReturnsStored<A, V, E>(s: State<A, V>, c: Call<A, V, E>, v: V)
    requires KeyOf(c) in s.entries && s.entries[KeyOf(c)] == Some(v)
    ensures Step(s, true, c) == (s, Resolved(Some(v)))
  {
  }

  /**
   * A miss logs exactly one `cacheMiss` record for the key, runs the behaviour
   * once, and stores and returns what it resolves to; a rejection stores
   * nothing and is passed on.
   */
  lemma MissRunsOnce<A, V, E>(s: State<A, V>, c: Call<A, V, E>)
    requires Lookup(s.entries, KeyOf(c)).None?
    ensures var (s', o) := Step(s, true, c);
      && o == c.behaviour(c.arguments)
      && s'.log == s.log + [CacheMiss(KeyOf(c))]
      && s'.invocations == s.invocations + [KeyOf(c)]
      && s'.entries == if o.Resolved? then s.entries[KeyOf(c) := o.value] else s.entries
  {
  }

  /**
   * A call changes at most the entry under its own key, removes nothing, and
   * never replaces a non-null entry.
   */
  lemma StepTouchesOwnKey<A, V, E>(s: State<A, V>, enabled: bool, c: Call<A, V, E>)
    ensures var s' := Step(s, enabled, c).0;
      && s.entries.Keys <= s'.entries.Keys
      && s'.entries.Keys <= s.entries.Keys + {KeyOf(c)}
      && (forall k :: k in s.entries && k != KeyOf(c) ==> s'.entries[k] == s.entries[k])
      && (forall k :: Lookup(s.entries, k).Some? ==> Lookup(s'.entries, k) == Lookup(s.entries, k))
  {
  }

  /** Over any series of calls, a non-null entry stays as it is and no key is ever removed. */
  lemma {:induction false} RunKeepsStoredValues<A, V, E>(s: State<A, V>, enabled: bool, calls: seq<Call<A, V, E>>)
    ensures var s' := Run(s, enabled, calls).0;
      && s.entries.Keys <= s'.entries.Keys
      && forall k :: Lookup(s.entries, k).Some? ==> Lookup(s'.entries, k) == Lookup(s.entries, k)
    decreases |calls|
  {
    if calls != [] {
      StepTouchesOwnKey(s, enabled, calls[0]);
      RunKeepsStoredValues(Step(s, enabled, calls[0]).0, enabled, calls[1..]);
    }
  }

  /**
   * With the cache disabled, every call of a series runs its behaviour and
   * returns its outcome, and neither the Map nor the log ever changes.
   */
  lemma {:induction false} DisabledRunRunsEveryCall<A, V, E>(s: State<A, V>, calls: seq<Call<A, V, E>>)
    ensures var (s', os) := Run(s, false, calls);
      && s'.entries == s.entries && s'.log == s.log
      && s'.invocations == s.invocations + seq(|calls|, i requires 0 <= i < |calls| => KeyOf(calls[i]))
      && (forall i :: 0 <= i < |calls| ==> os[i] == calls[i].behaviour(calls[i].arguments))
    decreases |calls|
  {
    if calls != [] {
      var s1 := Step(s, false, calls[0]).0;
      DisabledRunRunsEveryCall(s1, calls[1..]);
      var (s', os) := Run(s, false, calls);
      var keys := seq(|calls|, i requires 0 <= i < |calls| => KeyOf(calls[i]));
      var rest := seq(|calls| - 1, i requires 0 <= i < |calls| - 1 => KeyOf(calls[1..][i]));
      assert keys == [KeyOf(calls[0])] + rest;
      forall i | 0 <= i < |calls| ensures os[i] == calls[i].behaviour(calls[i].arguments) {
        if i > 0 {
          assert calls[1..][i - 1] == calls[i];
        }
      }
    }
  }

  /** The behaviour of the call resolves to a non-null value. */
  predicate YieldsValue<A, V, E>(c: Call<A, V, E>) {
    c.behaviour(c.arguments).Resolved? && c.behaviour(c.arguments).value.Some?
  }

  /**
   * What an enabled cache whose behaviours always yield values keeps true:
   * each run is announced by its own `cacheMiss` record, no key has been run
   * twice, and a key that has been run has a non-null entry.
   */
  predicate Memoised<A(==), V>(s: State<A, V>) {
    && |s.log| == |s.invocations|
    && (forall i :: 0 <= i < |s.log| ==> s.log[i] == CacheMiss(s.invocations[i]))
    && (forall i, j :: 0 <= i < j < |s.invocations| ==> s.invocations[i] != s.invocations[j])
    && (forall i :: 0 <= i < |s.invocations| ==> Lookup(s.entries, s.invocations[i]).Some?)
  }

  lemma StepKeepsMemoised<A, V, E>(s: State<A, V>, c: Call<A, V, E>)
    requires Memoised(s) && YieldsValue(c)
    ensures Memoised(Step(s, true, c).0)
  {
    var key := KeyOf(c);
    if Lookup(s.entries, key).None? {
      assert forall i :: 0 <= i < |s.invocations| ==> s.invocations[i] != key;
    }
  }

  lemma {:induction false} RunKeepsMemoised<A, V, E>(s: State<A, V>, calls: seq<Call<A, V, E>>)
    requires Memoised(s)
    requires forall i :: 0 <= i < |calls| ==> YieldsValue(calls[i])
    ensures Memoised(Run(s, true, calls).0)
    decreases |calls|
  {
    if calls != [] {
      StepKeepsMemoised(s, calls[0]);
      forall i | 0 <= i < |calls| - 1 ensures YieldsValue(calls[1..][i]) {
        assert calls[1..][i] == calls[i + 1];
      }
      RunKeepsMemoised(Step(s, true, calls[0]).0, calls[1..]);
    }
  }

  /**
   * Memoisation: starting from a fresh enabled cache, over any series of calls
   * whose behaviours yield values, no key is run twice or logged as a miss
   * twice, and every run is announced by its `cacheMiss` record.
   */
  lemma MemoisedRunRunsEachKeyOnce<A, V, E>(calls: seq<Call<A, V, E>>)
    requires forall i :: 0 <= i < |calls| ==> YieldsValue(calls[i])
    ensures var s := Run(Empty<A, V>(), true, calls).0;
      && |s.log| == |s.invocations|
      && (forall i :: 0 <= i < |s.log| ==> s.log[i] == CacheMiss(s.invocations[i]))
      && (forall i, j :: 0 <= i < j < |s.invocations| ==> s.invocations[i] != s.invocations[j])
      && (forall i, j :: 0 <= i < j < |s.log| ==> s.log[i] != s.log[j])
  {
    RunKeepsMemoised(Empty<A, V>(), calls);
  }

  /**
   * Two identical calls on an enabled cache whose behaviour yields a value:
   * the behaviour runs at most once, and both calls return the same value.
   */
  lemma RepeatedCallHits<A, V, E>(s: State<A, V>, c: Call<A, V, E>)
    requires YieldsValue(c)
    ensures var (s1, o1) := Step(s, true, c);
      var (s2, o2) := Step(s1, true, c);
      && o1 == o2 && o1.Resolved? && o1.value.Some?
      && s2 == s1
      && |s1.invocations| <= |s.invocations| + 1
  {
  }

  /** A behaviour that resolves to null/undefined is never cached: the next identical call runs it again. */
  lemma NullIsNotCached<A, V, E>(s: State<A, V>, c: Call<A, V, E>)
    requires Lookup(s.entries, KeyOf(c)).None?
    requires c.behaviour(c.arguments) == Resolved(None)
    ensures var s1 := Step(s, true, c).0;
      var s2 := Step(s1, true, c).0;
      && s2.invocations == s.invocations + [KeyOf(c), KeyOf(c)]
      && s2.log == s.log + [CacheMiss(KeyOf(c)), CacheMiss(KeyOf(c))]
  {
  }

  /** A rejected behaviour stores nothing, so the next identical call retries it. */
  lemma FailureIsRetried<A, V, E>(s: State<A, V>, c: Call<A, V, E>)
    requires Lookup(s.entries, KeyOf(c)).None?
    requires c.behaviour(c.arguments).Rejected?
    ensures var (s1, o1) := Step(s, true, c);
      var s2 := Step(s1, true, c).0;
      && o1 == c.behaviour(c.arguments)
      && s1.entries == s.entries
      && s2.invocations == s.invocations + [KeyOf(c), KeyOf(c)]
  {
  }

  /**
   * The cache object. `enabled` is the factory's `when`; `entries` is the
   * Map, `log` the records passed to `log`, and `invocations` (ghost) the
   * runs of behaviours.
   */
  class Cache<A(==), V, E> {
    const enabled: bool
    var entries: map<Key<A>, Option<V>>
    var log: seq<LogRecord<A>>
    ghost var invocations: seq<Key<A>>

    ghost function Snapshot(): State<A, V>
      reads this
    {
      State(entries, log, invocations)
    }

    constructor (enabled: bool)
      ensures this.enabled == enabled
      ensures Snapshot() == Empty()
    {
      this.enabled := enabled;
      entries := map[];
      log := [];
      invocations := [];
    }

    /** `cached(description, behaviour)(...args)`. */
    method Invoke(description: string, behaviour: seq<A> -> Outcome<V, E>, args: seq<A>) returns (r: Outcome<V, E>)
      modifies this
      ensures (Snapshot(), r) == Step(old(Snapshot()), enabled, Call(description, behaviour, args))
      ensures !enabled ==> r == behaviour(args) && entries == old(entries) && log == old(log)
      ensures enabled && Lookup(old(entries), Key(description, args)).Some? ==>
                r == Resolved(Lookup(old(entries), Key(description, args))) && unchanged(this)
    {
      if !enabled {
        invocations := invocations + [Key(description, args)];
        r := behaviour(args);
        return;
      }
      var key := Key(description, args);
      var value := if key in entries then entries[key] else None;
      if value.None? {
        log := log + [CacheMiss(key)];
        invocations := invocations + [key];
        r := behaviour(args);
        if r.Resolved? {
          entries := entries[key := r.value];
        }
      } else {
        r := Resolved(value);
      }
    }
  }
}
