/** The bounded, single-process, fixed-window rate limiter: a map of counters and a list in touch order. */
module AuthRateLimit {
  import opened Prelude

  const MAX_TRACKED_KEYS := 50_000

  /** An account name or a network address. */
  datatype Key = Key(text: string)

  datatype Options = Options(maxAttempts: int, window: Time) {
    predicate Valid() {
      maxAttempts > 0 && window > 0
    }
  }

  datatype Entry = Entry(windowStart: Time, count: int)

  /** `order` lists the tracked keys, least recently touched first. */
  datatype Tracker = Tracker(entries: map<Key, Entry>, order: seq<Key>)

  const EMPTY := Tracker(map[], [])

  function Without(order: seq<Key>, key: Key): seq<Key> {
    if order == [] then []
    else if order[0] == key then Without(order[1..], key)
    else [order[0]] + Without(order[1..], key)
  }

  function Evicted(s: Tracker): Tracker {
    if |s.entries| < MAX_TRACKED_KEYS || s.order == [] then s
    else Tracker(s.entries - {s.order[0]}, s.order[1..])
  }

  function Touched(order: seq<Key>, key: Key): seq<Key> {
    Without(order, key) + [key]
  }

  /** The counter of the called key after the call, and the answer. */
  function Hit(o: Options, tracked: Option<Entry>, now: Time): (Entry, bool) {
    if tracked.None? || now - tracked.value.windowStart >= o.window then (Entry(now, 1), true)
    else if tracked.value.count >= o.maxAttempts then (tracked.value, false)
    else (tracked.value.(count := tracked.value.count + 1), true)
  }

  function Tracked(s: Tracker, key: Key): Option<Entry> {
    if key in s.entries then Some(s.entries[key]) else None
  }

  /** Room is made only for a key that is not tracked yet. */
  function Room(s: Tracker, key: Key): Tracker {
    if key in s.entries then s else Evicted(s)
  }

  /** The state after one call, and its answer. */
  function AllowStep(o: Options, s: Tracker, key: Key, now: Time): (Tracker, bool) {
    var (entry, allowed) := Hit(o, Tracked(s, key), now);
    var room := Room(s, key);
    (Tracker(room.entries[key := entry], Touched(room.order, key)), allowed)
  }

  /** The list holds exactly the given keys, once each. */
  ghost predicate Linked(order: seq<Key>, keys: set<Key>) {
    NoDuplicates(order) && (forall k :: k in order <==> k in keys) && |keys| == |order|
  }

  ghost predicate Counted(o: Options, entries: map<Key, Entry>) {
    forall k :: k in entries ==> 1 <= entries[k].count <= o.maxAttempts
  }

  /** Map and list hold the same keys, never more than the bound; counters stay within the policy. */
  ghost predicate Consistent(o: Options, s: Tracker) {
    Linked(s.order, s.entries.Keys) && |s.order| <= MAX_TRACKED_KEYS && Counted(o, s.entries)
  }

  class MemoryLimiter {
    const opts: Options
    var entries: map<Key, Entry>
    var order: seq<Key>

    ghost function State(): Tracker
      reads this
    {
      Tracker(entries, order)
    }

    ghost predicate Valid()
      reads this
    {
      opts.Valid() && Consistent(opts, State())
    }

    constructor (o: Options)
      requires o.Valid()
      ensures Valid() && State() == EMPTY && opts == o
    {
      opts, entries, order := o, map[], [];
    }

    method EvictIfFull()
      requires Valid()
      modifies this
      ensures Valid() && State() == Evicted(old(State()))
      ensures |entries| < MAX_TRACKED_KEYS
    {
      EvictedConsistent(opts, State());
      if |entries| < MAX_TRACKED_KEYS || order == [] {
        return;
      }
      var front := order[0];
      order := order[1..];
      entries := entries - {front};
    }

    method Allow(key: Key, now: Time) returns (allowed: bool)
      requires Valid()
      modifies this
      ensures Valid() && (State(), allowed) == AllowStep(opts, old(State()), key, now)
    {
      hide Consistent, Touched, Without;
      AllowConsistent(opts, State(), key, now);
      if key !in entries || now - entries[key].windowStart >= opts.window {
        if key !in entries {
          EvictIfFull();
        }
        order := Touched(order, key);
        entries := entries[key := Entry(now, 1)];
        return true;
      }
      order := Touched(order, key);
      if entries[key].count >= opts.maxAttempts {
        assert entries == entries[key := entries[key]];
        return false;
      }
      entries := entries[key := entries[key].(count := entries[key].count + 1)];
      return true;
    }
  }

  // Consistency

  lemma {:induction false} WithoutMembers(order: seq<Key>, key: Key)
    ensures forall k :: k in Without(order, key) <==> k in order && k != key
    ensures NoDuplicates(order) ==> NoDuplicates(Without(order, key))
    ensures NoDuplicates(order) ==> |Without(order, key)| == if key in order then |order| - 1 else |order|
  {
    if order != [] {
      var rest := order[1..];
      WithoutMembers(rest, key);
      assert order == [order[0]] + rest;
      if NoDuplicates(order) {
        assert forall i, j :: 0 <= i < j < |rest| ==> rest[i] == order[i + 1] && rest[j] == order[j + 1];
        assert order[0] !in rest;
      }
    }
  }

  lemma DropFirstLinked(order: seq<Key>, keys: set<Key>)
    requires Linked(order, keys) && order != []
    ensures Linked(order[1..], keys - {order[0]}) && order[0] in keys
  {
    assert order == [order[0]] + order[1..];
    assert order[0] in order && order[0] !in order[1..];
  }

  lemma TouchLinked(order: seq<Key>, keys: set<Key>, key: Key)
    requires Linked(order, keys)
    ensures Linked(Touched(order, key), keys + {key})
  {
    WithoutMembers(order, key);
    if key in keys {
      assert keys + {key} == keys;
    }
  }

  lemma LinkedLength(order: seq<Key>, keys: set<Key>)
    requires Linked(order, keys)
    ensures |keys| == |order|
  {
  }

  lemma EvictedConsistent(o: Options, s: Tracker)
    requires Consistent(o, s)
    ensures Consistent(o, Evicted(s)) && |Evicted(s).entries| < MAX_TRACKED_KEYS
    ensures forall k :: k in Evicted(s).entries ==> k in s.entries && Evicted(s).entries[k] == s.entries[k]
  {
    if |s.entries| >= MAX_TRACKED_KEYS {
      assert |s.entries| == |s.entries.Keys|;
      DropFirstLinked(s.order, s.entries.Keys);
      hide Linked;
      assert Evicted(s).entries.Keys == s.entries.Keys - {s.order[0]};
    }
  }

  lemma RoomConsistent(o: Options, s: Tracker, key: Key)
    requires Consistent(o, s)
    ensures Consistent(o, Room(s, key)) && (key in s.entries || |Room(s, key).order| < MAX_TRACKED_KEYS)
    ensures forall k :: k in Room(s, key).entries ==> k in s.entries && Room(s, key).entries[k] == s.entries[k]
  {
    EvictedConsistent(o, s);
    LinkedLength(Room(s, key).order, Room(s, key).entries.Keys);
  }

  lemma TouchedConsistent(o: Options, room: Tracker, key: Key, entry: Entry)
    requires Consistent(o, room) && 1 <= entry.count <= o.maxAttempts
    requires key in room.entries || |room.order| < MAX_TRACKED_KEYS
    ensures Consistent(o, Tracker(room.entries[key := entry], Touched(room.order, key)))
  {
    hide Linked, Touched, Without;
    var keys := room.entries.Keys;
    TouchLinked(room.order, keys, key);
    LinkedLength(room.order, keys);
    LinkedLength(Touched(room.order, key), keys + {key});
    assert room.entries[key := entry].Keys == keys + {key};
    if key in room.entries {
      assert keys + {key} == keys;
    }
  }

  lemma AllowConsistent(o: Options, s: Tracker, key: Key, now: Time)
    requires o.Valid() && Consistent(o, s)
    ensures Consistent(o, AllowStep(o, s, key, now).0)
  {
    RoomConsistent(o, s, key);
    var entry := Hit(o, Tracked(s, key), now).0;
    assert 1 <= entry.count <= o.maxAttempts;
    TouchedConsistent(o, Room(s, key), key, entry);
  }

  // Runs: the first n of a sequence of calls, from an empty limiter

  datatype Call = Call(key: Key, now: Time)

  function After(o: Options, calls: seq<Call>, n: nat): Tracker
    requires n <= |calls|
  {
    if n == 0 then EMPTY
    else AllowStep(o, After(o, calls, n - 1), calls[n - 1].key, calls[n - 1].now).0
  }

  predicate Verdict(o: Options, calls: seq<Call>, i: nat)
    requires i < |calls|
  {
    AllowStep(o, After(o, calls, i), calls[i].key, calls[i].now).1
  }

  /** In every run the map and the list agree and never hold more than 50,000 keys. */
  lemma {:induction false} AlwaysConsistent(o: Options, calls: seq<Call>, n: nat)
    requires o.Valid() && n <= |calls|
    ensures Consistent(o, After(o, calls, n))
  {
    if n > 0 {
      AlwaysConsistent(o, calls, n - 1);
      AllowConsistent(o, After(o, calls, n - 1), calls[n - 1].key, calls[n - 1].now);
    }
  }

  lemma NeverTooMany(o: Options, calls: seq<Call>, n: nat)
    requires o.Valid() && n <= |calls|
    ensures |After(o, calls, n).entries.Keys| <= 50_000
  {
    hide After, Counted, Linked;
    AlwaysConsistent(o, calls, n);
    LinkedLength(After(o, calls, n).order, After(o, calls, n).entries.Keys);
  }

  ghost predicate NondecreasingClock(calls: seq<Call>) {
    forall i, j :: 0 <= i < j < |calls| ==> calls[i].now <= calls[j].now
  }

  /** Call i makes the limiter forget `key`. */
  predicate EvictedBy(o: Options, calls: seq<Call>, i: nat, key: Key)
    requires i < |calls|
  {
    key in After(o, calls, i).entries && key !in After(o, calls, i + 1).entries
  }

  ghost predicate NeverEvicted(o: Options, calls: seq<Call>, key: Key) {
    forall i :: 0 <= i < |calls| ==> !EvictedBy(o, calls, i, key)
  }

  /** Every call of `key` from i up to j is denied. */
  ghost predicate AllDenied(o: Options, calls: seq<Call>, i: nat, j: nat, key: Key)
    requires j <= |calls|
  {
    forall m {:trigger Verdict(o, calls, m)} :: i <= m < j && calls[m].key == key ==> !Verdict(o, calls, m)
  }

  /** How many of the first n calls are allowed calls of `key` at a time in [from, to]. */
  function AllowedIn(o: Options, calls: seq<Call>, n: nat, key: Key, from: Time, to: Time): nat
    requires n <= |calls|
  {
    if n == 0 then 0
    else
      AllowedIn(o, calls, n - 1, key, from, to) +
      if calls[n - 1].key == key && from <= calls[n - 1].now <= to && Verdict(o, calls, n - 1) then 1 else 0
  }

  /** A call of another key leaves this key's counter alone, unless it evicts the key. */
  lemma OtherKeysUntouched(o: Options, s: Tracker, call: Call, key: Key)
    requires Consistent(o, s) && call.key != key
    ensures var next := AllowStep(o, s, call.key, call.now).0;
            key in next.entries ==> key in s.entries && next.entries[key] == s.entries[key]
  {
    EvictedConsistent(o, s);
  }

  /** What the current window of `key` says about the allowed calls counted so far. */
  ghost predicate WindowAccount(o: Options, s: Tracker, key: Key, from: Time, to: Time, counted: nat) {
    if key !in s.entries then counted == 0
    else
      var e := s.entries[key];
      && (counted > 0 ==> from < e.windowStart + o.window)
      && (e.windowStart <= from ==> counted <= e.count)
      && (from < e.windowStart <= to ==> counted <= o.maxAttempts + e.count)
      && counted <= 2 * o.maxAttempts
  }

  lemma WindowAccountStep(o: Options, s: Tracker, call: Call, key: Key, from: Time, to: Time, counted: nat)
    requires o.Valid() && Consistent(o, s) && to - from <= o.window
    requires WindowAccount(o, s, key, from, to, counted)
    requires key in s.entries ==> s.entries[key].windowStart <= call.now
    requires var next := AllowStep(o, s, call.key, call.now).0; key in s.entries ==> key in next.entries
    ensures var (next, allowed) := AllowStep(o, s, call.key, call.now);
            && WindowAccount(o, next, key, from, to,
                             counted + if call.key == key && from <= call.now <= to && allowed then 1 else 0)
            && (key in next.entries ==> next.entries[key].windowStart <= call.now)
  {
    RoomConsistent(o, s, call.key);
    hide Linked, Room, Touched;
    if call.key != key {
      OtherKeysUntouched(o, s, call, key);
    }
  }

  lemma {:induction false} WindowAccountHolds(o: Options, calls: seq<Call>, n: nat, key: Key, from: Time, to: Time)
    requires o.Valid() && n <= |calls| && NondecreasingClock(calls) && NeverEvicted(o, calls, key)
    requires to - from <= o.window
    ensures WindowAccount(o, After(o, calls, n), key, from, to, AllowedIn(o, calls, n, key, from, to))
    ensures key in After(o, calls, n).entries ==>
            n > 0 && After(o, calls, n).entries[key].windowStart <= calls[n - 1].now
  {
    hide Consistent, AllowStep;
    if n > 0 {
      var s := After(o, calls, n - 1);
      WindowAccountHolds(o, calls, n - 1, key, from, to);
      AlwaysConsistent(o, calls, n - 1);
      assert n > 1 ==> calls[n - 2].now <= calls[n - 1].now;
      assert !EvictedBy(o, calls, n - 1, key);
      WindowAccountStep(o, s, calls[n - 1], key, from, to, AllowedIn(o, calls, n - 1, key, from, to));
    }
  }

  /**
   With a clock that never runs backwards and a key that is never evicted, no closed interval as
   long as the window contains more than twice the permitted number of allowed calls.
   */
  lemma SlidingWindowBound(o: Options, calls: seq<Call>, key: Key, from: Time, to: Time)
    requires o.Valid() && NondecreasingClock(calls) && NeverEvicted(o, calls, key)
    requires to - from <= o.window
    ensures AllowedIn(o, calls, |calls|, key, from, to) <= 2 * o.maxAttempts
  {
    WindowAccountHolds(o, calls, |calls|, key, from, to);
  }

  /** A full round of attempts at time 0, and another when the window has just passed. */
  function TwoRounds(o: Options, key: Key): (calls: seq<Call>)
    requires o.Valid()
    ensures |calls| == 2 * o.maxAttempts && NondecreasingClock(calls)
    ensures forall i :: 0 <= i < |calls| ==> calls[i] == Call(key, if i < o.maxAttempts then 0 else o.window)
  {
    seq(2 * o.maxAttempts, i requires 0 <= i => Call(key, if i < o.maxAttempts then 0 else o.window))
  }

  lemma {:induction false} TwoRoundsAllowed(o: Options, key: Key, n: nat)
    requires o.Valid() && n <= |TwoRounds(o, key)|
    ensures var calls := TwoRounds(o, key);
            && Tracked(After(o, calls, n), key) ==
               (if n == 0 then None else if n <= o.maxAttempts then Some(Entry(0, n))
                else Some(Entry(o.window, n - o.maxAttempts)))
            && AllowedIn(o, calls, n, key, 0, o.window) == n
  {
    hide TwoRounds, Touched, Without, Evicted;
    if n > 0 {
      TwoRoundsAllowed(o, key, n - 1);
    }
  }

  /** Whatever the policy, its bound is reached: all calls of two such rounds are allowed within one window's length. */
  lemma SlidingWindowBoundIsTight(o: Options, key: Key)
    requires o.Valid()
    ensures var calls := TwoRounds(o, key);
            && NondecreasingClock(calls) && NeverEvicted(o, calls, key)
            && AllowedIn(o, calls, |calls|, key, 0, o.window) == 2 * o.maxAttempts
  {
    hide TwoRounds, After, AllowedIn;
    var calls := TwoRounds(o, key);
    TwoRoundsAllowed(o, key, |calls|);
    forall i | 0 <= i < |calls| ensures !EvictedBy(o, calls, i, key) {
      TwoRoundsAllowed(o, key, i + 1);
    }
  }

  /** A denied call keeps the window, a later call of another key does too. */
  lemma StepKeepsWindow(o: Options, s: Tracker, call: Call, key: Key)
    requires Consistent(o, s)
    requires call.key == key ==> !AllowStep(o, s, call.key, call.now).1
    ensures var next := AllowStep(o, s, call.key, call.now).0;
            key in next.entries ==> key in s.entries && next.entries[key].windowStart == s.entries[key].windowStart
  {
    hide Linked, Touched;
    if call.key != key {
      OtherKeysUntouched(o, s, call, key);
    }
  }

  /** While every call of `key` is denied, its window does not move. */
  lemma {:induction false} DeniedCallsKeepWindow(o: Options, calls: seq<Call>, i: nat, j: nat, key: Key)
    requires o.Valid() && i <= j <= |calls|
    requires key in After(o, calls, i).entries
    requires AllDenied(o, calls, i, j, key)
    ensures key in After(o, calls, j).entries ==>
              After(o, calls, j).entries[key].windowStart == After(o, calls, i).entries[key].windowStart
  {
    if i < j {
      DeniedCallsKeepWindow(o, calls, i, j - 1, key);
      AlwaysConsistent(o, calls, j - 1);
      assert calls[j - 1].key == key ==> !Verdict(o, calls, j - 1);
      hide AllowStep, Consistent;
      StepKeepsWindow(o, After(o, calls, j - 1), calls[j - 1], key);
    }
  }

  /** No lockout: once the window has passed, the call is allowed, however many denied calls came between. */
  lemma NoLockout(o: Options, calls: seq<Call>, i: nat, j: nat, key: Key)
    requires o.Valid() && i <= j < |calls| && calls[j].key == key
    requires key in After(o, calls, i).entries
    requires AllDenied(o, calls, i, j, key)
    requires calls[j].now >= After(o, calls, i).entries[key].windowStart + o.window
    ensures Verdict(o, calls, j)
  {
    DeniedCallsKeepWindow(o, calls, i, j, key);
  }

  // Denials

  /** A later end and an earlier start never count fewer. */
  lemma {:induction false} AllowedInWidens(o: Options, calls: seq<Call>, n: nat, key: Key, from: Time, to: Time,
                                           from1: Time, to1: Time)
    requires n <= |calls| && from1 <= from && to <= to1
    ensures AllowedIn(o, calls, n, key, from, to) <= AllowedIn(o, calls, n, key, from1, to1)
  {
    if n > 0 {
      AllowedInWidens(o, calls, n - 1, key, from, to, from1, to1);
    }
  }

  /** The counter of a tracked key never claims more than were allowed since its window began. */
  lemma {:induction false} CountIsEarned(o: Options, calls: seq<Call>, n: nat, key: Key)
    requires o.Valid() && n <= |calls| && NondecreasingClock(calls) && key in After(o, calls, n).entries
    ensures var e := After(o, calls, n).entries[key];
            n > 0 && e.count <= AllowedIn(o, calls, n, key, e.windowStart, calls[n - 1].now)
  {
    hide Linked, Counted, Room, Touched, AllowStep, After, AllowedIn;
    FirstState(o, calls);
    if n > 0 {
      NextState(o, calls, n, key);
      var s, call := After(o, calls, n - 1), calls[n - 1];
      var e := After(o, calls, n).entries[key];
      AlwaysConsistent(o, calls, n - 1);
      if key in s.entries {
        CountIsEarned(o, calls, n - 1, key);
        var was := s.entries[key];
        assert n > 1 ==> calls[n - 2].now <= call.now;
        AllowedInWidens(o, calls, n - 1, key, was.windowStart, calls[n - 2].now, was.windowStart, call.now);
        WindowNotAhead(o, calls, n - 1, key);
      }
      if call.key != key {
        OtherKeysUntouched(o, s, call, key);
      } else {
        OwnCall(o, s, call);
      }
    }
  }

  lemma FirstState(o: Options, calls: seq<Call>)
    ensures After(o, calls, 0) == EMPTY
  {
  }

  lemma NextState(o: Options, calls: seq<Call>, n: nat, key: Key)
    requires 0 < n <= |calls|
    ensures After(o, calls, n) == AllowStep(o, After(o, calls, n - 1), calls[n - 1].key, calls[n - 1].now).0
    ensures forall from, to :: AllowedIn(o, calls, n, key, from, to) ==
              AllowedIn(o, calls, n - 1, key, from, to) +
              if calls[n - 1].key == key && from <= calls[n - 1].now <= to && Verdict(o, calls, n - 1) then 1 else 0
  {
  }

  /** What a call does to its own key's counter, and its answer. */
  lemma OwnCall(o: Options, s: Tracker, call: Call)
    ensures var (next, allowed) := AllowStep(o, s, call.key, call.now);
            && call.key in next.entries
            && (next.entries[call.key], allowed) == Hit(o, Tracked(s, call.key), call.now)
  {
    hide Touched, Room;
  }

  lemma {:induction false} WindowNotAhead(o: Options, calls: seq<Call>, n: nat, key: Key)
    requires o.Valid() && n <= |calls| && NondecreasingClock(calls) && key in After(o, calls, n).entries
    ensures n > 0 && After(o, calls, n).entries[key].windowStart <= calls[n - 1].now
  {
    hide Linked, Counted, Room, Touched, AllowStep, After, AllowedIn;
    FirstState(o, calls);
    if n > 0 {
      NextState(o, calls, n, key);
      var s, call := After(o, calls, n - 1), calls[n - 1];
      AlwaysConsistent(o, calls, n - 1);
      if key in s.entries {
        WindowNotAhead(o, calls, n - 1, key);
        assert n > 1 ==> calls[n - 2].now <= call.now;
      }
      if call.key != key {
        OtherKeysUntouched(o, s, call, key);
      } else {
        OwnCall(o, s, call);
      }
    }
  }

  /**
   A call is denied only after a full round: under a clock that never goes back, at least MaxAttempts calls of the key
   were allowed in the window's length that ends with it.
   */
  lemma DenialNeedsFullRound(o: Options, calls: seq<Call>, i: nat)
    requires o.Valid() && i < |calls| && NondecreasingClock(calls) && !Verdict(o, calls, i)
    ensures AllowedIn(o, calls, i, calls[i].key, calls[i].now - o.window + 1, calls[i].now) >= o.maxAttempts
  {
    hide Linked, Room, Touched, After, AllowedIn;
    var s, key, now := After(o, calls, i), calls[i].key, calls[i].now;
    CountIsEarned(o, calls, i, key);
    var e := s.entries[key];
    AllowedInWidens(o, calls, i, key, e.windowStart, calls[i - 1].now, now - o.window + 1, now);
  }

  // Eviction

  /** The position of the last of the first n calls that touched `key`, or -1. */
  function LastTouch(calls: seq<Call>, n: nat, key: Key): (j: int)
    requires n <= |calls|
    ensures -1 <= j < n && (j >= 0 ==> calls[j].key == key)
    ensures forall m :: j < m < n ==> calls[m].key != key
  {
    if n == 0 then -1 else if calls[n - 1].key == key then n - 1 else LastTouch(calls, n - 1, key)
  }

  /** The keys of the calls after position j and before position n. */
  ghost function KeysBetween(calls: seq<Call>, j: int, n: nat): set<Key>
    requires -1 <= j < n <= |calls|
  {
    set m | j < m < n :: calls[m].key
  }

  /** The list is sorted by last touch. */
  ghost predicate InTouchOrder(calls: seq<Call>, n: nat, order: seq<Key>)
    requires n <= |calls|
  {
    && (forall p :: 0 <= p < |order| ==> LastTouch(calls, n, order[p]) >= 0)
    && (forall p, q :: 0 <= p < q < |order| ==> LastTouch(calls, n, order[p]) < LastTouch(calls, n, order[q]))
  }

  lemma {:induction false} WithoutKeepsOrder(calls: seq<Call>, n: nat, order: seq<Key>, key: Key)
    requires n <= |calls| && InTouchOrder(calls, n, order)
    ensures InTouchOrder(calls, n, Without(order, key))
  {
    hide LastTouch;
    if order != [] {
      var rest := order[1..];
      assert forall q :: 0 <= q < |rest| ==> rest[q] == order[q + 1];
      assert order == [order[0]] + rest;
      WithoutKeepsOrder(calls, n, rest, key);
      WithoutMembers(rest, key);
      FrontStays(calls, n, order[0], rest, Without(rest, key));
    }
  }

  lemma FrontStays(calls: seq<Call>, n: nat, first: Key, rest: seq<Key>, kept: seq<Key>)
    requires n <= |calls| && InTouchOrder(calls, n, [first] + rest) && InTouchOrder(calls, n, kept)
    requires forall k :: k in kept ==> k in rest
    ensures InTouchOrder(calls, n, [first] + kept)
  {
    hide LastTouch;
    var all, some := [first] + rest, [first] + kept;
    assert LastTouch(calls, n, all[0]) >= 0;
    assert forall p :: 1 <= p < |some| ==> some[p] == kept[p - 1];
    forall q | 0 <= q < |kept|
      ensures LastTouch(calls, n, first) < LastTouch(calls, n, kept[q])
    {
      assert kept[q] in rest;
      var p :| 0 <= p < |rest| && rest[p] == kept[q];
      assert all[p + 1] == kept[q] && all[0] == first;
    }
  }

  lemma TouchKeepsOrder(calls: seq<Call>, n: nat, order: seq<Key>)
    requires n < |calls| && InTouchOrder(calls, n, order)
    ensures InTouchOrder(calls, n + 1, Touched(order, calls[n].key))
  {
    var key := calls[n].key;
    var kept := Without(order, key);
    WithoutKeepsOrder(calls, n, order, key);
    WithoutMembers(order, key);
    forall p | 0 <= p < |kept|
      ensures LastTouch(calls, n + 1, kept[p]) == LastTouch(calls, n, kept[p])
    {
      assert kept[p] in kept;
    }
  }

  lemma RoomKeepsOrder(calls: seq<Call>, n: nat, s: Tracker, key: Key)
    requires n <= |calls| && InTouchOrder(calls, n, s.order)
    ensures InTouchOrder(calls, n, Room(s, key).order)
  {
  }

  lemma {:induction false} AlwaysInTouchOrder(o: Options, calls: seq<Call>, n: nat)
    requires n <= |calls|
    ensures InTouchOrder(calls, n, After(o, calls, n).order)
  {
    if n > 0 {
      var s, key := After(o, calls, n - 1), calls[n - 1].key;
      AlwaysInTouchOrder(o, calls, n - 1);
      RoomKeepsOrder(calls, n - 1, s, key);
      TouchKeepsOrder(calls, n - 1, Room(s, key).order);
      hide Room, Touched, InTouchOrder, Hit;
    }
  }

  /** What is evicted is the front of a full list. */
  lemma EvictedIsFront(o: Options, s: Tracker, call: Call, key: Key)
    requires Consistent(o, s)
    requires key in s.entries && key !in AllowStep(o, s, call.key, call.now).0.entries
    ensures |s.order| == MAX_TRACKED_KEYS && s.order[0] == key && call.key !in s.order
  {
    assert |s.entries| == |s.entries.Keys|;
  }

  lemma ManyOthers(calls: seq<Call>, i: nat, order: seq<Key>)
    requires i < |calls| && |order| == MAX_TRACKED_KEYS && NoDuplicates(order) && InTouchOrder(calls, i, order)
    requires calls[i].key !in order
    ensures |KeysBetween(calls, LastTouch(calls, i, order[0]), i + 1)| >= MAX_TRACKED_KEYS
  {
    hide LastTouch;
    var others := order[1..] + [calls[i].key];
    assert NoDuplicates(others);
    NoDuplicatesCardinality(others);
    var since := KeysBetween(calls, LastTouch(calls, i, order[0]), i + 1);
    forall p | 0 <= p < |others|
      ensures others[p] in since
    {
      var m := if p + 1 < |order| then LastTouch(calls, i, order[p + 1]) else i;
      assert calls[m].key == others[p];
    }
    SubsetCardinality((set k | k in others), since);
  }

  /** A key disappears only after at least 50,000 distinct other keys were touched since its own last touch. */
  lemma EvictionNeedsManyOthers(o: Options, calls: seq<Call>, i: nat, key: Key)
    requires o.Valid() && i < |calls|
    requires EvictedBy(o, calls, i, key)
    ensures var others := KeysBetween(calls, LastTouch(calls, i + 1, key), i + 1);
            key !in others && |others| >= 50_000
  {
    AlwaysConsistent(o, calls, i);
    AlwaysInTouchOrder(o, calls, i);
    EvictedIsFront(o, After(o, calls, i), calls[i], key);
    ManyOthers(calls, i, After(o, calls, i).order);
  }

  lemma {:induction false} SubsetCardinality(x: set<Key>, y: set<Key>)
    requires x <= y
    ensures |x| <= |y|
  {
    if x != {} {
      var e :| e in x;
      SubsetCardinality(x - {e}, y - {e});
    }
  }
}
