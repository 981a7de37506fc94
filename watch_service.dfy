/**
 * The watch service's bookkeeping.  Every watched path has one observer
 * holding the keys registered on it, in registration order, and the OR of
 * their event masks; the platform's file observer is abstracted to
 * "watching with mask m" or "stopped", and a counter records how many
 * times a new one is started.  A key decodes an inotify event into the
 * kinds it was registered for.
 */
module WatchService {
  import opened Wrappers
  import opened WatchEventKinds

  /** inotify's queue-overflow bit. */
  const IN_Q_OVERFLOW: bv32 := 0x4000

  /** Services are told apart by identity only. */
  type ServiceId = nat

  /** A signalled event: its kind and, for kinds about an entry, the entry's name. */
  datatype Event = Event(kind: Kind, context: Option<string>)

  datatype WatchError = ProviderMismatch | NoSuchFile | IllegalArgument

  /** Kinds whose context is the name of an entry (`Path.class == kind.type()`). */
  predicate HasPathContext(k: Kind) {
    !(k.DeleteSelf? || k.MoveSelf? || k.Unmount? || k.Overflow?)
  }

  /** The context an event of kind `k` carries: the entry's name, for kinds about an entry. */
  function Context(k: Kind, name: Option<string>): Option<string> {
    if HasPathContext(k) && name.Some? then name else None
  }

  /** The events one kind produces for an event: itself, if its mask meets the event. */
  function KindEvents(k: Kind, event: bv32, name: Option<string>): (es: seq<Event>)
    ensures |es| <= 1
  {
    if event & Mask(k) != 0 then [Event(k, Context(k, name))] else []
  }

  /** The events of each kind in turn. */
  function Matching(kinds: seq<Kind>, event: bv32, name: Option<string>): (es: seq<Event>)
    ensures |es| <= |kinds|
  {
    if kinds == [] then []
    else KindEvents(kinds[0], event, name) + Matching(kinds[1..], event, name)
  }

  /**
   * What a key with `kinds` and `mask` signals for `event`: the kinds whose
   * mask meets the event, in registration order, if its own mask meets it;
   * otherwise OVERFLOW for a queue overflow, and nothing else.
   */
  function Signals(kinds: seq<Kind>, mask: bv32, event: bv32, name: Option<string>): seq<Event> {
    if event & mask != 0 then Matching(kinds, event, name)
    else if event == IN_Q_OVERFLOW then [Event(Overflow, None)]
    else []
  }

  class WatchKey {
    const service: ServiceId
    const watchable: string
    const kinds: seq<Kind>
    var mask: bv32
    /** The events signalled to this key, oldest first. */
    var events: seq<Event>

    /** Only reached through `NewWatchKey`, which refuses kinds with no mask. */
    constructor (service: ServiceId, watchable: string, kinds: seq<Kind>)
      requires MaskOf(kinds) != 0
      ensures this.service == service && this.watchable == watchable && this.kinds == kinds
      ensures mask == MaskOf(kinds) && events == []
    {
      this.service := service;
      this.watchable := watchable;
      this.kinds := kinds;
      mask := MaskOf(kinds);
      events := [];
    }

    /** A key is valid while its mask is non-zero and the base key is valid. */
    predicate IsValid(baseValid: bool)
      reads this
    {
      mask != 0 && baseValid
    }

    /** `onEvent`: signals the kinds the event concerns, in registration order. */
    method OnEvent(event: bv32, name: Option<string>)
      modifies this
      ensures events == old(events) + Signals(kinds, mask, event, name)
      ensures mask == old(mask)
    {
      if event & mask != 0 {
        var i := 0;
        while i < |kinds|
          invariant 0 <= i <= |kinds|
          invariant mask == old(mask)
          invariant events == old(events) + Matching(kinds[..i], event, name)
        {
          MatchingSnoc(kinds, i, event, name);
          events := events + KindEvents(kinds[i], event, name);
          i := i + 1;
        }
        assert kinds[..i] == kinds;
      } else if event == IN_Q_OVERFLOW {
        events := events + [Event(Overflow, None)];
      } else {
        assert old(events) + [] == old(events);
      }
    }
  }

  /** The events of the first `i + 1` kinds: those of the first `i`, then those of kind `i`. */
  lemma {:induction false} MatchingSnoc(kinds: seq<Kind>, i: nat, event: bv32, name: Option<string>)
    requires i < |kinds|
    ensures Matching(kinds[..i + 1], event, name) ==
      Matching(kinds[..i], event, name) + KindEvents(kinds[i], event, name)
  {
    if i == 0 {
      assert kinds[..1] == [kinds[0]] && kinds[..0] == [];
      assert Matching([kinds[0]], event, name) ==
        KindEvents(kinds[0], event, name) + Matching([], event, name);
    } else {
      assert kinds[..i + 1][1..] == kinds[1..][..i];
      assert kinds[..i][1..] == kinds[1..][..i - 1];
      MatchingSnoc(kinds[1..], i - 1, event, name);
      assert kinds[..i + 1][0] == kinds[0] && kinds[..i][0] == kinds[0];
    }
  }

  /** `new AndroidWatchKey(...)`: kinds whose combined mask is zero are refused. */
  method NewWatchKey(service: ServiceId, watchable: string, kinds: seq<Kind>)
    returns (r: Result<WatchKey, WatchError>)
    ensures r.Failure? <==> MaskOf(kinds) == 0
    ensures r.Failure? ==> r.error == IllegalArgument
    ensures r.Success? ==>
      && fresh(r.value) && r.value.mask == MaskOf(kinds) != 0
      && r.value.service == service && r.value.watchable == watchable
      && r.value.kinds == kinds && r.value.events == []
  {
    if MaskOf(kinds) == 0 {
      return Failure(IllegalArgument);
    }
    var key := new WatchKey(service, watchable, kinds);
    return Success(key);
  }

  /** A kind is among the events exactly when it is one of the kinds and its mask meets the event. */
  lemma MatchingKinds(kinds: seq<Kind>, event: bv32, name: Option<string>, k: Kind)
    ensures (exists e :: e in Matching(kinds, event, name) && e.kind == k) <==>
      k in kinds && event & Mask(k) != 0
  {
    if k in kinds && event & Mask(k) != 0 {
      MatchingHas(kinds, event, name, k);
    }
    if exists e :: e in Matching(kinds, event, name) && e.kind == k {
      var e :| e in Matching(kinds, event, name) && e.kind == k;
      MatchingFrom(kinds, event, name, e);
    }
  }

  /** A kind whose mask meets the event signals an event of that kind. */
  lemma {:induction false} MatchingHas(kinds: seq<Kind>, event: bv32, name: Option<string>, k: Kind)
    requires k in kinds && event & Mask(k) != 0
    ensures Event(k, Context(k, name)) in Matching(kinds, event, name)
  {
    assert Matching(kinds, event, name) ==
      KindEvents(kinds[0], event, name) + Matching(kinds[1..], event, name);
    if kinds[0] != k {
      assert k in kinds[1..];
      MatchingHas(kinds[1..], event, name, k);
    }
  }

  /** Every event signalled is of one of the kinds, and that kind's mask meets the event. */
  lemma {:induction false} MatchingFrom(kinds: seq<Kind>, event: bv32, name: Option<string>, e: Event)
    requires e in Matching(kinds, event, name)
    ensures e.kind in kinds && event & Mask(e.kind) != 0
  {
    assert Matching(kinds, event, name) ==
      KindEvents(kinds[0], event, name) + Matching(kinds[1..], event, name);
    if e !in KindEvents(kinds[0], event, name) {
      MatchingFrom(kinds[1..], event, name, e);
    }
  }

  /** Every event carries the entry's name exactly when its kind is about an entry. */
  lemma {:induction false} MatchingContext(kinds: seq<Kind>, event: bv32, name: Option<string>)
    ensures forall e :: e in Matching(kinds, event, name) ==> e.context == Context(e.kind, name)
  {
    if kinds != [] {
      MatchingContext(kinds[1..], event, name);
      assert Matching(kinds, event, name) ==
        KindEvents(kinds[0], event, name) + Matching(kinds[1..], event, name);
    }
  }

  /**
   * OVERFLOW is signalled exactly when the event is a queue overflow that
   * meets none of the key's bits; otherwise the kinds signalled are those
   * of the key that meet the event, if the key's mask meets it at all.
   */
  lemma SignalsSpec(kinds: seq<Kind>, mask: bv32, event: bv32, name: Option<string>, k: Kind)
    ensures Event(Overflow, None) in Signals(kinds, mask, event, name) <==>
      event & mask == 0 && event == IN_Q_OVERFLOW
    ensures k != Overflow ==>
      ((exists e :: e in Signals(kinds, mask, event, name) && e.kind == k) <==>
        event & mask != 0 && k in kinds && event & Mask(k) != 0)
  {
    MatchingKinds(kinds, event, name, k);
    MatchingKinds(kinds, event, name, Overflow);
    if event & mask != 0 {
      assert Event(Overflow, None).kind == Overflow;
    }
  }

  // ---------------------------------------------------------------------
  // The observer of one path
  // ---------------------------------------------------------------------

  /** The OR of the keys' masks. */
  function KeysMask(keys: seq<WatchKey>): bv32
    reads keys
  {
    if keys == [] then 0 else keys[0].mask | KeysMask(keys[1..])
  }

  /** `keys` without `key`, the others in their order. */
  function Without(keys: seq<WatchKey>, key: WatchKey): (r: seq<WatchKey>)
    ensures forall i :: 0 <= i < |r| ==> r[i] in keys && r[i] != key
    ensures forall i :: 0 <= i < |keys| && keys[i] != key ==> keys[i] in r
  {
    if keys == [] then []
    else (if keys[0] == key then [] else [keys[0]]) + Without(keys[1..], key)
  }

  /** `keys` without the keys of `service`, the others in their order. */
  function WithoutService(keys: seq<WatchKey>, service: ServiceId): (r: seq<WatchKey>)
    ensures forall i :: 0 <= i < |r| ==> r[i] in keys && r[i].service != service
    ensures forall i :: 0 <= i < |keys| && keys[i].service != service ==> keys[i] in r
  {
    if keys == [] then []
    else (if keys[0].service == service then [] else [keys[0]]) + WithoutService(keys[1..], service)
  }

  /** Keys whose masks did not change have the same OR. */
  twostate lemma KeysMaskUnchanged(keys: seq<WatchKey>)
    requires forall k :: k in keys ==> old(allocated(k)) && k.mask == old(k.mask)
    ensures KeysMask(keys) == old(KeysMask(keys))
  {
    if keys != [] {
      assert keys[0] in keys;
      assert forall k :: k in keys[1..] ==> k in keys;
      KeysMaskUnchanged(keys[1..]);
    }
  }

  lemma {:induction false} KeysMaskAppend(keys: seq<WatchKey>, key: WatchKey)
    ensures KeysMask(keys + [key]) == KeysMask(keys) | key.mask
  {
    if keys == [] {
      assert keys + [key] == [key];
    } else {
      assert (keys + [key])[0] == keys[0] && (keys + [key])[1..] == keys[1..] + [key];
      KeysMaskAppend(keys[1..], key);
    }
  }

  lemma {:induction false} WithoutConcat(a: seq<WatchKey>, b: seq<WatchKey>, key: WatchKey)
    ensures Without(a + b, key) == Without(a, key) + Without(b, key)
  {
    if a == [] {
      assert a + b == b;
    } else {
      assert (a + b)[0] == a[0] && (a + b)[1..] == a[1..] + b;
      WithoutConcat(a[1..], b, key);
    }
  }

  lemma WithoutStep(keys: seq<WatchKey>, i: nat, key: WatchKey)
    requires i < |keys|
    ensures Without(keys[..i + 1], key) ==
      Without(keys[..i], key) + (if keys[i] == key then [] else [keys[i]])
  {
    var one := [keys[i]];
    assert keys[..i + 1] == keys[..i] + one;
    WithoutConcat(keys[..i], one, key);
    assert one[1..] == [];
  }

  lemma {:induction false} WithoutServiceConcat(a: seq<WatchKey>, b: seq<WatchKey>, service: ServiceId)
    ensures WithoutService(a + b, service) == WithoutService(a, service) + WithoutService(b, service)
  {
    if a == [] {
      assert a + b == b;
    } else {
      assert (a + b)[0] == a[0] && (a + b)[1..] == a[1..] + b;
      WithoutServiceConcat(a[1..], b, service);
    }
  }

  lemma WithoutServiceStep(keys: seq<WatchKey>, i: nat, service: ServiceId)
    requires i < |keys|
    ensures WithoutService(keys[..i + 1], service) ==
      WithoutService(keys[..i], service) + (if keys[i].service == service then [] else [keys[i]])
  {
    var one := [keys[i]];
    assert keys[..i + 1] == keys[..i] + one;
    WithoutServiceConcat(keys[..i], one, service);
    assert one[1..] == [];
  }

  /** The loop of `cancel(key)`: the other keys, in order, and the OR of their masks. */
  method KeepOthers(keys: seq<WatchKey>, key: WatchKey) returns (kept: seq<WatchKey>, newMask: bv32)
    ensures kept == Without(keys, key)
    ensures newMask == KeysMask(kept)
  {
    newMask, kept := 0, [];
    var i := 0;
    while i < |keys|
      invariant 0 <= i <= |keys|
      invariant kept == Without(keys[..i], key)
      invariant newMask == KeysMask(kept)
    {
      WithoutStep(keys, i, key);
      if keys[i] != key {
        KeysMaskAppend(kept, keys[i]);
        newMask := newMask | keys[i].mask;
        kept := kept + [keys[i]];
      }
      i := i + 1;
    }
    assert keys[..i] == keys;
  }

  /** The loop of `cancel(service)`: the keys of other services, in order, and the OR of their masks. */
  method KeepOtherServices(keys: seq<WatchKey>, service: ServiceId) returns (kept: seq<WatchKey>, newMask: bv32)
    ensures kept == WithoutService(keys, service)
    ensures newMask == KeysMask(kept)
  {
    newMask, kept := 0, [];
    var i := 0;
    while i < |keys|
      invariant 0 <= i <= |keys|
      invariant kept == WithoutService(keys[..i], service)
      invariant newMask == KeysMask(kept)
    {
      WithoutServiceStep(keys, i, service);
      if keys[i].service != service {
        KeysMaskAppend(kept, keys[i]);
        newMask := newMask | keys[i].mask;
        kept := kept + [keys[i]];
      }
      i := i + 1;
    }
    assert keys[..i] == keys;
  }

  class PathObserver {
    const path: string
    var keys: seq<WatchKey>
    var mask: bv32
    /** The platform observer: watching with the given mask, or none. */
    var observer: Option<bv32>
    /** How many platform observers have been started. */
    var starts: nat

    /** A platform observer runs, with the observer's mask, iff the mask is non-zero. */
    predicate Watching()
      reads this
    {
      observer == (if mask == 0 then None else Some(mask))
    }

    /** The mask is the OR of the keys' masks. */
    predicate Valid()
      reads this, keys
    {
      Watching() && mask == KeysMask(keys)
    }

    constructor (path: string)
      ensures this.path == path && keys == [] && mask == 0 && observer == None && starts == 0
      ensures Valid()
    {
      this.path := path;
      keys := [];
      mask := 0;
      observer := None;
      starts := 0;
    }

    /**
     * `listen`: a zero mask stops the platform observer; a changed mask
     * starts a new one; an unchanged one leaves it running.  Stopping
     * dereferences the platform observer, so one must be running.
     */
    method Listen(newMask: bv32) returns (listening: bool)
      requires Watching()
      requires newMask != 0 || observer.Some?
      modifies this
      ensures listening <==> newMask != 0
      ensures listening <==> observer.Some?
      ensures mask == newMask && Watching()
      ensures starts == old(starts) + (if newMask != 0 && newMask != old(mask) then 1 else 0)
      ensures keys == old(keys)
    {
      if newMask == 0 {
        mask := 0;
        observer := None;
        return false;
      }
      if newMask != mask {
        mask := newMask;
        observer := Some(newMask);
        starts := starts + 1;
      }
      return true;
    }

    /** `register`: the key joins the end of the list and its bits join the mask. */
    method Register(key: WatchKey)
      requires Watching() && key.mask != 0
      modifies this
      ensures keys == old(keys) + [key]
      ensures mask == old(mask | key.mask) && Watching()
      ensures starts == old(starts) + (if mask != old(mask) then 1 else 0)
      ensures KeysMask(keys) == old(KeysMask(keys) | key.mask)
      ensures observer.Some?
    {
      KeysMaskAppend(keys, key);
      keys := keys + [key];
      var listening := Listen(mask | key.mask);
    }

    /**
     * `cancel(key)`: removes that key, by identity, keeping the order of
     * the others, and listens with the OR of their masks; false when none
     * is left.
     */
    method Cancel(key: WatchKey) returns (listening: bool)
      requires Watching() && mask != 0
      modifies this
      ensures keys == Without(old(keys), key)
      ensures Valid()
      ensures listening <==> mask != 0
      ensures listening <==> observer.Some?
      ensures starts == old(starts) + (if mask != 0 && mask != old(mask) then 1 else 0)
    {
      var kept, newMask := KeepOthers(keys, key);
      keys := kept;
      listening := Listen(newMask);
    }

    /** `cancel(service)`: removes every key of the service and listens with the rest. */
    method CancelService(service: ServiceId) returns (listening: bool)
      requires Watching() && mask != 0
      modifies this
      ensures keys == WithoutService(old(keys), service)
      ensures Valid()
      ensures listening <==> mask != 0
      ensures listening <==> observer.Some?
      ensures starts == old(starts) + (if mask != 0 && mask != old(mask) then 1 else 0)
    {
      var kept, newMask := KeepOtherServices(keys, service);
      keys := kept;
      listening := Listen(newMask);
    }

    /** The platform observer's callback: every key, in order, receives the event. */
    method Dispatch(event: bv32, name: Option<string>)
      requires forall i, j :: 0 <= i < j < |keys| ==> keys[i] != keys[j]
      modifies keys
      ensures forall k :: k in keys ==>
        k.events == old(k.events) + Signals(k.kinds, k.mask, event, name) && k.mask == old(k.mask)
    {
      var i := 0;
      while i < |keys|
        invariant 0 <= i <= |keys|
        invariant forall j :: 0 <= j < i ==>
          keys[j].events == old(keys[j].events) + Signals(keys[j].kinds, keys[j].mask, event, name)
        invariant forall j :: i <= j < |keys| ==> keys[j].events == old(keys[j].events)
        invariant forall j :: 0 <= j < |keys| ==> keys[j].mask == old(keys[j].mask)
      {
        keys[i].OnEvent(event, name);
        i := i + 1;
      }
    }
  }

  // ---------------------------------------------------------------------
  // The service: one observer per watched path
  // ---------------------------------------------------------------------

  class ObserverRegistry {
    var observers: map<string, PathObserver>

    /** Each entry is the observer of its own path, and is listening. */
    predicate Valid()
      reads this, observers.Values
    {
      forall p :: p in observers ==>
        observers[p].path == p && observers[p].observer.Some? && observers[p].Watching()
    }

    constructor ()
      ensures observers == map[] && Valid()
    {
      observers := map[];
    }

    /**
     * `register`: refuses a path of another file system or one that does not
     * exist, then kinds with no mask; otherwise adds a new key to the path's
     * observer, creating the observer if the path has none.
     */
    method Register(service: ServiceId, path: string, kinds: seq<Kind>, sameFileSystem: bool, present: bool)
      returns (r: Result<WatchKey, WatchError>)
      requires Valid()
      modifies this, observers.Values
      ensures Valid()
      ensures !sameFileSystem ==> r == Failure(ProviderMismatch)
      ensures sameFileSystem && !present ==> r == Failure(NoSuchFile)
      ensures sameFileSystem && present && MaskOf(kinds) == 0 ==> r == Failure(IllegalArgument)
      ensures r.Failure? ==> observers == old(observers)
      ensures forall p :: p in old(observers) && (r.Failure? || p != path) ==> unchanged(old(observers[p]))
      ensures r.Success? <==> sameFileSystem && present && MaskOf(kinds) != 0
      ensures r.Success? ==>
        && fresh(r.value) && r.value.mask == MaskOf(kinds) && r.value.watchable == path
        && path in observers && observers.Keys == old(observers.Keys) + {path}
        && (forall p :: p in old(observers) && p != path ==> observers[p] == old(observers[p]))
        && observers[path].keys == (if path in old(observers) then old(observers[path].keys) else []) + [r.value]
        && observers[path].mask == (if path in old(observers) then old(observers[path].mask) else 0) | r.value.mask
    {
      if !sameFileSystem {
        return Failure(ProviderMismatch);
      }
      if !present {
        return Failure(NoSuchFile);
      }
      r := NewWatchKey(service, path, kinds);
      if r.Success? {
        AddKey(r.value);
      }
    }

    /** Adds a key to its path's observer, creating the observer if the path has none. */
    method AddKey(key: WatchKey)
      requires Valid() && key.mask != 0
      modifies this, observers.Values
      ensures Valid()
      ensures observers.Keys == old(observers.Keys) + {key.watchable}
      ensures forall p :: p in old(observers) && p != key.watchable ==> observers[p] == old(observers[p])
      ensures forall p :: p in old(observers) && p != key.watchable ==> unchanged(old(observers[p]))
      ensures key.watchable in old(observers) ==> observers[key.watchable] == old(observers[key.watchable])
      ensures observers[key.watchable].keys ==
        (if key.watchable in old(observers) then old(observers[key.watchable].keys) else []) + [key]
      ensures key.watchable in old(observers) ==>
        observers[key.watchable].mask == old(observers[key.watchable].mask | key.mask)
      ensures key.watchable !in old(observers) ==> observers[key.watchable].mask == old(key.mask)
    {
      if key.watchable in observers {
        RegisterAt(key);
      } else {
        var observer := new PathObserver(key.watchable);
        observer.Register(key);
        observers := observers[key.watchable := observer];
      }
    }

    /** Adds a key to the observer its path already has. */
    method RegisterAt(key: WatchKey)
      requires Valid() && key.mask != 0 && key.watchable in observers
      modifies observers[key.watchable]
      ensures Valid()
      ensures observers[key.watchable].keys == old(observers[key.watchable].keys) + [key]
      ensures observers[key.watchable].mask == old(observers[key.watchable].mask | key.mask)
    {
      var observer := observers[key.watchable];
      observer.Register(key);
    }

    /**
     * `key.cancel()`: the key's mask becomes zero (so it is no longer
     * valid), the key leaves its path's observer, and an observer left
     * with no bits is dropped.
     */
    method CancelKey(key: WatchKey)
      requires Valid()
      modifies this, key, observers.Values
      ensures Valid()
      ensures key.mask == 0 && !key.IsValid(true)
      ensures key.watchable !in old(observers) ==> observers == old(observers)
      ensures key.watchable in old(observers) ==>
        && observers[key.watchable := old(observers[key.watchable])] == old(observers)
        && old(observers[key.watchable]).keys == Without(old(observers[key.watchable].keys), key)
        && (key.watchable in observers <==> old(observers[key.watchable]).mask != 0)
        && old(observers[key.watchable]).mask == KeysMask(old(observers[key.watchable]).keys)
      ensures forall p :: p in old(observers) && p != key.watchable ==> unchanged(old(observers[p]))
    {
      key.mask := 0;
      var path := key.watchable;
      if path in observers {
        var observer := observers[path];
        var listening := observer.Cancel(key);
        if !listening {
          observers := observers - {path};
        }
      }
    }

    /**
     * `implCloseService`: every observer drops the keys of the service, and
     * the observers left with no bits are dropped.
     */
    method CloseService(service: ServiceId)
      requires Valid()
      modifies this, observers.Values
      ensures Valid()
      ensures observers.Keys <= old(observers.Keys)
      ensures forall p :: p in old(observers) ==>
        && old(observers[p]).keys == WithoutService(old(observers[p].keys), service)
        && old(observers[p]).mask == old(KeysMask(WithoutService(observers[p].keys, service)))
        && (p in observers <==> old(observers[p]).observer.Some?)
        && (p in observers ==> observers[p] == old(observers[p]))
    {
      var todo := observers.Keys;
      ghost var before := observers;
      ghost var start := map p | p in observers :: observers[p].keys;
      ghost var want := map p | p in observers :: KeysMask(WithoutService(observers[p].keys, service));
      while todo != {}
        invariant todo <= before.Keys && observers.Keys <= before.Keys
        invariant forall p :: p in observers ==> observers[p] == before[p]
        invariant Valid() && Closing(before, todo, start, want, service)
        invariant forall k: WatchKey :: old(allocated(k)) ==> k.mask == old(k.mask)
        decreases todo
      {
        var p :| p in todo;
        KeysMaskUnchanged(WithoutService(start[p], service));
        CloseStep(p, service, before, todo, start, want);
        todo := todo - {p};
      }
    }

    /**
     * Where `implCloseService` stands: the observers still to visit keep
     * their keys `start`, the visited ones hold the keys of other services
     * and the mask `want` of those keys, and are in the map exactly when
     * their platform observer still runs.
     */
    ghost predicate Closing(before: map<string, PathObserver>, todo: set<string>,
                            start: map<string, seq<WatchKey>>, want: map<string, bv32>, service: ServiceId)
      reads this, before.Values
    {
      forall p :: p in before ==>
        && before[p].path == p && p in start && p in want
        && if p in todo then
            p in observers && before[p].keys == start[p]
          else
            && before[p].keys == WithoutService(start[p], service)
            && before[p].mask == want[p]
            && (p in observers <==> before[p].observer.Some?)
    }

    /** One turn of the `implCloseService` loop, on the observer of `p`. */
    method CloseStep(p: string, service: ServiceId, ghost before: map<string, PathObserver>, ghost todo: set<string>,
                     ghost start: map<string, seq<WatchKey>>, ghost want: map<string, bv32>)
      requires Valid() && Closing(before, todo, start, want, service)
      requires p in todo && todo <= before.Keys && observers.Keys <= before.Keys
      requires forall q :: q in observers ==> observers[q] == before[q]
      requires want[p] == KeysMask(WithoutService(start[p], service))
      modifies this, observers[p]
      ensures Valid() && Closing(before, todo - {p}, start, want, service)
      ensures observers.Keys <= before.Keys
      ensures forall q :: q in observers ==> observers[q] == before[q]
      ensures forall k: WatchKey :: old(allocated(k)) ==> k.mask == old(k.mask)
    {
      CancelServiceAt(p, service, before, want[p]);
    }

    /** One step of `implCloseService`: the observer of `p` drops the service's keys, and is dropped if left with no bits. */
    method CancelServiceAt(p: string, service: ServiceId, ghost others: map<string, PathObserver>, ghost newMask: bv32)
      requires Valid() && p in observers
      requires newMask == KeysMask(WithoutService(observers[p].keys, service))
      requires forall q :: q in others ==> others[q].path == q
      modifies this, observers[p]
      ensures Valid()
      ensures forall q :: q in others && q != p ==>
        others[q].keys == old(others[q].keys) && others[q].observer == old(others[q].observer)
        && others[q].mask == old(others[q].mask)
      ensures old(observers[p]).keys == WithoutService(old(observers[p].keys), service)
      ensures old(observers[p]).mask == newMask
      ensures p in observers <==> old(observers[p]).observer.Some?
      ensures forall q :: q != p ==> (q in observers <==> q in old(observers))
      ensures forall q :: q in observers ==> observers[q] == old(observers[q])
    {
      var observer := observers[p];
      assert forall q :: q in observers && q != p ==> observers[q] != observer;
      var listening := observer.CancelService(service);
      if !listening {
        observers := observers - {p};
      }
    }
  }
}
