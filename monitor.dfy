/** The device monitor (streamdeck_ui/stream_deck_monitor.py): one pass of the
    reconciliation loop in `_run`, and `start`/`stop`.

    Devices are an abstract type `D`, and the enumeration a pass sees is its
    parameter (a list of (id, device) pairs in enumeration order). The two
    callbacks are recorded as events in call order. The thread is the flag
    `threadStarted` (`monitor_thread is not None`), `threadCount` counts the
    threads started, and `join` is not modelled beyond the AttributeError it
    raises on `None`. */
module Monitors {
  import opened Wrappers

  datatype Event = Attached(id: string) | Detached(id: string)

  /** The `streamdecks` dictionary: its entries and its key order (Python
      dictionaries iterate in insertion order). */
  datatype Tracked<D> = Tracked(devices: map<string, D>, order: seq<string>)

  ghost predicate Wf<D>(t: Tracked<D>) {
    Enumerates(t.order, t.devices.Keys)
  }

  /** The ids of an enumeration. */
  function Ids<D>(enumerated: seq<(string, D)>): set<string> {
    set i | 0 <= i < |enumerated| :: enumerated[i].0
  }

  /** `order` with `id` taken out, the rest in the same order. */
  function Without(order: seq<string>, id: string): (r: seq<string>)
    ensures forall x :: x in r <==> x in order && x != id
    ensures Unique(order) ==> Unique(r)
    decreases |order|
  {
    if |order| == 0 then []
    else
      var init, last := order[..|order| - 1], order[|order| - 1];
      assert forall x :: x in order <==> x in init || x == last;
      assert Unique(order) ==> Unique(init) && last !in init by {
        if Unique(order) {
          forall k | 0 <= k < |init| ensures init[k] != last {
            assert init[k] == order[k];
          }
        }
      }
      if last == id then Without(init, id) else Without(init, id) + [last]
  }

  /** `del self.streamdecks[id]`. */
  function Remove<D>(t: Tracked<D>, id: string): (r: Tracked<D>)
    requires Wf(t)
    ensures Wf(r) && r.devices.Keys == t.devices.Keys - {id}
    ensures forall x :: x in r.devices ==> r.devices[x] == t.devices[x]
  {
    Tracked(t.devices - {id}, Without(t.order, id))
  }

  /** The first loop of a pass, over the first `|enumerated|` devices: each id
      not yet tracked is stored and announced. */
  function AttachAll<D>(t: Tracked<D>, enumerated: seq<(string, D)>): (r: (Tracked<D>, seq<Event>))
    decreases |enumerated|
  {
    if |enumerated| == 0 then (t, [])
    else
      var (before, events) := AttachAll(t, enumerated[..|enumerated| - 1]);
      var (id, deck) := enumerated[|enumerated| - 1];
      if id in before.devices then (before, events)
      else (Tracked(before.devices[id := deck], before.order + [id]), events + [Attached(id)])
  }

  /** The second loop of a pass, over a snapshot of the keys: each id absent
      from `present` is deleted and announced. */
  function DetachAll<D>(t: Tracked<D>, keys: seq<string>, present: set<string>): (r: (Tracked<D>, seq<Event>))
    requires Wf(t)
    ensures Wf(r.0)
    decreases |keys|
  {
    if |keys| == 0 then (t, [])
    else
      var (before, events) := DetachAll(t, keys[..|keys| - 1], present);
      var id := keys[|keys| - 1];
      if id in present then (before, events)
      else (Remove(before, id), events + [Detached(id)])
  }

  /** One more key of the snapshot: detached when absent, kept otherwise. */
  lemma DetachAllStep<D>(t: Tracked<D>, keys: seq<string>, j: nat, present: set<string>)
    requires Wf(t) && j < |keys|
    ensures var (before, events) := DetachAll(t, keys[..j], present);
            DetachAll(t, keys[..j + 1], present) ==
            if keys[j] in present then (before, events) else (Remove(before, keys[j]), events + [Detached(keys[j])])
  {
    assert keys[..j + 1][..j] == keys[..j];
  }

  /** A whole pass: attach the new, then detach the absent. */
  function Pass<D>(t: Tracked<D>, enumerated: seq<(string, D)>): (Tracked<D>, seq<Event>)
    requires Wf(t)
  {
    var (attached, attachEvents) := AttachAll(t, enumerated);
    AttachAllWf(t, enumerated);
    var (detached, detachEvents) := DetachAll(attached, attached.order, Ids(enumerated));
    (detached, attachEvents + detachEvents)
  }

    /** The first loop keeps the dictionary well formed, tracks exactly the old
      ids plus the enumerated ones, and announces each newly seen id once and
      nothing else; already tracked ids get no callback. */
  lemma {:induction false} AttachAllWf<D>(t: Tracked<D>, enumerated: seq<(string, D)>)
    requires Wf(t)
    ensures Wf(AttachAll(t, enumerated).0)
    ensures AttachAll(t, enumerated).0.devices.Keys == t.devices.Keys + Ids(enumerated)
    ensures forall x :: x in t.devices ==> AttachAll(t, enumerated).0.devices[x] == t.devices[x]
    ensures forall e :: e in AttachAll(t, enumerated).1 <==>
              e.Attached? && e.id in Ids(enumerated) && e.id !in t.devices
    ensures Unique(AttachAll(t, enumerated).1)
    decreases |enumerated|
  {
    if |enumerated| > 0 {
      var prefix := enumerated[..|enumerated| - 1];
      AttachAllWf(t, prefix);
      var (before, events) := AttachAll(t, prefix);
      var (id, deck) := enumerated[|enumerated| - 1];
      assert Ids(enumerated) == Ids(prefix) + {id} by {
        forall x | x in Ids(enumerated) ensures x in Ids(prefix) + {id} {
          var i :| 0 <= i < |enumerated| && enumerated[i].0 == x;
          if i < |enumerated| - 1 {
            assert prefix[i].0 == x;
          }
        }
        forall x | x in Ids(prefix) ensures x in Ids(enumerated) {
          var i :| 0 <= i < |prefix| && prefix[i].0 == x;
          assert enumerated[i].0 == x;
        }
      }
      if id !in before.devices {
        forall e | e in events ensures e != Attached(id) {
        }
      }
    }
  }

  /** The second loop over all tracked keys keeps exactly the present ids and
      announces each absent one once. */
  lemma {:induction false} DetachAllFacts<D>(t: Tracked<D>, keys: seq<string>, present: set<string>)
    requires Wf(t)
    requires forall i, j :: 0 <= i < j < |keys| ==> keys[i] != keys[j]
    requires forall x :: x in keys ==> x in t.devices
    ensures DetachAll(t, keys, present).0.devices.Keys ==
            t.devices.Keys - (set x | x in keys && x !in present)
    ensures forall x :: x in DetachAll(t, keys, present).0.devices ==>
              DetachAll(t, keys, present).0.devices[x] == t.devices[x]
    ensures forall e :: e in DetachAll(t, keys, present).1 <==> e.Detached? && e.id in keys && e.id !in present
    ensures Unique(DetachAll(t, keys, present).1)
    decreases |keys|
  {
    if |keys| > 0 {
      var prefix := keys[..|keys| - 1];
      var id := keys[|keys| - 1];
      assert forall x :: x in keys <==> x in prefix || x == id;
      DetachAllFacts(t, prefix, present);
      var (before, events) := DetachAll(t, prefix, present);
      assert id !in prefix;
      if id !in present {
        forall e | e in events ensures e != Detached(id) {
        }
      }
    }
  }

  /** Two duplicate-free sequences with no common element concatenate to a
      duplicate-free one. */
  lemma UniqueConcat<T>(a: seq<T>, b: seq<T>)
    requires Unique(a) && Unique(b) && forall x :: x in a ==> x !in b
    ensures Unique(a + b)
  {
    var c := a + b;
    forall i, j | 0 <= i < j < |c| ensures c[i] != c[j] {
      if j < |a| {
        assert c[i] == a[i] && c[j] == a[j];
      } else if i < |a| {
        assert c[i] in a && c[j] == b[j - |a|];
      } else {
        assert c[i] == b[i - |a|] && c[j] == b[j - |a|];
      }
    }
  }

  /** How `RunPass` composes its two loops into `Pass`. */
  lemma PassSplit<D>(t: Tracked<D>, enumerated: seq<(string, D)>, before: seq<Event>, middle: seq<Event>, after: seq<Event>)
    requires Wf(t)
    requires Wf(AttachAll(t, enumerated).0)
    requires middle == before + AttachAll(t, enumerated).1
    requires after == middle + DetachAll(AttachAll(t, enumerated).0, AttachAll(t, enumerated).0.order, Ids(enumerated)).1
    ensures Pass(t, enumerated).0 == DetachAll(AttachAll(t, enumerated).0, AttachAll(t, enumerated).0.order, Ids(enumerated)).0
    ensures after == before + Pass(t, enumerated).1
  {
  }

  /** After one pass the tracked ids are exactly the enumerated ids; the
      attach callback fires once for each enumerated id that was not tracked,
      the detach callback once for each tracked id that is absent, and nothing
      else is announced. */
  lemma PassReconciles<D>(t: Tracked<D>, enumerated: seq<(string, D)>)
    requires Wf(t)
    ensures var (after, events) := Pass(t, enumerated);
            Wf(after) && after.devices.Keys == Ids(enumerated) &&
            (forall id :: Attached(id) in events <==> id in Ids(enumerated) && id !in t.devices) &&
            (forall id :: Detached(id) in events <==> id in t.devices && id !in Ids(enumerated)) &&
            Unique(events)
  {
    AttachAllWf(t, enumerated);
    var (attached, attachEvents) := AttachAll(t, enumerated);
    DetachAllFacts(attached, attached.order, Ids(enumerated));
    var (detached, detachEvents) := DetachAll(attached, attached.order, Ids(enumerated));
    var events := attachEvents + detachEvents;
    assert detached.devices.Keys == Ids(enumerated) by {
      var gone := set x | x in attached.order && x !in Ids(enumerated);
      assert detached.devices.Keys == attached.devices.Keys - gone;
      assert forall x :: x in attached.order <==> x in attached.devices.Keys;
    }
    assert forall e :: e in attachEvents ==> e !in detachEvents;
    UniqueConcat(attachEvents, detachEvents);
    forall id ensures Detached(id) in events <==> id in t.devices && id !in Ids(enumerated) {
      assert Detached(id) in events <==> Detached(id) in detachEvents;
    }
    forall id ensures Attached(id) in events <==> id in Ids(enumerated) && id !in t.devices {
      assert Attached(id) in events <==> Attached(id) in attachEvents;
    }
  }

  /** A pass over an enumeration that lists exactly the tracked devices
      announces nothing and changes nothing. */
  lemma StablePass<D>(t: Tracked<D>, enumerated: seq<(string, D)>)
    requires Wf(t) && Ids(enumerated) == t.devices.Keys
    ensures forall e :: e !in Pass(t, enumerated).1
    ensures Pass(t, enumerated).0.devices.Keys == t.devices.Keys
  {
    PassReconciles(t, enumerated);
    forall e ensures e !in Pass(t, enumerated).1 {
      if e.Attached? {
        assert e == Attached(e.id);
      } else {
        assert e == Detached(e.id);
      }
    }
  }

  class StreamDeckMonitor<D> {
    var quitSet: bool
    var streamdecks: map<string, D>
    var order: seq<string>
    var threadStarted: bool
    var events: seq<Event>
    /** How many monitor threads have been started over the object's life. */
    var threadCount: nat

    function Dict(): Tracked<D>
      reads this
    {
      Tracked(streamdecks, order)
    }

    ghost predicate Valid()
      reads this
    {
      Wf(Dict())
    }

    /** The quit event starts clear, nothing is tracked, there is no thread. */
    constructor ()
      ensures Valid() && !quitSet && streamdecks == map[] && !threadStarted && events == [] && threadCount == 0
    {
      quitSet := false;
      streamdecks := map[];
      order := [];
      threadStarted := false;
      events := [];
      threadCount := 0;
    }

    /** `start`. Its guard `not self.quit.is_set` negates a bound method, which
        is always truthy, so the guard never returns: every call starts a new
        thread and clears the quit event, even while a thread is running. */
    method Start()
      requires Valid()
      modifies this`threadStarted, this`quitSet, this`threadCount
      ensures Valid() && threadStarted && !quitSet
      ensures threadCount == old(threadCount) + 1
    {
      threadStarted := true;
      quitSet := false;
      threadCount := threadCount + 1;
    }

    /** `start` as its docstring describes it: while a thread is running
        (started and quit clear) nothing happens; otherwise a new thread is
        started and the quit event cleared. */
    method StartIntended()
      requires Valid()
      modifies this`threadStarted, this`quitSet, this`threadCount
      ensures Valid() && threadStarted && !quitSet
      ensures threadCount == old(threadCount) + (if old(threadStarted) && !old(quitSet) then 0 else 1)
    {
      if threadStarted && !quitSet {
        return;
      }
      threadStarted := true;
      quitSet := false;
      threadCount := threadCount + 1;
    }

    /** `stop`. With quit already set it does nothing. Otherwise it sets quit;
        with no thread ever started `join` is called on `None` and raises
        AttributeError; else every tracked id is announced as detached, in
        order, and the dictionary is emptied. */
    method Stop() returns (r: Result<()>)
      requires Valid()
      modifies this
      ensures Valid() && threadStarted == old(threadStarted) && threadCount == old(threadCount)
      ensures old(quitSet) ==> r.Ok? && quitSet && streamdecks == old(streamdecks) && order == old(order) &&
                               events == old(events)
      ensures !old(quitSet) && !old(threadStarted) ==>
                r.Err? && quitSet && streamdecks == old(streamdecks) && order == old(order) && events == old(events)
      ensures !old(quitSet) && old(threadStarted) ==>
                r.Ok? && quitSet && streamdecks == map[] && order == [] &&
                events == old(events) + seq(|old(order)|, i requires 0 <= i < |old(order)| => Detached(old(order)[i]))
    {
      if quitSet {
        return Ok(());
      }
      quitSet := true;
      if !threadStarted {
        return Err(AttributeError("join"));
      }
      var keys := order;
      var i := 0;
      while i < |keys|
        invariant 0 <= i <= |keys|
        invariant quitSet && threadStarted == old(threadStarted) && threadCount == old(threadCount) && Valid()
        invariant events == old(events) + seq(i, k requires 0 <= k < i => Detached(keys[k]))
      {
        events := events + [Detached(keys[i])];
        i := i + 1;
      }
      streamdecks := map[];
      order := [];
      return Ok(());
    }

    /** One pass of the `_run` loop while quit is clear, over the devices the
        enumeration returned. */
    method RunPass(enumerated: seq<(string, D)>)
      requires Valid()
      modifies this`streamdecks, this`order, this`events
      ensures Valid()
      ensures (Dict(), events) == (Pass(old(Dict()), enumerated).0, old(events) + Pass(old(Dict()), enumerated).1)
    {
      ghost var start := Dict();
      ghost var before := events;
      AttachNew(enumerated);
      ghost var middle := events;
      DetachAbsent(Ids(enumerated));
      PassSplit(start, enumerated, before, middle, events);
    }

    /** The first loop of a pass. */
    method AttachNew(enumerated: seq<(string, D)>)
      requires Valid()
      modifies this`streamdecks, this`order, this`events
      ensures Valid()
      ensures (Dict(), events) == (AttachAll(old(Dict()), enumerated).0, old(events) + AttachAll(old(Dict()), enumerated).1)
    {
      ghost var start := Dict();
      ghost var added: seq<Event> := [];
      var i := 0;
      while i < |enumerated|
        invariant 0 <= i <= |enumerated|
        invariant (Dict(), added) == AttachAll(start, enumerated[..i])
        invariant events == old(events) + added
      {
        var (id, deck) := enumerated[i];
        assert enumerated[..i + 1][..i] == enumerated[..i];
        if id !in streamdecks {
          streamdecks := streamdecks[id := deck];
          order := order + [id];
          events := events + [Attached(id)];
          added := added + [Attached(id)];
        }
        i := i + 1;
      }
      assert enumerated[..i] == enumerated;
      AttachAllWf(start, enumerated);
    }

    /** The second loop of a pass, over a snapshot of the tracked ids. */
    method DetachAbsent(present: set<string>)
      requires Valid()
      modifies this`streamdecks, this`order, this`events
      ensures Valid()
      ensures (Dict(), events) ==
              (DetachAll(old(Dict()), old(order), present).0, old(events) + DetachAll(old(Dict()), old(order), present).1)
    {
      ghost var start := Dict();
      ghost var initial := events;
      var keys := order;
      var j := 0;
      while j < |keys|
        invariant 0 <= j <= |keys|
        invariant Dict() == DetachAll(start, keys[..j], present).0
        invariant events == initial + DetachAll(start, keys[..j], present).1
      {
        var id := keys[j];
        ghost var done := DetachAll(start, keys[..j], present);
        DetachAllStep(start, keys, j, present);
        DetachIfAbsent(id, present);
        assert id !in present ==> events == initial + (done.1 + [Detached(id)]);
        j := j + 1;
      }
      assert keys[..j] == keys;
    }

    /** The body of the second loop for one id: `del` and announce it when it
        is no longer enumerated. */
    method DetachIfAbsent(id: string, present: set<string>)
      requires Valid()
      modifies this`streamdecks, this`order, this`events
      ensures Valid()
      ensures id in present ==> Dict() == old(Dict()) && events == old(events)
      ensures id !in present ==> Dict() == Remove(old(Dict()), id) && events == old(events) + [Detached(id)]
    {
      if id !in present {
        streamdecks := streamdecks - {id};
        order := Without(order, id);
        events := events + [Detached(id)];
      }
    }
  }

  /** Calling `start` twice on a new monitor, as written: two threads run. */
  method StartTwiceAsWritten() returns (threads: nat)
    ensures threads == 2
  {
    var m := new StreamDeckMonitor<string>();
    m.Start();
    m.Start();
    threads := m.threadCount;
  }

  /** The same calls against the intended `start`: the second does nothing. */
  method StartTwiceIntended() returns (threads: nat)
    ensures threads == 1
  {
    var m := new StreamDeckMonitor<string>();
    m.StartIntended();
    m.StartIntended();
    threads := m.threadCount;
  }
}
