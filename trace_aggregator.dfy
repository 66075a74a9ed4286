/** `TraceAggregator` of `kafka_trace_consumer.py`: per-trace windows of
    events, with the time each window last received an event; windows idle
    long enough, or full enough, are handed out and forgotten. The clock is a
    parameter (`now`) of the operations that read it. */
module KafkaTraceConsumer {
  import opened Python
  import opened Dicts
  import opened Preprocess

  /** The test of `pop_ready`: idle for at least `inactivity` seconds, or
      holding at least `maxEvents` events. */
  predicate IsReady(events: seq<Event>, lastSeen: real, now: real, inactivity: real, maxEvents: int) {
    now - lastSeen >= inactivity || |events| >= maxEvents
  }

  /** The keys of the windows that are ready at `now`. */
  ghost function ReadySet(buckets: Dict<seq<Event>>, lastSeen: Dict<real>, now: real, inactivity: real, maxEvents: int): set<string> {
    set k | k in lastSeen.values && IsReady(buckets.Get(k, []), lastSeen.values[k], now, inactivity, maxEvents)
  }

  /** `last_seen[key(e)] = now` for each event in turn. */
  function TouchAll(lastSeen: Dict<real>, evs: seq<Event>, now: real): Dict<real> {
    if evs == [] then lastSeen
    else TouchAll(lastSeen, evs[..|evs| - 1], now).Set(TraceKey(evs[|evs| - 1]), now)
  }

  /** The `(key, events)` pairs `pop_ready` returns for the keys `ids`, in
      order, skipping empty windows. */
  function Windows(buckets: Dict<seq<Event>>, ids: seq<string>): (r: seq<(string, seq<Event>)>)
    ensures forall p :: p in r ==> p.0 in ids && p.1 == buckets.Get(p.0, []) && p.1 != []
    ensures forall k :: k in ids && buckets.Get(k, []) != [] ==> (k, buckets.Get(k, [])) in r
  {
    if ids == [] then []
    else
      var init := Windows(buckets, ids[..|ids| - 1]);
      var k := ids[|ids| - 1];
      assert ids == ids[..|ids| - 1] + [k];
      var evs := buckets.Get(k, []);
      if evs != [] then init + [(k, evs)] else init
  }

  lemma WindowsStep(buckets: Dict<seq<Event>>, ids: seq<string>, j: nat)
    requires j < |ids|
    ensures Windows(buckets, ids[..j + 1])
      == Windows(buckets, ids[..j]) + if buckets.Get(ids[j], []) != [] then [(ids[j], buckets.Get(ids[j], []))] else []
  {
    assert ids[..j + 1][..j] == ids[..j];
  }

  /** The number of events in a list of windows. */
  function Volume(windows: seq<(string, seq<Event>)>): nat {
    if windows == [] then 0 else Volume(windows[..|windows| - 1]) + |windows[|windows| - 1].1|
  }

  lemma {:induction false} VolumeAppend(a: seq<(string, seq<Event>)>, b: seq<(string, seq<Event>)>)
    ensures Volume(a + b) == Volume(a) + Volume(b)
  {
    if b == [] {
      assert a + b == a;
    } else {
      VolumeAppend(a, b[..|b| - 1]);
      assert (a + b)[..|a + b| - 1] == a + b[..|b| - 1];
    }
  }

  /** The windows for `ids` hold as many events as the buckets under `ids`. */
  lemma {:induction false} WindowsVolume(buckets: Dict<seq<Event>>, ids: seq<string>)
    ensures Volume(Windows(buckets, ids)) == Sizes(ids, buckets.values)
  {
    if ids != [] {
      var init := ids[..|ids| - 1];
      var k := ids[|ids| - 1];
      WindowsVolume(buckets, init);
      var evs := buckets.Get(k, []);
      var w := Windows(buckets, init);
      assert Sizes(ids, buckets.values) == Sizes(init, buckets.values) + |evs|;
      if evs != [] {
        assert Windows(buckets, ids) == w + [(k, evs)];
        assert (w + [(k, evs)])[..|w|] == w;
        assert Volume(w + [(k, evs)]) == Volume(w) + |evs|;
      } else {
        assert Windows(buckets, ids) == w;
      }
    }
  }

  /** What touching the keys of `evs` does to `last_seen`: a touched key reads
      `now`, every other key keeps its time. */
  lemma {:induction false} TouchAllSpec(lastSeen: Dict<real>, evs: seq<Event>, now: real, k: string)
    requires lastSeen.Valid()
    ensures TouchAll(lastSeen, evs, now).Valid()
    ensures (exists e :: e in evs && TraceKey(e) == k) ==> k in TouchAll(lastSeen, evs, now).values && TouchAll(lastSeen, evs, now).values[k] == now
    ensures !(exists e :: e in evs && TraceKey(e) == k) ==>
      (k in TouchAll(lastSeen, evs, now).values <==> k in lastSeen.values)
      && TouchAll(lastSeen, evs, now).Get(k, now) == lastSeen.Get(k, now)
  {
    if evs != [] {
      var init := evs[..|evs| - 1];
      var last := evs[|evs| - 1];
      TouchAllSpec(lastSeen, init, now, k);
      assert evs == init + [last];
      assert (exists e :: e in evs && TraceKey(e) == k) <==> (exists e :: e in init && TraceKey(e) == k) || TraceKey(last) == k;
    }
  }

  /** Touching keeps the order of keys in step with grouping. */
  lemma {:induction false} TouchAllKeys(buckets: Dict<seq<Event>>, lastSeen: Dict<real>, evs: seq<Event>, now: real)
    requires buckets.Valid() && lastSeen.Valid() && buckets.keys == lastSeen.keys
    ensures GroupInto(buckets, evs).keys == TouchAll(lastSeen, evs, now).keys
  {
    if evs != [] {
      var init := evs[..|evs| - 1];
      TouchAllKeys(buckets, lastSeen, init, now);
      GroupIntoValid(buckets, init);
      TouchAllSpec(lastSeen, init, now, "");
    }
  }

  /** Events before a pop are the events left plus the events handed out. */
  lemma PopConserves(buckets: Dict<seq<Event>>, lastSeen: Dict<real>, now: real, inactivity: real, maxEvents: int)
    requires buckets.keys == lastSeen.keys
    ensures var ready := ReadySet(buckets, lastSeen, now, inactivity, maxEvents);
      Total(buckets) == Total(buckets.Without(ready)) + Volume(Windows(buckets, FilterIn(lastSeen.keys, ready)))
  {
    var ready := ReadySet(buckets, lastSeen, now, inactivity, maxEvents);
    WithoutTotal(buckets, ready);
    WindowsVolume(buckets, FilterIn(buckets.keys, ready));
  }

  /** Right after a pop at `now`, nothing left is ready at `now`: a second
      `PopReady` at the same time gives no windows and changes nothing. */
  lemma PopIdempotent(buckets: Dict<seq<Event>>, lastSeen: Dict<real>, now: real, inactivity: real, maxEvents: int)
    requires buckets.keys == lastSeen.keys
    ensures var ready := ReadySet(buckets, lastSeen, now, inactivity, maxEvents);
      var b := buckets.Without(ready);
      var l := lastSeen.Without(ready);
      var again := ReadySet(b, l, now, inactivity, maxEvents);
      && again == {}
      && Windows(b, FilterIn(l.keys, again)) == []
      && b.Without(again) == b && l.Without(again) == l
  {
    var ready := ReadySet(buckets, lastSeen, now, inactivity, maxEvents);
    var b := buckets.Without(ready);
    var l := lastSeen.Without(ready);
    forall k | k in l.values ensures !IsReady(b.Get(k, []), l.values[k], now, inactivity, maxEvents) {
      assert k !in ready;
      assert b.Get(k, []) == buckets.Get(k, []);
    }
    FilterInNothing(l.keys);
    WithoutNothing(b);
    WithoutNothing(l);
  }

  /** A key that was popped starts over: later events under it form a new
      window holding only them. */
  lemma FreshWindow(buckets: Dict<seq<Event>>, ready: set<string>, evs: seq<Event>, k: string)
    requires k in ready
    ensures GroupInto(buckets.Without(ready), evs).Get(k, []) == Select(evs, k)
  {
    GroupIntoGet(buckets.Without(ready), evs, k);
    assert buckets.Without(ready).Get(k, []) == [];
  }

  /** Every ready key is selected, since every key of `last_seen` is looked at. */
  lemma ReadyIdsCover(buckets: Dict<seq<Event>>, lastSeen: Dict<real>, now: real, inactivity: real, maxEvents: int)
    requires lastSeen.Valid()
    ensures var ready := ReadySet(buckets, lastSeen, now, inactivity, maxEvents);
      Elems(FilterIn(lastSeen.keys, ready)) == ready
  {
  }

  /** The invariant of the store: both maps are well formed and have the same
      keys in the same order, and no window is empty. */
  ghost predicate Aligned(buckets: Dict<seq<Event>>, lastSeen: Dict<real>) {
    && buckets.Valid() && lastSeen.Valid()
    && buckets.keys == lastSeen.keys
    && forall k :: k in buckets.values ==> buckets.values[k] != []
  }

  /** One event added to its window keeps the store aligned. */
  lemma AlignedAdd(buckets: Dict<seq<Event>>, lastSeen: Dict<real>, e: Event, now: real)
    requires Aligned(buckets, lastSeen)
    ensures Aligned(Append(buckets, TraceKey(e), e), lastSeen.Set(TraceKey(e), now))
  {
  }

  /** Popping the same keys from both maps keeps the store aligned. */
  lemma AlignedWithout(buckets: Dict<seq<Event>>, lastSeen: Dict<real>, drop: set<string>)
    requires Aligned(buckets, lastSeen)
    ensures Aligned(buckets.Without(drop), lastSeen.Without(drop))
  {
  }

  lemma GroupStep(d: Dict<seq<Event>>, l: Dict<real>, evs: seq<Event>, i: nat, now: real)
    requires i < |evs|
    ensures GroupInto(d, evs[..i + 1]) == Append(GroupInto(d, evs[..i]), TraceKey(evs[i]), evs[i])
    ensures TouchAll(l, evs[..i + 1], now) == TouchAll(l, evs[..i], now).Set(TraceKey(evs[i]), now)
  {
    assert evs[..i + 1][..i] == evs[..i];
  }

  class TraceAggregator {
    const inactivity: real
    const maxEvents: int
    var buckets: Dict<seq<Event>>
    var lastSeen: Dict<real>

    ghost predicate Valid()
      reads this
    {
      Aligned(buckets, lastSeen)
    }

    /** `TraceAggregator(inactivity_sec, max_events)` */
    constructor (inactivitySec: real, maxEvents: int)
      ensures Valid()
      ensures this.inactivity == inactivitySec && this.maxEvents == maxEvents
      ensures buckets == Empty() && lastSeen == Empty()
    {
      this.inactivity := inactivitySec;
      this.maxEvents := maxEvents;
      buckets := Empty();
      lastSeen := Empty();
    }

    /** `add_payload(payload)` at time `now`. When the extraction raises, the
        exception is returned and nothing has changed. */
    method AddPayload(payload: Payload, now: real, lib: Stdlib) returns (err: Option<Error>)
      requires Valid()
      modifies this
      ensures Valid()
      ensures var x := Normalize(PayloadSpans(payload), lib);
        && (x.Raised? ==> err == Some(x.error) && buckets == old(buckets) && lastSeen == old(lastSeen))
        && (x.Ok? ==> err == None && buckets == GroupInto(old(buckets), x.value) && lastSeen == TouchAll(old(lastSeen), x.value, now))
    {
      var x := ExtractEventsFromOtlp(payload, lib);
      if x.Raised? {
        return Some(x.error);
      }
      var evs := x.value;
      var i := 0;
      while i < |evs|
        invariant 0 <= i <= |evs|
        invariant Valid()
        invariant buckets == GroupInto(old(buckets), evs[..i])
        invariant lastSeen == TouchAll(old(lastSeen), evs[..i], now)
      {
        var e := evs[i];
        var tid := TraceKey(e);
        GroupStep(old(buckets), old(lastSeen), evs, i, now);
        AlignedAdd(buckets, lastSeen, e, now);
        buckets := Append(buckets, tid, e);
        lastSeen := lastSeen.Set(tid, now);
        i := i + 1;
      }
      assert evs[..i] == evs;
      return None;
    }

    /** The first loop of `pop_ready()`: the keys of the ready windows, in
        `last_seen` order. */
    method SelectReady(now: real) returns (readyIds: seq<string>)
      requires Valid()
      ensures readyIds == FilterIn(lastSeen.keys, ReadySet(buckets, lastSeen, now, inactivity, maxEvents))
    {
      ghost var ready := ReadySet(buckets, lastSeen, now, inactivity, maxEvents);
      var ids := lastSeen.keys;
      readyIds := [];
      var i := 0;
      while i < |ids|
        invariant 0 <= i <= |ids|
        invariant readyIds == FilterIn(ids[..i], ready)
      {
        var tid := ids[i];
        assert tid in lastSeen.values by {
          assert tid in ids;
        }
        FilterInStep(ids, ready, i);
        if IsReady(buckets.Get(tid, []), lastSeen.values[tid], now, inactivity, maxEvents) {
          readyIds := readyIds + [tid];
        }
        i := i + 1;
      }
      assert ids[..i] == ids;
    }

    /** `pop_ready()` at time `now`: the ready windows, in `last_seen` order,
        each with all its events; they leave both maps and nothing else
        changes. */
    method PopReady(now: real) returns (out: seq<(string, seq<Event>)>)
      requires Valid()
      modifies this
      ensures Valid()
      ensures var ready := ReadySet(old(buckets), old(lastSeen), now, inactivity, maxEvents);
        && out == Windows(old(buckets), FilterIn(old(lastSeen).keys, ready))
        && buckets == old(buckets).Without(ready)
        && lastSeen == old(lastSeen).Without(ready)
    {
      ghost var ready := ReadySet(buckets, lastSeen, now, inactivity, maxEvents);
      var readyIds := SelectReady(now);
      ghost var b0, l0 := buckets, lastSeen;
      assert Elems(readyIds[..0]) == {};
      WithoutNothing(b0);
      WithoutNothing(l0);
      out := [];
      var j := 0;
      while j < |readyIds|
        invariant 0 <= j <= |readyIds|
        invariant Valid()
        invariant buckets == b0.Without(Elems(readyIds[..j]))
        invariant lastSeen == l0.Without(Elems(readyIds[..j]))
        invariant out == Windows(b0, readyIds[..j])
      {
        var tid := readyIds[j];
        NotBefore(readyIds, j);
        var evs := buckets.Get(tid, []);
        assert evs == b0.Get(tid, []);
        WithoutNext(b0, readyIds, j);
        WithoutNext(l0, readyIds, j);
        WindowsStep(b0, readyIds, j);
        AlignedWithout(buckets, lastSeen, {tid});
        buckets := buckets.Without({tid});
        lastSeen := lastSeen.Without({tid});
        if evs != [] {
          out := out + [(tid, evs)];
        }
        j := j + 1;
      }
      assert readyIds[..j] == readyIds;
      ReadyIdsCover(b0, l0, now, inactivity, maxEvents);
    }
  }
}
