/** Lease-based service discovery, discovery/memory.go: the in-memory provider and its
    watch hub. Time is an integer that only Advance moves. */
module Discovery {
  import opened Common
  import opened Ring

  const BUFFER_LIMIT := 256
  const CHANNEL_CAP := 32

  /** `info` stands for the addressing fields, which are only carried along. */
  datatype Instance = Instance(ns: Str, service: Str, info: nat, leaseUntil: int)

  datatype Kind = Registered | Renewed | Expired | Rejoined

  datatype Event = Event(seqNo: nat, kind: Kind, instance: Instance)

  /** A channel handed out by Subscribe: what it got starts at position `start` of the
      event log; `attached` says that the hub still lists it. */
  datatype Watcher = Watcher(start: nat, got: seq<Event>, ch: seq<Event>, attached: bool)

  /** `log` is the full history, of which the hub keeps the end. `wedged` says that a
      Subscribe blocked for ever on its own replay, holding both locks. */
  datatype Provider = Provider(
    now: int, instances: map<Str, Instance>, expired: set<Str>,
    log: seq<Event>, watchers: seq<Watcher>, wedged: bool)

  function Stream(w: Watcher): seq<Event> { w.got + w.ch }

  function SeqNo(e: Event): nat { e.seqNo }

  function Newer(since: nat): Event -> bool { (e: Event) => e.seqNo > since }

  function NextSeq(p: Provider): nat { |p.log| + 1 }

  // ---- the watch hub ----

  /** The non-blocking send of publish: a full channel loses its watcher. */
  function Offer(w: Watcher, e: Event): Watcher {
    if !w.attached then w
    else if |w.ch| < CHANNEL_CAP then w.(ch := w.ch + [e])
    else w.(attached := false)
  }

  function OfferEach(ws: seq<Watcher>, e: Event): seq<Watcher> {
    seq(|ws|, i requires 0 <= i < |ws| => Offer(ws[i], e))
  }

  function Publish(p: Provider, kind: Kind, instance: Instance): Provider {
    var e := Event(NextSeq(p), kind, instance);
    p.(log := p.log + [e], watchers := OfferEach(p.watchers, e))
  }

  function Replayed(log: seq<Event>, since: nat): seq<Event> {
    Filter(Newer(since), LastN(log, BUFFER_LIMIT))
  }

  function Subscribe(p: Provider, since: nat): Provider {
    var replay := Replayed(p.log, since);
    if |replay| > CHANNEL_CAP then p.(wedged := true)
    else
      var start := if since < |p.log| then since else |p.log|;
      p.(watchers := p.watchers + [Watcher(start, [], replay, true)])
  }

  function Receive(w: Watcher): Watcher {
    if w.ch == [] then w else w.(got := w.got + [w.ch[0]], ch := w.ch[1..])
  }

  // ---- the registry ----

  function Live(p: Provider, i: Instance): Provider {
    p.(instances := p.instances[i.ns := i], expired := p.expired - {i.ns})
  }

  function Drop(p: Provider, ns: Str): Provider {
    p.(instances := p.instances - {ns}, expired := p.expired + {ns})
  }

  function Register(p: Provider, instance: Instance, ttl: int): Provider {
    var i := instance.(leaseUntil := p.now + ttl);
    var kind := if i.ns !in p.instances && i.ns in p.expired then Rejoined else Registered;
    Publish(Live(p, i), kind, i)
  }

  function Renew(p: Provider, ns: Str, ttl: int): Provider {
    if ns !in p.instances then p
    else
      var i := p.instances[ns].(leaseUntil := p.now + ttl);
      Publish(p.(instances := p.instances[ns := i]), Renewed, i)
  }

  function Deregister(p: Provider, ns: Str): Provider {
    if ns !in p.instances then p else Publish(Drop(p, ns), Expired, p.instances[ns])
  }

  predicate Lapsed(p: Provider, ns: Str) { ns in p.instances && p.instances[ns].leaseUntil <= p.now }

  /** Advance visits the instances in the map's iteration order. */
  function ExpireAll(p: Provider, order: seq<Str>): Provider {
    if order == [] then p
    else
      var q := ExpireAll(p, order[..|order| - 1]);
      var ns := order[|order| - 1];
      if Lapsed(q, ns) then Deregister(q, ns) else q
  }

  function SetClock(p: Provider, now: int): Provider { p.(now := if now < p.now then p.now else now) }

  predicate Enumerates(order: seq<Str>, keys: set<Str>) { multiset(order) == multiset(keys) }

  datatype Step =
    | DoRegister(instance: Instance, ttl: int)
    | DoRenew(ns: Str, ttl: int)
    | DoDeregister(ns: Str)
    | DoAdvance(now: int, order: seq<Str>)
    | DoSubscribe(since: nat)
    | DoStop(watcher: nat)
    | DoReceive(watcher: nat)

  function Next(p: Provider, step: Step): Provider {
    if step.DoReceive? then
      var k := step.watcher;
      if k < |p.watchers| then p.(watchers := p.watchers[k := Receive(p.watchers[k])]) else p
    else if p.wedged then p
    else match step
      case DoRegister(i, ttl) => Register(p, i, ttl)
      case DoRenew(ns, ttl) => Renew(p, ns, ttl)
      case DoDeregister(ns) => Deregister(p, ns)
      case DoAdvance(now, order) =>
        if Enumerates(order, p.instances.Keys) then ExpireAll(SetClock(p, now), order) else p
      case DoSubscribe(since) => Subscribe(p, since)
      case DoStop(k) =>
        if k < |p.watchers| then p.(watchers := p.watchers[k := p.watchers[k].(attached := false)]) else p
      case DoReceive(_) => p
  }

  function Run(p: Provider, steps: seq<Step>): Provider {
    if steps == [] then p else Next(Run(p, steps[..|steps| - 1]), steps[|steps| - 1])
  }

  function Begin(now: int): Provider { Provider(now, map[], {}, [], [], false) }

  // ---- what every step keeps ----

  /** The live set as a reader of the event log would rebuild it. */
  function Fold(log: seq<Event>): map<Str, Instance> {
    if log == [] then map[]
    else
      var m, e := Fold(log[..|log| - 1]), log[|log| - 1];
      if e.kind == Expired then m - {e.instance.ns} else m[e.instance.ns := e.instance]
  }

  /** The namespaces ever registered, read off the log. */
  function Ever(log: seq<Event>): set<Str> {
    if log == [] then {}
    else
      var e := log[|log| - 1];
      Ever(log[..|log| - 1]) + if e.kind == Registered || e.kind == Rejoined then {e.instance.ns} else {}
  }

  ghost predicate Named(m: map<Str, Instance>) { forall ns :: ns in m ==> m[ns].ns == ns }

  ghost predicate Folded(p: Provider) {
    Fold(p.log) == p.instances && Named(p.instances)
  }

  ghost predicate Partitioned(p: Provider) {
    p.instances.Keys !! p.expired && p.instances.Keys + p.expired == Ever(p.log)
  }

  ghost predicate Numbered(log: seq<Event>) {
    forall i :: 0 <= i < |log| ==> log[i].seqNo == i + 1
  }

  /** A gap-free run of the log, up to its end while the hub lists the watcher. */
  ghost predicate GapFree(w: Watcher, log: seq<Event>) {
    var end := w.start + |Stream(w)|;
    end <= |log| && Stream(w) == log[w.start..end] && |w.ch| <= CHANNEL_CAP && (w.attached ==> end == |log|)
  }

  ghost predicate Watched(ws: seq<Watcher>, log: seq<Event>) {
    forall i :: 0 <= i < |ws| ==> GapFree(ws[i], log)
  }

  ghost predicate RegistryOk(p: Provider) { Folded(p) && Partitioned(p) }

  ghost predicate HubOk(p: Provider) { Numbered(p.log) && Watched(p.watchers, p.log) }

  lemma OfferGapFree(w: Watcher, log: seq<Event>, e: Event)
    requires GapFree(w, log)
    ensures GapFree(Offer(w, e), log + [e])
  {
    var w', end := Offer(w, e), w.start + |Stream(w)|;
    assert (log + [e])[w.start..end] == log[w.start..end];
    if w.attached && |w.ch| < CHANNEL_CAP {
      assert Stream(w') == Stream(w) + [e];
      assert (log + [e])[w.start..end + 1] == log[w.start..end] + [e];
    }
  }

  lemma PublishHub(p: Provider, kind: Kind, i: Instance)
    requires HubOk(p)
    ensures HubOk(Publish(p, kind, i))
  {
    var e := Event(NextSeq(p), kind, i);
    forall k | 0 <= k < |p.watchers| ensures GapFree(OfferEach(p.watchers, e)[k], p.log + [e]) {
      OfferGapFree(p.watchers[k], p.log, e);
    }
  }

  lemma PublishLog(p: Provider, kind: Kind, i: Instance)
    ensures var q := Publish(p, kind, i);
      && Fold(q.log) == (if kind == Expired then Fold(p.log) - {i.ns} else Fold(p.log)[i.ns := i])
      && Ever(q.log) == Ever(p.log) + if kind == Registered || kind == Rejoined then {i.ns} else {}
  {
    var log := Publish(p, kind, i).log;
    assert log[..|log| - 1] == p.log;
  }

  lemma RegisterOk(p: Provider, i: Instance, ttl: int)
    requires RegistryOk(p)
    ensures RegistryOk(Register(p, i, ttl))
  {
    var i' := i.(leaseUntil := p.now + ttl);
    var kind := if i.ns !in p.instances && i.ns in p.expired then Rejoined else Registered;
    var q := Publish(Live(p, i'), kind, i');
    PublishLog(Live(p, i'), kind, i');
    assert Register(p, i, ttl) == q && q.instances == p.instances[i.ns := i'] && q.expired == p.expired - {i.ns};
    assert q.instances.Keys == p.instances.Keys + {i.ns};
  }

  lemma RenewOk(p: Provider, ns: Str, ttl: int)
    requires RegistryOk(p)
    ensures RegistryOk(Renew(p, ns, ttl))
  {
    if ns in p.instances {
      var i := p.instances[ns].(leaseUntil := p.now + ttl);
      PublishLog(p.(instances := p.instances[ns := i]), Renewed, i);
      assert p.instances[ns := i].Keys == p.instances.Keys;
    }
  }

  lemma DeregisterOk(p: Provider, ns: Str)
    requires RegistryOk(p)
    ensures RegistryOk(Deregister(p, ns))
  {
    if ns in p.instances { PublishLog(Drop(p, ns), Expired, p.instances[ns]); }
  }

  lemma RegisterHub(p: Provider, i: Instance, ttl: int)
    requires HubOk(p)
    ensures HubOk(Register(p, i, ttl))
  {
    var i' := i.(leaseUntil := p.now + ttl);
    var kind := if i.ns !in p.instances && i.ns in p.expired then Rejoined else Registered;
    var q := Live(p, i');
    assert q.log == p.log && q.watchers == p.watchers;
    PublishHub(q, kind, i');
    assert Register(p, i, ttl) == Publish(q, kind, i');
  }

  lemma RenewHub(p: Provider, ns: Str, ttl: int)
    requires HubOk(p)
    ensures HubOk(Renew(p, ns, ttl))
  {
    if ns in p.instances {
      var i := p.instances[ns].(leaseUntil := p.now + ttl);
      PublishHub(p.(instances := p.instances[ns := i]), Renewed, i);
    }
  }

  lemma DeregisterHub(p: Provider, ns: Str)
    requires HubOk(p)
    ensures HubOk(Deregister(p, ns))
  {
    if ns in p.instances { PublishHub(Drop(p, ns), Expired, p.instances[ns]); }
  }

  lemma {:induction false} ExpireAllOk(p: Provider, order: seq<Str>)
    requires RegistryOk(p) && HubOk(p)
    ensures RegistryOk(ExpireAll(p, order)) && HubOk(ExpireAll(p, order))
  {
    if order != [] {
      var n := |order| - 1;
      ExpireAllOk(p, order[..n]);
      DeregisterOk(ExpireAll(p, order[..n]), order[n]);
      DeregisterHub(ExpireAll(p, order[..n]), order[n]);
    }
  }

  lemma {:induction false} ExpireAllExact(p: Provider, order: seq<Str>)
    ensures var q := ExpireAll(p, order);
      && q.now == p.now
      && (forall ns :: ns in q.instances <==> ns in p.instances && (ns in order ==> !Lapsed(p, ns)))
      && (forall ns :: ns in q.instances ==> q.instances[ns] == p.instances[ns])
  {
    if order != [] {
      var n := |order| - 1;
      ExpireAllExact(p, order[..n]);
      assert order == order[..n] + [order[n]];
    }
  }

  lemma EnumeratesAll(order: seq<Str>, keys: set<Str>, k: Str)
    requires Enumerates(order, keys)
    ensures k in order <==> k in keys
  {
    assert k in multiset(order) <==> k in multiset(keys);
  }

  /** In whatever order the map is walked, Advance removes exactly the lapsed leases. */
  lemma AdvanceExact(p: Provider, now: int, order: seq<Str>)
    requires Enumerates(order, p.instances.Keys)
    ensures var q := ExpireAll(SetClock(p, now), order);
      && q.now >= p.now && q.now >= now && (q.now == p.now || q.now == now)
      && q.instances == (map ns | ns in p.instances && p.instances[ns].leaseUntil > q.now :: p.instances[ns])
  {
    var c := SetClock(p, now);
    ExpireAllExact(c, order);
    forall ns | ns in p.instances ensures ns in order { EnumeratesAll(order, p.instances.Keys, ns); }
  }

  // ---- subscribing ----

  /** The replay of Subscribe: the end of the log after `since`, cut short by the buffer. */
  lemma ReplayIsSuffix(log: seq<Event>, since: nat)
    requires Numbered(log)
    ensures var oldest := |log| - |LastN(log, BUFFER_LIMIT)|;
      Replayed(log, since) == log[(if since < oldest then oldest else if since > |log| then |log| else since)..]
  {
    var held := LastN(log, BUFFER_LIMIT);
    var oldest := |log| - |held|;
    assert held == log[oldest..];
    var k := if since < oldest then 0 else if since > |log| then |log| - oldest else since - oldest;
    FilterSuffix(Newer(since), held, k);
    assert held[k..] == log[oldest + k..];
  }

  /** Subscribe never returns exactly when more than a channel's worth of events is newer
      than `since`; otherwise the stream begins right after `since`. */
  lemma SubscribeWedges(p: Provider, since: nat)
    requires HubOk(p) && !p.wedged
    ensures Subscribe(p, since).wedged <==> |p.log| > since + 32
    ensures !Subscribe(p, since).wedged ==>
      var ws, start := Subscribe(p, since).watchers, if since < |p.log| then since else |p.log|;
      && |ws| == |p.watchers| + 1 && ws[..|p.watchers|] == p.watchers
      && ws[|p.watchers|].attached && Stream(ws[|p.watchers|]) == p.log[start..]
  {
    ReplayIsSuffix(p.log, since);
    if |Replayed(p.log, since)| <= CHANNEL_CAP {
      assert [] + Replayed(p.log, since) == p.log[if since < |p.log| then since else |p.log|..];
    }
  }

  lemma NewWatcherGapFree(log: seq<Event>, since: nat)
    requires Numbered(log) && |Replayed(log, since)| <= CHANNEL_CAP
    ensures GapFree(Watcher(if since < |log| then since else |log|, [], Replayed(log, since), true), log)
  {
    ReplayIsSuffix(log, since);
    var replay, start := Replayed(log, since), if since < |log| then since else |log|;
    assert replay == log[start..];
    assert [] + replay == replay && log[start..|log|] == log[start..];
  }

  lemma SubscribeHub(p: Provider, since: nat)
    requires HubOk(p)
    ensures HubOk(Subscribe(p, since))
  {
    if |Replayed(p.log, since)| <= CHANNEL_CAP {
      NewWatcherGapFree(p.log, since);
      var ws := Subscribe(p, since).watchers;
      forall i | 0 <= i < |ws| ensures GapFree(ws[i], p.log) {
        if i < |p.watchers| { assert ws[i] == p.watchers[i]; }
      }
    }
  }

  lemma ReceiveGapFree(w: Watcher, log: seq<Event>)
    requires GapFree(w, log)
    ensures GapFree(Receive(w), log) && Stream(Receive(w)) == Stream(w)
  {
    if w.ch != [] { assert w.ch == [w.ch[0]] + w.ch[1..]; }
  }

  lemma JoinSlices(log: seq<Event>, a: nat, b: nat)
    requires a <= b <= |log|
    ensures log[a..b] + log[b..] == log[a..]
  {
  }

  /** What a dropped watcher got, and what it gets by subscribing again with the last
      number it saw, join without a gap; it can do so while at most 32 events were missed. */
  lemma ReconnectResumes(p: Provider, k: nat)
    requires HubOk(p) && !p.wedged && k < |p.watchers|
    ensures var w := p.watchers[k];
      var last := w.start + |Stream(w)|;
      && (Stream(w) != [] ==> Stream(w)[|Stream(w)| - 1].seqNo == last)
      && (|p.log| <= last + CHANNEL_CAP ==>
            var q := Subscribe(p, last);
            |q.watchers| > |p.watchers|
            && Stream(w) + Stream(q.watchers[|p.watchers|]) == p.log[w.start..])
  {
    var w := p.watchers[k];
    var last := w.start + |Stream(w)|;
    assert GapFree(w, p.log);
    SubscribeWedges(p, last);
    if Stream(w) != [] { assert Stream(w)[|Stream(w)| - 1] == p.log[last - 1]; }
    JoinSlices(p.log, w.start, last);
  }

  // ---- every run ----

  lemma StepRegistry(p: Provider, step: Step)
    requires RegistryOk(p) && HubOk(p)
    ensures RegistryOk(Next(p, step))
  {
    if step.DoReceive? || p.wedged { return; }
    match step
    case DoRegister(i, ttl) => RegisterOk(p, i, ttl);
    case DoRenew(ns, ttl) => RenewOk(p, ns, ttl);
    case DoDeregister(ns) => DeregisterOk(p, ns);
    case DoAdvance(now, order) => ExpireAllOk(SetClock(p, now), order);
    case _ =>
  }

  lemma StepHub(p: Provider, step: Step)
    requires RegistryOk(p) && HubOk(p)
    ensures HubOk(Next(p, step))
  {
    if step.DoReceive? || step.DoStop? { WatcherStepHub(p, step); return; }
    if p.wedged { return; }
    match step
    case DoRegister(i, ttl) => RegisterHub(p, i, ttl);
    case DoRenew(ns, ttl) => RenewHub(p, ns, ttl);
    case DoDeregister(ns) => DeregisterHub(p, ns);
    case DoAdvance(now, order) => ExpireAllOk(SetClock(p, now), order);
    case DoSubscribe(since) => SubscribeHub(p, since);
    case _ =>
  }

  lemma WatcherStepHub(p: Provider, step: Step)
    requires HubOk(p) && (step.DoReceive? || step.DoStop?)
    ensures HubOk(Next(p, step))
  {
    if step.watcher < |p.watchers| {
      var w := p.watchers[step.watcher];
      ReceiveGapFree(w, p.log);
      assert Stream(w.(attached := false)) == Stream(w);
    }
  }

  /** Over every run the log rebuilds the live set, live and expired namespaces partition
      all ever registered, numbers have no gap, and every watcher's stream is a gap-free
      run of the log that reaches its end until the watcher is dropped. */
  lemma {:induction false} EveryRunOk(now: int, steps: seq<Step>)
    ensures RegistryOk(Run(Begin(now), steps)) && HubOk(Run(Begin(now), steps))
  {
    if steps != [] {
      var n := |steps| - 1;
      EveryRunOk(now, steps[..n]);
      StepRegistry(Run(Begin(now), steps[..n]), steps[n]);
      StepHub(Run(Begin(now), steps[..n]), steps[n]);
    }
  }

  ghost predicate InFuture(p: Provider) {
    forall ns :: ns in p.instances ==> p.instances[ns].leaseUntil > p.now
  }

  predicate PositiveTTL(step: Step) {
    match step
    case DoRegister(_, ttl) => ttl > 0
    case DoRenew(_, ttl) => ttl > 0
    case _ => true
  }

  /** With positive TTLs, every live lease is in the future. */
  lemma {:induction false} EveryLeaseInFuture(now: int, steps: seq<Step>)
    requires forall s <- steps :: PositiveTTL(s)
    ensures InFuture(Run(Begin(now), steps))
  {
    if steps != [] {
      var n := |steps| - 1;
      var p, s := Run(Begin(now), steps[..n]), steps[n];
      EveryLeaseInFuture(now, steps[..n]);
      assert PositiveTTL(s);
      if s.DoAdvance? && !p.wedged && Enumerates(s.order, p.instances.Keys) { AdvanceExact(p, s.now, s.order); }
    }
  }

  /** A registration whose TTL is not positive leaves a lapsed lease in the live set
      until the next Advance, so the condition is exact. */
  lemma LapsedUntilAdvance(p: Provider, i: Instance, ttl: int)
    ensures Lapsed(Register(p, i, ttl), i.ns) <==> ttl <= 0
  {
  }

  /** Rejoined says: registered before, and not live now. */
  lemma RejoinedIff(now: int, steps: seq<Step>, i: Instance, ttl: int)
    ensures var p := Run(Begin(now), steps);
      var log := Register(p, i, ttl).log;
      (log[|log| - 1].kind == Rejoined) <==> i.ns in Ever(p.log) && i.ns !in p.instances
  {
    EveryRunOk(now, steps);
  }

  lemma KeepLast(log: seq<Event>, e: Event)
    ensures var kept := LastN(log, BUFFER_LIMIT) + [e];
      LastN(log + [e], BUFFER_LIMIT) == if |kept| > BUFFER_LIMIT then kept[|kept| - BUFFER_LIMIT..] else kept
  {
  }

  ghost function LapsedAmong(p: Provider, names: set<Str>): map<Str, Instance> {
    map ns | ns in names && Lapsed(p, ns) :: p.instances[ns]
  }

  lemma LapsedAmongMore(p: Provider, keys: set<Str>, left: set<Str>, ns: Str)
    requires ns in left && left <= keys && ns in p.instances
    ensures LapsedAmong(p, keys - (left - {ns})) ==
      if Lapsed(p, ns) then LapsedAmong(p, keys - left)[ns := p.instances[ns]] else LapsedAmong(p, keys - left)
  {
    assert keys - (left - {ns}) == (keys - left) + {ns};
  }

  class MemoryProvider {
    var now: int
    var nextSeq: nat
    var instances: map<Str, Instance>
    var expired: set<Str>
    /** The hub's buffer and channels. */
    var events: seq<Event>
    var watchers: seq<Watcher>
    /** Everything ever published. */
    ghost var log: seq<Event>

    ghost function State(): Provider
      reads this
    {
      Provider(now, instances, expired, log, watchers, false)
    }

    ghost predicate Valid()
      reads this
    {
      nextSeq == |log| + 1 && events == LastN(log, BUFFER_LIMIT)
    }

    constructor (now: int)
      ensures Valid() && State() == Begin(now)
    {
      this.now, nextSeq, instances, expired := now, 1, map[], {};
      events, watchers, log := [], [], [];
    }

    method PublishLocked(kind: Kind, instance: Instance)
      requires Valid()
      modifies `nextSeq, `events, `watchers, `log
      ensures Valid() && State() == Publish(old(State()), kind, instance)
    {
      var event := Event(nextSeq, kind, instance);
      nextSeq := nextSeq + 1;
      KeepLast(log, event);
      log := log + [event];
      events := events + [event];
      if |events| > BUFFER_LIMIT { events := events[|events| - BUFFER_LIMIT..]; }
      watchers := FanOut(watchers, event);
    }

    static method FanOut(ws: seq<Watcher>, event: Event) returns (alive: seq<Watcher>)
      ensures alive == OfferEach(ws, event)
    {
      alive := [];
      var i := 0;
      while i < |ws|
        invariant 0 <= i <= |ws| && |alive| == i
        invariant forall j :: 0 <= j < i ==> alive[j] == Offer(ws[j], event)
      {
        alive := alive + [Offer(ws[i], event)];
        i := i + 1;
      }
    }

    method RegisterInstance(instance: Instance, ttl: int)
      requires Valid()
      modifies this
      ensures Valid() && State() == Register(old(State()), instance, ttl)
    {
      var existed := instance.ns in instances;
      var wasExpired := instance.ns in expired;
      var i := instance.(leaseUntil := now + ttl);
      instances := instances[i.ns := i];
      expired := expired - {i.ns};
      var kind := if !existed && wasExpired then Rejoined else Registered;
      PublishLocked(kind, i);
    }

    /** false is the source's ErrNotFound. */
    method RenewLease(ns: Str, ttl: int) returns (ok: bool)
      requires Valid()
      modifies this
      ensures Valid() && State() == Renew(old(State()), ns, ttl)
      ensures ok <==> ns in old(instances)
    {
      if ns !in instances { return false; }
      var i := instances[ns].(leaseUntil := now + ttl);
      instances := instances[ns := i];
      PublishLocked(Renewed, i);
      ok := true;
    }

    method DeregisterInstance(ns: Str) returns (ok: bool)
      requires Valid()
      modifies this
      ensures Valid() && State() == Deregister(old(State()), ns)
      ensures ok <==> ns in old(instances)
    {
      if ns !in instances { return false; }
      var i := instances[ns];
      instances := instances - {ns};
      expired := expired + {ns};
      PublishLocked(Expired, i);
      ok := true;
    }

    /** The order in which the map is walked is any; it is returned for the reader. */
    method Advance(t: int) returns (gone: seq<Instance>, ghost order: seq<Str>)
      requires Valid() && Named(instances)
      modifies this
      ensures Valid() && Enumerates(order, old(instances.Keys))
      ensures State() == ExpireAll(SetClock(old(State()), t), order)
      ensures forall i :: i in gone <==> Lapsed(SetClock(old(State()), t), i.ns) && old(instances)[i.ns] == i
      ensures forall i, j :: 0 <= i < j < |gone| ==> Less(gone[i].ns, gone[j].ns)
    {
      now := if t < now then now else t;
      var lapsed;
      lapsed, order := ExpireLapsed();
      gone := ByNamespace(lapsed);
    }

    /** Advance's loop over the map. */
    method ExpireLapsed() returns (lapsed: map<Str, Instance>, ghost order: seq<Str>)
      requires Valid()
      modifies this
      ensures Valid() && Enumerates(order, old(instances.Keys))
      ensures State() == ExpireAll(old(State()), order)
      ensures lapsed == LapsedAmong(old(State()), old(instances.Keys))
    {
      var left := instances.Keys;
      lapsed, order := map[], [];
      assert multiset(order) == multiset(instances.Keys - left);
      while left != {}
        invariant Valid() && left <= old(instances.Keys)
        invariant multiset(order) == multiset(old(instances.Keys) - left)
        invariant State() == ExpireAll(old(State()), order)
        invariant lapsed == LapsedAmong(old(State()), old(instances.Keys) - left)
        decreases |left|
      {
        var ns :| ns in left;
        NextInOrder(old(State()), order, left, old(instances.Keys), ns);
        LapsedAmongMore(old(State()), old(instances.Keys), left, ns);
        if instances[ns].leaseUntil <= now {
          lapsed := lapsed[ns := instances[ns]];
          var ok := DeregisterInstance(ns);
        }
        order := order + [ns];
        left := left - {ns};
      }
      assert old(instances.Keys) - left == old(instances.Keys);
    }

    /** slices.SortFunc on the namespace. */
    static method ByNamespace(m: map<Str, Instance>) returns (out: seq<Instance>)
      requires Named(m)
      ensures forall i: Instance :: i in out <==> i.ns in m && m[i.ns] == i
      ensures forall i, j :: 0 <= i < j < |out| ==> Less(out[i].ns, out[j].ns)
    {
      var keys := SortedKeys(m.Keys);
      out := seq(|keys|, k requires 0 <= k < |keys| => assert keys[k] in keys; m[keys[k]]);
      forall i: Instance | i.ns in m && m[i.ns] == i ensures i in out {
        var k :| 0 <= k < |keys| && keys[k] == i.ns;
        assert out[k] == i;
      }
      forall k | 0 <= k < |keys| ensures out[k].ns == keys[k] && keys[k] in m { assert keys[k] in keys; }
    }

    /** false when the replay does not fit: the source then blocks for ever. */
    method SubscribeSince(since: nat) returns (ok: bool)
      requires Valid()
      modifies `watchers
      ensures Valid() && ok == !Subscribe(old(State()), since).wedged
      ensures ok ==> State() == Subscribe(old(State()), since)
      ensures !ok ==> State() == old(State())
    {
      var ch;
      ok, ch := FillChannel(since);
      if ok {
        var start := if since < nextSeq - 1 then since else nextSeq - 1;
        watchers := watchers + [Watcher(start, [], ch, true)];
      }
    }

    method FillChannel(since: nat) returns (fits: bool, ch: seq<Event>)
      requires Valid()
      ensures fits == (|Replayed(log, since)| <= CHANNEL_CAP)
      ensures fits ==> ch == Replayed(log, since)
    {
      ch := [];
      var i := 0;
      while i < |events|
        invariant 0 <= i <= |events| && ch == Filter(Newer(since), events[..i]) && |ch| <= CHANNEL_CAP
      {
        FilterStep(Newer(since), events, i);
        if events[i].seqNo > since {
          if |ch| == CHANNEL_CAP {
            FilterPrefix(Newer(since), events, i + 1);
            return false, [];
          }
          ch := ch + [events[i]];
        }
        i := i + 1;
      }
      assert events[..i] == events;
      fits := true;
    }
  }

  lemma NextInOrder(clock: Provider, order: seq<Str>, left: set<Str>, keys: set<Str>, ns: Str)
    requires ns in left && left <= keys && keys == clock.instances.Keys
    requires multiset(order) == multiset(keys - left)
    ensures multiset(order + [ns]) == multiset(keys - (left - {ns}))
    ensures (order + [ns])[..|order|] == order
    ensures var q := ExpireAll(clock, order);
      q.now == clock.now && ns in q.instances && q.instances[ns] == clock.instances[ns]
  {
    ExpireAllExact(clock, order);
    assert ns !in multiset(order);
    assert keys - (left - {ns}) == (keys - left) + {ns};
  }
}
