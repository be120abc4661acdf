/** What the provider's calls mean to the instances, to the event log and to a watcher that
    keeps reading. */
module DiscoveryLaws {
  import opened Common
  import opened Discovery

  // ---------------------------------------------------------------------
  // Leases
  // ---------------------------------------------------------------------

  /** The provider after the clock is moved to `t` and the map walked in the given order. */
  function Moved(p: Provider, t: int, order: seq<Str>): Provider { ExpireAll(SetClock(p, t), order) }

  predicate Outlives(lease: int, now: int, t: int) { lease > now && lease > t }

  /** A registered lease lasts `ttl` from now: Advance to `t` removes the instance if and only if
      that time has passed. Nobody else's lease is touched. */
  lemma RegisteredLease(p: Provider, i: Instance, ttl: int, t: int, order: seq<Str>)
    requires Enumerates(order, Register(p, i, ttl).instances.Keys)
    ensures var q := Moved(Register(p, i, ttl), t, order);
      && (i.ns in q.instances <==> Outlives(p.now + ttl, p.now, t))
      && (i.ns in q.instances ==> q.instances[i.ns].info == i.info && q.instances[i.ns].service == i.service)
      && (forall ns :: ns in p.instances && ns != i.ns ==>
            (ns in q.instances <==> Outlives(p.instances[ns].leaseUntil, p.now, t)))
  {
    AdvanceExact(Register(p, i, ttl), t, order);
  }

  /** So does a renewed one, whatever was left of the old lease. */
  lemma RenewedLease(p: Provider, ns: Str, ttl: int, t: int, order: seq<Str>)
    requires ns in p.instances && Enumerates(order, Renew(p, ns, ttl).instances.Keys)
    requires Named(p.instances)
    ensures var q := Moved(Renew(p, ns, ttl), t, order);
      && (ns in q.instances <==> Outlives(p.now + ttl, p.now, t))
      && (ns in q.instances ==>
            q.instances[ns].info == p.instances[ns].info && q.instances[ns].service == p.instances[ns].service)
      && (forall k :: k in p.instances && k != ns ==>
            (k in q.instances <==> Outlives(p.instances[k].leaseUntil, p.now, t)))
  {
    AdvanceExact(Renew(p, ns, ttl), t, order);
  }

  /** A deregistered instance is gone at once and its next registration is a rejoin. */
  lemma DeregisteredRejoins(p: Provider, ns: Str, i: Instance, ttl: int)
    requires ns in p.instances && i.ns == ns
    ensures var q := Deregister(p, ns);
      && q.instances == p.instances - {ns} && q.now == p.now
      && var log := Register(q, i, ttl).log; log[|log| - 1].kind == Rejoined
  {
  }

  /** Calls for an instance that is not live change nothing. */
  lemma UnknownIsNoOp(p: Provider, ns: Str, ttl: int)
    requires ns !in p.instances
    ensures Renew(p, ns, ttl) == p && Deregister(p, ns) == p
  {
  }

  // ---------------------------------------------------------------------
  // The event log
  // ---------------------------------------------------------------------

  /** Each accepted call publishes one event: its kind, the next number, and the instance with
      the lease it now has. */
  lemma EachCallPublishes(p: Provider, i: Instance, ns: Str, ttl: int)
    ensures var e := Register(p, i, ttl).log;
      && |e| == |p.log| + 1 && e[..|p.log|] == p.log && e[|p.log|].seqNo == |p.log| + 1
      && e[|p.log|].instance == Instance(i.ns, i.service, i.info, p.now + ttl)
      && e[|p.log|].kind == (if i.ns in p.expired && i.ns !in p.instances then Rejoined else Registered)
    ensures ns in p.instances ==> var old', e := p.instances[ns], Renew(p, ns, ttl).log;
      && |e| == |p.log| + 1 && e[..|p.log|] == p.log
      && e[|p.log|] == Event(|p.log| + 1, Renewed, Instance(old'.ns, old'.service, old'.info, p.now + ttl))
    ensures ns in p.instances ==> var e := Deregister(p, ns).log;
      |e| == |p.log| + 1 && e[..|p.log|] == p.log && e[|p.log|] == Event(|p.log| + 1, Expired, p.instances[ns])
  {
  }

  // ---------------------------------------------------------------------
  // Watchers
  // ---------------------------------------------------------------------

  /** A listed watcher with fewer than 32 waiting events gets the next one; a full one is
      dropped from the list with what it has. */
  lemma OfferDelivers(w: Watcher, e: Event)
    ensures var w' := Offer(w, e);
      && w'.got == w.got && w'.start == w.start
      && w'.ch == w.ch + (if w.attached && |w.ch| < 32 then [e] else [])
      && (w'.attached <==> w.attached && |w.ch| < 32)
  {
  }

  /** Nothing but the events of the step reached the watcher, and all of them did. */
  ghost predicate Heard(w: Watcher, w': Watcher, before: seq<Event>, after: seq<Event>) {
    && before <= after && w'.attached && w'.start == w.start && w'.got == w.got
    && w'.ch == w.ch + after[|before|..]
  }

  ghost predicate Keeps(p: Provider, q: Provider, k: nat) {
    && k < |p.watchers| && |q.watchers| == |p.watchers| && p.log <= q.log
    && (p.watchers[k].attached && |p.watchers[k].ch| + |q.log| - |p.log| <= 32 ==>
          Heard(p.watchers[k], q.watchers[k], p.log, q.log))
  }

  lemma PublishKeeps(p: Provider, kind: Kind, i: Instance, k: nat)
    requires k < |p.watchers|
    ensures Keeps(p, Publish(p, kind, i), k)
  {
    var q, e := Publish(p, kind, i), Event(NextSeq(p), kind, i);
    assert q.watchers[k] == Offer(p.watchers[k], e) && q.log[|p.log|..] == [e];
  }

  lemma RegisterKeeps(p: Provider, i: Instance, ttl: int, k: nat)
    requires k < |p.watchers|
    ensures Keeps(p, Register(p, i, ttl), k)
  {
    var i' := i.(leaseUntil := p.now + ttl);
    var kind := if i.ns !in p.instances && i.ns in p.expired then Rejoined else Registered;
    PublishKeeps(Live(p, i'), kind, i', k);
  }

  lemma RenewKeeps(p: Provider, ns: Str, ttl: int, k: nat)
    requires k < |p.watchers|
    ensures Keeps(p, Renew(p, ns, ttl), k)
  {
    if ns in p.instances {
      var i := p.instances[ns].(leaseUntil := p.now + ttl);
      PublishKeeps(p.(instances := p.instances[ns := i]), Renewed, i, k);
    } else {
      NothingKeeps(p, k);
    }
  }

  lemma DeregisterKeeps(p: Provider, ns: Str, k: nat)
    requires k < |p.watchers|
    ensures Keeps(p, Deregister(p, ns), k)
  {
    if ns in p.instances { PublishKeeps(Drop(p, ns), Expired, p.instances[ns], k); } else { NothingKeeps(p, k); }
  }

  lemma NothingKeeps(p: Provider, k: nat)
    requires k < |p.watchers|
    ensures Keeps(p, p, k)
  {
    assert p.watchers[k].ch + p.log[|p.log|..] == p.watchers[k].ch;
  }

  lemma KeepsTwice(p: Provider, q: Provider, r: Provider, k: nat)
    requires Keeps(p, q, k) && Keeps(q, r, k)
    ensures Keeps(p, r, k)
  {
    var w := p.watchers[k];
    if w.attached && |w.ch| + |r.log| - |p.log| <= 32 {
      assert r.log[|p.log|..] == q.log[|p.log|..] + r.log[|q.log|..];
    }
  }

  lemma {:induction false} ExpireAllKeeps(p: Provider, order: seq<Str>, k: nat)
    requires k < |p.watchers|
    ensures Keeps(p, ExpireAll(p, order), k)
  {
    if order == [] {
      NothingKeeps(p, k);
    } else {
      var q, ns := ExpireAll(p, order[..|order| - 1]), order[|order| - 1];
      ExpireAllKeeps(p, order[..|order| - 1], k);
      DeregisterKeeps(q, ns, k);
      if Lapsed(q, ns) { KeepsTwice(p, q, Deregister(q, ns), k); }
    }
  }

  /** Steps that neither read nor stop watcher `k`. */
  predicate Apart(step: Step, k: nat) {
    match step
    case DoReceive(j) => j != k
    case DoStop(j) => j != k
    case _ => true
  }

  lemma StepKeeps(p: Provider, step: Step, k: nat)
    requires k < |p.watchers| && Apart(step, k) && !step.DoSubscribe?
    ensures Keeps(p, Next(p, step), k)
  {
    NothingKeeps(p, k);
    if step.DoReceive? || step.DoStop? || p.wedged { return; }
    match step
    case DoRegister(i, ttl) => RegisterKeeps(p, i, ttl, k);
    case DoRenew(ns, ttl) => RenewKeeps(p, ns, ttl, k);
    case DoDeregister(ns) => DeregisterKeeps(p, ns, k);
    case DoAdvance(now, order) => ExpireAllKeeps(SetClock(p, now), order, k);
    case _ =>
  }

  /** The watcher's channel can take what the step publishes, and the step does not stop it. */
  predicate Roomy(p: Provider, step: Step, k: nat) {
    && step != DoStop(k)
    && (k < |p.watchers| ==> |p.watchers[k].ch| + |Next(p, step).log| - |p.log| <= 32)
  }

  lemma StepStaysListed(p: Provider, step: Step, k: nat)
    requires k < |p.watchers| && p.watchers[k].attached && Roomy(p, step, k)
    ensures k < |Next(p, step).watchers| && Next(p, step).watchers[k].attached
  {
    if !step.DoSubscribe? && Apart(step, k) { StepKeeps(p, step, k); }
  }

  function After(now: int, first: seq<Step>, more: seq<Step>): Provider { Run(Begin(now), first + more) }

  lemma AfterStep(now: int, first: seq<Step>, more: seq<Step>)
    requires more != []
    ensures After(now, first, more) == Next(After(now, first, more[..|more| - 1]), more[|more| - 1])
  {
    assert (first + more)[..|first + more| - 1] == first + more[..|more| - 1];
  }

  ghost predicate AlwaysRoomy(now: int, first: seq<Step>, more: seq<Step>, k: nat) {
    forall n :: 0 <= n < |more| ==> Roomy(After(now, first, more[..n]), more[n], k)
  }

  lemma RoomyPrefix(now: int, first: seq<Step>, more: seq<Step>, k: nat)
    requires more != [] && AlwaysRoomy(now, first, more, k)
    ensures AlwaysRoomy(now, first, more[..|more| - 1], k)
  {
    var m := more[..|more| - 1];
    forall n | 0 <= n < |m| ensures Roomy(After(now, first, m[..n]), m[n], k) {
      assert m[..n] == more[..n] && m[n] == more[n];
    }
  }

  predicate Listed(p: Provider, k: nat) { k < |p.watchers| && p.watchers[k].attached }

  lemma {:induction false} StaysListed(now: int, first: seq<Step>, more: seq<Step>, k: nat)
    requires Listed(Run(Begin(now), first), k) && AlwaysRoomy(now, first, more, k)
    ensures Listed(After(now, first, more), k)
    decreases |more|
  {
    if more == [] {
      assert first + more == first;
    } else {
      var n := |more| - 1;
      RoomyPrefix(now, first, more, k);
      StaysListed(now, first, more[..n], k);
      AfterStep(now, first, more);
      StepStaysListed(After(now, first, more[..n]), more[n], k);
    }
  }

  /** A watcher that is not stopped and whose channel always has room for what comes stays
      listed, and has got or waits for every event from its start on. */
  lemma RoomyHearsAll(now: int, first: seq<Step>, more: seq<Step>, k: nat)
    requires Listed(Run(Begin(now), first), k) && AlwaysRoomy(now, first, more, k)
    ensures var p := Run(Begin(now), first + more);
      && k < |p.watchers| && p.watchers[k].attached
      && p.watchers[k].start <= |p.log| && Stream(p.watchers[k]) == p.log[p.watchers[k].start..]
  {
    StaysListed(now, first, more, k);
    EveryRunOk(now, first + more);
    var p := Run(Begin(now), first + more);
    assert GapFree(p.watchers[k], p.log);
  }

  /** A stopped watcher hears nothing more, but keeps what waits in its channel; a receive takes
      the oldest of it. */
  lemma StopAndReceive(p: Provider, k: nat)
    requires k < |p.watchers|
    ensures !p.wedged ==> Next(p, DoStop(k)) == p.(watchers := p.watchers[k := p.watchers[k].(attached := false)])
    ensures var w, q := p.watchers[k], Next(p, DoReceive(k));
      && q == p.(watchers := p.watchers[k := q.watchers[k]]) && q.watchers[k].attached == w.attached
      && (w.ch != [] ==> q.watchers[k].got == w.got + [w.ch[0]] && q.watchers[k].ch == w.ch[1..])
  {
  }
}
