/**
The throttled LAN refresh: of the threads of a process that find the addresses out of date,
one at a time rewrites them, and not again too soon.

The module's variables are shared; one step is one section under the lock, or one thing done
outside it, and threads interleave between steps.
*/
module LanRefresh {
  import opened Wrappers

  const LOOPBACK := "127.0.0.1"

  /** A host written down in a manifest that is neither the address nor the loopback. */
  predicate Differs(host: Option<string>, ip: string) {
    host.Some? && host.value != "" && host.value !in [ip, LOOPBACK]
  }

  datatype Shared = Shared(inflight: bool, last: real, lastIp: Option<string>)

  const FRESH := Shared(false, 0.0, None)

  datatype Decision = Heal | Wait | Busy | Go

  predicate Drifted(g: Shared, force: bool, ip: string, differ: bool) {
    force || (g.lastIp.Some? && g.lastIp.value != ip) || differ
  }

  /** The first section under the lock. */
  function Decided(g: Shared, force: bool, interval: real, ip: string, differ: bool, now: real): (Shared, Decision) {
    if !Drifted(g, force, ip, differ) then (g.(lastIp := Some(ip)), Heal)
    else if !force && g.last != 0.0 && now - g.last < interval then (g, Wait)
    else if g.inflight then (g, Busy)
    else (g.(inflight := true), Go)
  }

  /** The module's variables, and the sections under the lock. */
  class Throttle {
    var inflight: bool
    var last: real
    var lastIp: Option<string>

    constructor ()
      ensures Now() == FRESH
    {
      inflight, last, lastIp := false, 0.0, None;
    }

    function Now(): Shared
      reads this
    {
      Shared(inflight, last, lastIp)
    }

    /** _persisted_lan_hosts_differ; None stands for a manifest without a readable address. */
    method HostsDiffer(hosts: seq<Option<string>>, ip: string) returns (differ: bool)
      ensures differ <==> exists k :: 0 <= k < |hosts| && Differs(hosts[k], ip)
      ensures differ <==> exists k, host :: 0 <= k < |hosts| && hosts[k] == Some(host) && host !in {"", ip, "127.0.0.1"}
    {
      for k := 0 to |hosts|
        invariant forall i :: 0 <= i < k ==> !Differs(hosts[i], ip)
      {
        if hosts[k].Some? && hosts[k].value != "" && hosts[k].value !in [ip, LOOPBACK] {
          return true;
        }
      }
      differ := false;
    }

    method Decide(force: bool, interval: real, ip: string, hosts: seq<Option<string>>, now: real) returns (d: Decision)
      modifies this
      ensures (Now(), d)
              == Decided(old(Now()), force, interval, ip, exists k :: 0 <= k < |hosts| && Differs(hosts[k], ip), now)
    {
      var drifted := force;
      if !drifted {
        if lastIp.Some? && lastIp.value != ip {
          drifted := true;
        } else {
          drifted := HostsDiffer(hosts, ip);
        }
      }
      if !drifted {
        lastIp := Some(ip);
        return Heal;
      }
      if !force && last != 0.0 && now - last < interval { return Wait; }
      if inflight { return Busy; }
      inflight := true;
      d := Go;
    }

    method Commit(ip: string, now: real)
      modifies this
      ensures Now() == old(Now()).(last := now, lastIp := Some(ip))
    {
      last := now;
      lastIp := Some(ip);
    }

    method Leave()
      modifies this
      ensures Now() == old(Now()).(inflight := false)
    {
      inflight := false;
    }
  }

  // ---- Threads --------------------------------------------------------------------------------

  datatype Pc =
    | Resolving                // finding the address
    | Deciding(ip: string)     // before the first section
    | Chosen(ip: string)       // the flag is set, the try block not yet entered
    | Refreshing(ip: string)   // inside refresh_network_entries
    | Refreshed(ip: string)    // it returned: the second section comes next
    | Leaving                  // finally: the lock is taken and the flag cleared next
    | Over
    | Stranded                 // interrupted with the flag set: before the try block, or in `finally`

  datatype Thread = Thread(force: bool, interval: real, manual: bool, pc: Pc)

  /** A refresh was started, or one that worked ended. */
  datatype Event = Started(time: real, force: bool, interval: real) | Ended(time: real)

  datatype State = State(g: Shared, threads: map<nat, Thread>, clock: real, log: seq<Event>)

  /** What a step meets: the address, the clock, the hosts, whether the refresh works, or an
      interrupt such as KeyboardInterrupt. */
  datatype Choice = Choice(ip: string, now: real, differ: bool, works: bool, interrupted: bool)

  datatype Action = Call(id: nat, force: bool, interval: real, manual: bool) | Step(id: nat, c: Choice)

  predicate Holds(pc: Pc) {
    pc.Chosen? || pc.Refreshing? || pc.Refreshed? || pc.Leaving? || pc.Stranded?
  }

  /** A refresh started through this function is in progress. */
  predicate InProgress(pc: Pc) {
    pc.Chosen? || pc.Refreshing?
  }

  function With(s: State, id: nat, pc: Pc): State
    requires id in s.threads
  {
    s.(threads := s.threads[id := s.threads[id].(pc := pc)])
  }

  function ThreadNext(s: State, id: nat, c: Choice): Option<State>
    requires id in s.threads
  {
    var t := s.threads[id];
    match t.pc
    case Resolving =>
      Some(With(s, id, if c.interrupted || (t.manual && !t.force) || c.ip == "" then Over else Deciding(c.ip)))
    case Deciding(ip) =>
      if c.interrupted then Some(With(s, id, Over))
      else if c.now < s.clock then None
      else
        var (g, d) := Decided(s.g, t.force, t.interval, ip, c.differ, c.now);
        var s' := With(s, id, if d == Go then Chosen(ip) else Over).(g := g, clock := c.now);
        Some(if d == Go then s'.(log := s.log + [Started(c.now, t.force, t.interval)]) else s')
    case Chosen(ip) => Some(With(s, id, if c.interrupted then Stranded else Refreshing(ip)))
    case Refreshing(ip) => Some(With(s, id, if c.works && !c.interrupted then Refreshed(ip) else Leaving))
    case Refreshed(ip) =>
      if c.interrupted then Some(With(s, id, Leaving))
      else if c.now < s.clock then None
      else
        Some(With(s, id, Leaving).(g := s.g.(last := c.now, lastIp := Some(ip)), clock := c.now, log := s.log + [Ended(c.now)]))
    case Leaving =>
      Some(if c.interrupted then With(s, id, Stranded) else With(s, id, Over).(g := s.g.(inflight := false)))
    case _ => None
  }

  function Next(s: State, a: Action): Option<State> {
    match a
    case Call(id, force, interval, manual) =>
      if id in s.threads then None
      else Some(s.(threads := s.threads[id := Thread(force, interval, manual, Resolving)]))
    case Step(id, c) => if id in s.threads then ThreadNext(s, id, c) else None
  }

  predicate Init(s: State) {
    s.g == FRESH && s.threads == map[] && s.clock >= 0.0 && s.log == []
  }

  ghost predicate Acts(s: State, s': State) {
    exists a :: Next(s, a) == Some(s')
  }

  ghost predicate Behaviour(b: seq<State>) {
    && |b| > 0 && Init(b[0])
    && forall n :: 0 <= n < |b| - 1 ==> Acts(b[n], b[n + 1])
  }

  // ---- Single flight ------------------------------------------------------------------------------

  ghost predicate OneHolder(s: State) {
    && (forall i, j :: i in s.threads && j in s.threads && Holds(s.threads[i].pc) && Holds(s.threads[j].pc) ==> i == j)
    && (s.g.inflight <==> exists i :: i in s.threads && Holds(s.threads[i].pc))
  }

  /** The time of the last end, or 0.0. */
  function LastEnd(log: seq<Event>): real {
    if log == [] then 0.0
    else if log[|log| - 1].Ended? then log[|log| - 1].time
    else LastEnd(log[..|log| - 1])
  }

  predicate Apart(e: Event, s: Event) {
    e.Ended? && s.Started? && !s.force ==> e.time == 0.0 || s.time - e.time >= s.interval
  }

  predicate Spaced(log: seq<Event>) {
    forall i, j :: 0 <= i < j < |log| ==> Apart(log[i], log[j])
  }

  predicate Timed(s: State) {
    && s.g.last == LastEnd(s.log)
    && s.clock >= 0.0
    && forall k :: 0 <= k < |s.log| && s.log[k].Ended? ==> 0.0 <= s.log[k].time <= LastEnd(s.log) <= s.clock
  }

  ghost predicate Inv(s: State) {
    OneHolder(s) && Timed(s) && Spaced(s.log)
  }

  lemma HolderStays(s: State, s': State, id: nat, pc: Pc)
    requires OneHolder(s) && id in s.threads && s'.threads == s.threads[id := s.threads[id].(pc := pc)]
    requires Holds(pc) <==> Holds(s.threads[id].pc)
    requires s'.g.inflight == s.g.inflight
    ensures OneHolder(s')
  {
    hide Holds;
    forall i | i in s.threads ensures i in s'.threads && (Holds(s'.threads[i].pc) <==> Holds(s.threads[i].pc)) {
    }
  }

  lemma HolderTakes(s: State, s': State, id: nat, pc: Pc)
    requires OneHolder(s) && id in s.threads && s'.threads == s.threads[id := s.threads[id].(pc := pc)]
    requires !s.g.inflight && s'.g.inflight && Holds(pc)
    ensures OneHolder(s')
  {
    hide Holds;
    assert id in s'.threads && Holds(s'.threads[id].pc);
  }

  lemma HolderLeaves(s: State, s': State, id: nat, pc: Pc)
    requires OneHolder(s) && id in s.threads && s'.threads == s.threads[id := s.threads[id].(pc := pc)]
    requires Holds(s.threads[id].pc) && !Holds(pc) && !s'.g.inflight
    ensures OneHolder(s')
  {
    hide Holds;
  }

  lemma HoldersKept(s: State, a: Action)
    requires OneHolder(s) && Next(s, a).Some?
    ensures OneHolder(Next(s, a).value)
  {
    var s' := Next(s, a).value;
    match a {
      case Call(id, _, _, _) =>
        assert forall i :: i in s.threads ==> s'.threads[i] == s.threads[i];
        assert !Holds(s'.threads[id].pc);
      case Step(id, c) =>
        var was := s.threads[id].pc;
        var pc := s'.threads[id].pc;
        hide OneHolder, Decided;
        if was.Leaving? && !c.interrupted {
          HolderLeaves(s, s', id, pc);
        } else if was.Deciding? && pc.Chosen? {
          TakesFlag(s.g, s.threads[id].force, s.threads[id].interval, was.ip, c.differ, c.now);
          HolderTakes(s, s', id, pc);
        } else {
          if was.Deciding? { TakesFlag(s.g, s.threads[id].force, s.threads[id].interval, was.ip, c.differ, c.now); }
          HolderStays(s, s', id, pc);
        }
    }
  }

  lemma TakesFlag(g: Shared, force: bool, interval: real, ip: string, differ: bool, now: real)
    ensures var (g', d) := Decided(g, force, interval, ip, differ, now);
            && g'.last == g.last
            && (d == Go ==> !g.inflight && g'.inflight && (force || g.last == 0.0 || now - g.last >= interval))
            && (d != Go ==> g'.inflight == g.inflight)
  {
  }

  lemma LogKept(log: seq<Event>, e: Event)
    requires Spaced(log)
    requires forall k :: 0 <= k < |log| ==> Apart(log[k], e)
    ensures Spaced(log + [e])
  {
    hide Apart;
  }

  lemma LastEndAppends(log: seq<Event>, e: Event)
    ensures LastEnd(log + [e]) == if e.Ended? then e.time else LastEnd(log)
  {
    assert (log + [e])[..|log|] == log;
  }

  lemma TimesKept(s: State, a: Action)
    requires Timed(s) && Spaced(s.log) && Next(s, a).Some?
    ensures Timed(Next(s, a).value) && Spaced(Next(s, a).value.log)
  {
    var s' := Next(s, a).value;
    if a.Step? {
      var (id, c) := (a.id, a.c);
      var t := s.threads[id];
      hide Decided, Spaced, LastEnd;
      if t.pc.Deciding? && !c.interrupted {
        TakesFlag(s.g, t.force, t.interval, t.pc.ip, c.differ, c.now);
        if s'.threads[id].pc.Chosen? {
          var e := Started(c.now, t.force, t.interval);
          LogKept(s.log, e);
          LastEndAppends(s.log, e);
        }
      } else if t.pc.Refreshed? && !c.interrupted {
        LogKept(s.log, Ended(c.now));
        LastEndAppends(s.log, Ended(c.now));
      }
    }
  }

  lemma {:induction false} InvHolds(b: seq<State>, n: nat)
    requires Behaviour(b) && n < |b|
    ensures Inv(b[n])
  {
    hide OneHolder, Timed, Spaced, Next;
    if n == 0 {
      StartsWell(b[0]);
    } else {
      InvHolds(b, n - 1);
      assert Acts(b[n - 1], b[(n - 1) + 1]);
      var a :| Next(b[n - 1], a) == Some(b[n]);
      HoldersKept(b[n - 1], a);
      TimesKept(b[n - 1], a);
    }
  }

  lemma StartsWell(s: State)
    requires Init(s)
    ensures Inv(s)
  {
  }

  /** In every reachable state at most one refresh is in progress, and the flag is set exactly
      while a thread holds it: from its decision to the end of its call, or for good when it was
      interrupted before the try block or in its `finally` clause. */
  lemma SingleFlight(b: seq<State>, n: nat)
    requires Behaviour(b) && n < |b|
    ensures forall i, j ::
              i in b[n].threads && j in b[n].threads && InProgress(b[n].threads[i].pc) && InProgress(b[n].threads[j].pc) ==>
                i == j
    ensures b[n].g.inflight <==> exists i :: i in b[n].threads && Holds(b[n].threads[i].pc)
  {
    InvHolds(b, n);
  }

  /** A refresh that is not forced never starts within its interval of the end of any
      refresh that worked before it (an end read as 0.0 counts as none). */
  lemma NeverTooSoon(b: seq<State>, n: nat, i: nat, j: nat)
    requires Behaviour(b) && n < |b| && i < j < |b[n].log|
    requires b[n].log[i].Ended? && b[n].log[j].Started? && !b[n].log[j].force
    ensures b[n].log[i].time == 0.0 || b[n].log[j].time - b[n].log[i].time >= b[n].log[j].interval
  {
    InvHolds(b, n);
    assert Apart(b[n].log[i], b[n].log[j]);
  }

  /** A thread interrupted after setting the flag and before the try block, or in the `finally`
      clause while it waits for the lock, never clears it: from then on no refresh is started. */
  lemma {:induction false} StrandedForGood(b: seq<State>, m: nat, n: nat, id: nat)
    requires Behaviour(b) && m <= n < |b|
    requires id in b[m].threads && b[m].threads[id].pc.Stranded?
    ensures id in b[n].threads && b[n].threads[id].pc.Stranded?
    ensures b[m].log <= b[n].log && forall k :: |b[m].log| <= k < |b[n].log| ==> !b[n].log[k].Started?
    decreases n - m
  {
    if m < n {
      StrandedForGood(b, m, n - 1, id);
      InvHolds(b, n - 1);
      assert Acts(b[n - 1], b[(n - 1) + 1]);
      var a :| Next(b[n - 1], a) == Some(b[n]);
      StaysStranded(b[n - 1], a, id);
    }
  }

  lemma StaysStranded(s: State, a: Action, id: nat)
    requires OneHolder(s) && Next(s, a).Some? && id in s.threads && s.threads[id].pc.Stranded?
    ensures var s' := Next(s, a).value;
            && id in s'.threads && s'.threads[id].pc.Stranded?
            && (s'.log == s.log || (exists time :: s'.log == s.log + [Ended(time)]))
  {
    assert s.g.inflight;
    if a.Step? {
      var t := s.threads[a.id];
      if t.pc.Deciding? {
        TakesFlag(s.g, t.force, t.interval, t.pc.ip, a.c.differ, a.c.now);
      }
      hide Decided;
    }
  }

  // ---- When a refresh is started -------------------------------------------------------------------

  /** A refresh is started exactly when it is forced, or the address or a host has changed; and
      unless it is forced, when none that worked ended within the interval; and in any case when
      no thread holds the flag. */
  lemma StartsIff(b: seq<State>, n: nat, id: nat, c: Choice)
    requires Behaviour(b) && n < |b| && id in b[n].threads && b[n].threads[id].pc.Deciding?
    requires !c.interrupted && c.now >= b[n].clock
    ensures var s, t := b[n], b[n].threads[id];
            var next := Next(s, Step(id, c));
            && next.Some?
            && (|next.value.log| > |s.log| <==>
                 && (t.force || c.differ || (s.g.lastIp.Some? && s.g.lastIp != Some(t.pc.ip)))
                 && (t.force || LastEnd(s.log) == 0.0 || c.now >= LastEnd(s.log) + t.interval)
                 && forall i :: i in s.threads ==> !Holds(s.threads[i].pc))
            && (|next.value.log| > |s.log| ==> next.value.threads[id].pc == Chosen(t.pc.ip))
  {
    InvHolds(b, n);
    hide Holds, Spaced, LastEnd, Behaviour;
  }

  /** The address remembered is that of the last thread that found nothing changed, or whose
      refresh worked. */
  lemma AddressNoted(s: State, a: Action)
    requires Next(s, a).Some?
    ensures var was, now := s.g.lastIp, Next(s, a).value.g.lastIp;
            match a
            case Call(_, _, _, _) => now == was
            case Step(id, c) =>
              var t := s.threads[id];
              match t.pc
              case Deciding(ip) =>
                now == if c.interrupted || t.force || c.differ || (was.Some? && was != Some(ip)) then was else Some(ip)
              case Refreshed(ip) => now == if c.interrupted then was else Some(ip)
              case _ => now == was
  {
  }

  /** Any thread may call; it goes on to decide exactly when it has an address and may refresh. */
  lemma CallGoesOn(s: State, id: nat, force: bool, interval: real, manual: bool, c: Choice)
    requires id !in s.threads
    ensures var called := Next(s, Call(id, force, interval, manual));
            && called.Some?
            && var next := Next(called.value, Step(id, c));
            && next.Some? && next.value.g == s.g && next.value.log == s.log
            && next.value.threads.Keys == s.threads.Keys + {id}
            && next.value.threads[id].pc == if !c.interrupted && c.ip != "" && (force || !manual) then Deciding(c.ip) else Over
  {
  }

  /** A thread that was let through refreshes, notes the time and the address when that worked,
      and gives the flag back, unless it is interrupted. */
  lemma RefreshRuns(s: State, id: nat, c: seq<Choice>)
    requires |c| == 4 && (forall k :: 0 <= k < 4 ==> !c[k].interrupted) && c[2].now >= s.clock
    requires id in s.threads && s.threads[id].pc.Chosen?
    ensures var ip := s.threads[id].pc.ip;
            var s1 := Next(s, Step(id, c[0]));
            && s1.Some?
            && s1.value.threads[id].pc == Refreshing(ip) && s1.value.g == s.g
            && var s2 := Next(s1.value, Step(id, c[1]));
            && s2.Some? && s2.value.g == s.g
            && var s3 := if c[1].works then Next(s2.value, Step(id, c[2])) else s2;
            && s3.Some?
            && var s4 := Next(s3.value, Step(id, c[3]));
            && s4.Some? && s4.value.threads[id].pc == Over
            && s4.value.g == (if c[1].works then Shared(false, c[2].now, Some(ip)) else s.g.(inflight := false))
            && s4.value.clock == (if c[1].works then c[2].now else s.clock)
  {
  }
}
