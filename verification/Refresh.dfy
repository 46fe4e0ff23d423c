/**
 The refresh of the mockup preview plugin: two flags and a recursive asynchronous call merge
 concurrent requests into at most one running discovery. JavaScript runs a function without
 interruption up to its next `await`, so the sections between awaits are the atomic steps.
*/
module Refresh {
  import opened Types

  /** The plugin's variables, and the generated file on disk. */
  datatype Plugin = Plugin(inFlight: bool, queued: bool, currentSource: string, file: string)

  datatype Settled = Done(changed: bool) | FollowUp(changed: bool) | Thrown

  /** From the call to the first `await`: whether a discovery starts. */
  function Enter(p: Plugin): (Plugin, bool) {
    if p.inFlight then (p.(queued := true), false) else (p.(inFlight := true), true)
  }

  /** From the end of a discovery to the next `await`, or to the end of the call. */
  function Settle(p: Plugin, source: string, writable: bool): (Plugin, Settled) {
    var changed := source != p.currentSource;
    var idle := p.(inFlight := false, currentSource := source, file := if changed && writable then source else p.file);
    if changed && !writable then (idle, Thrown)
    else if idle.queued then (Enter(idle.(queued := false)).0, FollowUp(changed))
    else (idle, Done(changed))
  }

  /** A discovery that throws: only the `finally` block runs. */
  function Abort(p: Plugin): Plugin {
    p.(inFlight := false)
  }

  class PreviewPlugin {
    var refreshInFlight: bool
    var refreshQueued: bool
    var currentSource: string
    var file: string

    ghost function Value(): Plugin
      reads this
    {
      Plugin(refreshInFlight, refreshQueued, currentSource, file)
    }

    constructor (existing: string)
      ensures Value() == Plugin(false, false, "", existing)
    {
      refreshInFlight, refreshQueued, currentSource, file := false, false, "", existing;
    }

    method BeginRefresh() returns (discovering: bool)
      modifies this
      ensures (Value(), discovering) == Enter(old(Value()))
    {
      if refreshInFlight {
        refreshQueued := true;
        return false;
      }
      refreshInFlight := true;
      discovering := true;
    }

    /** The rest of `refresh` after a discovery, including the first section of the recursive call. */
    method EndRefresh(newSource: string, writable: bool) returns (r: Settled)
      modifies this
      ensures (Value(), r) == Settle(old(Value()), newSource, writable)
    {
      var changed := false;
      if newSource != currentSource {
        currentSource := newSource;
        if !writable {
          refreshInFlight := false;
          return Thrown;
        }
        file := currentSource;
        changed := true;
      }
      refreshInFlight := false;
      if refreshQueued {
        refreshQueued := false;
        var discovering := BeginRefresh();
        return FollowUp(changed);
      }
      r := Done(changed);
    }

    method AbortRefresh()
      modifies this
      ensures Value() == Abort(old(Value()))
    {
      refreshInFlight := false;
    }
  }

  // ----- Interleavings -----------------------------------------------------------------------------------

  /** What a discovery finds: the component files, in the order it lists them. */
  type Tree = seq<string>

  /** A running call of `refresh`: when its current discovery started, and whether an earlier one of the chain wrote. */
  datatype Task = Task(since: nat, changed: bool, writesBefore: nat)

  /** What a call of `refresh` resolved to, and the number of file writes before it began and when it ended. */
  datatype Report = Report(changed: bool, writesBefore: nat, writesAfter: nat)

  /**
   `trees` is the directory at every moment so far. `requests` are the moments of all requests,
   `started` is the moment the last discovery started, `basis` the moment that the current source shows. `reports` are the calls that have returned.
  */
  datatype System = System(
    plugin: Plugin,
    trees: seq<Tree>,
    task: Option<Task>,
    requests: seq<nat>,
    started: Option<nat>,
    discoveries: nat,
    writes: nat,
    basis: nat,
    reports: seq<Report>)

  /** `Found` ends a discovery that saw the directory as it was at `at`. */
  datatype Step = Change(tree: Tree) | Request | Found(at: nat, writable: bool) | DiscoveryThrows

  predicate Enabled(s: System, a: Step) {
    match a
    case Found(at, _) => s.task.Some? && s.task.value.since <= at < |s.trees|
    case DiscoveryThrows => s.task.Some?
    case _ => true
  }

  predicate Throws(gen: Tree -> string, s: System, a: Step)
    requires Enabled(s, a)
  {
    a.DiscoveryThrows? || (a.Found? && !a.writable && gen(s.trees[a.at]) != s.plugin.currentSource)
  }

  /** Time goes on by one at every step; the directory stays as it was unless the step changes it. */
  function Tick(s: System, a: Step): System
    requires s.trees != []
  {
    s.(trees := s.trees + [if a.Change? then a.tree else s.trees[|s.trees| - 1]])
  }

  function Do(gen: Tree -> string, s: System, a: Step): System
    requires s.trees != [] && Enabled(s, a)
  {
    var t := Tick(s, a);
    var now := |s.trees|;
    match a
    case Change(_) => t
    case Request =>
      var (p, starts) := Enter(s.plugin);
      var u := t.(plugin := p, requests := s.requests + [now]);
      if starts then u.(task := Some(Task(now, false, s.writes)), started := Some(now), discoveries := s.discoveries + 1)
      else u.(reports := s.reports + [Report(false, s.writes, s.writes)])
    case DiscoveryThrows => t.(plugin := Abort(s.plugin), task := None)
    case Found(at, writable) =>
      var source := gen(s.trees[at]);
      var (p, settled) := Settle(s.plugin, source, writable);
      var u := t.(plugin := p, basis := at);
      match settled
      case Thrown => u.(task := None)
      case Done(changed) =>
        var writes := s.writes + if changed then 1 else 0;
        u.(task := None, writes := writes,
           reports := s.reports + [Report(s.task.value.changed || changed, s.task.value.writesBefore, writes)])
      case FollowUp(changed) =>
        u.(task := Some(s.task.value.(since := now, changed := s.task.value.changed || changed)),
           started := Some(now), discoveries := s.discoveries + 1, writes := s.writes + if changed then 1 else 0)
  }

  predicate Legal(gen: Tree -> string, s: System, steps: seq<Step>)
    requires s.trees != []
    decreases |steps|
  {
    steps == [] || (Enabled(s, steps[0]) && Legal(gen, Do(gen, s, steps[0]), steps[1..]))
  }

  function Run(gen: Tree -> string, s: System, steps: seq<Step>): (t: System)
    requires s.trees != [] && Legal(gen, s, steps)
    ensures t.trees != []
    decreases |steps|
  {
    if steps == [] then s else Run(gen, Do(gen, s, steps[0]), steps[1..])
  }

  predicate NothingThrows(gen: Tree -> string, s: System, steps: seq<Step>)
    requires s.trees != [] && Legal(gen, s, steps)
    decreases |steps|
  {
    steps == [] || (!Throws(gen, s, steps[0]) && NothingThrows(gen, Do(gen, s, steps[0]), steps[1..]))
  }

  function Start(tree: Tree, existing: string): System {
    System(Plugin(false, false, "", existing), [tree], None, [], None, 0, 0, 0, [])
  }

  // ----- What always holds -----------------------------------------------------------------------------------

  /** A discovery started at or after the request, or one is still owed. */
  predicate ServedOrQueued(s: System, request: nat) {
    (s.started.Some? && request <= s.started.value) || s.plugin.queued
  }

  predicate Sound(s: System) {
    && s.trees != []
    && (s.plugin.inFlight <==> s.task.Some?)
    && (s.task.Some? ==> s.started == Some(s.task.value.since) && s.task.value.since < |s.trees|)
    && (s.started.Some? ==> s.started.value < |s.trees|)
    && (forall i | 0 <= i < |s.requests| :: s.requests[i] < |s.trees| && ServedOrQueued(s, s.requests[i]))
    && s.discoveries + (if s.plugin.queued then 1 else 0) <= |s.requests|
    && (s.task.Some? ==> s.task.value.writesBefore <= s.writes
                         && (s.task.value.changed <==> s.writes > s.task.value.writesBefore))
    && (forall r | r in s.reports :: r.changed <==> r.writesAfter > r.writesBefore)
  }

  lemma StepIsSound(gen: Tree -> string, s: System, a: Step)
    requires Sound(s) && Enabled(s, a)
    ensures Sound(Do(gen, s, a))
  {
  }

  /**
   Throws or not: one discovery at a time, never more discoveries than requests, every request
   either followed by a discovery that started no earlier or still queued, and every call that
   returned has reported a change exactly when its chain of discoveries wrote the file.
  */
  lemma {:induction false} AlwaysSound(gen: Tree -> string, s: System, steps: seq<Step>)
    requires Sound(s) && Legal(gen, s, steps)
    ensures Sound(Run(gen, s, steps))
    decreases |steps|
  {
    if steps != [] {
      StepIsSound(gen, s, steps[0]);
      AlwaysSound(gen, Do(gen, s, steps[0]), steps[1..]);
    }
  }

  // ----- What holds while nothing throws -----------------------------------------------------------------------

  /** A queued request has a running discovery ahead of it, and the file shows the current source. */
  predicate Fresh(gen: Tree -> string, s: System) {
    && (s.plugin.queued ==> s.plugin.inFlight)
    && s.basis < |s.trees|
    && (s.plugin.currentSource == "" || s.plugin.file == s.plugin.currentSource == gen(s.trees[s.basis]))
    && (s.started.Some? && s.task.None? ==> s.plugin.currentSource != "" && s.started.value <= s.basis)
  }

  lemma StepIsFresh(gen: Tree -> string, s: System, a: Step)
    requires Sound(s) && Fresh(gen, s) && Enabled(s, a) && !Throws(gen, s, a)
    requires forall tree :: gen(tree) != ""
    ensures Fresh(gen, Do(gen, s, a))
  {
  }

  lemma {:induction false} AlwaysFresh(gen: Tree -> string, s: System, steps: seq<Step>)
    requires Sound(s) && Fresh(gen, s) && Legal(gen, s, steps) && NothingThrows(gen, s, steps)
    requires forall tree :: gen(tree) != ""
    ensures Fresh(gen, Run(gen, s, steps))
    decreases |steps|
  {
    if steps != [] {
      StepIsSound(gen, s, steps[0]);
      StepIsFresh(gen, s, steps[0]);
      AlwaysFresh(gen, Do(gen, s, steps[0]), steps[1..]);
    }
  }

  /**
   At rest, after a run in which nothing threw, no request is lost: the file is the source of the
   directory as it was at some moment no earlier than every request.
  */
  lemma NoLostRefresh(gen: Tree -> string, tree: Tree, existing: string, steps: seq<Step>)
    requires forall t :: gen(t) != ""
    requires var s := Start(tree, existing); Legal(gen, s, steps) && NothingThrows(gen, s, steps)
    ensures var t := Run(gen, Start(tree, existing), steps);
            t.task.None? && t.requests != [] ==>
              && t.basis < |t.trees| && t.plugin.file == gen(t.trees[t.basis])
              && forall i | 0 <= i < |t.requests| :: t.requests[i] <= t.basis
  {
    var s := Start(tree, existing);
    AlwaysSound(gen, s, steps);
    AlwaysFresh(gen, s, steps);
    var t := Run(gen, s, steps);
    if t.task.None? && t.requests != [] {
      assert ServedOrQueued(t, t.requests[0]);
      assert forall i | 0 <= i < |t.requests| :: ServedOrQueued(t, t.requests[i]);
    }
  }

  // ----- What a throw leaves behind ----------------------------------------------------------------------------

  /** A throw while a request is queued leaves it queued with nothing running, until the next request comes. */
  lemma ThrowStrandsQueuedRequest(gen: Tree -> string, s: System, a: Step)
    requires Sound(s) && Enabled(s, a) && Throws(gen, s, a) && s.plugin.queued
    ensures var t := Do(gen, s, a);
            && t.task.None? && t.plugin.queued && t.discoveries == s.discoveries
            && (forall b | Enabled(t, b) && !b.Request? :: Do(gen, t, b).task.None? && Do(gen, t, b).plugin == t.plugin)
            && Do(gen, t, Request).task.Some?
  {
  }

  /**
   A write that fails leaves the variable ahead of the file. Later refreshes bring the file to the
   source they find exactly when that source is not the one whose write failed, or the file had it anyway.
  */
  lemma FailedWriteSticks(gen: Tree -> string, s: System, at: nat, again: System, later: nat)
    requires Enabled(s, Found(at, false)) && Throws(gen, s, Found(at, false)) && s.trees != []
    requires again.plugin == Do(gen, s, Found(at, false)).plugin.(inFlight := true)
    requires again.trees != [] && Enabled(again, Found(later, true))
    ensures var source := gen(again.trees[later]);
            Do(gen, again, Found(later, true)).plugin.file == source <==>
              source != gen(s.trees[at]) || s.plugin.file == source
  {
  }
}
