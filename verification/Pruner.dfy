/**
 The background trie pruner against the block commit, one atomic section at a time. The commit
 holds the read guard from before its account writes to its return; the pruner reads the head,
 takes its snapshot and marks without any guard, and holds the write guard only while it deletes.
*/
module Pruner {
  import opened Blocks
  import opened Rewards
  import opened Pipeline

  // ----- State -----------------------------------------------------------------------------------------

  /**
   An executed block's state. The account trie is built afresh from the touched accounts, so the new
   root reaches the nodes built with it and what lies under the `borrowed` ones, taken over from
   storage tries that the account table names. `read` are the nodes of those tries that its storage
   writes go through; execution fails when one of them is not on disk. `names` are the storage roots
   the table names afterwards.
  */
  datatype Work = Work(root: H256, own: set<H256>, borrowed: set<H256>, read: set<H256>, names: set<H256>)

  /** Next step of a commit that holds the read guard. */
  datatype Phase = Accounting | Flushing | Storing | Pushing | Releasing

  /** `buffer` are the nodes handed over that are not on disk yet. */
  datatype Producer =
    | Idle
    | Executed(work: Work, buffer: set<H256>)
    | Guarded(work: Work, buffer: set<H256>, next: Phase)

  datatype Cycle =
    | Resting
    | HeadRead(head: nat)
    | Checked(head: nat)
    | Snapped(roots: seq<Retained>)
    | Marked(roots: seq<Retained>, live: set<H256>)
    | Sweeping(roots: seq<Retained>, live: set<H256>)

  /** `chain` holds the state root of each stored block, `named` the storage roots in the account table. */
  datatype System = System(
    nodes: set<H256>,
    chain: seq<H256>,
    named: set<H256>,
    retained: seq<Retained>,
    producer: Producer,
    cycle: Cycle)

  /**
   `reach` are the stored nodes under a root. A root is `bare` when its state has an account without
   storage: that account names the empty storage root, which is never stored and which the mark walk
   looks for all the same.
  */
  datatype Env = Env(reach: H256 -> set<H256>, bare: H256 -> bool, retain: nat)

  /** What is reached through a reached node is reached, and a root that reaches anything reaches itself. */
  ghost predicate Closed(env: Env) {
    && (forall h, x | x in env.reach(h) :: env.reach(x) <= env.reach(h))
    && (forall h | env.reach(h) != {} :: h in env.reach(h))
  }

  function Tip(s: System): Retained
    requires s.chain != []
  {
    Retained(|s.chain| - 1, s.chain[|s.chain| - 1])
  }

  predicate ReadHeld(s: System) {
    s.producer.Guarded?
  }

  predicate WriteHeld(s: System) {
    s.cycle.Sweeping?
  }

  /** `snapshot_retained`: the listed roots of the last `retain` heights up to `head`. */
  function Snapshot(retained: seq<Retained>, head: nat, retain: nat): seq<Retained> {
    if retained == [] then [] else
    var before, last := Snapshot(retained[..|retained| - 1], head, retain), retained[|retained| - 1];
    if Minus(head + 1, retain) <= last.block <= head then before + [last] else before
  }

  ghost function Union(env: Env, roots: seq<Retained>): set<H256> {
    if roots == [] then {} else Union(env, roots[..|roots| - 1]) + env.reach(roots[|roots| - 1].stateRoot)
  }

  ghost function Under(env: Env, hs: set<H256>): set<H256> {
    set h, x | h in hs && x in env.reach(h) :: x
  }

  /** The walk finds every node: all are stored, and no leaf names the empty storage root. */
  ghost predicate WalkSucceeds(env: Env, nodes: set<H256>, roots: seq<Retained>) {
    Union(env, roots) <= nodes && forall i | 0 <= i < |roots| :: !env.bare(roots[i].stateRoot)
  }

  /** What boot lists: the last `retain` heights on disk, and always the tip. */
  function Seed(chain: seq<H256>, retain: nat): seq<Retained>
    requires chain != []
  {
    var start := Minus(|chain| - 1, Minus(retain, 1));
    seq(|chain| - start, (i: nat) requires i < |chain| - start => Retained(start + i, chain[start + i]))
  }

  /** A prune cycle looks at exactly the listed roots of the last `retain` heights up to `head`. */
  lemma {:induction false} SnapshotIsWindow(retained: seq<Retained>, head: nat, retain: nat, r: Retained)
    ensures r in Snapshot(retained, head, retain) <==> r in retained && head < r.block + retain && r.block <= head
  {
    if retained != [] {
      var init, last := retained[..|retained| - 1], retained[|retained| - 1];
      SnapshotIsWindow(init, head, retain, r);
      assert retained == init + [last];
    }
  }

  predicate Lists(list: seq<Retained>, height: nat) {
    exists i | 0 <= i < |list| :: list[i].block == height
  }

  /** Ascending, one entry a height, with the root of that height: the last `retain` heights, and the tip in any case. */
  lemma SeedIsWindow(chain: seq<H256>, retain: nat)
    requires chain != []
    ensures var list, tip := Seed(chain, retain), |chain| - 1;
            && (forall i | 0 <= i < |list| :: list[i].block < |chain| && list[i].stateRoot == chain[list[i].block])
            && (forall i, j | 0 <= i < j < |list| :: list[i].block < list[j].block)
            && (forall h: nat | h < |chain| :: Lists(list, h) <==> h == tip || tip < h + retain)
  {
    var list, tip := Seed(chain, retain), |chain| - 1;
    var start := |chain| - |list|;
    forall h: nat | h < |chain| ensures Lists(list, h) <==> h == tip || tip < h + retain {
      if start <= h {
        assert list[h - start].block == h;
      }
    }
  }

  // ----- Steps -----------------------------------------------------------------------------------------

  /** `Execute` hands over the nodes `handed` of those it built. */
  datatype Step =
    | Execute(work: Work, handed: set<H256>)
    | AutoFlush(part: set<H256>)
    | Drop
    | Acquire
    | WriteAccounts
    | CommitNodes
    | StoreBlock
    | PushRetained
    | Release
    | Fail
    | Trim(keep: nat)
    | ReadHead
    | Check
    | Snap
    | Mark
    | Lock
    | Delete(batch: set<H256>)
    | Unlock
    | Reboot

  const MIN_TRIMMED_LENGTH := 64

  /** The block can be executed on the account table of `s`. */
  ghost predicate Executable(env: Env, s: System, w: Work) {
    && w.borrowed + w.read <= Under(env, s.named) && w.borrowed !! w.own
    && w.read <= s.nodes
    && env.reach(w.root) == w.own + Under(env, w.borrowed)
    && Under(env, w.names) <= w.own + Under(env, s.named)
  }

  ghost predicate Enabled(env: Env, s: System, a: Step) {
    match a
    case Execute(w, handed) => s.producer.Idle? && s.chain != [] && Executable(env, s, w) && handed <= w.own
    case AutoFlush(part) => s.producer.Executed? && part <= s.producer.buffer && !WriteHeld(s)
    case Drop => s.producer.Executed?
    case Acquire => s.producer.Executed? && !WriteHeld(s)
    case WriteAccounts => s.producer.Guarded? && s.producer.next == Accounting
    case CommitNodes => s.producer.Guarded? && s.producer.next == Flushing
    case StoreBlock => s.producer.Guarded? && s.producer.next == Storing
    case PushRetained => s.producer.Guarded? && s.producer.next == Pushing
    case Release => s.producer.Guarded? && s.producer.next == Releasing
    case Fail => s.producer.Guarded? && s.producer.next != Releasing
    case Trim(keep) => MIN_TRIMMED_LENGTH <= keep < |s.retained|
    case ReadHead => s.cycle.Resting? && |s.chain| > 1
    case Check => s.cycle.HeadRead?
    case Snap => s.cycle.Checked?
    case Mark => s.cycle.Snapped?
    case Lock => s.cycle.Marked? && !ReadHeld(s)
    case Delete(batch) => s.cycle.Sweeping? && batch !! s.cycle.live
    case Unlock => s.cycle.Sweeping?
    case Reboot => s.chain != []
  }

  ghost function Do(env: Env, s: System, a: Step): System
    requires Enabled(env, s, a)
  {
    match a
    case Execute(w, handed) => s.(producer := Executed(w, handed))
    case AutoFlush(part) =>
      s.(nodes := s.nodes + part, producer := Executed(s.producer.work, s.producer.buffer - part))
    case Drop => s.(producer := Idle)
    case Acquire => s.(producer := Guarded(s.producer.work, s.producer.buffer, Accounting))
    case WriteAccounts => s.(named := s.producer.work.names, producer := s.producer.(next := Flushing))
    case CommitNodes => s.(nodes := s.nodes + s.producer.buffer, producer := Guarded(s.producer.work, {}, Storing))
    case StoreBlock => s.(chain := s.chain + [s.producer.work.root], producer := s.producer.(next := Pushing))
    case PushRetained => s.(retained := s.retained + [Retained(Minus(|s.chain|, 1), s.producer.work.root)],
                            producer := s.producer.(next := Releasing))
    case Release => s.(producer := Idle)
    case Fail => s.(producer := Idle)
    case Trim(keep) => s.(retained := s.retained[|s.retained| - keep..])
    case ReadHead => s.(cycle := HeadRead(|s.chain| - 1))
    case Check => s.(cycle := if Snapshot(s.retained, s.cycle.head, env.retain) == [] then Resting else Checked(s.cycle.head))
    case Snap => s.(cycle := Snapped(Snapshot(s.retained, s.cycle.head, env.retain)))
    case Mark => s.(cycle := if WalkSucceeds(env, s.nodes, s.cycle.roots)
                             then Marked(s.cycle.roots, Union(env, s.cycle.roots)) else Resting)
    case Lock => s.(cycle := Sweeping(s.cycle.roots, s.cycle.live))
    case Delete(batch) => s.(nodes := s.nodes - batch)
    case Unlock => s.(cycle := Resting)
    case Reboot => System(s.nodes, s.chain, s.named, Seed(s.chain, env.retain), Idle, Resting)
  }

  ghost predicate Legal(env: Env, s: System, steps: seq<Step>)
    decreases |steps|
  {
    steps == [] || (Enabled(env, s, steps[0]) && Legal(env, Do(env, s, steps[0]), steps[1..]))
  }

  ghost function Run(env: Env, s: System, steps: seq<Step>): System
    requires Legal(env, s, steps)
    decreases |steps|
  {
    if steps == [] then s else Run(env, Do(env, s, steps[0]), steps[1..])
  }

  // ----- The tip is listed whenever the write guard can be held ----------------------------------------------

  predicate TipListed(s: System) {
    s.chain != [] && s.retained != [] && s.retained[|s.retained| - 1] == Tip(s)
  }

  /** Between the block write and the push the tip is not listed; the read guard is held all that time. */
  predicate ListedOrGuarded(s: System) {
    && (s.producer.Guarded? && s.producer.next == Pushing ==>
          s.chain != [] && s.producer.work.root == s.chain[|s.chain| - 1])
    && (TipListed(s) || (s.producer.Guarded? && s.producer.next == Pushing))
    && !(ReadHeld(s) && WriteHeld(s))
  }

  /** No step of the run fails between the block write and the push. */
  ghost predicate NoLateFailure(env: Env, s: System, steps: seq<Step>)
    requires Legal(env, s, steps)
    decreases |steps|
  {
    steps == [] ||
    (&& !(steps[0].Fail? && s.producer.next == Pushing)
     && NoLateFailure(env, Do(env, s, steps[0]), steps[1..]))
  }

  lemma StepKeepsListed(env: Env, s: System, a: Step)
    requires ListedOrGuarded(s) && Enabled(env, s, a) && !(a.Fail? && s.producer.next == Pushing)
    ensures ListedOrGuarded(Do(env, s, a))
  {
  }

  lemma {:induction false} RunKeepsListed(env: Env, s: System, steps: seq<Step>)
    requires ListedOrGuarded(s) && Legal(env, s, steps) && NoLateFailure(env, s, steps)
    ensures ListedOrGuarded(Run(env, s, steps))
    decreases |steps|
  {
    if steps != [] {
      StepKeepsListed(env, s, steps[0]);
      RunKeepsListed(env, Do(env, s, steps[0]), steps[1..]);
    }
  }

  /**
   In every interleaving, restarts included, in which no commit fails after its block write, a
   pruner that holds the write guard finds the tip in the list, and in the window of the current head.
  */
  lemma WriterSeesTip(env: Env, s: System, steps: seq<Step>)
    requires ListedOrGuarded(s) && Legal(env, s, steps) && NoLateFailure(env, s, steps)
    requires WriteHeld(Run(env, s, steps))
    ensures var t := Run(env, s, steps);
            && t.chain != [] && Tip(t) in t.retained
            && (env.retain > 0 ==> Tip(t) in Snapshot(t.retained, Tip(t).block, env.retain))
  {
    RunKeepsListed(env, s, steps);
    var t := Run(env, s, steps);
    SnapshotIsWindow(t.retained, Tip(t).block, env.retain, Tip(t));
  }

  // ----- What a sweep may delete ---------------------------------------------------------------------------

  predicate AccountsWritten(p: Producer) {
    p.Guarded? && p.next == Flushing
  }

  /** Everything under the tip, under the storage roots of the account table and under a running block is on disk or handed over. */
  ghost predicate Complete(env: Env, s: System) {
    && s.chain != [] && env.reach(Tip(s).stateRoot) <= s.nodes
    && Under(env, s.named) <= s.nodes + (if AccountsWritten(s.producer) then s.producer.buffer else {})
    && (!s.producer.Idle? ==>
          && s.producer.work.own <= s.nodes + s.producer.buffer
          && Under(env, s.producer.work.borrowed) <= s.nodes
          && env.reach(s.producer.work.root) == s.producer.work.own + Under(env, s.producer.work.borrowed))
    && (s.producer.Executed? || (s.producer.Guarded? && s.producer.next == Accounting) ==>
          Under(env, s.producer.work.names) <= s.producer.work.own + Under(env, s.named))
    && (s.producer.Guarded? && s.producer.next !in {Accounting, Flushing} ==> s.producer.buffer == {})
  }

  /** The marks are those of the snapshot. */
  ghost predicate MarksMatch(env: Env, s: System) {
    s.cycle.Marked? || s.cycle.Sweeping? ==> s.cycle.live == Union(env, s.cycle.roots)
  }

  predicate IsMarked(env: Env, live: set<H256>, h: H256) {
    h in live || env.reach(h) == {}
  }

  /**
   A test on hashes alone: the tip's root and every storage root of the account table are marked,
   and so is what a block that is being processed has flushed or borrowed.
  */
  ghost predicate Covers(env: Env, s: System)
    requires s.cycle.Sweeping? && s.chain != []
  {
    var live := s.cycle.live;
    && IsMarked(env, live, Tip(s).stateRoot)
    && (forall r | r in s.named :: IsMarked(env, live, r))
    && (!s.producer.Idle? ==>
          && s.producer.work.own - s.producer.buffer <= live
          && forall r | r in s.producer.work.borrowed :: IsMarked(env, live, r))
  }

  lemma {:induction false} UnionClosed(env: Env, roots: seq<Retained>, h: H256)
    requires Closed(env)
    ensures h in Union(env, roots) ==> env.reach(h) <= Union(env, roots)
  {
    if roots != [] {
      UnionClosed(env, roots[..|roots| - 1], h);
    }
  }

  /** With the marks of some snapshot, marking a hash is marking all it reaches. */
  lemma MarkedIff(env: Env, roots: seq<Retained>, h: H256)
    requires Closed(env)
    ensures IsMarked(env, Union(env, roots), h) <==> env.reach(h) <= Union(env, roots)
  {
    UnionClosed(env, roots, h);
  }

  lemma AllMarkedIff(env: Env, roots: seq<Retained>, hs: set<H256>)
    requires Closed(env)
    ensures (forall h | h in hs :: IsMarked(env, Union(env, roots), h)) <==> Under(env, hs) <= Union(env, roots)
  {
    forall h | h in hs ensures IsMarked(env, Union(env, roots), h) <==> env.reach(h) <= Union(env, roots) {
      MarkedIff(env, roots, h);
    }
    if Under(env, hs) <= Union(env, roots) {
      forall h | h in hs ensures env.reach(h) <= Union(env, roots) {
        assert forall x | x in env.reach(h) :: x in Under(env, hs);
      }
    }
  }

  /** A sweep of everything unmarked leaves the node complete if and only if that test succeeds. */
  lemma SweepIsSafeIff(env: Env, s: System)
    requires Closed(env) && Complete(env, s) && MarksMatch(env, s) && s.cycle.Sweeping? && !s.producer.Guarded?
    ensures var a := Delete(s.nodes - s.cycle.live);
            Enabled(env, s, a) && (Complete(env, Do(env, s, a)) <==> Covers(env, s))
  {
    var t := Do(env, s, Delete(s.nodes - s.cycle.live));
    var live := s.cycle.live;
    assert t.nodes == s.nodes * live;
    MarkedIff(env, s.cycle.roots, Tip(s).stateRoot);
    AllMarkedIff(env, s.cycle.roots, s.named);
    assert env.reach(Tip(t).stateRoot) <= t.nodes <==> env.reach(Tip(s).stateRoot) <= live;
    assert Under(env, s.named) <= t.nodes <==> Under(env, s.named) <= live;
    if s.producer.Executed? {
      AllMarkedIff(env, s.cycle.roots, s.producer.work.borrowed);
      ExecutedKeptIff(s.producer, s.nodes, live);
    }
  }

  lemma ExecutedKeptIff(p: Producer, nodes: set<H256>, live: set<H256>)
    requires p.Executed? && p.work.own <= nodes + p.buffer
    ensures p.work.own <= nodes * live + p.buffer <==> p.work.own - p.buffer <= live
  {
  }

  lemma {:induction false} UnionContains(env: Env, roots: seq<Retained>, r: Retained)
    requires r in roots
    ensures env.reach(r.stateRoot) <= Union(env, roots)
  {
    if roots[|roots| - 1] != r {
      UnionContains(env, roots[..|roots| - 1], r);
    }
  }

  /** The pruner's side of the test: tip in its snapshot, no block being processed, and the table's storage roots marked. */
  lemma TipSnappedIsCovered(env: Env, s: System)
    requires Closed(env) && MarksMatch(env, s) && s.cycle.Sweeping? && s.chain != [] && s.producer.Idle?
    requires Tip(s) in s.cycle.roots
    ensures Covers(env, s) <==> forall r | r in s.named :: IsMarked(env, s.cycle.live, r)
  {
    UnionContains(env, s.cycle.roots, Tip(s));
    MarkedIff(env, s.cycle.roots, Tip(s).stateRoot);
  }

  /** A step that endangers nothing: deletes with the test passed, and no stop between account rows and the nodes they name. */
  ghost predicate Careful(env: Env, s: System, a: Step)
    requires Enabled(env, s, a)
  {
    && (a.Delete? ==> s.chain != [] && Covers(env, s))
    && (a.Execute? ==> a.handed == a.work.own)
    && ((a.Fail? || a.Reboot?) && AccountsWritten(s.producer) ==> Under(env, s.named) <= s.nodes)
  }

  ghost predicate AllCareful(env: Env, s: System, steps: seq<Step>)
    requires Legal(env, s, steps)
    decreases |steps|
  {
    steps == [] || (Careful(env, s, steps[0]) && AllCareful(env, Do(env, s, steps[0]), steps[1..]))
  }

  lemma UnderMonotone(env: Env, hs: set<H256>, deep: set<H256>)
    requires Closed(env) && hs <= Under(env, deep)
    ensures Under(env, hs) <= Under(env, deep)
  {
    forall x | x in Under(env, hs) ensures x in Under(env, deep) {
      var h :| h in hs && x in env.reach(h);
      var d :| d in deep && h in env.reach(d);
      assert x in env.reach(d);
    }
  }

  lemma DeleteKeepsComplete(env: Env, s: System, batch: set<H256>)
    requires s.cycle.Sweeping? && batch !! s.cycle.live && s.chain != [] && !s.producer.Guarded?
    requires Closed(env) && MarksMatch(env, s) && Complete(env, s) && Covers(env, s)
    ensures Complete(env, s.(nodes := s.nodes - batch))
  {
    var live := s.cycle.live;
    MarkedIff(env, s.cycle.roots, Tip(s).stateRoot);
    AllMarkedIff(env, s.cycle.roots, s.named);
    if s.producer.Executed? {
      AllMarkedIff(env, s.cycle.roots, s.producer.work.borrowed);
    }
    assert s.nodes * live <= s.nodes - batch;
  }

  lemma BorrowedOnDisk(env: Env, s: System, w: Work)
    requires Closed(env) && Executable(env, s, w) && Under(env, s.named) <= s.nodes
    ensures Under(env, w.borrowed) <= s.nodes
  {
    UnderMonotone(env, w.borrowed, s.named);
  }

  lemma ExecuteKeepsComplete(env: Env, s: System, w: Work)
    requires Complete(env, s) && s.producer.Idle? && Executable(env, s, w) && Under(env, w.borrowed) <= s.nodes
    ensures Complete(env, s.(producer := Executed(w, w.own)))
  {
  }

  lemma AutoFlushKeepsComplete(env: Env, s: System, part: set<H256>)
    requires Complete(env, s) && s.producer.Executed? && part <= s.producer.buffer
    ensures Complete(env, s.(nodes := s.nodes + part, producer := Executed(s.producer.work, s.producer.buffer - part)))
  {
    assert s.nodes + s.producer.buffer == s.nodes + part + (s.producer.buffer - part);
  }

  lemma GuardedKeepsComplete(env: Env, s: System, a: Step)
    requires Complete(env, s) && s.producer.Guarded? && Enabled(env, s, a)
    requires a in {WriteAccounts, CommitNodes, StoreBlock, PushRetained, Release}
    ensures Complete(env, Do(env, s, a))
  {
  }

  lemma StopKeepsComplete(env: Env, s: System, a: Step)
    requires Complete(env, s) && Enabled(env, s, a) && a in {Drop, Acquire, Fail, Reboot}
    requires (a.Fail? || a.Reboot?) && AccountsWritten(s.producer) ==> Under(env, s.named) <= s.nodes
    ensures Complete(env, Do(env, s, a))
  {
  }

  lemma CycleKeepsComplete(env: Env, s: System, a: Step)
    requires Complete(env, s) && Enabled(env, s, a)
    requires a.Trim? || a in {ReadHead, Check, Snap, Mark, Lock, Unlock}
    ensures Complete(env, Do(env, s, a))
  {
  }

  lemma StepKeepsMarks(env: Env, s: System, a: Step)
    requires MarksMatch(env, s) && !(ReadHeld(s) && WriteHeld(s)) && Enabled(env, s, a)
    ensures var t := Do(env, s, a); MarksMatch(env, t) && !(ReadHeld(t) && WriteHeld(t))
  {
  }

  lemma StepKeepsComplete(env: Env, s: System, a: Step)
    requires Closed(env) && Complete(env, s) && MarksMatch(env, s) && !(ReadHeld(s) && WriteHeld(s))
    requires Enabled(env, s, a) && Careful(env, s, a)
    ensures Complete(env, Do(env, s, a))
  {
    if a.Delete? {
      DeleteKeepsComplete(env, s, a.batch);
    } else if a.AutoFlush? {
      AutoFlushKeepsComplete(env, s, a.part);
    } else if a.Execute? {
      BorrowedOnDisk(env, s, a.work);
      ExecuteKeepsComplete(env, s, a.work);
    } else if a in {WriteAccounts, CommitNodes, StoreBlock, PushRetained, Release} {
      GuardedKeepsComplete(env, s, a);
    } else if a in {Drop, Acquire, Fail, Reboot} {
      StopKeepsComplete(env, s, a);
    } else {
      CycleKeepsComplete(env, s, a);
    }
  }

  /**
   Over every run, failures and restarts included, in which execution hands over what it builds: the
   tip, the account table's storage and a running block stay complete as long as every sweep passes the test.
  */
  lemma {:induction false} CoveringSweepsKeepComplete(env: Env, s: System, steps: seq<Step>)
    requires Closed(env) && Complete(env, s) && MarksMatch(env, s) && !(ReadHeld(s) && WriteHeld(s))
    requires Legal(env, s, steps) && AllCareful(env, s, steps)
    ensures Complete(env, Run(env, s, steps))
    decreases |steps|
  {
    if steps != [] {
      StepKeepsComplete(env, s, steps[0]);
      StepKeepsMarks(env, s, steps[0]);
      CoveringSweepsKeepComplete(env, Do(env, s, steps[0]), steps[1..]);
    }
  }

  // ----- Composing runs -----------------------------------------------------------------------------------

  lemma Prepend(env: Env, s: System, a: Step, steps: seq<Step>)
    requires Enabled(env, s, a) && Legal(env, Do(env, s, a), steps)
    ensures Legal(env, s, [a] + steps)
    ensures Run(env, s, [a] + steps) == Run(env, Do(env, s, a), steps)
    ensures NoLateFailure(env, s, [a] + steps) <==>
            !(a.Fail? && s.producer.next == Pushing) && NoLateFailure(env, Do(env, s, a), steps)
  {
    assert ([a] + steps)[1..] == steps;
  }

  /** From `s` the steps lead to `t`, and none of them is a failure after a block write. */
  ghost predicate Leads(env: Env, s: System, steps: seq<Step>, t: System) {
    Legal(env, s, steps) && NoLateFailure(env, s, steps) && Run(env, s, steps) == t
  }

  lemma {:induction false} LeadsOn(env: Env, s: System, first: seq<Step>, mid: System, second: seq<Step>, t: System)
    requires Leads(env, s, first, mid) && Leads(env, mid, second, t)
    ensures Leads(env, s, first + second, t)
    decreases |first|
  {
    if first == [] {
      assert first + second == second;
    } else {
      var next := Do(env, s, first[0]);
      LeadsOn(env, next, first[1..], mid, second, t);
      Prepend(env, s, first[0], first[1..] + second);
      assert first + second == [first[0]] + (first[1..] + second);
    }
  }

  lemma OneStep(env: Env, s: System, a: Step)
    requires Enabled(env, s, a) && !(a.Fail? && s.producer.next == Pushing)
    ensures Leads(env, s, [a], Do(env, s, a))
  {
    Prepend(env, s, a, []);
    assert [a] + [] == [a];
  }

  lemma TwoSteps(env: Env, s: System, a: Step, b: Step)
    requires Enabled(env, s, a) && !(a.Fail? && s.producer.next == Pushing)
    requires Enabled(env, Do(env, s, a), b) && !(b.Fail? && Do(env, s, a).producer.next == Pushing)
    ensures Leads(env, s, [a, b], Do(env, Do(env, s, a), b))
  {
    OneStep(env, Do(env, s, a), b);
    Prepend(env, s, a, [b]);
    assert [a] + [b] == [a, b];
  }

  const MARK: seq<Step> := [ReadHead, Check] + [Snap, Mark]

  /** A whole mark phase with no commit step in it. */
  lemma MarkLeads(env: Env, s: System)
    requires s.cycle.Resting? && |s.chain| > 1
    requires var roots := Snapshot(s.retained, |s.chain| - 1, env.retain); roots != [] && WalkSucceeds(env, s.nodes, roots)
    ensures Leads(env, s, MARK, MarkedState(env, s))
  {
    var head := |s.chain| - 1;
    var roots := Snapshot(s.retained, head, env.retain);
    TwoSteps(env, s, ReadHead, Check);
    var checked := s.(cycle := Checked(head));
    TwoSteps(env, checked, Snap, Mark);
    LeadsOn(env, s, [ReadHead, Check], checked, [Snap, Mark], MarkedState(env, s));
  }

  ghost function MarkedState(env: Env, s: System): System
    requires s.chain != []
  {
    var roots := Snapshot(s.retained, |s.chain| - 1, env.retain);
    s.(cycle := Marked(roots, Union(env, roots)))
  }

  function Sweep(s: System): seq<Step>
    requires s.cycle.Marked?
  {
    [Lock, Delete(s.nodes - s.cycle.live)] + [Unlock]
  }

  function SweptState(s: System): System
    requires s.cycle.Marked?
  {
    s.(nodes := s.nodes - (s.nodes - s.cycle.live), cycle := Resting)
  }

  lemma SweepLeads(env: Env, s: System)
    requires s.cycle.Marked? && !ReadHeld(s)
    ensures Leads(env, s, Sweep(s), SweptState(s))
  {
    var batch := s.nodes - s.cycle.live;
    TwoSteps(env, s, Lock, Delete(batch));
    var mid := s.(nodes := s.nodes - batch, cycle := Sweeping(s.cycle.roots, s.cycle.live));
    OneStep(env, mid, Unlock);
    LeadsOn(env, s, [Lock, Delete(batch)], mid, [Unlock], SweptState(s));
  }

  const STORE: seq<Step> := [Acquire, WriteAccounts] + [CommitNodes, StoreBlock]
  const COMMIT: seq<Step> := STORE + [PushRetained, Release]

  function StoredState(s: System): System
    requires s.producer.Executed?
  {
    System(s.nodes + s.producer.buffer, s.chain + [s.producer.work.root], s.producer.work.names, s.retained,
           Guarded(s.producer.work, {}, Pushing), s.cycle)
  }

  function CommittedState(s: System): System
    requires s.producer.Executed?
  {
    var t := StoredState(s);
    t.(retained := s.retained + [Retained(|s.chain|, s.producer.work.root)], producer := Idle)
  }

  lemma StoreLeads(env: Env, s: System)
    requires s.producer.Executed? && !WriteHeld(s)
    ensures Leads(env, s, STORE, StoredState(s))
  {
    var w := s.producer.work;
    var mid := s.(named := w.names, producer := Guarded(w, s.producer.buffer, Flushing));
    TwoSteps(env, s, Acquire, WriteAccounts);
    TwoSteps(env, mid, CommitNodes, StoreBlock);
    LeadsOn(env, s, [Acquire, WriteAccounts], mid, [CommitNodes, StoreBlock], StoredState(s));
  }

  lemma CommitLeads(env: Env, s: System)
    requires s.producer.Executed? && !WriteHeld(s)
    ensures Leads(env, s, COMMIT, CommittedState(s))
  {
    StoreLeads(env, s);
    TwoSteps(env, StoredState(s), PushRetained, Release);
    LeadsOn(env, s, STORE, StoredState(s), [PushRetained, Release], CommittedState(s));
  }

  lemma ExecuteAndCommitLeads(env: Env, s: System, w: Work)
    requires s.producer.Idle? && s.chain != [] && Executable(env, s, w) && !WriteHeld(s)
    ensures Leads(env, s, [Execute(w, w.own)] + COMMIT, CommittedState(s.(producer := Executed(w, w.own))))
  {
    var executed := s.(producer := Executed(w, w.own));
    OneStep(env, s, Execute(w, w.own));
    CommitLeads(env, executed);
    LeadsOn(env, s, [Execute(w, w.own)], executed, COMMIT, CommittedState(executed));
  }

  // ----- Where it is safe, and where it is not ---------------------------------------------------------------

  /** A node just started on a complete disk with more than a genesis block, whose window the mark walk can read. */
  ghost predicate Restarted(env: Env, s: System) {
    && |s.chain| > 1 && Complete(env, s)
    && s.producer.Idle? && s.cycle.Resting? && s.retained == Seed(s.chain, env.retain)
    && WalkSucceeds(env, s.nodes, Window(env, s))
  }

  function Window(env: Env, s: System): seq<Retained>
    requires s.chain != []
  {
    Snapshot(s.retained, |s.chain| - 1, env.retain)
  }

  lemma RestartedSeesTip(env: Env, s: System)
    requires s.chain != [] && s.retained == Seed(s.chain, env.retain) && env.retain > 0
    ensures TipListed(s) && Tip(s) in Window(env, s) && Window(env, s) != []
  {
    SnapshotIsWindow(s.retained, |s.chain| - 1, env.retain, Tip(s));
  }

  /** A prune cycle that no commit overlaps covers the tip; it is safe exactly when the table's storage roots are marked. */
  lemma UndisturbedCycle(env: Env, s: System)
    requires Closed(env) && Restarted(env, s) && env.retain > 0
    ensures var marked := MarkedState(env, s);
            && Leads(env, s, MARK + Sweep(marked), SweptState(marked))
            && (Complete(env, SweptState(marked)) <==>
                  forall r | r in s.named :: IsMarked(env, Union(env, Window(env, s)), r))
  {
    RestartedSeesTip(env, s);
    MarkLeads(env, s);
    var marked := MarkedState(env, s);
    SweepLeads(env, marked);
    LeadsOn(env, s, MARK, marked, Sweep(marked), SweptState(marked));
    var sweeping := s.(cycle := Sweeping(marked.cycle.roots, marked.cycle.live));
    TipSnappedIsCovered(env, sweeping);
    SweepIsSafeIff(env, sweeping);
    SameComplete(env, Do(env, sweeping, Delete(s.nodes - marked.cycle.live)), SweptState(marked));
  }

  lemma SameComplete(env: Env, s: System, t: System)
    requires t == s.(cycle := t.cycle)
    ensures Complete(env, s) <==> Complete(env, t)
  {
  }

  /**
   The next block after a sweep executes exactly when what its storage writes go through was marked,
   and is then complete exactly when everything it borrows was. A contract that is touched without a
   storage write, after its storage has left the window, is the failing case.
  */
  lemma NextTipCompleteIff(env: Env, s: System, w: Work)
    requires Closed(env) && Restarted(env, s) && env.retain > 0 && Executable(env, s, w)
    ensures var swept := SweptState(MarkedState(env, s));
            var t := CommittedState(swept.(producer := Executed(w, w.own)));
            && Leads(env, s, MARK + Sweep(MarkedState(env, s)), swept)
            && (Executable(env, swept, w) <==> w.read <= Union(env, Window(env, s)))
            && (Executable(env, swept, w) ==> Leads(env, swept, [Execute(w, w.own)] + COMMIT, t))
            && Tip(t).stateRoot == w.root
            && (env.reach(w.root) <= t.nodes <==>
                  forall r | r in w.borrowed :: IsMarked(env, Union(env, Window(env, s)), r))
  {
    var marked := MarkedState(env, s);
    var swept := SweptState(marked);
    UndisturbedCycle(env, s);
    if Executable(env, swept, w) {
      ExecuteAndCommitLeads(env, swept, w);
    }
    BorrowedKeptIff(env, s, w, Window(env, s));
  }

  lemma BorrowedKeptIff(env: Env, s: System, w: Work, roots: seq<Retained>)
    requires Closed(env) && Executable(env, s, w) && Under(env, s.named) <= s.nodes
    ensures var live := Union(env, roots);
            env.reach(w.root) <= s.nodes * live + w.own <==> forall r | r in w.borrowed :: IsMarked(env, live, r)
  {
    var live := Union(env, roots);
    UnderMonotone(env, w.borrowed, s.named);
    AllMarkedIff(env, roots, w.borrowed);
    if env.reach(w.root) <= s.nodes * live + w.own {
      forall r | r in w.borrowed && env.reach(r) != {} ensures r in live {
        assert r in Under(env, w.borrowed) by { assert r in env.reach(r); }
        assert r in env.reach(w.root) && r !in w.own;
      }
    }
  }

  /**
   The guards do not close the gap between mark and lock: from a restart, with no step failing, a
   commit that fits into it loses every node its state has beyond the marked ones.
  */
  lemma CommitBetweenMarkAndLockIsSwept(env: Env, s: System, w: Work, x: H256)
    requires Restarted(env, s) && env.retain > 0 && Executable(env, s, w)
    requires x in w.own && x !in Union(env, Window(env, s))
    ensures exists steps, t :: Leads(env, s, steps, t) && t.chain == s.chain + [w.root] && !Complete(env, t)
  {
    RestartedSeesTip(env, s);
    MarkLeads(env, s);
    var marked := MarkedState(env, s);
    ExecuteAndCommitLeads(env, marked, w);
    var committed := CommittedState(marked.(producer := Executed(w, w.own)));
    LeadsOn(env, s, MARK, marked, [Execute(w, w.own)] + COMMIT, committed);
    SweepLeads(env, committed);
    var t := SweptState(committed);
    LeadsOn(env, s, MARK + ([Execute(w, w.own)] + COMMIT), committed, Sweep(committed), t);
    assert x !in t.nodes && x in env.reach(w.root) && Tip(t).stateRoot == w.root;
  }

  /** Execution, flush of `part`, a whole prune cycle, and then the commit. */
  lemma FlushCycleCommit(env: Env, s: System, w: Work, part: set<H256>, flushed: System)
    returns (steps: seq<Step>)
    requires Restarted(env, s) && env.retain > 0 && Executable(env, s, w) && part <= w.own
    requires flushed == s.(nodes := s.nodes + part, producer := Executed(w, w.own - part))
    ensures Leads(env, s, steps, CommittedState(SweptState(MarkedState(env, flushed))))
  {
    RestartedSeesTip(env, s);
    var head := [Execute(w, w.own), AutoFlush(part)];
    TwoSteps(env, s, Execute(w, w.own), AutoFlush(part));
    MarkLeads(env, flushed);
    var marked := MarkedState(env, flushed);
    SweepLeads(env, marked);
    CommitLeads(env, SweptState(marked));
    LeadsOn(env, s, head, flushed, MARK, marked);
    LeadsOn(env, s, head + MARK, marked, Sweep(marked), SweptState(marked));
    LeadsOn(env, s, head + MARK + Sweep(marked), SweptState(marked), COMMIT, CommittedState(SweptState(marked)));
    steps := head + MARK + Sweep(marked) + COMMIT;
  }

  lemma UnionOfTwo(env: Env, x: Retained, y: Retained)
    ensures Union(env, [x, y]) == env.reach(x.stateRoot) + env.reach(y.stateRoot)
  {
    var both := [x, y];
    assert both[..1] == [x] && both[..1][..0] == [];
    assert Union(env, both[..1]) == Union(env, []) + env.reach(x.stateRoot);
    assert Union(env, both) == Union(env, both[..1]) + env.reach(y.stateRoot);
  }

  function TwoBlocks(a: H256, b: H256): System {
    System({a, b}, [a, b], {}, [Retained(0, a), Retained(1, b)], Idle, Resting)
  }

  lemma TwoBlocksWindow(env: Env, a: H256, b: H256)
    requires env.retain == 2
    ensures Window(env, TwoBlocks(a, b)) == [Retained(0, a), Retained(1, b)]
    ensures Seed([a, b], 2) == [Retained(0, a), Retained(1, b)]
  {
    var listed := [Retained(0, a), Retained(1, b)];
    assert listed[..1] == [Retained(0, a)] && listed[..1][..0] == [];
    assert Snapshot(listed[..1], 1, 2) == listed[..1];
    var s := Seed([a, b], 2);
    assert |s| == 2 && s[0] == listed[0] && s[1] == listed[1];
  }

  /** Such restarts exist: two stored blocks, a third that builds one new node. */
  lemma GapIsReachable(a: H256, b: H256, c: H256)
    requires a != b && b != c && a != c
    ensures var env := Env(h => {h}, h => false, 2);
            exists s, w :: Closed(env) && Restarted(env, s) && Executable(env, s, w)
              && c in w.own && c !in Union(env, Window(env, s))
  {
    var env := Env(h => {h}, h => false, 2);
    var s, w := TwoBlocks(a, b), Work(c, {c}, {}, {}, {});
    TwoBlocksWindow(env, a, b);
    UnionOfTwo(env, Retained(0, a), Retained(1, b));
    assert Restarted(env, s);
    assert Executable(env, s, w);
  }

  /** Nodes flushed while executing, before the guard is taken, can be swept before the commit that needs them. */
  lemma EarlyFlushIsSwept(env: Env, s: System, w: Work, part: set<H256>, x: H256)
    requires Restarted(env, s) && env.retain > 0 && Executable(env, s, w)
    requires x in part && part <= w.own && x !in Union(env, Window(env, s))
    ensures exists steps, t :: Leads(env, s, steps, t) && t.chain == s.chain + [w.root] && !Complete(env, t)
  {
    var flushed := s.(nodes := s.nodes + part, producer := Executed(w, w.own - part));
    var steps := FlushCycleCommit(env, s, w, part, flushed);
    var t := CommittedState(SweptState(MarkedState(env, flushed)));
    assert x !in t.nodes && x in env.reach(w.root) && Tip(t).stateRoot == w.root;
  }

  lemma CycleLeads(env: Env, s: System)
    requires s.cycle.Resting? && !ReadHeld(s) && |s.chain| > 1
    requires Window(env, s) != [] && WalkSucceeds(env, s.nodes, Window(env, s))
    ensures Leads(env, s, MARK + Sweep(MarkedState(env, s)), SweptState(MarkedState(env, s)))
  {
    MarkLeads(env, s);
    var marked := MarkedState(env, s);
    SweepLeads(env, marked);
    LeadsOn(env, s, MARK, marked, Sweep(marked), SweptState(marked));
  }

  /** From a restart, a failure between block write and push leaves a tip that the next prune cycle deletes. */
  lemma UnlistedTipIsSwept(env: Env, s: System, w: Work, x: H256)
    requires Restarted(env, s) && Executable(env, s, w)
    requires var roots := Snapshot(s.retained, |s.chain|, env.retain);
             roots != [] && WalkSucceeds(env, s.nodes + w.own, roots) && x !in Union(env, roots)
    requires x in w.own
    ensures exists steps, mid, after, t ::
              && Leads(env, s, steps, mid) && Enabled(env, mid, Fail)
              && Leads(env, Do(env, mid, Fail), after, t)
              && t.chain == s.chain + [w.root] && !Complete(env, t)
  {
    var executed := s.(producer := Executed(w, w.own));
    OneStep(env, s, Execute(w, w.own));
    StoreLeads(env, executed);
    var mid := StoredState(executed);
    LeadsOn(env, s, [Execute(w, w.own)], executed, STORE, mid);
    UnlistedSwept(env, s, w, x, mid);
  }

  lemma UnlistedSwept(env: Env, s: System, w: Work, x: H256, mid: System)
    requires s.chain != [] && s.cycle.Resting? && mid == StoredState(s.(producer := Executed(w, w.own)))
    requires x in w.own && w.own <= env.reach(w.root)
    requires var roots := Snapshot(s.retained, |s.chain|, env.retain);
             roots != [] && WalkSucceeds(env, s.nodes + w.own, roots) && x !in Union(env, roots)
    ensures Enabled(env, mid, Fail)
    ensures exists after, t :: Leads(env, Do(env, mid, Fail), after, t) && t.chain == mid.chain && !Complete(env, t)
  {
    var failed := mid.(producer := Idle);
    assert Do(env, mid, Fail) == failed;
    CycleLeads(env, failed);
    var t := SweptState(MarkedState(env, failed));
    assert Leads(env, failed, MARK + Sweep(MarkedState(env, failed)), t);
    assert x !in t.nodes && Tip(t).stateRoot == w.root && x in env.reach(w.root);
    assert !Complete(env, t);
  }

  // ----- What never gets that far ----------------------------------------------------------------------------

  ghost predicate HandsOverNothing(steps: seq<Step>) {
    forall i | 0 <= i < |steps| && steps[i].Execute? :: steps[i].handed == {}
  }

  /** Every root that is or becomes listed satisfies `p`. */
  ghost predicate AllRoots(p: H256 -> bool, s: System) {
    && (forall i | 0 <= i < |s.chain| :: p(s.chain[i]))
    && (forall r | r in s.retained :: p(r.stateRoot))
    && (!s.producer.Idle? ==> p(s.producer.work.root))
    && (s.cycle.Snapped? || s.cycle.Marked? || s.cycle.Sweeping? ==> forall r | r in s.cycle.roots :: p(r.stateRoot))
  }

  ghost predicate AllExecuted(p: H256 -> bool, steps: seq<Step>) {
    forall i | 0 <= i < |steps| && steps[i].Execute? :: p(steps[i].work.root)
  }

  lemma StepKeepsRoots(env: Env, p: H256 -> bool, s: System, a: Step)
    requires AllRoots(p, s) && Enabled(env, s, a) && (a.Execute? ==> p(a.work.root))
    ensures AllRoots(p, Do(env, s, a))
  {
    if a.Snap? {
      forall r | r in Snapshot(s.retained, s.cycle.head, env.retain) ensures p(r.stateRoot) {
        SnapshotIsWindow(s.retained, s.cycle.head, env.retain, r);
      }
    }
  }

  /** The disk has no trie node, nothing is handed over, and only an empty snapshot is ever marked. */
  predicate Inert(s: System) {
    && s.nodes == {} && (!s.producer.Idle? ==> s.producer.buffer == {})
    && (s.cycle.Marked? || s.cycle.Sweeping? ==> s.cycle.roots == [])
  }

  ghost predicate Reaches(env: Env, h: H256) {
    env.reach(h) != {}
  }

  lemma StepKeepsInert(env: Env, s: System, a: Step)
    requires Inert(s) && AllRoots(h => Reaches(env, h), s) && Enabled(env, s, a) && (a.Execute? ==> a.handed == {})
    ensures Inert(Do(env, s, a))
  {
    if a.Mark? && s.cycle.roots != [] {
      UnionContains(env, s.cycle.roots, s.cycle.roots[0]);
      assert s.cycle.roots[0] in s.cycle.roots;
    }
  }

  /**
   When execution hands over nothing, a node that starts without trie nodes stays without them over
   every run: the mark walk of a non-empty snapshot always gives up, and no sweep deletes anything.
  */
  lemma {:induction false} NothingHandedOverNothingPruned(env: Env, s: System, steps: seq<Step>)
    requires Inert(s) && AllRoots(h => Reaches(env, h), s)
    requires Legal(env, s, steps) && HandsOverNothing(steps) && AllExecuted(h => Reaches(env, h), steps)
    ensures Inert(Run(env, s, steps))
    decreases |steps|
  {
    if steps != [] {
      StepKeepsInert(env, s, steps[0]);
      StepKeepsRoots(env, h => Reaches(env, h), s, steps[0]);
      assert forall i | 0 <= i < |steps[1..]| :: steps[1..][i] == steps[i + 1];
      NothingHandedOverNothingPruned(env, Do(env, s, steps[0]), steps[1..]);
    }
  }

  predicate MarksOnlyNothing(s: System) {
    s.cycle.Marked? || s.cycle.Sweeping? ==> s.cycle.roots == []
  }

  lemma StepMarksNothing(env: Env, s: System, a: Step)
    requires MarksOnlyNothing(s) && AllRoots(env.bare, s) && Enabled(env, s, a)
    ensures MarksOnlyNothing(Do(env, s, a))
  {
    if a.Mark? && s.cycle.roots != [] {
      assert s.cycle.roots[0] in s.cycle.roots;
    }
  }

  /**
   Even with every node on disk: as long as each block's state has an account without storage, no
   non-empty snapshot is ever marked, over every run.
  */
  lemma {:induction false} BareAccountsStopPruner(env: Env, s: System, steps: seq<Step>)
    requires MarksOnlyNothing(s) && AllRoots(env.bare, s) && Legal(env, s, steps) && AllExecuted(env.bare, steps)
    ensures MarksOnlyNothing(Run(env, s, steps))
    decreases |steps|
  {
    if steps != [] {
      StepMarksNothing(env, s, steps[0]);
      StepKeepsRoots(env, env.bare, s, steps[0]);
      assert forall i | 0 <= i < |steps[1..]| :: steps[1..][i] == steps[i + 1];
      BareAccountsStopPruner(env, Do(env, s, steps[0]), steps[1..]);
    }
  }
}
