/** processManager.cpp: the main process keeps every worker slot filled until it is told to shut down. */
module Supervisor {
  import opened Runs

  const MAX_WAIT_FOR_SHUTDOWN := 15

  datatype Mode = Main | Child

  /** `pid` is 0 while the slot is not running. */
  datatype Slot = Slot(pid: nat, running: bool)

  const EMPTY := Slot(0, false)

  /** Still looping, or left: with no workers to wait for, after SIGKILL, or at once on a second signal. */
  datatype Phase = Looping | NoneLeft | Killed | Aborted

  /** The fields of the manager, `waited` and `phase` being local to its loop. */
  datatype Manager = Manager(mode: Mode, slots: seq<Slot>, running: int, shutdown: bool, waited: nat, phase: Phase)

  /** How one `fork` turns out, and for whom. */
  datatype Fork = Failed | InParent(pid: nat) | InChild

  function ForkAt(forks: seq<Fork>, i: nat): Fork {
    if i < |forks| then forks[i] else Failed
  }

  function Started(workers: nat): Manager {
    Manager(Main, seq(workers, _ => EMPTY), 0, false, 0, Looping)
  }

  // ---- The code -----------------------------------------------------------------------------------------

  /** `reset` in a fresh child: its copy of the slots keeps whatever the parent knew. */
  function Reborn(m: Manager): Manager {
    m.(mode := Child, running := 0, shutdown := false)
  }

  function StartChild(m: Manager, i: nat, fork: Fork): Manager
    requires i < |m.slots|
  {
    if m.mode.Child? || m.slots[i].running then m else
      match fork
      case Failed => m
      case InParent(pid) => m.(slots := m.slots[i := Slot(pid, true)], running := m.running + 1)
      case InChild => Reborn(m)
  }

  /** The first `n` slots of `runWorkers`. */
  function StartUpTo(m: Manager, forks: seq<Fork>, n: nat): (r: Manager)
    requires n <= |m.slots|
    ensures |r.slots| == |m.slots|
    decreases n
  {
    if n == 0 then m else StartChild(StartUpTo(m, forks, n - 1), n - 1, ForkAt(forks, n - 1))
  }

  function RunWorkers(m: Manager, forks: seq<Fork>): Manager {
    if m.mode.Child? || m.shutdown then m else StartUpTo(m, forks, |m.slots|)
  }

  /** One turn of `loop`. */
  function Turn(m: Manager, forks: seq<Fork>): Manager {
    if !m.phase.Looping? then m
    else if m.shutdown then
      var w := m.(waited := m.waited + 1);
      if w.running == 0 then w.(phase := NoneLeft)
      else if w.waited >= MAX_WAIT_FOR_SHUTDOWN then w.(phase := Killed)
      else w
    else RunWorkers(m, forks)
  }

  /** The first slot that holds `pid`, or the number of slots. */
  function Find(slots: seq<Slot>, pid: nat): (i: nat)
    ensures i <= |slots| && (i < |slots| ==> slots[i].pid == pid)
    ensures forall k :: 0 <= k < i ==> slots[k].pid != pid
  {
    if slots == [] || slots[0].pid == pid then 0 else 1 + Find(slots[1..], pid)
  }

  /** One turn of the loop in `sigchld_handler`, for the child `pid` that `waitpid` returned. */
  function Reap(m: Manager, pid: nat): Manager {
    var i := Find(m.slots, pid);
    if i < |m.slots| then m.(slots := m.slots[i := EMPTY], running := m.running - 1) else m
  }

  function ReapAll(m: Manager, pids: seq<nat>): (r: Manager)
    ensures |r.slots| == |m.slots|
    decreases |pids|
  {
    if pids == [] then m else Reap(ReapAll(m, pids[..|pids| - 1]), pids[|pids| - 1])
  }

  function Sigint(m: Manager): Manager {
    if m.mode.Child? then m
    else if m.shutdown then m.(phase := Aborted)
    else m.(shutdown := true)
  }

  function Sigusr1(m: Manager): Manager {
    if m.mode.Child? then m.(shutdown := true) else m
  }

  // ---- Runs of the main process -------------------------------------------------------------------------

  /** `children` have been forked and not yet been waited for, whether alive or not. */
  datatype World = World(m: Manager, children: set<nat>)

  /** Bookkeeping is done before the next signal is handled, so forks and signals do not overlap. */
  datatype Action = Loop(forks: seq<Fork>) | Sigchld(pids: seq<nat>) | Interrupt | UserSignal

  /** What `fork` can return in the parent: a failure, or the id of a process that is not already a child. */
  predicate Plausible(forks: seq<Fork>, children: set<nat>) {
    && (forall i :: 0 <= i < |forks| ==>
          !forks[i].InChild? && (forks[i].InParent? ==> forks[i].pid > 0 && forks[i].pid !in children))
    && (forall i, j :: 0 <= i < j < |forks| && forks[i].InParent? && forks[j].InParent? ==>
          forks[i].pid != forks[j].pid)
  }

  /** `waitpid` returns children, each once. */
  predicate Waitable(pids: seq<nat>, children: set<nat>) {
    && (forall i :: 0 <= i < |pids| ==> pids[i] in children)
    && (forall i, j :: 0 <= i < j < |pids| ==> pids[i] != pids[j])
  }

  /** The children that one turn of the loop creates: one for every idle slot whose fork succeeds. */
  function Born(m: Manager, forks: seq<Fork>): set<nat> {
    if !m.phase.Looping? || m.shutdown || m.mode.Child? then {}
    else set i | 0 <= i < |m.slots| && i < |forks| && !m.slots[i].running && forks[i].InParent? :: forks[i].pid
  }

  function Next(w: World, a: Action): World {
    match a
    case Loop(forks) =>
      if w.m.shutdown || Plausible(forks, w.children)
      then World(Turn(w.m, forks), w.children + Born(w.m, forks))
      else w
    case Sigchld(pids) =>
      if Waitable(pids, w.children) then World(ReapAll(w.m, pids), w.children - set p | p in pids) else w
    case Interrupt => w.(m := Sigint(w.m))
    case UserSignal => w.(m := Sigusr1(w.m))
  }

  function Count(slots: seq<Slot>): nat
    decreases |slots|
  {
    if slots == [] then 0 else Count(slots[..|slots| - 1]) + if slots[|slots| - 1].running then 1 else 0
  }

  lemma {:induction false} CountUpdate(slots: seq<Slot>, i: nat, slot: Slot)
    requires i < |slots|
    ensures Count(slots[i := slot]) ==
            Count(slots) - (if slots[i].running then 1 else 0) + if slot.running then 1 else 0
    decreases |slots|
  {
    var n := |slots| - 1;
    if i == n {
      assert slots[i := slot][..n] == slots[..n];
    } else {
      assert slots[i := slot][..n] == slots[..n][i := slot];
      CountUpdate(slots[..n], i, slot);
    }
  }

  predicate Holds(slots: seq<Slot>, i: nat, p: nat) {
    i < |slots| && slots[i].running && slots[i].pid == p
  }

  /** Every running slot has a child of its own, every child has a slot, and `running` counts them. */
  ghost predicate Bookkept(slots: seq<Slot>, running: int, children: set<nat>) {
    && running == Count(slots)
    && (forall i :: 0 <= i < |slots| ==>
          if slots[i].running then slots[i].pid in children && slots[i].pid > 0 else slots[i] == EMPTY)
    && (forall i, j :: 0 <= i < j < |slots| && slots[i].running && slots[j].running ==> slots[i].pid != slots[j].pid)
    && (forall p :: p in children ==> exists i :: Holds(slots, i, p))
  }

  // ---- Starting workers ---------------------------------------------------------------------------------

  /** What filling the first `n` slots amounts to. */
  function Filled(slots: seq<Slot>, forks: seq<Fork>, n: nat): (r: seq<Slot>)
    requires n <= |slots|
    ensures |r| == |slots|
  {
    seq(|slots|, i requires 0 <= i < |slots| =>
      if i < n && !slots[i].running && ForkAt(forks, i).InParent? then Slot(ForkAt(forks, i).pid, true) else slots[i])
  }

  lemma FilledNext(slots: seq<Slot>, forks: seq<Fork>, n: nat)
    requires 0 < n <= |slots|
    ensures Filled(slots, forks, n) ==
            if !slots[n - 1].running && ForkAt(forks, n - 1).InParent?
            then Filled(slots, forks, n - 1)[n - 1 := Slot(ForkAt(forks, n - 1).pid, true)]
            else Filled(slots, forks, n - 1)
  {
  }

  lemma {:induction false} StartFills(m: Manager, forks: seq<Fork>, n: nat)
    requires n <= |m.slots| && m.mode.Main? && m.running == Count(m.slots)
    requires forall i :: 0 <= i < |forks| ==> !forks[i].InChild?
    ensures var slots := Filled(m.slots, forks, n);
      StartUpTo(m, forks, n) == m.(slots := slots, running := Count(slots))
    decreases n
  {
    if n == 0 {
      assert Filled(m.slots, forks, 0) == m.slots;
    } else {
      StartFills(m, forks, n - 1);
      FilledNext(m.slots, forks, n);
      if ForkAt(forks, n - 1).InParent? {
        CountUpdate(Filled(m.slots, forks, n - 1), n - 1, Slot(ForkAt(forks, n - 1).pid, true));
      }
    }
  }

  /** The books before a turn that may fork. */
  ghost predicate Ready(m: Manager, forks: seq<Fork>, children: set<nat>) {
    && m.mode.Main? && m.phase.Looping? && !m.shutdown
    && Bookkept(m.slots, m.running, children) && Plausible(forks, children)
  }

  lemma FilledSlot(m: Manager, forks: seq<Fork>, children: set<nat>, i: nat)
    requires Ready(m, forks, children) && i < |m.slots|
    ensures var slot := Filled(m.slots, forks, |m.slots|)[i];
      if slot.running then slot.pid in children + Born(m, forks) && slot.pid > 0 else slot == EMPTY
  {
  }

  lemma FilledDistinct(m: Manager, forks: seq<Fork>, children: set<nat>, i: nat, j: nat)
    requires Ready(m, forks, children) && i < j < |m.slots|
    ensures var slots := Filled(m.slots, forks, |m.slots|);
      slots[i].running && slots[j].running ==> slots[i].pid != slots[j].pid
  {
  }

  lemma FilledHolds(m: Manager, forks: seq<Fork>, children: set<nat>, p: nat)
    requires Ready(m, forks, children) && p in children + Born(m, forks)
    ensures exists i :: Holds(Filled(m.slots, forks, |m.slots|), i, p)
  {
    if p in children {
      var i :| Holds(m.slots, i, p);
      assert Holds(Filled(m.slots, forks, |m.slots|), i, p);
    } else {
      var i :| 0 <= i < |m.slots| && i < |forks| && !m.slots[i].running && forks[i].InParent? && forks[i].pid == p;
      assert Holds(Filled(m.slots, forks, |m.slots|), i, p);
    }
  }

  lemma FillingKept(m: Manager, forks: seq<Fork>, children: set<nat>)
    requires Ready(m, forks, children)
    ensures var slots := Filled(m.slots, forks, |m.slots|);
      Bookkept(slots, Count(slots), children + Born(m, forks))
  {
    var slots := Filled(m.slots, forks, |m.slots|);
    forall i | 0 <= i < |slots|
      ensures if slots[i].running then slots[i].pid in children + Born(m, forks) && slots[i].pid > 0
              else slots[i] == EMPTY
    {
      FilledSlot(m, forks, children, i);
    }
    forall i, j | 0 <= i < j < |slots| && slots[i].running && slots[j].running
      ensures slots[i].pid != slots[j].pid
    {
      FilledDistinct(m, forks, children, i, j);
    }
    forall p | p in children + Born(m, forks)
      ensures exists i :: Holds(slots, i, p)
    {
      FilledHolds(m, forks, children, p);
    }
  }

  // ---- Reaping ------------------------------------------------------------------------------------------

  /** The slot that `sigchld_handler` finds for a child is the one that holds it. */
  lemma FindsHolder(slots: seq<Slot>, running: int, pid: nat, children: set<nat>)
    requires Bookkept(slots, running, children) && pid in children
    ensures Find(slots, pid) < |slots| && slots[Find(slots, pid)].running
  {
    var k :| Holds(slots, k, pid);
  }

  lemma ReapedHolds(slots: seq<Slot>, running: int, children: set<nat>, i: nat, p: nat)
    requires Bookkept(slots, running, children) && i < |slots| && p in children && p != slots[i].pid
    ensures var after := slots[i := EMPTY]; exists j :: Holds(after, j, p)
  {
    var j :| Holds(slots, j, p);
    assert Holds(slots[i := EMPTY], j, p);
  }

  lemma ReapedSlot(slots: seq<Slot>, running: int, children: set<nat>, i: nat, k: nat)
    requires Bookkept(slots, running, children) && i < |slots| && k < |slots| && slots[i].running
    ensures var slot := slots[i := EMPTY][k];
      if slot.running then slot.pid in children - {slots[i].pid} && slot.pid > 0 else slot == EMPTY
  {
  }

  lemma ReapedDistinct(slots: seq<Slot>, running: int, children: set<nat>, i: nat, j: nat, k: nat)
    requires Bookkept(slots, running, children) && i < |slots| && j < k < |slots|
    ensures var after := slots[i := EMPTY];
      after[j].running && after[k].running ==> after[j].pid != after[k].pid
  {
  }

  lemma EmptiedKept(slots: seq<Slot>, running: int, children: set<nat>, i: nat)
    requires Bookkept(slots, running, children) && i < |slots| && slots[i].running
    ensures Bookkept(slots[i := EMPTY], running - 1, children - {slots[i].pid})
  {
    var after, left := slots[i := EMPTY], children - {slots[i].pid};
    CountUpdate(slots, i, EMPTY);
    forall k | 0 <= k < |slots|
      ensures if after[k].running then after[k].pid in left && after[k].pid > 0 else after[k] == EMPTY
    {
      ReapedSlot(slots, running, children, i, k);
    }
    forall j, k | 0 <= j < k < |slots| && after[j].running && after[k].running
      ensures after[j].pid != after[k].pid
    {
      ReapedDistinct(slots, running, children, i, j, k);
    }
    forall p | p in left
      ensures exists j :: Holds(after, j, p)
    {
      ReapedHolds(slots, running, children, i, p);
    }
  }

  lemma ReapKept(m: Manager, pid: nat, children: set<nat>)
    requires Bookkept(m.slots, m.running, children) && pid in children
    ensures Bookkept(Reap(m, pid).slots, Reap(m, pid).running, children - {pid})
  {
    FindsHolder(m.slots, m.running, pid, children);
    EmptiedKept(m.slots, m.running, children, Find(m.slots, pid));
  }

  lemma OneMoreReaped(pids: seq<nat>, children: set<nat>)
    requires pids != [] && Waitable(pids, children)
    ensures var init, last := pids[..|pids| - 1], pids[|pids| - 1];
      && last in children - (set p | p in init)
      && children - (set p | p in pids) == children - (set p | p in init) - {last}
  {
    assert pids == pids[..|pids| - 1] + [pids[|pids| - 1]];
  }

  lemma {:induction false} ReapAllKept(m: Manager, pids: seq<nat>, children: set<nat>)
    requires Bookkept(m.slots, m.running, children) && Waitable(pids, children)
    ensures var r := ReapAll(m, pids);
      Bookkept(r.slots, r.running, children - set p | p in pids) && r == m.(slots := r.slots, running := r.running)
    decreases |pids|
  {
    if pids == [] {
      assert children - (set p | p in pids) == children;
    } else {
      var init := pids[..|pids| - 1];
      ReapAllKept(m, init, children);
      OneMoreReaped(pids, children);
      ReapKept(ReapAll(m, init), pids[|pids| - 1], children - set p | p in init);
    }
  }

  // ---- Runs ---------------------------------------------------------------------------------------------

  /** In the main process the books are always right, and the loop leaves only for one of its reasons, in time. */
  ghost predicate Sound(w: World) {
    && w.m.mode.Main?
    && Bookkept(w.m.slots, w.m.running, w.children)
    && (w.m.waited > 0 || !w.m.phase.Looping? ==> w.m.shutdown)
    && (w.m.phase.Looping? ==> w.m.waited < MAX_WAIT_FOR_SHUTDOWN)
    && (w.m.phase.NoneLeft? ==> w.children == {})
    && (w.m.phase.Killed? ==> w.m.waited == MAX_WAIT_FOR_SHUTDOWN)
  }

  lemma {:induction false} CountNone(slots: seq<Slot>)
    ensures Count(slots) == 0 <==> forall i :: 0 <= i < |slots| ==> !slots[i].running
    decreases |slots|
  {
    if slots == [] {
    } else {
      CountNone(slots[..|slots| - 1]);
      assert slots == slots[..|slots| - 1] + [slots[|slots| - 1]];
    }
  }

  lemma NextSound(w: World, a: Action)
    requires Sound(w)
    ensures Sound(Next(w, a))
  {
    match a
    case Loop(forks) =>
      if w.m.shutdown || Plausible(forks, w.children) { TurnSound(w, forks); }
    case Sigchld(pids) =>
      if Waitable(pids, w.children) { ReapAllKept(w.m, pids, w.children); }
    case _ =>
  }

  lemma TurnSound(w: World, forks: seq<Fork>)
    requires Sound(w) && (w.m.shutdown || Plausible(forks, w.children))
    ensures Sound(World(Turn(w.m, forks), w.children + Born(w.m, forks)))
  {
    if w.m.phase.Looping? && !w.m.shutdown {
      StartFills(w.m, forks, |w.m.slots|);
      FillingKept(w.m, forks, w.children);
    } else {
      assert w.children + Born(w.m, forks) == w.children;
      CountNone(w.m.slots);
    }
  }

  function After(w: World, actions: seq<Action>): World {
    Fold(Next, w, actions)
  }

  function Run(workers: nat, actions: seq<Action>): World {
    After(World(Started(workers), {}), actions)
  }

  /** In every run the number of running workers is exact, running slots have distinct children of their own, and no
      slot is filled twice while its child has not been waited for. */
  lemma RunSound(workers: nat, actions: seq<Action>)
    ensures Sound(Run(workers, actions))
  {
    CountNone(Started(workers).slots);
    forall w, a | Sound(w)
      ensures Sound(Next(w, a))
    {
      NextSound(w, a);
    }
    FoldKeeps(Next, Sound, World(Started(workers), {}), actions);
  }

  function Turns(actions: seq<Action>): nat
    decreases |actions|
  {
    if actions == [] then 0 else Turns(actions[..|actions| - 1]) + if actions[|actions| - 1].Loop? then 1 else 0
  }

  lemma NextInShutdown(w: World, a: Action)
    requires Sound(w) && w.m.shutdown
    ensures var v := Next(w, a);
      && v.m.shutdown && v.children <= w.children
      && (v.m.phase.Looping? ==> w.m.phase.Looping? && v.m.waited == w.m.waited + if a.Loop? then 1 else 0)
  {
    if a.Sigchld? && Waitable(a.pids, w.children) {
      ReapAllKept(w.m, a.pids, w.children);
    }
  }

  /** Once shutdown is asked for, nothing is forked any more, and fifteen turns of the loop are enough to leave it:
      without workers, or after SIGKILL, or by a second signal. */
  lemma {:induction false} ShutdownEnds(w: World, actions: seq<Action>)
    requires Sound(w) && w.m.shutdown
    ensures var v := After(w, actions);
      && Sound(v) && v.m.shutdown && v.children <= w.children
      && (v.m.phase.Looping? ==> v.m.waited == w.m.waited + Turns(actions))
      && (w.m.waited + Turns(actions) >= MAX_WAIT_FOR_SHUTDOWN ==> !v.m.phase.Looping?)
    decreases |actions|
  {
    if actions == [] {
    } else {
      var before, last := After(w, actions[..|actions| - 1]), actions[|actions| - 1];
      ShutdownEnds(w, actions[..|actions| - 1]);
      NextSound(before, last);
      NextInShutdown(before, last);
    }
  }

  /** How often SIGINT or SIGTERM came. */
  function Interrupts(actions: seq<Action>): nat
    decreases |actions|
  {
    if actions == [] then 0 else
      Interrupts(actions[..|actions| - 1]) + if actions[|actions| - 1].Interrupt? then 1 else 0
  }

  lemma NextInterrupted(w: World, a: Action)
    requires Sound(w)
    ensures var v := Next(w, a);
      && (v.m.shutdown <==> w.m.shutdown || a.Interrupt?)
      && (v.m.phase.Aborted? <==> w.m.phase.Aborted? || (w.m.shutdown && a.Interrupt?))
  {
    match a
    case Loop(forks) =>
      if w.m.phase.Looping? && !w.m.shutdown && Plausible(forks, w.children) { StartFills(w.m, forks, |w.m.slots|); }
    case Sigchld(pids) => if Waitable(pids, w.children) { ReapAllKept(w.m, pids, w.children); }
    case _ =>
  }

  /** In every run shutdown has been asked for if and only if SIGINT or SIGTERM came (SIGUSR1 is for the workers), and
      the process has been aborted if and only if one of them came twice. */
  lemma {:induction false} ShutdownWhenInterrupted(workers: nat, actions: seq<Action>)
    ensures var w := Run(workers, actions);
      && (w.m.shutdown <==> Interrupts(actions) >= 1)
      && (w.m.phase.Aborted? <==> Interrupts(actions) >= 2)
    decreases |actions|
  {
    if actions == [] {
    } else {
      var init := actions[..|actions| - 1];
      RunSound(workers, init);
      ShutdownWhenInterrupted(workers, init);
      NextInterrupted(Run(workers, init), actions[|actions| - 1]);
    }
  }

  /** A turn after that leaves at once if there are no children, after SIGKILL if it is the fifteenth, and otherwise
      waits. */
  lemma TurnWaits(w: World, forks: seq<Fork>)
    requires Sound(w) && w.m.shutdown && w.m.phase.Looping?
    ensures Next(w, Loop(forks)).m.phase ==
            if w.children == {} then NoneLeft else if w.m.waited == 14 then Killed else Looping
    ensures Next(w, Loop(forks)).m.slots == w.m.slots && Next(w, Loop(forks)).children == w.children
  {
    CountNone(w.m.slots);
    if w.children != {} {
      var p :| p in w.children;
      var i :| Holds(w.m.slots, i, p);
    }
    assert w.children + Born(w.m, forks) == w.children;
  }

  /** Whom `killChilds` signals: every slot's process, which for an idle slot is 0. */
  function Pids(slots: seq<Slot>): (r: seq<nat>)
    ensures |r| == |slots|
  {
    seq(|slots|, i requires 0 <= i < |slots| => slots[i].pid)
  }

  /** The processes signalled are exactly the children. */
  lemma ChildrenSignalled(w: World, p: nat)
    requires Sound(w) && p > 0
    ensures p in Pids(w.m.slots) <==> p in w.children
  {
    var pids := Pids(w.m.slots);
    if p in w.children {
      var i: nat :| Holds(w.m.slots, i, p);
      assert pids[i] == p;
    }
    if p in pids {
      var i: nat :| 0 <= i < |pids| && pids[i] == p;
      assert w.m.slots[i].running;
    }
  }

  /** From the first SIGINT or SIGTERM on nothing is forked, and fifteen turns end the loop. */
  lemma InterruptEnds(workers: nat, before: seq<Action>, after: seq<Action>)
    ensures var w, v := Run(workers, before), Run(workers, before + [Interrupt] + after);
      && v.m.shutdown && v.children <= w.children
      && (Turns(after) >= 15 ==> !v.m.phase.Looping?)
  {
    var w := Run(workers, before);
    RunSound(workers, before);
    NextInterrupted(w, Interrupt);
    NextSound(w, Interrupt);
    FoldSnoc(Next, World(Started(workers), {}), before, Interrupt);
    FoldConcat(Next, World(Started(workers), {}), before + [Interrupt], after);
    ShutdownEnds(Next(w, Interrupt), after);
  }

  // ---- The children -------------------------------------------------------------------------------------

  lemma {:induction false} StartUpToFrame(m: Manager, forks: seq<Fork>, n: nat)
    requires n <= |m.slots|
    ensures var r := StartUpTo(m, forks, n);
      r.slots[n..] == m.slots[n..] && (r.mode.Main? ==> m.mode.Main?)
    decreases n
  {
    if n == 0 {
    } else {
      StartUpToFrame(m, forks, n - 1);
      var before, r := StartUpTo(m, forks, n - 1), StartUpTo(m, forks, n);
      assert r.slots[n..] == before.slots[n - 1..][1..];
    }
  }

  /** A child leaves the loop over the slots without forking: only what was forked before it is in its copy. */
  lemma {:induction false} ChildStops(m: Manager, forks: seq<Fork>, k: nat, n: nat)
    requires k < n <= |m.slots| && StartUpTo(m, forks, k).mode.Main?
    requires ForkAt(forks, k).InChild? && !m.slots[k].running
    ensures StartUpTo(m, forks, n) == StartUpTo(m, forks, k).(mode := Child, running := 0, shutdown := false)
    decreases n
  {
    if n == k + 1 {
      StartUpToFrame(m, forks, k);
      assert StartUpTo(m, forks, k).slots[k] == StartUpTo(m, forks, k).slots[k..][0] == m.slots[k..][0];
    } else {
      ChildStops(m, forks, k, n - 1);
    }
  }

  /** What happens to a worker that is back in that loop: a turn of it, the SIGUSR1 that every orderly shutdown sends to
      all workers, or SIGINT or SIGTERM. It has no children. */
  datatype Happening = TurnOf(forks: seq<Fork>) | Usr1 | Int

  function Happens(m: Manager, h: Happening): Manager {
    match h
    case TurnOf(forks) => Turn(m, forks)
    case Usr1 => Sigusr1(m)
    case Int => Sigint(m)
  }

  /** Some turn of the loop comes after SIGUSR1, the earlier ones having been counted in `asked`. */
  predicate Released(asked: bool, happenings: seq<Happening>) {
    exists j :: 0 <= j < |happenings| && happenings[j].TurnOf? && (asked || Usr1 in happenings[..j])
  }

  lemma ReleasedSnoc(asked: bool, happenings: seq<Happening>)
    requires happenings != []
    ensures var init, last := happenings[..|happenings| - 1], happenings[|happenings| - 1];
      Released(asked, happenings) <==> Released(asked, init) || (last.TurnOf? && (asked || Usr1 in init))
  {
    var init := happenings[..|happenings| - 1];
    forall j | 0 <= j < |init|
      ensures init[j] == happenings[j] && init[..j] == happenings[..j]
    {
    }
    if Released(asked, init) {
      var j :| 0 <= j < |init| && init[j].TurnOf? && (asked || Usr1 in init[..j]);
      assert happenings[j].TurnOf?;
    }
  }

  /** A worker started from within the loop comes back to that loop when its work is over. There it forks no more and
      does nothing at all until it has got SIGUSR1, before or after its work ended, and neither SIGINT nor SIGTERM
      changes that; it leaves with the first turn after SIGUSR1 and not earlier. */
  lemma {:induction false} RespawnedChild(m: Manager, happenings: seq<Happening>)
    requires m.mode.Child? && m.phase.Looping? && m.running == 0
    ensures var v := Fold(Happens, m, happenings);
      && v.slots == m.slots && v.mode.Child? && v.running == 0
      && (v.shutdown <==> m.shutdown || Usr1 in happenings)
      && v.phase == if Released(m.shutdown, happenings) then NoneLeft else Looping
    decreases |happenings|
  {
    if happenings == [] {
    } else {
      var n := |happenings| - 1;
      assert happenings == happenings[..n] + [happenings[n]];
      ReleasedSnoc(m.shutdown, happenings);
      RespawnedChild(m, happenings[..n]);
    }
  }

  // ---- The class ----------------------------------------------------------------------------------------

  class ProcessManager {
    const maxWorker: nat
    var processMode: Mode
    var workers: seq<Slot>
    var workersRunning: int
    var shutdownRequested: bool
    var waitForShutdown: nat
    var phase: Phase

    ghost predicate Valid()
      reads this`workers
    {
      |workers| == maxWorker
    }

    ghost function State(): Manager
      reads this
    {
      Manager(processMode, workers, workersRunning, shutdownRequested, waitForShutdown, phase)
    }

    /** The constructor and `setMaxWorker`. */
    constructor (mw: nat)
      ensures Valid() && maxWorker == mw && State() == Started(mw)
    {
      maxWorker, processMode, workersRunning := mw, Main, 0;
      shutdownRequested, waitForShutdown, phase := false, 0, Looping;
      workers := [];
      new;
      for i := 0 to mw
        invariant workers == seq(i, _ => EMPTY)
        invariant processMode == Main && workersRunning == 0 && !shutdownRequested
        invariant waitForShutdown == 0 && phase == Looping
      {
        workers := workers + [Slot(0, false)];
      }
    }

    /** `startChild`, up to the work of the child. */
    method StartWorker(i: nat, fork: Fork)
      requires Valid() && i < maxWorker
      modifies this
      ensures Valid() && State() == StartChild(old(State()), i, fork)
    {
      if processMode != Main || workers[i].running {
        return;
      }
      match fork
      case InChild =>
        workersRunning, shutdownRequested := 0, false;
        processMode := Child;
      case InParent(pid) =>
        workers := workers[i := Slot(pid, true)];
        workersRunning := workersRunning + 1;
      case Failed =>
    }

    method StartWorkers(forks: seq<Fork>)
      requires Valid()
      modifies this
      ensures Valid() && State() == RunWorkers(old(State()), forks) && phase == old(phase)
    {
      if processMode != Main || shutdownRequested {
        return;
      }
      for i := 0 to maxWorker
        invariant Valid() && State() == StartUpTo(old(State()), forks, i) && phase == old(phase)
      {
        StartWorker(i, ForkAt(forks, i));
      }
    }

    /** The inner loop: the first slot with the pid. */
    method SlotOf(pid: nat) returns (i: nat)
      requires Valid()
      ensures i == Find(workers, pid)
    {
      i := 0;
      while i < maxWorker && workers[i].pid != pid
        invariant 0 <= i <= maxWorker && forall k :: 0 <= k < i ==> workers[k].pid != pid
      {
        i := i + 1;
      }
    }

    method ReapOne(pid: nat)
      requires Valid()
      modifies this`workers, this`workersRunning
      ensures Valid() && State() == Reap(old(State()), pid)
    {
      var i := SlotOf(pid);
      if i < maxWorker {
        workers := workers[i := Slot(0, false)];
        workersRunning := workersRunning - 1;
      }
    }

    /** `reaped` is what the calls of `waitpid` return. */
    method SigchldHandler(reaped: seq<nat>)
      requires Valid()
      modifies this`workers, this`workersRunning
      ensures Valid() && State() == ReapAll(old(State()), reaped)
    {
      for n := 0 to |reaped|
        invariant Valid() && State() == ReapAll(old(State()), reaped[..n])
      {
        assert reaped[..n + 1][..n] == reaped[..n];
        ReapOne(reaped[n]);
      }
      assert reaped[..|reaped|] == reaped;
    }

    /** The processes that get the signal. */
    method KillChilds() returns (told: seq<nat>)
      requires Valid()
      ensures told == Pids(workers)
    {
      told := [];
      for i := 0 to maxWorker
        invariant |told| == i && forall k :: 0 <= k < i ==> told[k] == workers[k].pid
      {
        told := told + [workers[i].pid];
      }
    }

    /** `told` get SIGUSR1. */
    method SigintHandler() returns (told: seq<nat>)
      requires Valid()
      modifies this`shutdownRequested, this`phase
      ensures State() == Sigint(old(State()))
      ensures told == if processMode == Main && !old(shutdownRequested) then Pids(workers) else []
    {
      told := [];
      if processMode != Main {
        return;
      }
      if shutdownRequested {
        phase := Aborted;
        return;
      }
      told := KillChilds();
      shutdownRequested := true;
    }

    method Sigusr1Handler()
      modifies this`shutdownRequested
      ensures State() == Sigusr1(old(State()))
    {
      if processMode == Child {
        shutdownRequested := true;
      }
    }

    /** One turn of `loop`, up to its sleep; `killed` get SIGKILL. */
    method LoopOnce(forks: seq<Fork>) returns (killed: seq<nat>)
      requires Valid() && phase.Looping?
      modifies this
      ensures Valid() && State() == Turn(old(State()), forks)
      ensures killed == if phase.Killed? then Pids(workers) else []
    {
      killed := [];
      if shutdownRequested {
        waitForShutdown := waitForShutdown + 1;
        if workersRunning == 0 {
          phase := NoneLeft;
        } else if waitForShutdown >= MAX_WAIT_FOR_SHUTDOWN {
          killed := KillChilds();
          phase := Killed;
        }
      } else {
        StartWorkers(forks);
      }
    }
  }
}
