/** How result_path_client.cpp counts the files in the spool directory: one full count when a directory is watched, and
    inotify events from then on. The directory may be emptied, replaced, renamed or unmounted at any time. */
module SpoolIndex {
  import opened Bytes
  import opened Runs

  // ---- The client ---------------------------------------------------------------------------------------

  const NO_WATCH := -1

  /** One inotify event: the mask bits the handler looks at, and the descriptor it ignores. */
  datatype Event = Event(wd: int, isDir: bool, create: bool, delete: bool, ignored: bool)

  /** The fields of the client; `dirInode` is 0 when unknown. */
  datatype Index = Index(files: int, watched: bool, wd: int, dirInode: nat, writeEnabled: bool)

  const FRESH := Index(0, false, NO_WATCH, 0, true)

  function Effect(e: Event): int {
    if e.isDir then 0 else (if e.create then 1 else 0) - (if e.delete then 1 else 0)
  }

  /** `event_received`. */
  function Received(ix: Index, e: Event): Index {
    var counted := ix.(files := ix.files + Effect(e));
    if e.ignored then counted.(watched := false, wd := NO_WATCH, dirInode := 0) else counted
  }

  /** What the system calls of one watch attempt return: the number of regular files if the directory could be read, a
      descriptor if the watch could be added, and the inode then found under the path. */
  datatype Attempt = Attempt(counted: Option<nat>, wd: Option<nat>, seen: Option<nat>)

  /** `watch_directory`. */
  function Attempted(ix: Index, a: Attempt): Index {
    if ix.watched then ix else
      var counted := ix.(files := if a.counted.Some? then a.counted.value else 0);
      if a.wd.None? then counted
      else counted.(wd := a.wd.value, watched := true, dirInode := if a.seen.Some? then a.seen.value else ix.dirInode)
  }

  /** The threshold test at the head of `check`. */
  function Threshold(ix: Index, maxFiles: int): Index {
    ix.(writeEnabled := maxFiles > ix.files)
  }

  /** `check` keeps the watch it has while the path still leads to the inode it knows. */
  predicate Settled(ix: Index, inode: nat) {
    ix.watched && ix.dirInode == inode
  }

  /** What `check` makes of the fields, if there is a limit and an inotify descriptor; `inode` is what `stat` finds. */
  function Examined(ix: Index, maxFiles: int, inode: Option<nat>, a: Attempt): Index {
    var v := Threshold(ix, maxFiles);
    if inode.None? || Settled(v, inode.value) then v else Attempted(v, a)
  }

  // ---- The kernel ---------------------------------------------------------------------------------------

  /** Directories and their numbers of regular files, the directory the path leads to, the descriptor of each watched
      directory, and the events not yet read. */
  datatype Kernel = Kernel(path: Option<nat>, dirs: map<nat, nat>, watches: map<nat, nat>, queue: seq<Event>,
                           nextWd: nat)

  function Emit(k: Kernel, inode: nat, isDir: bool, create: bool): Kernel {
    if inode in k.watches
    then k.(queue := k.queue + [Event(k.watches[inode], isDir, create, !create, false)])
    else k
  }

  /** A watch ends, through `inotify_rm_watch` or with its directory: its last event is IN_IGNORED. */
  function EndWatch(k: Kernel, inode: nat): Kernel {
    if inode in k.watches
    then k.(watches := k.watches - {inode}, queue := k.queue + [Event(k.watches[inode], false, false, false, true)])
    else k
  }

  // ---- The world ----------------------------------------------------------------------------------------

  /** The regular files in the watched directory at one moment, and the files that neither counting nor events can
      account for: those renamed in or out, other kinds of files, an unreadable directory. */
  datatype Moment = Moment(count: nat, drift: int)

  /** `target` is the directory last watched, `past` records the moment it was watched and every event since. */
  datatype World = World(ix: Index, kernel: Kernel, target: nat, drift: int, past: seq<Moment>)

  datatype Action =
    | File(inode: nat, create: bool)
    | Subdir(inode: nat, create: bool)
    | Special(inode: nat, create: bool)
    | Rename(inode: nat, into: bool)
    | MakeDir(inode: nat, files: nat)
    | Repoint(path: Option<nat>)
    | Destroy(inode: nat)
    | Deliver
    | Init(readable: bool, addable: bool, seen: Option<nat>)
    | Check(found: bool, readable: bool, addable: bool, seen: Option<nat>)

  function Started(path: Option<nat>, dirs: map<nat, nat>): World {
    World(FRESH, Kernel(path, dirs, map[], [], 1), 0, 0, [])
  }

  function Count(w: World, inode: nat): nat {
    if inode in w.kernel.dirs then w.kernel.dirs[inode] else 0
  }

  /** Something happened in directory `inode` that the watch, if there is one, reports. */
  function Reported(w: World, inode: nat, isDir: bool, create: bool): World {
    var v := w.(kernel := Emit(w.kernel, inode, isDir, create));
    if inode in w.kernel.watches then v.(past := v.past + [Moment(Count(v, w.target), v.drift)]) else v
  }

  function SetCount(w: World, inode: nat, count: nat): World {
    w.(kernel := w.kernel.(dirs := w.kernel.dirs[inode := count]))
  }

  predicate Possible(w: World, inode: nat, up: bool) {
    inode in w.kernel.dirs && (up || w.kernel.dirs[inode] > 0)
  }

  function Moved(w: World, inode: nat, up: bool): World
    requires Possible(w, inode, up)
  {
    SetCount(w, inode, if up then w.kernel.dirs[inode] + 1 else w.kernel.dirs[inode] - 1)
  }

  function Drifted(w: World, inode: nat, up: bool): World {
    if inode == w.target then w.(drift := w.drift + if up then 1 else -1) else w
  }

  /** The last event of a watch changes nothing. */
  function Ended(w: World, inode: nat): World {
    var v := w.(kernel := EndWatch(w.kernel, inode));
    if inode in w.kernel.watches && w.past != [] then v.(past := v.past + [w.past[|w.past| - 1]]) else v
  }

  function Delivered(w: World): World {
    if w.kernel.queue == [] then w
    else w.(ix := Received(w.ix, w.kernel.queue[0]), kernel := w.kernel.(queue := w.kernel.queue[1..]))
  }

  /** `watch_directory`: counting and adding the watch happen at one instant, and either can fail. */
  function Watch(w: World, readable: bool, addable: bool, seen: Option<nat>): World {
    if w.ix.watched then w
    else if w.kernel.path.None? || w.kernel.path.value !in w.kernel.dirs
    then w.(ix := Attempted(w.ix, Attempt(None, None, None)))
    else
      var inode := w.kernel.path.value;
      var count := w.kernel.dirs[inode];
      var counted := if readable then Some(count) else None;
      if !addable then w.(ix := Attempted(w.ix, Attempt(counted, None, None)))
      else
        var wd := if inode in w.kernel.watches then w.kernel.watches[inode] else w.kernel.nextWd;
        var drift := if readable then 0 else 0 - (count as int);
        World(Attempted(w.ix, Attempt(counted, Some(wd), seen)),
              w.kernel.(watches := w.kernel.watches[inode := wd], nextWd := w.kernel.nextWd + 1),
              inode, drift, [Moment(count, drift)])
  }

  /** `unwatch_directory`: nothing happens when the descriptor is no longer valid. */
  ghost function Unwatch(w: World): World {
    if exists i :: i in w.kernel.watches && w.kernel.watches[i] == w.ix.wd
    then var i :| i in w.kernel.watches && w.kernel.watches[i] == w.ix.wd; Ended(w, i)
    else w
  }

  /** `check`; `found` is false when the path does not lead to a directory that can be examined. */
  ghost function Checked(w: World, maxFiles: int, found: bool, readable: bool, addable: bool, seen: Option<nat>)
    : World
  {
    var v := w.(ix := Threshold(w.ix, maxFiles));
    if !found || v.kernel.path.None? || Settled(v.ix, v.kernel.path.value) then v
    else Watch(Unwatch(v), readable, addable, seen)
  }

  ghost function Stepped(maxFiles: int, w: World, a: Action): World {
    match a
    case File(inode, create) =>
      if Possible(w, inode, create) then Reported(Moved(w, inode, create), inode, false, create) else w
    case Subdir(inode, create) => Reported(w, inode, true, create)
    case Special(inode, create) => Reported(Drifted(w, inode, create), inode, false, create)
    case Rename(inode, into) => if Possible(w, inode, into) then Drifted(Moved(w, inode, into), inode, !into) else w
    case MakeDir(inode, files) => if inode in w.kernel.dirs || inode == 0 then w else SetCount(w, inode, files)
    case Repoint(path) => w.(kernel := w.kernel.(path := path))
    case Destroy(inode) => var v := Ended(w, inode); v.(kernel := v.kernel.(dirs := v.kernel.dirs - {inode}))
    case Deliver => Delivered(w)
    case Init(readable, addable, seen) => Watch(w, readable, addable, seen)
    case Check(found, readable, addable, seen) => Checked(w, maxFiles, found, readable, addable, seen)
  }

  /** What the system calls of one attempt to watch return in the state `k` of the kernel. */
  function Answers(k: Kernel, readable: bool, addable: bool, seen: Option<nat>): Attempt {
    if k.path.None? || k.path.value !in k.dirs then Attempt(None, None, None) else
      var inode := k.path.value;
      Attempt(if readable then Some(k.dirs[inode]) else None,
              if !addable then None else if inode in k.watches then Some(k.watches[inode]) else Some(k.nextWd),
              if addable then seen else None)
  }

  /** With these answers the fields of the client are those of the world: `check` examines the path before it gives up
      the old watch, and counts and watches behind that. */
  lemma CheckRefines(w: World, maxFiles: int, found: bool, readable: bool, addable: bool, seen: Option<nat>)
    ensures Checked(w, maxFiles, found, readable, addable, seen).ix ==
            Examined(w.ix, maxFiles, if found then w.kernel.path else None,
                     Answers(Unwatch(w.(ix := Threshold(w.ix, maxFiles))).kernel, readable, addable, seen))
  {
    var v := w.(ix := Threshold(w.ix, maxFiles));
    UnwatchQuiet(v);
    WatchRefines(Unwatch(v), readable, addable, seen);
  }

  lemma UnwatchQuiet(w: World)
    ensures Unwatch(w).ix == w.ix && Unwatch(w).kernel.path == w.kernel.path
  {
  }

  lemma WatchRefines(w: World, readable: bool, addable: bool, seen: Option<nat>)
    ensures Watch(w, readable, addable, seen).ix == Attempted(w.ix, Answers(w.kernel, readable, addable, seen))
  {
  }

  /** An attempt counts anew whether or not the watch can be added; what cannot be read counts as empty. */
  lemma AttemptCounts(w: World, readable: bool, addable: bool, seen: Option<nat>)
    requires !w.ix.watched
    ensures var v, path := Watch(w, readable, addable, seen), w.kernel.path;
      && v.ix.files == (if path.Some? && path.value in w.kernel.dirs && readable then w.kernel.dirs[path.value] else 0)
      && (v.ix.watched <==> path.Some? && path.value in w.kernel.dirs && addable)
  {
  }

  // ---- The invariant ------------------------------------------------------------------------------------

  function Tally(m: Moment): int {
    m.count + m.drift
  }

  /** Starting from `files`, the pending events lead through the last moments of `past`, one by one. */
  predicate Tracks(past: seq<Moment>, files: int, queue: seq<Event>)
    decreases |queue|
  {
    && |past| > |queue|
    && files == Tally(past[|past| - 1 - |queue|])
    && (queue != [] ==> Tracks(past, files + Effect(queue[0]), queue[1..]))
  }

  function Net(queue: seq<Event>): int {
    if queue == [] then 0 else Effect(queue[0]) + Net(queue[1..])
  }

  lemma {:induction false} TracksNet(past: seq<Moment>, files: int, queue: seq<Event>)
    requires Tracks(past, files, queue)
    ensures files + Net(queue) == Tally(past[|past| - 1])
    decreases |queue|
  {
    if queue == [] {
    } else {
      TracksNet(past, files + Effect(queue[0]), queue[1..]);
    }
  }

  lemma {:induction false} TracksSnoc(past: seq<Moment>, files: int, queue: seq<Event>, m: Moment, e: Event)
    requires Tracks(past, files, queue) && Tally(m) == Tally(past[|past| - 1]) + Effect(e)
    ensures Tracks(past + [m], files, queue + [e])
    decreases |queue|
  {
    if queue != [] {
      TracksSnoc(past, files + Effect(queue[0]), queue[1..], m, e);
      assert (queue + [e])[1..] == queue[1..] + [e];
    } else {
      assert (queue + [e])[1..] == [];
    }
  }

  /** The pending events of one watch: IN_IGNORED only as the last one, and exactly if the watch has ended. */
  predicate Stream(queue: seq<Event>, wd: int, ended: bool) {
    && (ended ==> queue != [])
    && forall i :: 0 <= i < |queue| ==> queue[i].wd == wd && (queue[i].ignored <==> ended && i == |queue| - 1)
  }

  predicate Live(w: World) {
    w.target in w.kernel.watches
  }

  /** There is one watch at most, and every pending event is its own. */
  predicate Synced(w: World) {
    && (forall i :: i in w.kernel.watches ==> i == w.target && w.kernel.watches[i] == w.ix.wd)
    && (!w.ix.watched ==> !Live(w) && w.kernel.queue == [] && w.ix.wd == NO_WATCH)
    && (w.ix.watched ==> Stream(w.kernel.queue, w.ix.wd, !Live(w)) && Tracks(w.past, w.ix.files, w.kernel.queue))
    && (Live(w) ==> w.target in w.kernel.dirs && Tally(w.past[|w.past| - 1]) == w.kernel.dirs[w.target] + w.drift)
  }

  /** `v` is `w` after a change in directory `inode` that its watch is about to report with effect `effect`. */
  predicate Changed(w: World, v: World, inode: nat, effect: int) {
    && v.ix == w.ix && v.target == w.target && v.past == w.past
    && v.kernel.watches == w.kernel.watches && v.kernel.queue == w.kernel.queue
    && (Live(w) && w.target in w.kernel.dirs ==>
          && w.target in v.kernel.dirs
          && v.kernel.dirs[w.target] + v.drift ==
             w.kernel.dirs[w.target] + w.drift + if inode == w.target then effect else 0)
  }

  lemma ReportedSynced(w: World, v: World, inode: nat, isDir: bool, create: bool)
    requires Synced(w) && Changed(w, v, inode, if isDir then 0 else if create then 1 else -1)
    ensures Synced(Reported(v, inode, isDir, create))
  {
    if inode in w.kernel.watches {
      var e := Event(w.ix.wd, isDir, create, !create, false);
      TracksSnoc(w.past, w.ix.files, w.kernel.queue, Moment(Count(v, w.target), v.drift), e);
    }
  }

  lemma EndedSynced(w: World, inode: nat)
    requires Synced(w)
    ensures Synced(Ended(w, inode)) && inode !in Ended(w, inode).kernel.watches && Ended(w, inode).ix == w.ix
  {
    if inode in w.kernel.watches {
      TracksSnoc(w.past, w.ix.files, w.kernel.queue, w.past[|w.past| - 1], Event(w.ix.wd, false, false, false, true));
    }
  }

  lemma DeliveredSynced(w: World)
    requires Synced(w)
    ensures Synced(Delivered(w))
  {
  }

  lemma WatchSynced(w: World, readable: bool, addable: bool, seen: Option<nat>)
    requires Synced(w)
    ensures Synced(Watch(w, readable, addable, seen))
  {
  }

  lemma UnwatchSynced(w: World)
    requires Synced(w)
    ensures Synced(Unwatch(w)) && Unwatch(w).ix == w.ix && !Live(Unwatch(w))
  {
    if Live(w) {
      assert w.kernel.watches[w.target] == w.ix.wd;
    }
    if exists i :: i in w.kernel.watches && w.kernel.watches[i] == w.ix.wd {
      var i :| i in w.kernel.watches && w.kernel.watches[i] == w.ix.wd;
      EndedSynced(w, w.target);
    }
  }

  lemma NextSynced(maxFiles: int, w: World, a: Action)
    requires Synced(w)
    ensures Synced(Stepped(maxFiles, w, a))
  {
    match a
    case File(inode, create) =>
      if Possible(w, inode, create) { ReportedSynced(w, Moved(w, inode, create), inode, false, create); }
    case Subdir(inode, create) => ReportedSynced(w, w, inode, true, create);
    case Special(inode, create) => ReportedSynced(w, Drifted(w, inode, create), inode, false, create);
    case Destroy(inode) => EndedSynced(w, inode);
    case Deliver => DeliveredSynced(w);
    case Init(readable, addable, seen) => WatchSynced(w, readable, addable, seen);
    case Check(found, readable, addable, seen) =>
      var v := w.(ix := Threshold(w.ix, maxFiles));
      assert Synced(v);
      if found && v.kernel.path.Some? && !Settled(v.ix, v.kernel.path.value) {
        UnwatchSynced(v);
        WatchSynced(Unwatch(v), readable, addable, seen);
      }
    case _ =>
  }

  // ---- What the counter means ---------------------------------------------------------------------------

  ghost function After(maxFiles: int, w: World, actions: seq<Action>): World {
    Fold((v, a) => Stepped(maxFiles, v, a), w, actions)
  }

  ghost function Run(maxFiles: int, path: Option<nat>, dirs: map<nat, nat>, actions: seq<Action>): World {
    After(maxFiles, Started(path, dirs), actions)
  }

  lemma AfterSnoc(maxFiles: int, w: World, actions: seq<Action>, last: Action)
    ensures After(maxFiles, w, actions + [last]) == Stepped(maxFiles, After(maxFiles, w, actions), last)
  {
    FoldSnoc((v, a) => Stepped(maxFiles, v, a), w, actions, last);
  }

  lemma RunSynced(maxFiles: int, path: Option<nat>, dirs: map<nat, nat>, actions: seq<Action>)
    ensures Synced(Run(maxFiles, path, dirs, actions))
  {
    forall w, a | Synced(w)
      ensures Synced(Stepped(maxFiles, w, a))
    {
      NextSynced(maxFiles, w, a);
    }
    FoldKeeps((v, a) => Stepped(maxFiles, v, a), Synced, Started(path, dirs), actions);
  }

  /** The moment that the counter shows: the pending events have happened since. */
  function Shown(w: World): Moment
    requires |w.past| > |w.kernel.queue|
  {
    w.past[|w.past| - 1 - |w.kernel.queue|]
  }

  /** In every reachable watched state the counter shows the tally of some moment since the directory was watched; with
      a live watch, the pending events make up the difference to the present. */
  lemma IndexAgrees(maxFiles: int, path: Option<nat>, dirs: map<nat, nat>, actions: seq<Action>)
    ensures var w := Run(maxFiles, path, dirs, actions);
      w.ix.watched ==>
        && |w.past| > |w.kernel.queue|
        && w.ix.files == Shown(w).count + Shown(w).drift
        && (Live(w) ==> (w.target in w.kernel.dirs
                         && w.ix.files + Net(w.kernel.queue) == w.kernel.dirs[w.target] + w.drift))
  {
    RunSynced(maxFiles, path, dirs, actions);
    var w := Run(maxFiles, path, dirs, actions);
    if w.ix.watched { TracksNet(w.past, w.ix.files, w.kernel.queue); }
  }

  /** Regular files come and go by creation and deletion only, and the directory can be read when it is counted. */
  predicate Accountable(a: Action) {
    match a
    case Special(_, _) => false
    case Rename(_, _) => false
    case Init(readable, _, _) => readable
    case Check(_, readable, _, _) => readable
    case _ => true
  }

  ghost predicate Driftless(w: World) {
    Synced(w) && w.drift == 0 && forall i :: 0 <= i < |w.past| ==> w.past[i].drift == 0
  }

  lemma NextDriftless(maxFiles: int, w: World, a: Action)
    requires Driftless(w) && Accountable(a)
    ensures Driftless(Stepped(maxFiles, w, a))
  {
    NextSynced(maxFiles, w, a);
    DriftKept(maxFiles, w, a);
  }

  lemma DriftKept(maxFiles: int, w: World, a: Action)
    requires Driftless(w) && Accountable(a)
    ensures var v := Stepped(maxFiles, w, a); v.drift == 0 && forall i :: 0 <= i < |v.past| ==> v.past[i].drift == 0
  {
  }

  lemma DriftlessCounter(w: World)
    requires Driftless(w) && w.ix.watched
    ensures |w.past| > |w.kernel.queue| && w.ix.files == Shown(w).count
    ensures Live(w) ==> w.target in w.kernel.dirs && w.ix.files + Net(w.kernel.queue) == w.kernel.dirs[w.target]
  {
    TracksNet(w.past, w.ix.files, w.kernel.queue);
    assert Shown(w).drift == 0;
  }

  lemma RunDriftless(maxFiles: int, path: Option<nat>, dirs: map<nat, nat>, actions: seq<Action>)
    requires forall i :: 0 <= i < |actions| ==> Accountable(actions[i])
    ensures Driftless(Run(maxFiles, path, dirs, actions))
  {
    forall w, a | Driftless(w) && Accountable(a)
      ensures Driftless(Stepped(maxFiles, w, a))
    {
      NextDriftless(maxFiles, w, a);
    }
    FoldKeepsFor((v, a) => Stepped(maxFiles, v, a), Driftless, Accountable, Started(path, dirs), actions);
  }

  /** The index agreement. In every run of such actions a watched counter is the number of files that the directory had
      at some moment since it was watched, so never negative; and with the pending events it is the present number. */
  lemma CounterIsPastCount(maxFiles: int, path: Option<nat>, dirs: map<nat, nat>, actions: seq<Action>)
    requires forall i :: 0 <= i < |actions| ==> Accountable(actions[i])
    ensures var w := Run(maxFiles, path, dirs, actions);
      w.ix.watched ==>
        && |w.past| > |w.kernel.queue|
        && w.ix.files == Shown(w).count && w.ix.files >= 0
        && (Live(w) ==> (w.target in w.kernel.dirs
                         && w.ix.files + Net(w.kernel.queue) == w.kernel.dirs[w.target]))
  {
    RunDriftless(maxFiles, path, dirs, actions);
    var w := Run(maxFiles, path, dirs, actions);
    if w.ix.watched { DriftlessCounter(w); }
  }

  // ---- The write gate -----------------------------------------------------------------------------------

  lemma CheckGate(maxFiles: int, w: World, found: bool, readable: bool, addable: bool, seen: Option<nat>)
    ensures Checked(w, maxFiles, found, readable, addable, seen).ix.writeEnabled == (w.ix.files < maxFiles)
  {
    UnwatchQuiet(w.(ix := Threshold(w.ix, maxFiles)));
  }

  /** Only a check touches the gate, and it opens it exactly if the counter is below the limit at that moment. */
  lemma GateStep(maxFiles: int, w: World, a: Action)
    ensures Stepped(maxFiles, w, a).ix.writeEnabled ==
            if a.Check? then w.ix.files < maxFiles else w.ix.writeEnabled
  {
    if a.Check? { CheckGate(maxFiles, w, a.found, a.readable, a.addable, a.seen); }
  }

  /** What the last check before the end of the run decided; the gate is open at first. */
  ghost function Decided(maxFiles: int, path: Option<nat>, dirs: map<nat, nat>, actions: seq<Action>): bool
    decreases |actions|
  {
    if actions == [] then true else
      var init := actions[..|actions| - 1];
      if actions[|actions| - 1].Check? then Run(maxFiles, path, dirs, init).ix.files < maxFiles
      else Decided(maxFiles, path, dirs, init)
  }

  lemma {:induction false} RunGate(maxFiles: int, path: Option<nat>, dirs: map<nat, nat>, actions: seq<Action>)
    ensures Run(maxFiles, path, dirs, actions).ix.writeEnabled == Decided(maxFiles, path, dirs, actions)
    decreases |actions|
  {
    if actions == [] {
    } else {
      var init := actions[..|actions| - 1];
      RunGate(maxFiles, path, dirs, init);
      GateStep(maxFiles, Run(maxFiles, path, dirs, init), actions[|actions| - 1]);
    }
  }

  /** So in every accountable run a check of a watched directory opens the gate exactly if the number of files that the
      counter shows, those of some moment since the watch was added, is below the limit; and exactly if the present
      number is, once every event has been read. */
  lemma GateFollowsFiles(maxFiles: int, path: Option<nat>, dirs: map<nat, nat>, actions: seq<Action>, check: Action)
    requires forall i :: 0 <= i < |actions| ==> Accountable(actions[i])
    requires check.Check? && Run(maxFiles, path, dirs, actions).ix.watched
    ensures var w, v := Run(maxFiles, path, dirs, actions), Run(maxFiles, path, dirs, actions + [check]);
      && |w.past| > |w.kernel.queue|
      && (v.ix.writeEnabled <==> Shown(w).count < maxFiles)
      && (Live(w) && w.kernel.queue == [] ==>
            w.target in w.kernel.dirs && (v.ix.writeEnabled <==> w.kernel.dirs[w.target] < maxFiles))
  {
    CounterIsPastCount(maxFiles, path, dirs, actions);
    AfterSnoc(maxFiles, Started(path, dirs), actions, check);
    GateStep(maxFiles, Run(maxFiles, path, dirs, actions), check);
  }

  /** The actions that the watch cannot account for: in the watched directory a regular file is renamed in or out, or
      something else than a regular file or directory comes or goes. */
  predicate Escapes(w: World, a: Action) {
    match a
    case Special(inode, _) => inode == w.target
    case Rename(inode, into) => inode == w.target && Possible(w, inode, into)
    case _ => false
  }

  /** Under one watch the drift changes with exactly these actions, by one each. */
  lemma DriftStep(maxFiles: int, w: World, a: Action)
    requires Synced(w) && Live(w)
    ensures var v := Stepped(maxFiles, w, a);
      if Escapes(w, a) then Live(v) && (v.drift == w.drift + 1 || v.drift == w.drift - 1) else v.drift == w.drift
  {
    if a.Check? { UnwatchDrift(w.(ix := Threshold(w.ix, maxFiles))); }
  }

  lemma UnwatchDrift(w: World)
    ensures Unwatch(w).drift == w.drift && Unwatch(w).ix == w.ix && Unwatch(w).target == w.target
  {
  }

  /** While a directory is watched, the counter and the pending events give the number of its files. */
  ghost predicate Right(w: World) {
    Live(w) ==> w.target in w.kernel.dirs && w.ix.files + Net(w.kernel.queue) == w.kernel.dirs[w.target]
  }

  /** A first count of a directory that has files and can be watched, but not read. */
  predicate Misreads(w: World, a: Action) {
    && !w.ix.watched && w.kernel.path.Some? && Count(w, w.kernel.path.value) > 0
    && ((a.Init? && !a.readable && a.addable) || (a.Check? && a.found && !a.readable && a.addable))
  }

  predicate Breaks(w: World, a: Action) {
    (Live(w) && Escapes(w, a)) || Misreads(w, a)
  }

  lemma RightIsDriftless(w: World)
    requires Synced(w)
    ensures Right(w) <==> (Live(w) ==> w.drift == 0)
  {
    if Live(w) { TracksNet(w.past, w.ix.files, w.kernel.queue); }
  }

  lemma WatchDrift(w: World, readable: bool, addable: bool, seen: Option<nat>)
    requires Synced(w) && !Live(w)
    ensures var v := Watch(w, readable, addable, seen);
      if !w.ix.watched && w.kernel.path.Some? && w.kernel.path.value in w.kernel.dirs && addable
      then Live(v) && (v.drift == 0 <==> readable || Count(w, w.kernel.path.value) == 0)
      else !Live(v)
  {
  }

  lemma CheckDrift(maxFiles: int, w: World, a: Action)
    requires Synced(w) && Right(w) && a.Check?
    ensures var v := Stepped(maxFiles, w, a); (Live(v) ==> v.drift == 0) <==> !Misreads(w, a)
  {
    var u := w.(ix := Threshold(w.ix, maxFiles));
    RightIsDriftless(w);
    UnwatchSynced(u);
    UnwatchDrift(u);
    UnwatchKeeps(u);
    WatchDrift(Unwatch(u), a.readable, a.addable, a.seen);
  }

  lemma RightStep(maxFiles: int, w: World, a: Action)
    requires Synced(w) && Right(w)
    ensures Right(Stepped(maxFiles, w, a)) <==> !Breaks(w, a)
  {
    RightIsDriftless(w);
    NextSynced(maxFiles, w, a);
    RightIsDriftless(Stepped(maxFiles, w, a));
    if a.Check? {
      CheckDrift(maxFiles, w, a);
    } else if a.Init? {
      if !Live(w) { WatchDrift(w, a.readable, a.addable, a.seen); }
    } else if Live(w) {
      DriftStep(maxFiles, w, a);
    }
  }

  ghost predicate RightAfter(maxFiles: int, path: Option<nat>, dirs: map<nat, nat>, actions: seq<Action>, k: nat)
    requires k <= |actions|
  {
    Right(Run(maxFiles, path, dirs, actions[..k]))
  }

  ghost predicate BrokenBy(maxFiles: int, path: Option<nat>, dirs: map<nat, nat>, actions: seq<Action>, k: nat)
    requires k < |actions|
  {
    Breaks(Run(maxFiles, path, dirs, actions[..k]), actions[k])
  }

  lemma RightAtNext(maxFiles: int, path: Option<nat>, dirs: map<nat, nat>, actions: seq<Action>, k: nat)
    requires k < |actions| && RightAfter(maxFiles, path, dirs, actions, k)
    ensures RightAfter(maxFiles, path, dirs, actions, k + 1) <==> !BrokenBy(maxFiles, path, dirs, actions, k)
  {
    AfterSnoc(maxFiles, Started(path, dirs), actions[..k], actions[k]);
    assert actions[..k] + [actions[k]] == actions[..k + 1];
    RunSynced(maxFiles, path, dirs, actions[..k]);
    RightStep(maxFiles, Run(maxFiles, path, dirs, actions[..k]), actions[k]);
  }

  lemma {:induction false} RightUpTo(maxFiles: int, path: Option<nat>, dirs: map<nat, nat>, actions: seq<Action>,
                                     n: nat)
    requires n <= |actions| && forall k :: 0 <= k < n ==> !BrokenBy(maxFiles, path, dirs, actions, k)
    ensures RightAfter(maxFiles, path, dirs, actions, n)
    decreases n
  {
    if n == 0 {
      assert actions[..0] == [];
    } else {
      RightUpTo(maxFiles, path, dirs, actions, n - 1);
      RightAtNext(maxFiles, path, dirs, actions, n - 1);
    }
  }

  /** The exact condition, for every run: the index is right at every moment if and only if no action breaks it. */
  lemma RightExactly(maxFiles: int, path: Option<nat>, dirs: map<nat, nat>, actions: seq<Action>)
    ensures (forall k :: 0 <= k <= |actions| ==> RightAfter(maxFiles, path, dirs, actions, k)) <==>
            (forall k :: 0 <= k < |actions| ==> !BrokenBy(maxFiles, path, dirs, actions, k))
  {
    if forall k :: 0 <= k <= |actions| ==> RightAfter(maxFiles, path, dirs, actions, k) {
      forall k | 0 <= k < |actions|
        ensures !BrokenBy(maxFiles, path, dirs, actions, k)
      {
        assert RightAfter(maxFiles, path, dirs, actions, k + 1);
        RightAtNext(maxFiles, path, dirs, actions, k);
      }
    }
    if forall k :: 0 <= k < |actions| ==> !BrokenBy(maxFiles, path, dirs, actions, k) {
      forall n | 0 <= n <= |actions|
        ensures RightAfter(maxFiles, path, dirs, actions, n)
      {
        RightUpTo(maxFiles, path, dirs, actions, n);
      }
    }
  }

  /** An empty directory, just watched. */
  const WATCHED_EMPTY := World(Index(0, true, 1, 1, true), Kernel(Some(1), map[1 := 0], map[1 := 1], [], 2), 1, 0,
                               [Moment(0, 0)])

  lemma WatchesEmpty(maxFiles: int)
    ensures Run(maxFiles, Some(1), map[1 := 0], [Init(true, true, Some(1))]) == WATCHED_EMPTY
  {
    var s := Started(Some(1), map[1 := 0]);
    AfterSnoc(maxFiles, s, [], Init(true, true, Some(1)));
    assert [] + [Init(true, true, Some(1))] == [Init(true, true, Some(1))];
    assert map[][1 := 1 as nat] == map[1 := 1 as nat];
  }

  /** A file renamed into an empty directory and then deleted: the counter is negative. */
  lemma RenameGoesNegative(maxFiles: int)
    ensures var w := Run(maxFiles, Some(1), map[1 := 0],
                         [Init(true, true, Some(1)), Rename(1, true), File(1, false), Deliver]);
      Live(w) && w.ix.files == -1 && w.kernel.dirs == map[1 := 0]
  {
    var s, init := Started(Some(1), map[1 := 0]), [Init(true, true, Some(1))];
    WatchesEmpty(maxFiles);
    AfterSnoc(maxFiles, s, init, Rename(1, true));
    AfterSnoc(maxFiles, s, init + [Rename(1, true)], File(1, false));
    AfterSnoc(maxFiles, s, init + [Rename(1, true)] + [File(1, false)], Deliver);
    assert init + [Rename(1, true)] + [File(1, false)] + [Deliver]
        == [Init(true, true, Some(1)), Rename(1, true), File(1, false), Deliver];
    RenamedEmpty(maxFiles);
  }

  lemma RenamedEmpty(maxFiles: int)
    ensures var renamed := Stepped(maxFiles, WATCHED_EMPTY, Rename(1, true));
      var deleted := Stepped(maxFiles, renamed, File(1, false));
      var w := Stepped(maxFiles, deleted, Deliver);
      Live(w) && w.ix.files == -1 && w.kernel.dirs == map[1 := 0]
  {
    assert map[1 := 0 as nat][1 := 1] == map[1 := 1 as nat] && map[1 := 1 as nat][1 := 0] == map[1 := 0 as nat];
  }

  /** A symbolic link, socket or pipe is counted when it is created under the watch. */
  lemma SpecialIsCounted(maxFiles: int)
    ensures var w := Run(maxFiles, Some(1), map[1 := 0], [Init(true, true, Some(1)), Special(1, true), Deliver]);
      Live(w) && w.ix.files == 1 && w.kernel.dirs == map[1 := 0]
  {
    var s, init := Started(Some(1), map[1 := 0]), [Init(true, true, Some(1))];
    WatchesEmpty(maxFiles);
    AfterSnoc(maxFiles, s, init, Special(1, true));
    AfterSnoc(maxFiles, s, init + [Special(1, true)], Deliver);
    assert init + [Special(1, true)] + [Deliver] == [Init(true, true, Some(1)), Special(1, true), Deliver];
  }

  /** A directory is counted anew only when nothing of an earlier watch is left, and the count is that of its files. */
  lemma RecountsFromScratch(maxFiles: int, w: World, a: Action)
    requires Synced(w) && !w.ix.watched
    ensures w.kernel.queue == [] && w.kernel.watches == map[]
    ensures var v := Stepped(maxFiles, w, a);
      v.ix.watched ==>
        && v.kernel.queue == [] && v.kernel.watches == map[v.target := v.ix.wd] && v.kernel.path == Some(v.target)
        && v.target in v.kernel.dirs && v.past == [Moment(v.kernel.dirs[v.target], v.drift)]
        && v.ix.files == v.kernel.dirs[v.target] + v.drift
  {
    assert forall i :: i !in w.kernel.watches;
    assert w.kernel.watches == map[];
  }

  // ---- Following the path -------------------------------------------------------------------------------

  function DeliverAll(w: World): World
    decreases |w.kernel.queue|
  {
    if w.kernel.queue == [] then w else DeliverAll(Delivered(w))
  }

  lemma {:induction false} LastEventClears(w: World)
    requires Synced(w) && w.ix.watched && !Live(w)
    ensures var v := DeliverAll(w);
      Synced(v) && !v.ix.watched && v.kernel.path == w.kernel.path && v.kernel.dirs == w.kernel.dirs
    decreases |w.kernel.queue|
  {
    DeliveredSynced(w);
    if !Delivered(w).ix.watched {
    } else {
      LastEventClears(Delivered(w));
    }
  }

  lemma UnwatchKeeps(w: World)
    requires Synced(w)
    ensures Unwatch(w).kernel.path == w.kernel.path && Unwatch(w).kernel.dirs == w.kernel.dirs
  {
  }

  /** Anything but a check, an end of directory `inode` and a change of the path. */
  predicate Between(a: Action, inode: nat) {
    !a.Check? && !a.Init? && !a.Repoint? && a != Destroy(inode)
  }

  /** The watch has ended, and the path leads to `inode`. */
  predicate Unwatched(w: World, inode: nat) {
    Synced(w) && !Live(w) && w.kernel.path == Some(inode) && inode in w.kernel.dirs
  }

  lemma StaysUnwatched(maxFiles: int, w: World, actions: seq<Action>, inode: nat)
    requires Unwatched(w, inode) && forall i :: 0 <= i < |actions| ==> Between(actions[i], inode)
    ensures Unwatched(After(maxFiles, w, actions), inode)
  {
    forall v, a | Unwatched(v, inode) && Between(a, inode)
      ensures Unwatched(Stepped(maxFiles, v, a), inode)
    {
      NextSynced(maxFiles, v, a);
    }
    FoldKeepsFor((v, a) => Stepped(maxFiles, v, a), v => Unwatched(v, inode), a => Between(a, inode), w, actions);
  }

  /** Once the events of the ended watch have been read, the next check counts and watches the path's directory. */
  lemma WatchesAnew(maxFiles: int, w: World, inode: nat)
    requires Unwatched(w, inode)
    ensures var quiet := DeliverAll(w);
      var again := Checked(quiet, maxFiles, true, true, true, Some(inode));
      && !quiet.ix.watched
      && Live(again) && again.target == inode && again.ix.dirInode == inode && again.drift == 0
      && again.ix.files == w.kernel.dirs[inode]
  {
    if w.ix.watched { LastEventClears(w); }
    var u := DeliverAll(w).(ix := Threshold(DeliverAll(w).ix, maxFiles));
    UnwatchSynced(u);
    UnwatchKeeps(u);
  }

  /** When the path has come to lead to another directory, one check ends the old watch, and whatever files come and go
      in the meantime, its pending events clear the client and the next check counts and watches the new directory. */
  lemma FollowsThePath(maxFiles: int, w: World, inode: nat, readable: bool, addable: bool, seen: Option<nat>,
                       meantime: seq<Action>)
    requires Synced(w) && w.ix.watched && w.kernel.path == Some(inode) && inode in w.kernel.dirs
    requires w.ix.dirInode != inode && forall i :: 0 <= i < |meantime| ==> Between(meantime[i], inode)
    ensures var ended := Checked(w, maxFiles, true, readable, addable, seen);
      var later := After(maxFiles, ended, meantime);
      var again := Checked(DeliverAll(later), maxFiles, true, true, true, Some(inode));
      && ended.ix.watched && !Live(ended) && inode in later.kernel.dirs
      && Live(again) && again.target == inode && again.ix.dirInode == inode && again.drift == 0
      && again.ix.files == later.kernel.dirs[inode]
  {
    var v := w.(ix := Threshold(w.ix, maxFiles));
    UnwatchSynced(v);
    UnwatchKeeps(v);
    var ended := Checked(w, maxFiles, true, readable, addable, seen);
    StaysUnwatched(maxFiles, ended, meantime, inode);
    WatchesAnew(maxFiles, After(maxFiles, ended, meantime), inode);
  }

  /** The action as it is when a watch is added and its inode asked for at one instant. */
  function AtOnce(w: World, a: Action): Action {
    match a
    case Init(readable, addable, seen) => Init(readable, addable, if seen.Some? then w.kernel.path else None)
    case Check(found, readable, addable, seen) =>
      Check(found, readable, addable, if seen.Some? then w.kernel.path else None)
    case _ => a
  }

  ghost function RunAtOnce(maxFiles: int, path: Option<nat>, dirs: map<nat, nat>, actions: seq<Action>): World {
    Fold((v, a) => Stepped(maxFiles, v, AtOnce(v, a)), Started(path, dirs), actions)
  }

  /** The client knows the inode of the directory it watches, or none. */
  ghost predicate Knows(w: World) {
    Synced(w) && 0 !in w.kernel.dirs && (w.ix.dirInode == 0 || (w.ix.watched && w.ix.dirInode == w.target))
  }

  lemma WatchKnows(w: World, readable: bool, addable: bool, seen: Option<nat>)
    requires Knows(w) && (seen.None? || seen == w.kernel.path)
    ensures Knows(Watch(w, readable, addable, seen))
  {
    WatchSynced(w, readable, addable, seen);
  }

  lemma CheckKnows(maxFiles: int, w: World, a: Action)
    requires Knows(w) && a.Check? && (a.seen.None? || a.seen == w.kernel.path)
    ensures Knows(Stepped(maxFiles, w, a))
  {
    var v := w.(ix := Threshold(w.ix, maxFiles));
    assert Knows(v);
    UnwatchDrift(v);
    UnwatchKeeps(v);
    UnwatchSynced(v);
    WatchKnows(Unwatch(v), a.readable, a.addable, a.seen);
  }

  lemma NextKnows(maxFiles: int, w: World, a: Action)
    requires Knows(w)
    ensures Knows(Stepped(maxFiles, w, AtOnce(w, a)))
  {
    if a.Check? {
      CheckKnows(maxFiles, w, AtOnce(w, a));
    } else if a.Init? {
      WatchKnows(w, a.readable, a.addable, AtOnce(w, a).seen);
    } else {
      NextSynced(maxFiles, w, a);
    }
  }

  lemma RunKnows(maxFiles: int, path: Option<nat>, dirs: map<nat, nat>, actions: seq<Action>)
    requires 0 !in dirs
    ensures Knows(RunAtOnce(maxFiles, path, dirs, actions))
  {
    forall w, a | Knows(w)
      ensures Knows(Stepped(maxFiles, w, AtOnce(w, a)))
    {
      NextKnows(maxFiles, w, a);
    }
    FoldKeeps((v, a) => Stepped(maxFiles, v, AtOnce(v, a)), Knows, Started(path, dirs), actions);
  }

  /** So in every such run a replaced directory is noticed by the next check, and the new one is watched by the check
      after that, whatever files come and go in the meantime. */
  lemma FollowsReplacement(maxFiles: int, path: Option<nat>, dirs: map<nat, nat>, actions: seq<Action>, inode: nat,
                           meantime: seq<Action>)
    requires 0 !in dirs && forall i :: 0 <= i < |meantime| ==> Between(meantime[i], inode)
    requires var w := RunAtOnce(maxFiles, path, dirs, actions);
      w.ix.watched && w.kernel.path == Some(inode) && inode in w.kernel.dirs && inode != w.target
    ensures var ended := Checked(RunAtOnce(maxFiles, path, dirs, actions), maxFiles, true, true, true, Some(inode));
      var later := After(maxFiles, ended, meantime);
      var again := Checked(DeliverAll(later), maxFiles, true, true, true, Some(inode));
      && !Live(ended) && inode in later.kernel.dirs
      && Live(again) && again.target == inode && again.ix.files == later.kernel.dirs[inode]
  {
    RunKnows(maxFiles, path, dirs, actions);
    FollowsThePath(maxFiles, RunAtOnce(maxFiles, path, dirs, actions), inode, true, true, Some(inode), meantime);
  }

  // ---- A replacement in between -------------------------------------------------------------------------

  /** The client takes the directory it watches for the one the path leads to. */
  ghost predicate Blind(w: World) {
    Synced(w) && Live(w) && w.kernel.path == Some(w.ix.dirInode) && w.ix.dirInode != w.target
  }

  /** This happens when the path is repointed between adding the watch and asking for the inode. */
  lemma BlindAfterRace(maxFiles: int, i: nat, j: nat, dirs: map<nat, nat>)
    requires i != j && i in dirs
    ensures var w := Run(maxFiles, Some(i), dirs, [Init(true, true, Some(j)), Repoint(Some(j))]);
      Blind(w) && w.target == i
  {
    var s := Started(Some(i), dirs);
    AfterSnoc(maxFiles, s, [], Init(true, true, Some(j)));
    AfterSnoc(maxFiles, s, [Init(true, true, Some(j))], Repoint(Some(j)));
    assert [] + [Init(true, true, Some(j))] == [Init(true, true, Some(j))];
    assert [Init(true, true, Some(j))] + [Repoint(Some(j))] == [Init(true, true, Some(j)), Repoint(Some(j))];
    RunSynced(maxFiles, Some(i), dirs, [Init(true, true, Some(j)), Repoint(Some(j))]);
  }

  /** What ends it: the old directory goes, or the path changes again. */
  predicate EndsBlindness(w: World, a: Action) {
    a == Destroy(w.target) || (a.Repoint? && a.path != w.kernel.path)
  }

  lemma BlindStep(maxFiles: int, w: World, a: Action)
    requires Blind(w)
    ensures var v := Stepped(maxFiles, w, a);
      && (Blind(v) <==> !EndsBlindness(w, a))
      && (Blind(v) ==> v.target == w.target && v.ix.dirInode == w.ix.dirInode)
  {
    NextSynced(maxFiles, w, a);
  }

  /** Nothing else ends it: no check, no event, no file. */
  lemma {:induction false} StaysBlind(maxFiles: int, w: World, actions: seq<Action>)
    requires Blind(w) && forall i :: 0 <= i < |actions| ==> !EndsBlindness(w, actions[i])
    ensures var v := After(maxFiles, w, actions);
      Blind(v) && v.target == w.target && v.ix.dirInode == w.ix.dirInode
    decreases |actions|
  {
    if actions == [] {
    } else {
      var n := |actions| - 1;
      StaysBlind(maxFiles, w, actions[..n]);
      BlindStep(maxFiles, After(maxFiles, w, actions[..n]), actions[n]);
    }
  }

  /** When the old directory goes, its last event clears the client and the next check watches the new one. When the
      path changes, `FollowsThePath` applies. */
  lemma BlindnessEnds(maxFiles: int, w: World)
    requires Blind(w) && w.ix.dirInode in w.kernel.dirs
    ensures var quiet := DeliverAll(Stepped(maxFiles, w, Destroy(w.target)));
      var again := Checked(quiet, maxFiles, true, true, true, quiet.kernel.path);
      !quiet.ix.watched && Live(again) && again.target == w.ix.dirInode
      && again.ix.files == w.kernel.dirs[w.ix.dirInode]
  {
    var v := Stepped(maxFiles, w, Destroy(w.target));
    NextSynced(maxFiles, w, Destroy(w.target));
    LastEventClears(v);
    var u := DeliverAll(v).(ix := Threshold(DeliverAll(v).ix, maxFiles));
    UnwatchSynced(u);
    UnwatchKeeps(u);
  }

  // ---- The class ----------------------------------------------------------------------------------------

  /** The number of directory entries of type DT_REG. */
  function Regular(entries: seq<bool>): nat
    decreases |entries|
  {
    if entries == [] then 0 else Regular(entries[..|entries| - 1]) + if entries[|entries| - 1] then 1 else 0
  }

  lemma {:induction false} RegularCounts(entries: seq<bool>)
    ensures Regular(entries) == |set i | 0 <= i < |entries| && entries[i]|
    decreases |entries|
  {
    if entries == [] {
    } else {
      var init := entries[..|entries| - 1];
      RegularCounts(init);
      var before := set i | 0 <= i < |init| && init[i];
      assert (set i | 0 <= i < |entries| && entries[i]) ==
             before + if entries[|entries| - 1] then {|entries| - 1} else {};
    }
  }

  class ResultPathClient {
    const inotifyFd: int
    const maxFiles: int
    var filesInDirectory: int
    var dirWatched: bool
    var wd: int
    var dirInode: nat
    var writeEnabled: bool

    ghost function State(): Index
      reads this
    {
      Index(filesInDirectory, dirWatched, wd, dirInode, writeEnabled)
    }

    constructor (maxFiles: int, inotifyFd: int)
      ensures State() == FRESH && this.maxFiles == maxFiles
      ensures this.inotifyFd == if maxFiles != 0 then inotifyFd else -1
    {
      this.maxFiles := maxFiles;
      this.inotifyFd := if maxFiles != 0 then inotifyFd else -1;
      filesInDirectory, dirWatched, wd, dirInode, writeEnabled := 0, false, NO_WATCH, 0, true;
    }

    method EventReceived(e: Event)
      modifies this
      ensures State() == Received(old(State()), e)
    {
      if !e.isDir {
        if e.delete {
          filesInDirectory := filesInDirectory - 1;
        }
        if e.create {
          filesInDirectory := filesInDirectory + 1;
        }
      }
      if e.ignored {
        dirWatched, wd, dirInode := false, NO_WATCH, 0;
      }
    }

    /** One read holds a whole number of events. */
    method ReadCb(events: seq<Event>)
      modifies this
      ensures State() == Fold(Received, old(State()), events)
    {
      for i := 0 to |events|
        invariant State() == Fold(Received, old(State()), events[..i])
      {
        assert events[..i + 1][..i] == events[..i];
        EventReceived(events[i]);
      }
      assert events[..|events|] == events;
    }

    /** `entries` is None when the directory cannot be opened. */
    method CountFiles(entries: Option<seq<bool>>)
      modifies this`filesInDirectory
      ensures filesInDirectory == if entries.Some? then Regular(entries.value) else 0
      ensures entries.Some? ==> var e := entries.value; filesInDirectory == |set i | 0 <= i < |e| && e[i]|
    {
      filesInDirectory := 0;
      if entries.None? {
        return;
      }
      var e := entries.value;
      for i := 0 to |e|
        invariant filesInDirectory == Regular(e[..i])
      {
        assert e[..i + 1][..i] == e[..i];
        if e[i] {
          filesInDirectory := filesInDirectory + 1;
        }
      }
      assert e[..|e|] == e;
      RegularCounts(e);
    }

    method WatchDirectory(entries: Option<seq<bool>>, rc: Option<nat>, seen: Option<nat>)
      modifies this
      ensures State() == if inotifyFd == -1 then old(State())
                         else Attempted(old(State()), Attempt(Counted(entries), rc, seen))
      ensures inotifyFd != -1 && !old(dirWatched) ==>
                filesInDirectory == (if entries.None? then 0 else Counted(entries).value) && dirWatched == rc.Some?
    {
      if inotifyFd == -1 {
        return;
      }
      if !dirWatched {
        CountFiles(entries);
        if rc.None? {
          return;
        }
        if seen.Some? {
          dirInode := seen.value;
        }
        wd := rc.value;
        dirWatched := true;
      }
    }

    /** `asked` is the descriptor handed to `inotify_rm_watch`, if any. The client's own state does not change. */
    method UnwatchDirectory() returns (asked: Option<int>)
      ensures asked == if inotifyFd == -1 || wd == NO_WATCH then None else Some(wd)
    {
      if inotifyFd == -1 || wd == NO_WATCH {
        return None;
      }
      return Some(wd);
    }

    /** `inode` is what `stat` finds under the path, if it is a directory. */
    method Check(inode: Option<nat>, entries: Option<seq<bool>>, rc: Option<nat>, seen: Option<nat>)
      returns (asked: Option<int>)
      modifies this
      ensures State() == if maxFiles == 0 || inotifyFd == -1 then old(State())
                         else Examined(old(State()), maxFiles, inode, Attempt(Counted(entries), rc, seen))
      ensures writeEnabled == if maxFiles == 0 || inotifyFd == -1 then old(writeEnabled)
                              else old(filesInDirectory) < maxFiles
      ensures asked == if maxFiles == 0 || inotifyFd == -1 || inode.None? || old(wd) == NO_WATCH
                          || Settled(old(State()), inode.value) then None else Some(old(wd))
    {
      asked := None;
      if maxFiles == 0 || inotifyFd == -1 {
        return;
      }
      if maxFiles > filesInDirectory {
        writeEnabled := true;
      } else {
        writeEnabled := false;
      }
      if inode.None? {
        return;
      }
      if dirWatched && dirInode != inode.value {
        asked := UnwatchDirectory();
        WatchDirectory(entries, rc, seen);
        return;
      }
      if dirWatched {
        return;
      }
      asked := UnwatchDirectory();
      WatchDirectory(entries, rc, seen);
    }
  }

  /** What counting the entries finds. */
  function Counted(entries: Option<seq<bool>>): (c: Option<nat>)
    ensures c.Some? <==> entries.Some?
    ensures c.Some? ==> var e := entries.value; c.value == |set i | 0 <= i < |e| && e[i]|
  {
    if entries.None? then None else
      RegularCounts(entries.value);
      Some(Regular(entries.value))
  }
}
