/**
 * The access-log active-file protocol: threads that emit, close, re-install and maintain,
 * interleaved step by step around one transition lock.
 */
module AccessLog {
  import opened Prelude

  /** A daily log file or its archive. */
  datatype Path = Log(dir: string, date: int) | Archive(dir: string, date: int)

  type Inode = nat

  /** A handler: its directory, the date it last switched to, and the file it holds open. */
  datatype Handler = Handler(dir: string, date: Option<int>, file: Option<Inode>)

  /** Where a thread stands. The states from `Recheck` on, `Write` aside, are inside the transition lock. */
  datatype Pc =
    | Idle
    | WaitSwitch(h: nat, today: int)        // emit saw another date and wants the lock
    | WaitSetup(target: Option<string>)     // re-install (or, without a directory, disable) wants the lock
    | WaitMaintain(path: Path, gzip: bool)  // the slow part is over; the commit wants the lock
    | Write(h: nat)
    | Recheck(h: nat, today: int)
    | Open(h: nat, today: int)              // the old file is closed
    | Stamp(h: nat, today: int)             // the new file is open, the date not yet recorded
    | TearDown(target: Option<string>)      // the installed handler is to be closed
    | Clear(target: Option<string>)         // it is closed, and still the installed one
    | Install(dir: string)                  // no handler is installed
    | Check(path: Path, gzip: bool)
    | Replace(path: Path)                   // found inactive: the archive goes into place
    | Unlink(path: Path, gzip: bool)        // found inactive: the source goes
    | Release                               // done, or given up
    | ReleaseToWrite(h: nat)

  datatype State = State(
    threads: seq<Pc>, lock: Option<nat>, handlers: seq<Handler>, installed: Option<nat>, links: map<Path, Inode>, nextInode: nat)

  predicate Inside(pc: Pc) {
    !pc.Idle? && !pc.WaitSwitch? && !pc.WaitSetup? && !pc.WaitMaintain? && !pc.Write?
  }

  predicate Waiting(pc: Pc) {
    pc.WaitSwitch? || pc.WaitSetup? || pc.WaitMaintain?
  }

  function PathOf(h: Handler): Option<Path> {
    if h.file.None? || h.date.None? then None else Some(Log(h.dir, h.date.value))
  }

  /** The maintenance question, as asked. */
  predicate IsActive(s: State, p: Path) {
    s.installed.Some? && s.installed.value < |s.handlers| && PathOf(s.handlers[s.installed.value]) == Some(p)
  }

  /** What a step may choose: the work a thread takes up, and whether a file operation fails. */
  datatype Choice =
    | Begin(pc: Pc)
    | CloseHandler(h: nat)
    | Go
    | Fails

  /** Work that can be taken up from outside the lock. An emit that sees its own date goes straight to writing. */
  predicate CanBegin(s: State, pc: Pc) {
    match pc
    case WaitSwitch(h, today) => h < |s.handlers| && s.handlers[h].date != Some(today)
    case Write(h) => h < |s.handlers|
    case WaitSetup(_) => true
    case WaitMaintain(_, _) => true
    case _ => false
  }

  predicate Enabled(s: State, t: nat, c: Choice) {
    t < |s.threads| &&
    match s.threads[t]
    case Idle => (match c case Begin(pc) => CanBegin(s, pc) case CloseHandler(h) => h < |s.handlers| case _ => false)
    case Write(_) => c == Go
    case Open(_, _) => c == Go || c == Fails
    case Check(_, _) => c == Go || c == Fails
    case Replace(_) => c == Go || c == Fails
    case Unlink(_, _) => c == Go || c == Fails
    case Install(_) => c == Go || c == Fails
    case pc => c == Go && (Waiting(pc) ==> s.lock.None?)
  }

  function Entered(pc: Pc): Pc
    requires Waiting(pc)
  {
    match pc
    case WaitSwitch(h, today) => Recheck(h, today)
    case WaitSetup(target) => TearDown(target)
    case WaitMaintain(p, gzip) => Check(p, gzip)
  }

  function SetFile(s: State, h: nat, file: Option<Inode>): State {
    if h < |s.handlers| then s.(handlers := s.handlers[h := s.handlers[h].(file := file)]) else s
  }

  function SetDate(s: State, h: nat, date: int): State {
    if h < |s.handlers| then s.(handlers := s.handlers[h := s.handlers[h].(date := Some(date))]) else s
  }

  function At(s: State, t: nat, pc: Pc): State
    requires t < |s.threads|
  {
    s.(threads := s.threads[t := pc])
  }

  /** Opening for append finds the linked file or creates one. */
  function OpenFile(s: State, h: nat, today: int): State
    requires h < |s.handlers|
  {
    var p := Log(s.handlers[h].dir, today);
    if p in s.links then SetFile(s, h, Some(s.links[p]))
    else SetFile(s.(links := s.links[p := s.nextInode], nextInode := s.nextInode + 1), h, Some(s.nextInode))
  }

  function AddHandler(s: State, dir: string): State {
    s.(handlers := s.handlers + [Handler(dir, None, None)], installed := Some(|s.handlers|))
  }

  function Step(s: State, t: nat, c: Choice): State
    requires Enabled(s, t, c)
  {
    match s.threads[t]
    case Idle => (match c case Begin(pc) => At(s, t, pc) case CloseHandler(h) => SetFile(s, h, None) case _ => s)
    case Write(_) => At(s, t, Idle)
    case Recheck(h, today) =>
      if h < |s.handlers| && s.handlers[h].date != Some(today) then At(SetFile(s, h, None), t, Open(h, today))
      else At(s, t, ReleaseToWrite(h))
    case Open(h, today) =>
      if c == Fails || h >= |s.handlers| then At(s, t, Release) else At(OpenFile(s, h, today), t, Stamp(h, today))
    case Stamp(h, today) => At(SetDate(s, h, today), t, ReleaseToWrite(h))
    case TearDown(target) =>
      At(if s.installed.Some? then SetFile(s, s.installed.value, None) else s, t, Clear(target))
    case Clear(target) => At(s.(installed := None), t, if target.None? then Release else Install(target.value))
    case Install(dir) => if c == Fails then At(s, t, Release) else At(AddHandler(s, dir), t, Release)
    case Check(p, gzip) =>
      At(s, t, if c == Fails || IsActive(s, p) then Release else if gzip then Replace(p) else Unlink(p, false))
    case Replace(p) =>
      if c == Fails then At(s, t, Release)
      else At(s.(links := s.links[Archive(p.dir, p.date) := s.nextInode], nextInode := s.nextInode + 1), t, Unlink(p, true))
    case Unlink(p, _) => At(if c == Fails then s else s.(links := s.links - {p}), t, Release)
    case Release => At(s.(lock := None), t, Idle)
    case ReleaseToWrite(h) => At(s.(lock := None), t, Write(h))
    case pc => At(s.(lock := Some(t)), t, Entered(pc))
  }

  // ---- the invariant ----------------------------------------------------------------------

  /** The lock is held by exactly the thread that is inside it. */
  ghost predicate LockOk(s: State) {
    forall t :: 0 <= t < |s.threads| ==> (Inside(s.threads[t]) <==> s.lock == Some(t))
  }

  /** The path of the file `h` holds open; between opening and recording, the switching thread knows better than the date field. */
  ghost function HeldPath(s: State, h: nat): Option<Path>
    requires h < |s.handlers|
  {
    if s.lock.Some? && s.lock.value < |s.threads| && s.threads[s.lock.value].Stamp? && s.threads[s.lock.value].h == h
    then Some(Log(s.handlers[h].dir, s.threads[s.lock.value].today))
    else if s.handlers[h].date.Some? then Some(Log(s.handlers[h].dir, s.handlers[h].date.value))
    else None
  }

  /** The file that `h` holds open is linked under its path. */
  ghost predicate Linked(s: State, h: nat)
    requires h < |s.handlers|
  {
    s.handlers[h].file.Some? ==>
      HeldPath(s, h).Some? && HeldPath(s, h).value in s.links && s.links[HeldPath(s, h).value] == s.handlers[h].file.value
  }

  ghost predicate HeldOk(s: State) {
    s.installed.Some? ==> s.installed.value < |s.handlers| && Linked(s, s.installed.value)
  }

  /** What a thread inside the lock may rely on. */
  ghost predicate ThreadOk(s: State, pc: Pc) {
    match pc
    case Replace(p) => !IsActive(s, p)
    case Unlink(p, gzip) => !IsActive(s, p) && (gzip ==> Archive(p.dir, p.date) in s.links)
    case Open(h, _) => h < |s.handlers| && s.handlers[h].file.None?
    case Install(_) => s.installed.None?
    case Clear(_) => s.installed.Some? ==> s.installed.value < |s.handlers| && s.handlers[s.installed.value].file.None?
    case _ => true
  }

  ghost predicate Inv(s: State) {
    && (s.lock.Some? ==> s.lock.value < |s.threads|)
    && LockOk(s)
    && HeldOk(s)
    && (s.lock.Some? ==> ThreadOk(s, s.threads[s.lock.value]))
  }

  ghost predicate Start(s: State) {
    && (forall t :: 0 <= t < |s.threads| ==> s.threads[t] == Idle)
    && s.lock.None? && s.handlers == [] && s.installed.None?
  }

  lemma StartHolds(s: State)
    requires Start(s)
    ensures Inv(s)
  {
  }

  /** Steps outside the lock: beginning work, closing a handler, writing a line. */
  lemma OutsideKeeps(s: State, t: nat, c: Choice)
    requires Inv(s) && Enabled(s, t, c) && !Inside(s.threads[t]) && !Waiting(s.threads[t])
    ensures Inv(Step(s, t, c))
  {
    var s' := Step(s, t, c);
    assert s.lock != Some(t);
    assert !Inside(s'.threads[t]);
    if s.lock.Some? {
      assert s'.threads[s.lock.value] == s.threads[s.lock.value];
    }
  }

  lemma AcquireKeeps(s: State, t: nat, c: Choice)
    requires Inv(s) && Enabled(s, t, c) && Waiting(s.threads[t])
    ensures Inv(Step(s, t, c))
  {
  }

  lemma RecheckKeeps(s: State, t: nat, c: Choice)
    requires Inv(s) && Enabled(s, t, c) && s.threads[t].Recheck?
    ensures Inv(Step(s, t, c))
  {
    assert s.lock == Some(t);
  }

  lemma OpenKeeps(s: State, t: nat, c: Choice)
    requires Inv(s) && Enabled(s, t, c) && s.threads[t].Open?
    ensures Inv(Step(s, t, c))
  {
    assert s.lock == Some(t);
  }

  lemma StampKeeps(s: State, t: nat, c: Choice)
    requires Inv(s) && Enabled(s, t, c) && s.threads[t].Stamp?
    ensures Inv(Step(s, t, c))
  {
    assert s.lock == Some(t);
  }

  lemma SetupKeeps(s: State, t: nat, c: Choice)
    requires Inv(s) && Enabled(s, t, c)
    requires s.threads[t].TearDown? || s.threads[t].Clear? || s.threads[t].Install?
    ensures Inv(Step(s, t, c))
  {
    assert s.lock == Some(t);
  }

  lemma MaintainKeeps(s: State, t: nat, c: Choice)
    requires Inv(s) && Enabled(s, t, c)
    requires s.threads[t].Check? || s.threads[t].Replace? || s.threads[t].Unlink?
    ensures Inv(Step(s, t, c))
  {
    assert s.lock == Some(t);
  }

  lemma ReleaseKeeps(s: State, t: nat, c: Choice)
    requires Inv(s) && Enabled(s, t, c) && (s.threads[t].Release? || s.threads[t].ReleaseToWrite?)
    ensures Inv(Step(s, t, c))
  {
    assert s.lock == Some(t);
  }

  lemma StepKeeps(s: State, t: nat, c: Choice)
    requires Inv(s) && Enabled(s, t, c)
    ensures Inv(Step(s, t, c))
  {
    match s.threads[t]
    case Idle => OutsideKeeps(s, t, c);
    case Write(_) => OutsideKeeps(s, t, c);
    case WaitSwitch(_, _) => AcquireKeeps(s, t, c);
    case WaitSetup(_) => AcquireKeeps(s, t, c);
    case WaitMaintain(_, _) => AcquireKeeps(s, t, c);
    case Recheck(_, _) => RecheckKeeps(s, t, c);
    case Open(_, _) => OpenKeeps(s, t, c);
    case Stamp(_, _) => StampKeeps(s, t, c);
    case TearDown(_) => SetupKeeps(s, t, c);
    case Clear(_) => SetupKeeps(s, t, c);
    case Install(_) => SetupKeeps(s, t, c);
    case Check(_, _) => MaintainKeeps(s, t, c);
    case Replace(_) => MaintainKeeps(s, t, c);
    case Unlink(_, _) => MaintainKeeps(s, t, c);
    case Release => ReleaseKeeps(s, t, c);
    case ReleaseToWrite(_) => ReleaseKeeps(s, t, c);
  }

  // ---- every interleaving ---------------------------------------------------------------------

  datatype Move = Move(thread: nat, choice: Choice)

  ghost predicate RunFrom(s: State, moves: seq<Move>)
    decreases |moves|
  {
    moves == [] ||
    (Enabled(s, moves[0].thread, moves[0].choice) && RunFrom(Step(s, moves[0].thread, moves[0].choice), moves[1..]))
  }

  ghost function After(s: State, moves: seq<Move>): State
    requires RunFrom(s, moves)
    decreases |moves|
  {
    if moves == [] then s else After(Step(s, moves[0].thread, moves[0].choice), moves[1..])
  }

  lemma {:induction false} RunKeeps(s: State, moves: seq<Move>)
    requires Inv(s) && RunFrom(s, moves)
    ensures Inv(After(s, moves))
    decreases |moves|
  {
    if moves != [] {
      StepKeeps(s, moves[0].thread, moves[0].choice);
      RunKeeps(Step(s, moves[0].thread, moves[0].choice), moves[1..]);
    }
  }

  /** In every interleaving, whatever file the installed handler holds open is linked. */
  lemma HeldFileStaysLinked(s: State, moves: seq<Move>)
    requires Start(s) && RunFrom(s, moves)
    ensures var v := After(s, moves);
            v.installed.Some? ==>
              && v.installed.value < |v.handlers|
              && (v.handlers[v.installed.value].file.Some? ==>
                    exists p :: p in v.links && p.Log? && v.links[p] == v.handlers[v.installed.value].file.value)
  {
    StartHolds(s);
    RunKeeps(s, moves);
    var v := After(s, moves);
    if v.installed.Some? && v.handlers[v.installed.value].file.Some? {
      var p := HeldPath(v, v.installed.value).value;
      assert p in v.links && p.Log?;
    }
  }

  /** At the moment maintenance unlinks, the installed handler holds nothing, or a file that keeps another path. */
  lemma UnlinkSparesHeldFile(s: State, moves: seq<Move>, t: nat)
    requires Start(s) && RunFrom(s, moves)
    requires t < |After(s, moves).threads| && After(s, moves).threads[t].Unlink?
    ensures var v := After(s, moves);
            v.installed.Some? && v.installed.value < |v.handlers| && v.handlers[v.installed.value].file.Some? ==>
              && v.handlers[v.installed.value].date.Some?
              && var p := Log(v.handlers[v.installed.value].dir, v.handlers[v.installed.value].date.value);
              && p != v.threads[t].path && p in v.links && v.links[p] == v.handlers[v.installed.value].file.value
  {
    StartHolds(s);
    RunKeeps(s, moves);
    assert After(s, moves).lock == Some(t);
  }

  /** When maintenance is about to unlink a source it compressed, the archive is in place. */
  lemma ArchivedBeforeUnlink(s: State, moves: seq<Move>, t: nat)
    requires Start(s) && RunFrom(s, moves)
    requires t < |After(s, moves).threads| && After(s, moves).threads[t].Unlink?
    ensures var v := After(s, moves);
            var Unlink(p, gzip) := v.threads[t];
            gzip ==> Archive(p.dir, p.date) in v.links
  {
    StartHolds(s);
    RunKeeps(s, moves);
    assert After(s, moves).lock == Some(t);
  }

  /** Compressing maintenance comes to its unlink only by way of putting the archive in place. */
  lemma UnlinkComesFrom(s: State, t: nat, c: Choice)
    requires Enabled(s, t, c) && Step(s, t, c).threads[t].Unlink?
    ensures var Unlink(p, gzip) := Step(s, t, c).threads[t];
            if gzip then s.threads[t] == Replace(p) && Step(s, t, c).links == s.links[Archive(p.dir, p.date) := s.nextInode]
            else s.threads[t] == Check(p, false) && Step(s, t, c).links == s.links
  {
  }

  /** A file operation that fails changes neither the files nor the handlers. */
  lemma FailureTouchesNothing(s: State, t: nat)
    requires Enabled(s, t, Fails)
    ensures Step(s, t, Fails).links == s.links && Step(s, t, Fails).handlers == s.handlers
    ensures Step(s, t, Fails).threads[t] == Release
  {
  }

  /** A date switch ends with the handler holding open the linked file of its directory and the new date, and no other handler touched. */
  lemma SwitchOpensToday(s: State, t: nat)
    requires Inv(s) && t < |s.threads| && s.threads[t].Open?
    ensures var Open(h, today) := s.threads[t];
            h < |s.handlers| && s.lock == Some(t) && Enabled(s, t, Go) && Enabled(Step(s, t, Go), t, Go) &&
            var s' := Step(Step(s, t, Go), t, Go);
            var p := Log(s.handlers[h].dir, today);
            && s'.threads[t] == ReleaseToWrite(h) && p in s'.links
            && s'.handlers == s.handlers[h := Handler(s.handlers[h].dir, Some(today), Some(s'.links[p]))]
  {
    assert s.lock == Some(t);
  }

  /** Only a handler of another date is switched, and its old file is closed first. */
  lemma SwitchesOtherDates(s: State, t: nat)
    requires Inv(s) && t < |s.threads| && s.threads[t].Recheck? && s.threads[t].h < |s.handlers|
    ensures Enabled(s, t, Go)
    ensures var Recheck(h, today) := s.threads[t];
            var s' := Step(s, t, Go);
            if s.handlers[h].date == Some(today) then s'.threads[t] == ReleaseToWrite(h) && s'.handlers == s.handlers
            else s'.threads[t] == Open(h, today) && s'.handlers == s.handlers[h := s.handlers[h].(file := None)]
  {
  }

  /** Closing a handler lets its file go and touches nothing else. */
  lemma CloseLetsGo(s: State, t: nat, h: nat)
    requires Enabled(s, t, CloseHandler(h))
    ensures h < |s.handlers| && Step(s, t, CloseHandler(h)) == s.(handlers := s.handlers[h := s.handlers[h].(file := None)])
  {
  }

  /** How many of its own steps a thread has left until it is idle, at most. */
  function Left(pc: Pc): nat {
    match pc
    case Idle => 0
    case Write(_) => 1
    case ReleaseToWrite(_) => 2
    case Stamp(_, _) => 3
    case Open(_, _) => 4
    case Recheck(_, _) => 5
    case WaitSwitch(_, _) => 6
    case Release => 1
    case Install(_) => 2
    case Clear(_) => 3
    case TearDown(_) => 4
    case WaitSetup(_) => 5
    case Unlink(_, _) => 2
    case Replace(_) => 3
    case Check(_, _) => 4
    case WaitMaintain(_, _) => 5
  }

  /** Where a file operation happens, which may fail. */
  predicate TouchesFiles(pc: Pc) {
    pc.Open? || pc.Install? || pc.Check? || pc.Replace? || pc.Unlink?
  }

  /** In every interleaving a busy thread can go on, unless it waits for a lock whose holder can; and its file operations may fail. */
  lemma NeverStuck(s: State, moves: seq<Move>, t: nat)
    requires Start(s) && RunFrom(s, moves) && t < |After(s, moves).threads| && After(s, moves).threads[t] != Idle
    ensures var v := After(s, moves);
            && (Enabled(v, t, Go) <==> (Waiting(v.threads[t]) ==> v.lock.None?))
            && (!Enabled(v, t, Go) ==> v.lock.Some? && v.lock.value < |v.threads| && Enabled(v, v.lock.value, Go))
            && (Enabled(v, t, Fails) <==> TouchesFiles(v.threads[t]))
  {
    StartHolds(s);
    RunKeeps(s, moves);
    var v := After(s, moves);
    if v.lock.Some? { assert Inside(v.threads[v.lock.value]); }
  }

  /** Every step of a busy thread, failing or not, brings it closer to idle, which is at most six steps away; it moves no other thread. */
  lemma JobsEnd(s: State, t: nat, c: Choice)
    requires Inv(s) && Enabled(s, t, c) && s.threads[t] != Idle
    ensures Left(s.threads[t]) <= 6
    ensures var s' := Step(s, t, c);
            |s'.threads| == |s.threads| && Left(s'.threads[t]) < Left(s.threads[t]) && s'.threads == s.threads[t := s'.threads[t]]
  {
  }

  /** No two paths share a file, and whatever is open was created. */
  ghost predicate Apart(s: State) {
    && (forall p :: p in s.links ==> s.links[p] < s.nextInode)
    && (forall p, q :: p in s.links && q in s.links && s.links[p] == s.links[q] ==> p == q)
    && (forall h :: 0 <= h < |s.handlers| && s.handlers[h].file.Some? ==> s.handlers[h].file.value < s.nextInode)
  }

  lemma OpenKeepsApart(s: State, h: nat, today: int)
    requires Apart(s) && h < |s.handlers|
    ensures Apart(OpenFile(s, h, today))
  {
  }

  lemma LogsKeepApart(s: State, t: nat, c: Choice)
    requires Apart(s) && Enabled(s, t, c) && (s.threads[t].Open? || s.threads[t].Replace? || s.threads[t].Unlink?)
    ensures Apart(Step(s, t, c))
  {
    if s.threads[t].Open? && s.threads[t].h < |s.handlers| {
      OpenKeepsApart(s, s.threads[t].h, s.threads[t].today);
    }
  }

  lemma HandlersKeepApart(s: State, t: nat, c: Choice)
    requires Apart(s) && Enabled(s, t, c) && !s.threads[t].Open? && !s.threads[t].Replace? && !s.threads[t].Unlink?
    ensures Apart(Step(s, t, c))
  {
    var s' := Step(s, t, c);
    assert s'.links == s.links && s'.nextInode == s.nextInode;
    forall h | 0 <= h < |s'.handlers| && s'.handlers[h].file.Some? ensures s'.handlers[h].file.value < s.nextInode {
      assert h < |s.handlers| && s'.handlers[h].file == s.handlers[h].file;
    }
  }

  lemma StepKeepsApart(s: State, t: nat, c: Choice)
    requires Apart(s) && Enabled(s, t, c)
    ensures Apart(Step(s, t, c))
  {
    if s.threads[t].Open? || s.threads[t].Replace? || s.threads[t].Unlink? {
      LogsKeepApart(s, t, c);
    } else {
      HandlersKeepApart(s, t, c);
    }
  }

  /** In every interleaving a new log or archive is a new file. */
  lemma {:induction false} FilesStayApart(s: State, moves: seq<Move>)
    requires Apart(s) && RunFrom(s, moves)
    ensures Apart(After(s, moves))
    decreases |moves|
  {
    if moves != [] {
      StepKeepsApart(s, moves[0].thread, moves[0].choice);
      FilesStayApart(Step(s, moves[0].thread, moves[0].choice), moves[1..]);
    }
  }

  // ---- every handler: exactly when a file is unlinked under it ------------------------------------

  /** This move unlinks the path of the file that `h` holds open. */
  ghost predicate Loses(s: State, m: Move, h: nat) {
    && m.thread < |s.threads| && s.threads[m.thread].Unlink? && m.choice == Go
    && h < |s.handlers| && s.handlers[h].file.Some? && HeldPath(s, h) == Some(s.threads[m.thread].path)
  }

  lemma UnlinkLosesIff(s: State, t: nat, c: Choice, h: nat)
    requires Inv(s) && Enabled(s, t, c) && s.threads[t].Unlink? && h < |s.handlers| && Linked(s, h)
    ensures h < |Step(s, t, c).handlers| && (Linked(Step(s, t, c), h) <==> !Loses(s, Move(t, c), h))
  {
    assert s.lock == Some(t);
  }

  lemma LoserIsReplaced(s: State, m: Move, h: nat)
    requires Inv(s) && Loses(s, m, h)
    ensures s.installed != Some(h)
  {
    assert s.lock == Some(m.thread);
  }

  lemma OthersLoseNothing(s: State, t: nat, c: Choice, h: nat)
    requires Inv(s) && Enabled(s, t, c) && !s.threads[t].Unlink? && h < |s.handlers| && Linked(s, h)
    ensures h < |Step(s, t, c).handlers| && Linked(Step(s, t, c), h)
  {
    var pc := s.threads[t];
    if Inside(pc) {
      assert s.lock == Some(t);
      InsideLosesNothing(s, t, c, h);
    } else if Waiting(pc) {
      assert s.lock.None?;
    } else {
      OutsideLosesNothing(s, t, c, h);
    }
  }

  lemma OutsideLosesNothing(s: State, t: nat, c: Choice, h: nat)
    requires Inv(s) && Enabled(s, t, c) && !Inside(s.threads[t]) && !Waiting(s.threads[t])
    requires h < |s.handlers| && Linked(s, h)
    ensures h < |Step(s, t, c).handlers| && Linked(Step(s, t, c), h)
  {
    var s' := Step(s, t, c);
    assert s.lock != Some(t);
    if s.lock.Some? {
      assert s'.threads[s.lock.value] == s.threads[s.lock.value];
    }
  }

  lemma InsideLosesNothing(s: State, t: nat, c: Choice, h: nat)
    requires Inv(s) && Enabled(s, t, c) && Inside(s.threads[t]) && s.lock == Some(t) && !s.threads[t].Unlink?
    requires h < |s.handlers| && Linked(s, h)
    ensures h < |Step(s, t, c).handlers| && Linked(Step(s, t, c), h)
  {
    var pc := s.threads[t];
    if pc.Recheck? || pc.Open? || pc.Stamp? {
      SwitchLosesNothing(s, t, c, h);
    }
  }

  lemma SwitchLosesNothing(s: State, t: nat, c: Choice, h: nat)
    requires Inv(s) && Enabled(s, t, c) && s.lock == Some(t)
    requires s.threads[t].Recheck? || s.threads[t].Open? || s.threads[t].Stamp?
    requires h < |s.handlers| && Linked(s, h)
    ensures h < |Step(s, t, c).handlers| && Linked(Step(s, t, c), h)
  {
  }

  /** Any step, any handler: a linked open file stays linked if and only if the step does not unlink its path. */
  lemma StepLosesIff(s: State, m: Move, h: nat)
    requires Inv(s) && Enabled(s, m.thread, m.choice) && h < |s.handlers| && Linked(s, h)
    ensures var s' := Step(s, m.thread, m.choice);
            h < |s'.handlers| && (Linked(s', h) <==> !Loses(s, m, h))
  {
    if s.threads[m.thread].Unlink? {
      UnlinkLosesIff(s, m.thread, m.choice, h);
    } else {
      OthersLoseNothing(s, m.thread, m.choice, h);
    }
  }

  /** A handler that a step adds holds nothing. */
  lemma AddedHoldsNothing(s: State, t: nat, c: Choice)
    requires Inv(s) && Enabled(s, t, c)
    ensures var s' := Step(s, t, c);
            |s.handlers| <= |s'.handlers| && forall h :: |s.handlers| <= h < |s'.handlers| ==> s'.handlers[h].file.None?
  {
  }

  ghost predicate AllLinked(s: State) {
    forall h :: 0 <= h < |s.handlers| ==> Linked(s, h)
  }

  ghost predicate LosesAny(s: State, m: Move) {
    exists h: nat :: Loses(s, m, h)
  }

  lemma StepKeepsAllIff(s: State, m: Move)
    requires Inv(s) && Enabled(s, m.thread, m.choice) && AllLinked(s)
    ensures AllLinked(Step(s, m.thread, m.choice)) <==> !LosesAny(s, m)
  {
    var s' := Step(s, m.thread, m.choice);
    AddedHoldsNothing(s, m.thread, m.choice);
    forall h: nat | h < |s.handlers| ensures h < |s'.handlers| && (Linked(s', h) <==> !Loses(s, m, h)) {
      StepLosesIff(s, m, h);
    }
    forall h: nat | |s.handlers| <= h < |s'.handlers| ensures Linked(s', h) {
      assert s'.handlers[h].file.None?;
    }
    if LosesAny(s, m) {
      var h: nat :| Loses(s, m, h);
      assert !Linked(s', h);
    }
  }

  // ---- and over whole runs ------------------------------------------------------------------------

  lemma {:induction false} PrefixRuns(s: State, moves: seq<Move>, n: nat)
    requires RunFrom(s, moves) && n <= |moves|
    ensures RunFrom(s, moves[..n])
    ensures n < |moves| ==>
              && RunFrom(s, moves[..n + 1])
              && Enabled(After(s, moves[..n]), moves[n].thread, moves[n].choice)
              && After(s, moves[..n + 1]) == Step(After(s, moves[..n]), moves[n].thread, moves[n].choice)
    decreases |moves|
  {
    if n == 0 {
      if moves != [] {
        assert moves[..1][1..] == [];
      }
    } else {
      var s1 := Step(s, moves[0].thread, moves[0].choice);
      PrefixRuns(s1, moves[1..], n - 1);
      assert moves[..n][1..] == moves[1..][..n - 1];
      if n < |moves| {
        assert moves[..n + 1][1..] == moves[1..][..n];
      }
    }
  }

  /** The state after the first `n` moves. */
  ghost function Moment(s: State, moves: seq<Move>, n: nat): State
    requires RunFrom(s, moves) && n <= |moves|
  {
    PrefixRuns(s, moves, n);
    After(s, moves[..n])
  }

  lemma FirstMoment(s: State, moves: seq<Move>)
    requires RunFrom(s, moves)
    ensures Moment(s, moves, 0) == s
  {
  }

  lemma MomentFacts(s: State, moves: seq<Move>, n: nat)
    requires Start(s) && RunFrom(s, moves) && n <= |moves|
    ensures Inv(Moment(s, moves, n))
    ensures n < |moves| ==>
              && Enabled(Moment(s, moves, n), moves[n].thread, moves[n].choice)
              && Moment(s, moves, n + 1) == Step(Moment(s, moves, n), moves[n].thread, moves[n].choice)
  {
    PrefixRuns(s, moves, n);
    StartHolds(s);
    RunKeeps(s, moves[..n]);
  }

  lemma {:induction false} NoLossKeepsAll(s: State, moves: seq<Move>, n: nat)
    requires Start(s) && RunFrom(s, moves) && n <= |moves|
    requires forall k :: 0 <= k < n ==> !LosesAny(Moment(s, moves, k), moves[k])
    ensures AllLinked(Moment(s, moves, n))
  {
    if n > 0 {
      NoLossKeepsAll(s, moves, n - 1);
      MomentFacts(s, moves, n - 1);
      StepKeepsAllIff(Moment(s, moves, n - 1), moves[n - 1]);
    }
  }

  /** This move opens a file for `h` while another handler, or none, is installed. */
  ghost predicate OpensReplaced(s: State, m: Move, h: nat) {
    && m.thread < |s.threads| && s.threads[m.thread].Open? && s.threads[m.thread].h == h && m.choice == Go
    && s.installed != Some(h)
  }

  /** One step: a replaced handler with an open file either had it already or is just opening it. */
  lemma ReplacedFileStep(s: State, m: Move, h: nat)
    requires Inv(s) && Enabled(s, m.thread, m.choice)
    requires var s' := Step(s, m.thread, m.choice);
             h < |s'.handlers| && s'.handlers[h].file.Some? && s'.installed != Some(h)
    ensures OpensReplaced(s, m, h)
         || (h < |s.handlers| && s.handlers[h].file == Step(s, m.thread, m.choice).handlers[h].file && s.installed != Some(h))
  {
    var pc := s.threads[m.thread];
    if Inside(pc) { assert s.lock == Some(m.thread); }
  }

  /** Whatever file a replaced handler holds was opened after it was replaced. */
  lemma {:induction false} ReplacedFileWasOpenedLate(s: State, moves: seq<Move>, n: nat, h: nat) returns (k: nat)
    requires Start(s) && RunFrom(s, moves) && n <= |moves|
    requires var v := Moment(s, moves, n); h < |v.handlers| && v.handlers[h].file.Some? && v.installed != Some(h)
    ensures k < n && OpensReplaced(Moment(s, moves, k), moves[k], h)
    ensures var w := Moment(s, moves, k + 1); h < |w.handlers| && w.handlers[h].file == Moment(s, moves, n).handlers[h].file
    decreases n
  {
    FirstMoment(s, moves);
    MomentFacts(s, moves, n - 1);
    var w := Moment(s, moves, n - 1);
    ReplacedFileStep(w, moves[n - 1], h);
    if OpensReplaced(w, moves[n - 1], h) {
      k := n - 1;
    } else {
      k := ReplacedFileWasOpenedLate(s, moves, n - 1, h);
    }
  }

  /** Move `n` unlinks the path of a file that `h` opened, at move `k`, when it was no longer installed, and has held since. */
  ghost predicate StragglerLoses(s: State, moves: seq<Move>, n: nat, h: nat, k: nat)
    requires RunFrom(s, moves)
  {
    && k < n < |moves|
    && OpensReplaced(Moment(s, moves, k), moves[k], h)
    && h < |Moment(s, moves, k + 1).handlers| && h < |Moment(s, moves, n).handlers|
    && Moment(s, moves, k + 1).handlers[h].file == Moment(s, moves, n).handlers[h].file
    && Moment(s, moves, n).installed != Some(h)
    && Loses(Moment(s, moves, n), moves[n], h)
  }

  /** A file is only ever lost by a handler that was not installed when it opened that very file, and is not when it loses it. */
  lemma OnlyStragglersLose(s: State, moves: seq<Move>, n: nat, h: nat) returns (k: nat)
    requires Start(s) && RunFrom(s, moves) && n < |moves| && Loses(Moment(s, moves, n), moves[n], h)
    ensures StragglerLoses(s, moves, n, h, k)
  {
    MomentFacts(s, moves, n);
    LoserIsReplaced(Moment(s, moves, n), moves[n], h);
    k := ReplacedFileWasOpenedLate(s, moves, n, h);
  }

  /**
   * In every interleaving and for every handler, installed or replaced: all open files stay
   * linked throughout if and only if no move unlinks a path under a straggler, that is, under
   * a handler that opened its file after it was replaced.
   */
  lemma AllStayLinkedIff(s: State, moves: seq<Move>)
    requires Start(s) && RunFrom(s, moves)
    ensures (forall n :: 0 <= n <= |moves| ==> AllLinked(Moment(s, moves, n)))
       <==> !(exists n: nat, h: nat, k: nat :: StragglerLoses(s, moves, n, h, k))
  {
    if n: nat, h: nat, k: nat :| StragglerLoses(s, moves, n, h, k) {
      MomentFacts(s, moves, n);
      if AllLinked(Moment(s, moves, n)) {
        StepKeepsAllIff(Moment(s, moves, n), moves[n]);
        assert LosesAny(Moment(s, moves, n), moves[n]);
        assert !AllLinked(Moment(s, moves, n + 1));
      }
    } else {
      forall n: nat | n < |moves| ensures !LosesAny(Moment(s, moves, n), moves[n]) {
        if LosesAny(Moment(s, moves, n), moves[n]) {
          var h: nat :| Loses(Moment(s, moves, n), moves[n], h);
          var k := OnlyStragglersLose(s, moves, n, h);
          assert false;
        }
      }
      forall n | 0 <= n <= |moves| ensures AllLinked(Moment(s, moves, n)) {
        NoLossKeepsAll(s, moves, n);
      }
    }
  }

  // ---- why only the installed handler -----------------------------------------------------------

  ghost predicate Reachable(v: State) {
    exists s, moves :: Start(s) && RunFrom(s, moves) && After(s, moves) == v
  }

  lemma {:induction false} Append(s: State, moves: seq<Move>, m: Move)
    requires RunFrom(s, moves) && Enabled(After(s, moves), m.thread, m.choice)
    ensures RunFrom(s, moves + [m]) && After(s, moves + [m]) == Step(After(s, moves), m.thread, m.choice)
    decreases |moves|
  {
    if moves == [] {
      assert [] + [m] == [m] && [m][1..] == [];
    } else {
      assert (moves + [m])[1..] == moves[1..] + [m];
      Append(Step(s, moves[0].thread, moves[0].choice), moves[1..], m);
    }
  }

  lemma Next(v: State, t: nat, c: Choice)
    requires Reachable(v) && Enabled(v, t, c)
    ensures Reachable(Step(v, t, c))
  {
    var s, moves :| Start(s) && RunFrom(s, moves) && After(s, moves) == v;
    Append(s, moves, Move(t, c));
  }

  /** Thread `t` closes and clears the installed handler, which holds no file. */
  lemma TearsDown(v: State, t: nat, dir: string) returns (w: State)
    requires Reachable(v) && t < |v.threads| && v.threads[t] == Idle && v.lock.None?
    requires v.installed.Some? ==> v.installed.value < |v.handlers| && v.handlers[v.installed.value].file.None?
    ensures Reachable(w) && w == v.(threads := v.threads[t := Install(dir)], lock := Some(t), installed := None)
  {
    var s1 := Step(v, t, Begin(WaitSetup(Some(dir))));
    Next(v, t, Begin(WaitSetup(Some(dir))));
    var s2 := Step(s1, t, Go);
    Next(s1, t, Go);
    assert s2 == v.(threads := v.threads[t := TearDown(Some(dir))], lock := Some(t));
    var s3 := Step(s2, t, Go);
    Next(s2, t, Go);
    assert s3.handlers == v.handlers;
    assert s3 == v.(threads := v.threads[t := Clear(Some(dir))], lock := Some(t));
    w := Step(s3, t, Go);
    Next(s3, t, Go);
  }

  lemma Reinstall(v: State, t: nat, dir: string)
    requires Reachable(v) && t < |v.threads| && v.threads[t] == Idle && v.lock.None?
    requires v.installed.Some? ==> v.installed.value < |v.handlers| && v.handlers[v.installed.value].file.None?
    ensures Reachable(AddHandler(v, dir))
  {
    var s4 := TearsDown(v, t, dir);
    var s5 := Step(s4, t, Go);
    Next(s4, t, Go);
    var s6 := Step(s5, t, Go);
    Next(s5, t, Go);
    assert s6.threads == v.threads;
    assert s6 == AddHandler(v, dir);
  }

  /** With the second handler installed and idle, the first one switches to date 5. */
  lemma StragglerOpens(s: State) returns (v: State)
    requires Reachable(s) && s.lock.None? && s.threads == [WaitSwitch(0, 5), Idle] && s.links == map[]
    requires s.handlers == [Handler("d", None, None), Handler("d", None, None)] && s.installed == Some(1)
    ensures Reachable(v) && v.lock.None? && v.threads == [Write(0), Idle] && v.links == map[Log("d", 5) := s.nextInode]
    ensures v.handlers == [Handler("d", Some(5), Some(s.nextInode)), Handler("d", None, None)] && v.installed == Some(1)
  {
    Next(s, 0, Go);
    var a := Step(s, 0, Go);
    Next(a, 0, Go);
    var b := Step(a, 0, Go);
    assert b == s.(threads := [Open(0, 5), Idle], lock := Some(0));
    v := StragglerStamps(b);
  }

  lemma StragglerStamps(b: State) returns (v: State)
    requires Reachable(b) && b.lock == Some(0) && b.threads == [Open(0, 5), Idle] && b.links == map[]
    requires b.handlers == [Handler("d", None, None), Handler("d", None, None)] && b.installed == Some(1)
    ensures Reachable(v) && v.lock.None? && v.threads == [Write(0), Idle] && v.links == map[Log("d", 5) := b.nextInode]
    ensures v.handlers == [Handler("d", Some(5), Some(b.nextInode)), Handler("d", None, None)] && v.installed == Some(1)
  {
    Next(b, 0, Go);
    var c := Step(b, 0, Go);
    assert c.handlers == [Handler("d", None, Some(b.nextInode)), Handler("d", None, None)];
    Next(c, 0, Go);
    var d := Step(c, 0, Go);
    Next(d, 0, Go);
    v := Step(d, 0, Go);
  }

  lemma PruneTakesIt(v: State) returns (w: State)
    requires Reachable(v) && v.lock.None? && v.threads == [Write(0), Idle]
    requires |v.handlers| == 2 && v.handlers[1].file.None? && v.installed == Some(1)
    ensures Reachable(w) && w.handlers == v.handlers && w.installed == v.installed && w.links == v.links - {Log("d", 5)}
  {
    var p := Log("d", 5);
    Next(v, 1, Begin(WaitMaintain(p, false)));
    var w1 := Step(v, 1, Begin(WaitMaintain(p, false)));
    Next(w1, 1, Go);
    var w2 := Step(w1, 1, Go);
    assert w2 == v.(threads := [Write(0), Check(p, false)], lock := Some(1));
    Next(w2, 1, Go);
    var w3 := Step(w2, 1, Go);
    Next(w3, 1, Go);
    w := Step(w3, 1, Go);
  }

  /**
   * A straggler: an emit that waits for the lock while its handler is replaced opens a file in
   * the replaced handler, and maintenance may then unlink that file under it.
   */
  lemma ReplacedHandlerMayLoseItsFile()
    ensures exists v: State, h: nat :: Reachable(v) && h < |v.handlers| && v.installed != Some(h)
              && v.handlers[h].file.Some? && v.links == map[]
  {
    var s0 := State([Idle, Idle], None, [], None, map[], 0);
    assert RunFrom(s0, []) && After(s0, []) == s0;
    assert Reachable(s0);
    Reinstall(s0, 1, "d");
    var s1 := AddHandler(s0, "d");
    Next(s1, 0, Begin(WaitSwitch(0, 5)));
    var s2 := Step(s1, 0, Begin(WaitSwitch(0, 5)));
    Reinstall(s2, 1, "d");
    var v := StragglerOpens(AddHandler(s2, "d"));
    var w := PruneTakesIt(v);
    assert w.links == map[];
    assert w.handlers[0].file.Some?;
  }
}
