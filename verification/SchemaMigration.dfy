/** The SQLite stores' schema migration (wirestudio/sqlite_store.py:50-79): any number of
    processes, of different releases, migrating one file under a write lock and dying
    anywhere. The database is abstract: `exec` runs one statement, None is a statement that
    raises. BEGIN IMMEDIATE admits one writer; a transaction's draft, with the version bump in
    it, reaches the file at COMMIT or not at all. */
module SchemaMigration {
  import opened Options

  type Exec<!D, !S> = (D, S) -> Option<D>

  datatype Db<D> = Db(content: D, version: nat)

  function RunStatements<D, S>(exec: Exec<D, S>, content: D, statements: seq<S>): Option<D>
  {
    if statements == [] then Some(content)
    else
      match RunStatements(exec, content, statements[..|statements| - 1])
      case None => None
      case Some(c) => exec(c, statements[|statements| - 1])
  }

  /** Whole steps in order. */
  function RunSteps<D, S>(exec: Exec<D, S>, content: D, steps: seq<seq<S>>): Option<D>
  {
    if steps == [] then Some(content)
    else
      match RunSteps(exec, content, steps[..|steps| - 1])
      case None => None
      case Some(c) => RunStatements(exec, c, steps[|steps| - 1])
  }

  // ------------------------------------------------------- one process's loop

  /** Where a process is in `migrate`. From Locked to Bumped it holds the write lock. */
  datatype Phase<D> =
    | Idle
    | Locked
    | AtHead
    | Working(version: nat, done: nat, draft: D)
    | Bumped(version: nat, draft: D)
    | Returned
    | TooNew
    | Failed
    | Dead

  datatype Process<D, S> = Process(steps: seq<seq<S>>, before: Option<nat>, phase: Phase<D>)

  datatype Commit = Commit(process: nat, version: nat)

  datatype State<D, S> = State(db: Db<D>, processes: seq<Process<D, S>>, commits: seq<Commit>)

  predicate Holds<D>(phase: Phase<D>)
  {
    phase.Locked? || phase.AtHead? || phase.Working? || phase.Bumped?
  }

  predicate Over<D>(phase: Phase<D>)
  {
    phase.Returned? || phase.TooNew? || phase.Failed? || phase.Dead?
  }

  /** Proceed is the next statement of the loop; Timeout is BEGIN giving up on the lock; Kill
      ends the process wherever it is. */
  datatype Action = Proceed | Timeout | Kill

  predicate Enabled<D, S>(s: State<D, S>, p: nat, a: Action)
  {
    && p < |s.processes|
    && !Over(s.processes[p].phase)
    && (a == Timeout ==> s.processes[p].phase.Idle?)
    && (a == Proceed && s.processes[p].phase.Idle? ==>
          forall q :: 0 <= q < |s.processes| ==> !Holds(s.processes[q].phase))
  }

  /** The process after its next statement, and what reaches the file. */
  function Statement<D, S>(exec: Exec<D, S>, db: Db<D>, proc: Process<D, S>): (Process<D, S>, Db<D>)
    requires !Over(proc.phase)
    requires proc.phase.Working? ==>
      proc.phase.version < |proc.steps| && proc.phase.done <= |proc.steps[proc.phase.version]|
  {
    match proc.phase
    case Idle => (proc.(phase := Locked), db)
    case Locked =>
      var read := proc.(before := if proc.before.None? then Some(db.version) else proc.before);
      if db.version > |proc.steps| then (read.(phase := TooNew), db)
      else if db.version == |proc.steps| then (read.(phase := AtHead), db)
      else (read.(phase := Working(db.version, 0, db.content)), db)
    case AtHead => (proc.(phase := Returned), db)
    case Working(v, done, draft) =>
      if done == |proc.steps[v]| then (proc.(phase := Bumped(v, draft)), db)
      else
        (match exec(draft, proc.steps[v][done])
         case None => (proc.(phase := Failed), db)
         case Some(c) => (proc.(phase := Working(v, done + 1, c)), db))
    case Bumped(v, draft) => (proc.(phase := Idle), Db(draft, v + 1))
  }

  predicate WellFormed<D, S>(proc: Process<D, S>)
  {
    proc.phase.Working? ==> proc.phase.version < |proc.steps| && proc.phase.done <= |proc.steps[proc.phase.version]|
  }

  function Next<D, S>(exec: Exec<D, S>, s: State<D, S>, p: nat, a: Action): State<D, S>
    requires Enabled(s, p, a) && WellFormed(s.processes[p])
  {
    var proc := s.processes[p];
    match a
    case Kill => s.(processes := s.processes[p := proc.(phase := Dead)])
    case Timeout => s.(processes := s.processes[p := proc.(phase := Failed)])
    case Proceed =>
      var (after, db) := Statement(exec, s.db, proc);
      State(db, s.processes[p := after],
            if proc.phase.Bumped? then s.commits + [Commit(p, proc.phase.version)] else s.commits)
  }

  // -------------------------------------------------------------- the invariant

  /** `all` is the newest release's list; every process's list is a prefix of it. The file
      started at version 0 with content `origin`. */
  ghost predicate ProcessInv<D, S>(exec: Exec<D, S>, all: seq<seq<S>>, db: Db<D>, proc: Process<D, S>)
  {
    && proc.steps <= all
    && (proc.before.Some? ==> proc.before.value <= db.version)
    && match proc.phase
       case Working(v, done, draft) =>
         && proc.before.Some? && v == db.version && v < |proc.steps| && done <= |proc.steps[v]|
         && RunStatements(exec, db.content, proc.steps[v][..done]) == Some(draft)
       case Bumped(v, draft) =>
         && proc.before.Some? && v == db.version && v < |proc.steps|
         && RunStatements(exec, db.content, proc.steps[v]) == Some(draft)
       case AtHead => db.version == |proc.steps| && proc.before.Some?
       case Returned => |proc.steps| <= db.version && proc.before.Some? && proc.before.value <= |proc.steps|
       case TooNew => |proc.steps| < db.version
       case _ => true
  }

  ghost predicate Inv<D, S>(exec: Exec<D, S>, all: seq<seq<S>>, origin: D, s: State<D, S>)
  {
    && s.db.version <= |all|
    && RunSteps(exec, origin, all[..s.db.version]) == Some(s.db.content)
    && (forall p :: 0 <= p < |s.processes| ==> ProcessInv(exec, all, s.db, s.processes[p]))
    && (forall p, q :: 0 <= p < q < |s.processes| ==> !(Holds(s.processes[p].phase) && Holds(s.processes[q].phase)))
    && |s.commits| == s.db.version
    && (forall k :: 0 <= k < |s.commits| ==> s.commits[k].version == k && CommittedInRange(s.processes, s.commits[k]))
  }

  /** Whoever committed a step had read a version no newer than it, and knows the step. */
  predicate CommittedInRange<D, S>(processes: seq<Process<D, S>>, c: Commit)
  {
    && c.process < |processes| && processes[c.process].before.Some?
    && processes[c.process].before.value <= c.version < |processes[c.process].steps|
  }

  ghost predicate Init<D, S>(all: seq<seq<S>>, origin: D, s: State<D, S>)
  {
    && s.db == Db(origin, 0) && s.commits == []
    && forall p :: 0 <= p < |s.processes| ==>
         s.processes[p].steps <= all && s.processes[p].before == None && s.processes[p].phase == Idle
  }

  lemma CommitExtends<D, S>(exec: Exec<D, S>, all: seq<seq<S>>, origin: D, db: Db<D>, proc: Process<D, S>)
    requires ProcessInv(exec, all, db, proc) && proc.phase.Bumped?
    requires db.version <= |all| && RunSteps(exec, origin, all[..db.version]) == Some(db.content)
    ensures db.version < |proc.steps| <= |all| && proc.phase.version == db.version
    ensures proc.before.Some? && proc.before.value <= db.version
    ensures RunSteps(exec, origin, all[..db.version + 1]) == Some(proc.phase.draft)
  {
    assert all[..db.version + 1][..db.version] == all[..db.version];
  }

  /** The stepping process keeps its own invariant. */
  lemma StatementKeeps<D, S>(exec: Exec<D, S>, all: seq<seq<S>>, db: Db<D>, proc: Process<D, S>)
    requires !Over(proc.phase) && ProcessInv(exec, all, db, proc)
    ensures
      var (after, db2) := Statement(exec, db, proc);
      && ProcessInv(exec, all, db2, after)
      && (db2 == db || (proc.phase.Bumped? && db2.version == db.version + 1))
  {
    if proc.phase.Working? {
      var statements, done := proc.steps[proc.phase.version], proc.phase.done;
      if done < |statements| {
        assert statements[..done + 1][..done] == statements[..done];
      } else {
        assert statements[..done] == statements;
      }
    }
  }

  /** A process is not disturbed by another's commit, which comes only when it holds no lock. */
  lemma OthersKeep<D, S>(exec: Exec<D, S>, all: seq<seq<S>>, db: Db<D>, db2: Db<D>, proc: Process<D, S>)
    requires ProcessInv(exec, all, db, proc)
    requires db2 == db || (db2.version > db.version && !Holds(proc.phase))
    ensures ProcessInv(exec, all, db2, proc)
  {
  }

  lemma NextKeepsInv<D, S>(exec: Exec<D, S>, all: seq<seq<S>>, origin: D, s: State<D, S>, p: nat, a: Action)
    requires Inv(exec, all, origin, s) && Enabled(s, p, a)
    ensures WellFormed(s.processes[p]) && Inv(exec, all, origin, Next(exec, s, p, a))
    ensures s.db.version <= Next(exec, s, p, a).db.version
  {
    var proc := s.processes[p];
    var t := Next(exec, s, p, a);
    if a == Proceed {
      StatementKeeps(exec, all, s.db, proc);
      if proc.phase.Bumped? {
        CommitExtends(exec, all, origin, s.db, proc);
      }
    }
    assert WellFormed(proc) && ProcessInv(exec, all, t.db, t.processes[p]);
    hide ProcessInv, RunSteps, RunStatements;
    forall q | 0 <= q < |t.processes| && q != p ensures ProcessInv(exec, all, t.db, t.processes[q]) {
      OthersKeep(exec, all, s.db, t.db, s.processes[q]);
    }
    forall k | 0 <= k < |t.commits| ensures t.commits[k].version == k && CommittedInRange(t.processes, t.commits[k]) {
      if k < |s.commits| {
        assert CommittedInRange(s.processes, s.commits[k]);
      }
    }
  }

  // -------------------------------------------------------------- whole runs

  datatype Move = Move(process: nat, action: Action)

  /** The state a schedule leads to; a move that is not enabled is skipped. */
  ghost function Run<D, S>(exec: Exec<D, S>, all: seq<seq<S>>, origin: D,
                           s: State<D, S>, moves: seq<Move>): (t: State<D, S>)
    requires Inv(exec, all, origin, s)
    ensures Inv(exec, all, origin, t) && s.db.version <= t.db.version
    decreases |moves|
  {
    if moves == [] then s
    else
      var m := moves[|moves| - 1];
      var before := Run(exec, all, origin, s, moves[..|moves| - 1]);
      if Enabled(before, m.process, m.action) then
        NextKeepsInv(exec, all, origin, before, m.process, m.action);
        Next(exec, before, m.process, m.action)
      else before
  }

  /** Safety over every run: the committed file is steps 0 .. version-1 in order, each
      committed exactly once. Who returned has its whole list in the file; who raised is older
      than the file; who found the file newer than its list to begin with committed nothing. */
  lemma EveryRunIsSafe<D, S>(exec: Exec<D, S>, all: seq<seq<S>>, origin: D, s: State<D, S>, moves: seq<Move>)
    requires Init(all, origin, s)
    ensures Inv(exec, all, origin, s)
    ensures
      var t := Run(exec, all, origin, s, moves);
      && t.db.version <= |all| && RunSteps(exec, origin, all[..t.db.version]) == Some(t.db.content)
      && |t.commits| == t.db.version
      && (forall k :: 0 <= k < |t.commits| ==> t.commits[k].version == k)
      && (forall p :: 0 <= p < |t.processes| ==> Settled(t, p))
  {
    var t := Run(exec, all, origin, s, moves);
    forall p | 0 <= p < |t.processes| ensures Settled(t, p) {
      assert ProcessInv(exec, all, t.db, t.processes[p]);
    }
  }

  predicate Settled<D, S>(t: State<D, S>, p: nat)
    requires p < |t.processes|
  {
    var proc := t.processes[p];
    && (proc.phase.Returned? ==> proc.before.Some? && proc.before.value <= |proc.steps| <= t.db.version)
    && (proc.phase.TooNew? ==> |proc.steps| < t.db.version)
    && (proc.before.Some? && proc.before.value > |proc.steps| ==>
          forall k :: 0 <= k < |t.commits| ==> t.commits[k].process != p)
  }

  /** A file from before versioning: its tables are already there, so step 0 does to it what
      step 0 does to a fresh file, and from version 1 on the two cannot be told apart. */
  lemma {:induction false} LegacyFile<D, S>(exec: Exec<D, S>, all: seq<seq<S>>, clean: D, legacy: D, v: nat)
    requires 1 <= v <= |all| && RunStatements(exec, legacy, all[0]) == RunStatements(exec, clean, all[0])
    ensures RunSteps(exec, legacy, all[..v]) == RunSteps(exec, clean, all[..v])
  {
    assert all[..v][..v - 1] == all[..v - 1];
    if v > 1 {
      LegacyFile(exec, all, clean, legacy, v - 1);
    } else {
      assert all[..0] == [];
    }
  }

  // -------------------------------------------------------------- termination

  /** Statements left from the top of the loop, the file being at version v. */
  function LoopCost<S>(steps: seq<seq<S>>, v: nat): nat
    decreases |steps| - v
  {
    if v >= |steps| then 3 else |steps[v]| + 4 + LoopCost(steps, v + 1)
  }

  /** Statements a process can still execute. */
  function Left<D, S>(proc: Process<D, S>, version: nat): nat
    requires WellFormed(proc)
  {
    match proc.phase
    case Idle => LoopCost(proc.steps, version)
    case Locked => LoopCost(proc.steps, version) - 1
    case AtHead => 1
    case Working(v, done, _) => |proc.steps[v]| - done + 2 + LoopCost(proc.steps, v + 1)
    case Bumped(v, _) => 1 + LoopCost(proc.steps, v + 1)
    case _ => 0
  }

  lemma NextSpends<D, S>(exec: Exec<D, S>, all: seq<seq<S>>, origin: D, s: State<D, S>, p: nat, a: Action, q: nat)
    requires Inv(exec, all, origin, s) && Enabled(s, p, a) && q < |s.processes|
    ensures WellFormed(s.processes[p]) && WellFormed(s.processes[q]) && WellFormed(Next(exec, s, p, a).processes[q])
    ensures
      var t := Next(exec, s, p, a);
      Left(t.processes[q], t.db.version) + (if p == q then 1 else 0) <= Left(s.processes[q], s.db.version)
  {
    NextKeepsInv(exec, all, origin, s, p, a);
    var t := Next(exec, s, p, a);
    assert ProcessInv(exec, all, s.db, s.processes[q]) && ProcessInv(exec, all, t.db, t.processes[q]);
    if a == Proceed {
      StatementKeeps(exec, all, s.db, s.processes[p]);
    }
  }

  /** How many of the moves process q made. */
  ghost function MovesMade<D, S>(exec: Exec<D, S>, all: seq<seq<S>>, origin: D,
                                 s: State<D, S>, moves: seq<Move>, q: nat): nat
    requires Inv(exec, all, origin, s)
    decreases |moves|
  {
    if moves == [] then 0
    else
      var m := moves[|moves| - 1];
      var before := Run(exec, all, origin, s, moves[..|moves| - 1]);
      MovesMade(exec, all, origin, s, moves[..|moves| - 1], q)
      + if m.process == q && Enabled(before, q, m.action) then 1 else 0
  }

  /** Every process's loop ends: whatever the schedule, a process executes at most LoopCost
      statements, a bound that only counts the steps between the file's version and its own
      list's length. */
  lemma {:induction false} EveryLoopEnds<D, S>(
    exec: Exec<D, S>, all: seq<seq<S>>, origin: D, s: State<D, S>, moves: seq<Move>, q: nat)
    requires Init(all, origin, s) && Inv(exec, all, origin, s) && q < |s.processes|
    ensures
      var t := Run(exec, all, origin, s, moves);
      && q < |t.processes| && WellFormed(t.processes[q])
      && MovesMade(exec, all, origin, s, moves, q) + Left(t.processes[q], t.db.version)
           <= LoopCost(s.processes[q].steps, 0)
    decreases |moves|
  {
    if moves != [] {
      var m := moves[|moves| - 1];
      var before := Run(exec, all, origin, s, moves[..|moves| - 1]);
      EveryLoopEnds(exec, all, origin, s, moves[..|moves| - 1], q);
      if Enabled(before, m.process, m.action) {
        NextSpends(exec, all, origin, before, m.process, m.action, q);
      }
    }
  }

  /** And nobody waits for ever: while some process is not over, some process can proceed. */
  lemma SomeoneCanProceed<D, S>(s: State<D, S>, p: nat) returns (q: nat)
    requires p < |s.processes| && !Over(s.processes[p].phase)
    ensures Enabled(s, q, Proceed)
  {
    q := p;
    if h: nat :| h < |s.processes| && Holds(s.processes[h].phase) {
      q := h;
    }
  }

  // ------------------------------------------------------------ the loop itself

  class Database<D> {
    var content: D
    var version: nat

    constructor (content: D)
      ensures this.content == content && version == 0
    {
      this.content := content;
      version := 0;
    }
  }

  datatype Outcome = Migrated(before: nat) | NewerRelease | StatementFailed

  /** The loop of `migrate` when no other process commits in between. `before` is the version
      found; the file ends at the list's length with exactly the missing steps applied, or at
      the last step that succeeded, or untouched. */
  method Migrate<D, S>(db: Database<D>, exec: Exec<D, S>, steps: seq<seq<S>>) returns (r: Outcome)
    modifies db
    ensures r == NewerRelease <==> old(db.version) > |steps|
    ensures r == NewerRelease ==> db.version == old(db.version) && db.content == old(db.content)
    ensures r != NewerRelease ==>
      && old(db.version) <= db.version <= |steps|
      && RunSteps(exec, old(db.content), steps[old(db.version)..db.version]) == Some(db.content)
    ensures r.Migrated? ==> r.before == old(db.version) && db.version == |steps|
    ensures r == StatementFailed ==>
      db.version < |steps| && RunStatements(exec, db.content, steps[db.version]) == None
  {
    var before: Option<nat> := None;
    while true
      invariant before.Some? ==> before.value == old(db.version) <= |steps|
      invariant before.None? ==> db.version == old(db.version) && db.content == old(db.content)
      invariant old(db.version) <= |steps| ==>
        && old(db.version) <= db.version <= |steps|
        && RunSteps(exec, old(db.content), steps[old(db.version)..db.version]) == Some(db.content)
      decreases |steps| - db.version
    {
      var version := db.version;
      if before.None? {
        before := Some(version);
      }
      if version > |steps| {
        return NewerRelease;
      }
      if version == |steps| {
        return Migrated(before.value);
      }
      var draft := db.content;
      for k := 0 to |steps[version]|
        invariant RunStatements(exec, db.content, steps[version][..k]) == Some(draft)
        invariant db.version == version
      {
        assert steps[version][..k + 1][..k] == steps[version][..k];
        var result := exec(draft, steps[version][k]);
        if result.None? {
          FailureSticks(exec, db.content, steps[version], k + 1);
          return StatementFailed;
        }
        draft := result.value;
      }
      assert steps[version][..|steps[version]|] == steps[version];
      assert steps[old(db.version)..version + 1][..version - old(db.version)] == steps[old(db.version)..version];
      db.content, db.version := draft, version + 1;
    }
  }

  lemma {:induction false} FailureSticks<D, S>(exec: Exec<D, S>, content: D, statements: seq<S>, k: nat)
    requires k <= |statements| && RunStatements(exec, content, statements[..k]) == None
    ensures RunStatements(exec, content, statements) == None
    decreases |statements| - k
  {
    if k < |statements| {
      assert statements[..k + 1][..k] == statements[..k];
      FailureSticks(exec, content, statements, k + 1);
    } else {
      assert statements[..k] == statements;
    }
  }
}
