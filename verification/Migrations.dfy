/** The migration runner: one run on any table, then any number of pods sharing an advisory lock. */
module Migrations {
  import opened Model

  // One *.sql file; `sum` is the SHA-256 of its content. The list of files is sorted by name.
  datatype File = File(name: string, sum: string)

  datatype Outcome = Completed | ChecksumMismatch(name: string) | Failure(name: string)

  // schema_migrations, and the SQL bodies that have committed, in commit order.
  datatype Schema = Schema(table: map<string, string>, bodies: seq<string>)

  predicate Distinct(files: seq<File>) {
    forall i, j | 0 <= i < j < |files| :: files[i].name != files[j].name
  }

  function Names(files: seq<File>): seq<string> {
    seq(|files|, i requires 0 <= i < |files| => files[i].name)
  }

  function Record(s: Schema, f: File): Schema {
    Schema(s.table[f.name := f.sum], s.bodies + [f.name])
  }

  // ---------- one run ----------

  /** One file after the other against the records loaded at the start; `broken` names fail in this run. */
  function RunFiles(s: Schema, files: seq<File>, applied: map<string, string>, broken: set<string>): (Schema, Outcome)
    decreases |files|
  {
    if files == [] then (s, Completed)
    else
      var f := files[0];
      if f.name in applied then
        if applied[f.name] != f.sum then (s, ChecksumMismatch(f.name)) else RunFiles(s, files[1..], applied, broken)
      else if f.name in broken || f.name in s.table then (s, Failure(f.name))
      else RunFiles(Record(s, f), files[1..], applied, broken)
  }

  class Connection {
    var schema: Schema

    constructor (schema: Schema)
      ensures this.schema == schema
    {
      this.schema := schema;
    }

    /** The transaction of one migration: body and record commit together or not at all. */
    method ApplyMigration(f: File, broken: set<string>) returns (ok: bool)
      modifies this
      ensures ok <==> f.name !in broken && f.name !in old(schema).table
      ensures schema == if ok then Record(old(schema), f) else old(schema)
    {
      var before := schema;
      if f.name in broken { return false; }
      schema := schema.(bodies := schema.bodies + [f.name]);
      if f.name in schema.table {
        schema := before;
        return false;
      }
      schema := schema.(table := schema.table[f.name := f.sum]);
      ok := true;
    }

    method RunMigrations(files: seq<File>, broken: set<string>) returns (r: Outcome)
      modifies this
      ensures (schema, r) == RunFiles(old(schema), files, old(schema).table, broken)
    {
      var applied := schema.table;
      for i := 0 to |files|
        invariant RunFiles(old(schema), files, applied, broken) == RunFiles(schema, files[i..], applied, broken)
      {
        var f := files[i];
        assert files[i..][1..] == files[i + 1..];
        if f.name in applied {
          if applied[f.name] != f.sum { return ChecksumMismatch(f.name); }
        } else {
          var ok := ApplyMigration(f, broken);
          if !ok { return Failure(f.name); }
        }
      }
      r := Completed;
    }
  }

  predicate Stops(f: File, applied: map<string, string>, broken: set<string>) {
    if f.name in applied then applied[f.name] != f.sum else f.name in broken
  }

  /** How many files a run gets past. */
  function StopIndex(files: seq<File>, applied: map<string, string>, broken: set<string>): (n: nat)
    ensures n <= |files|
    ensures n < |files| ==> Stops(files[n], applied, broken)
    ensures forall i | 0 <= i < n :: !Stops(files[i], applied, broken)
  {
    if files == [] || Stops(files[0], applied, broken) then 0 else 1 + StopIndex(files[1..], applied, broken)
  }

  /** The records and bodies a run over these files adds. */
  function Added(s: Schema, files: seq<File>, applied: map<string, string>): Schema
    decreases |files|
  {
    if files == [] then s
    else Added(if files[0].name in applied then s else Record(s, files[0]), files[1..], applied)
  }

  /** A run stops at the first edited or failing file: the files before it are all recorded, it and everything
      after it are left alone. */
  lemma {:induction false} RunStopsAtFirst(s: Schema, files: seq<File>, applied: map<string, string>,
      broken: set<string>)
    requires Distinct(files) && forall f | f in files :: f.name in s.table <==> f.name in applied
    ensures var n := StopIndex(files, applied, broken); var (s', r) := RunFiles(s, files, applied, broken);
      && s' == Added(s, files[..n], applied)
      && (r.Completed? <==> n == |files|)
      && (r.ChecksumMismatch? <==> n < |files| && files[n].name in applied)
      && (!r.Completed? ==> r.name == files[n].name)
    decreases |files|
  {
    if files == [] {
    } else {
      var f, n := files[0], StopIndex(files, applied, broken);
      assert f in files;
      if !Stops(f, applied, broken) {
        assert files[1..][..n - 1] == files[..n][1..];
        forall g | g in files[1..] ensures g in files && g.name != f.name {
          var i :| 0 <= i < |files[1..]| && files[1..][i] == g;
          assert files[i + 1] == g && files[0].name != files[i + 1].name;
        }
        forall i, j | 0 <= i < j < |files[1..]| ensures files[1..][i].name != files[1..][j].name {
          assert files[i + 1].name != files[j + 1].name;
        }
        RunStopsAtFirst(if f.name in applied then s else Record(s, f), files[1..], applied, broken);
      } else {
        assert files[..0] == [];
      }
    }
  }

  /** What a run adds: exactly the names not applied before, in file order, with the checksums of the files. */
  lemma {:induction false} AddedRecords(s: Schema, files: seq<File>, applied: map<string, string>)
    ensures var a := Added(s, files, applied);
      && s.bodies <= a.bodies
      && (forall k | k in s.table :: k in a.table)
      && (forall k | k in a.table :: k in s.table || exists f :: f in files && f.name == k)
      && (forall k | k in s.table && (forall f | f in files :: f.name != k || k in applied) :: a.table[k] == s.table[k])
      && (forall f | f in files && f.name !in applied :: f.name in a.table && f.name in a.bodies)
    decreases |files|
  {
    if files == [] {
    } else {
      var f, rest := files[0], files[1..];
      var s' := if f.name in applied then s else Record(s, f);
      AddedRecords(s', rest, applied);
      assert files == [f] + rest;
      forall k | k in Added(s, files, applied).table ensures k in s.table || exists g :: g in files && g.name == k {
        if k !in s.table {
          if k in s'.table {
            assert f in files && f.name == k;
          } else {
            var g :| g in rest && g.name == k;
            assert g in files;
          }
        }
      }
      if f.name !in applied { assert s'.bodies[|s.bodies|] == f.name; }
    }
  }

  /** Runs see the loaded records only at the names of the files. */
  lemma {:induction false} RunSeesFileNames(s: Schema, files: seq<File>, a: map<string, string>,
      b: map<string, string>, broken: set<string>)
    requires forall f | f in files :: Lookup(a, f.name) == Lookup(b, f.name)
    ensures RunFiles(s, files, a, broken) == RunFiles(s, files, b, broken)
    decreases |files|
  {
    if files == [] {
    } else {
      var f := files[0];
      assert f in files;
      RunSeesFileNames(s, files[1..], a, b, broken);
      RunSeesFileNames(Record(s, f), files[1..], a, b, broken);
    }
  }

  lemma {:induction false} RunKeepsRecords(s: Schema, files: seq<File>, applied: map<string, string>,
      broken: set<string>, k: string)
    requires k in s.table
    ensures Lookup(RunFiles(s, files, applied, broken).0.table, k) == Some(s.table[k])
    decreases |files|
  {
    if files == [] {
    } else {
      var f := files[0];
      RunKeepsRecords(s, files[1..], applied, broken, k);
      if f.name !in s.table { RunKeepsRecords(Record(s, f), files[1..], applied, broken, k); }
    }
  }

  predicate KnowsTable(s: Schema, files: seq<File>, applied: map<string, string>) {
    forall f | f in files :: Lookup(s.table, f.name) == Lookup(applied, f.name)
  }

  lemma KnowsTail(s: Schema, files: seq<File>, applied: map<string, string>)
    requires Distinct(files) && files != [] && KnowsTable(s, files, applied)
    ensures Distinct(files[1..]) && KnowsTable(s, files[1..], applied) &&
      KnowsTable(Record(s, files[0]), files[1..], applied)
  {
    var rest := files[1..];
    forall i, j | 0 <= i < j < |rest| ensures rest[i].name != rest[j].name {
      assert files[i + 1].name != files[j + 1].name;
    }
    forall g | g in rest ensures g in files && g.name != files[0].name {
      var i :| 0 <= i < |rest| && rest[i] == g;
      assert files[0].name != files[i + 1].name;
    }
  }

  /** Restarting after any failure finishes the job: bodies and records end up as in one undisturbed run. */
  lemma {:induction false} RestartEqualsOneRun(s: Schema, files: seq<File>, applied: map<string, string>,
      broken: set<string>)
    requires Distinct(files) && KnowsTable(s, files, applied)
    ensures var s' := RunFiles(s, files, applied, broken).0;
      RunFiles(s', files, s'.table, {}) == RunFiles(s, files, applied, {})
    decreases |files|
  {
    if files == [] {
    } else {
      var f, rest := files[0], files[1..];
      var s' := RunFiles(s, files, applied, broken).0;
      assert f in files;
      KnowsTail(s, files, applied);
      if Stops(f, applied, broken) {
        RunSeesFileNames(s, files, s.table, applied, {});
      } else if f.name in applied {
        RestartEqualsOneRun(s, rest, applied, broken);
        RunKeepsRecords(s, rest, applied, broken, f.name);
      } else {
        RestartEqualsOneRun(Record(s, f), rest, applied, broken);
        RunKeepsRecords(Record(s, f), rest, applied, broken, f.name);
      }
    }
  }

  // ---------- pods ----------

  // A pod is one process start; a restart is another pod. `applied` is what it loaded, `next` the next file.
  datatype Pod = Locked | Running(applied: map<string, string>, next: nat) | Ended(outcome: Outcome)

  datatype World = World(schema: Schema, holder: Option<nat>, pods: map<nat, Pod>)

  datatype Event =
    | Acquire(p: nat)             // pg_advisory_lock
    | Load(p: nat)                // CREATE TABLE IF NOT EXISTS, SELECT schema_migrations
    | Advance(p: nat, ok: bool)   // one turn of the loop; ok says whether the SQL body succeeds
    | Release(p: nat)             // pg_advisory_unlock, after the run ended
    | Crash(p: nat)               // the process dies; its session and lock go with it
    | LoseLock(p: nat)            // only the lock's session breaks: the pod runs on

  function Turn(w: World, files: seq<File>, p: nat, pod: Pod, ok: bool): World
    requires pod.Running?
  {
    if pod.next >= |files| then w.(pods := w.pods[p := Ended(Completed)])
    else
      var f := files[pod.next];
      if f.name in pod.applied then
        if pod.applied[f.name] != f.sum then w.(pods := w.pods[p := Ended(ChecksumMismatch(f.name))])
        else w.(pods := w.pods[p := pod.(next := pod.next + 1)])
      else if !ok || f.name in w.schema.table then w.(pods := w.pods[p := Ended(Failure(f.name))])
      else World(Record(w.schema, f), w.holder, w.pods[p := pod.(next := pod.next + 1)])
  }

  function Apply(w: World, files: seq<File>, e: Event): World {
    match e
    case Acquire(p) =>
      if w.holder.None? && p !in w.pods then w.(holder := Some(p), pods := w.pods[p := Locked]) else w
    case Load(p) =>
      if p in w.pods && w.pods[p].Locked? then w.(pods := w.pods[p := Running(w.schema.table, 0)]) else w
    case Advance(p, ok) =>
      if p in w.pods && w.pods[p].Running? then Turn(w, files, p, w.pods[p], ok) else w
    case Release(p) =>
      if p in w.pods && w.pods[p].Ended? && w.holder == Some(p) then w.(holder := None) else w
    case Crash(p) =>
      World(w.schema, if w.holder == Some(p) then None else w.holder,
            if p in w.pods then w.pods[p := Ended(Failure(""))] else w.pods)
    case LoseLock(p) => if w.holder == Some(p) then w.(holder := None) else w
  }

  function Run(files: seq<File>, events: seq<Event>): World {
    if events == [] then World(Schema(map[], []), None, map[])
    else Apply(Run(files, events[..|events| - 1]), files, events[|events| - 1])
  }

  /** The table records exactly the first n files, and exactly their bodies have committed, each once, in order. */
  ghost predicate RecordsFirst(s: Schema, files: seq<File>, n: nat) {
    && n <= |files|
    && s.bodies == Names(files[..n])
    && (forall i | 0 <= i < n :: files[i].name in s.table && s.table[files[i].name] == files[i].sum)
    && (forall k | k in s.table :: exists i :: 0 <= i < n && files[i].name == k)
  }

  ghost predicate PodSafe(s: Schema, files: seq<File>, pod: Pod) {
    match pod
    case Running(applied, next) =>
      && next <= |s.bodies|
      && (forall k | k in applied :: k in s.table && applied[k] == s.table[k])
    case Ended(ChecksumMismatch(_)) => false
    case Ended(Completed) => |s.bodies| == |files|
    case _ => true
  }

  ghost predicate Safe(w: World, files: seq<File>) {
    && RecordsFirst(w.schema, files, |w.schema.bodies|)
    && (forall p | p in w.pods :: PodSafe(w.schema, files, w.pods[p]))
  }

  lemma RecordNext(s: Schema, files: seq<File>)
    requires Distinct(files) && RecordsFirst(s, files, |s.bodies|) && |s.bodies| < |files|
    ensures files[|s.bodies|].name !in s.table
    ensures RecordsFirst(Record(s, files[|s.bodies|]), files, |s.bodies| + 1)
  {
    var n := |s.bodies|;
    var f, r := files[n], Record(s, files[n]);
    forall i | 0 <= i < n ensures files[i].name != f.name {}
    assert files[..n + 1][..n] == files[..n];
    assert Names(files[..n + 1]) == Names(files[..n]) + [f.name];
    forall k | k in r.table ensures exists i :: 0 <= i < n + 1 && files[i].name == k {
      if k == f.name { assert files[n].name == k; } else { var i :| 0 <= i < n && files[i].name == k; }
    }
  }

  lemma PodStaysSafe(s: Schema, files: seq<File>, pod: Pod, f: File)
    requires PodSafe(s, files, pod) && f.name !in s.table && |s.bodies| < |files|
    ensures PodSafe(Record(s, f), files, pod)
  {
  }

  lemma TurnIsSafe(w: World, files: seq<File>, p: nat, ok: bool)
    requires Distinct(files) && Safe(w, files) && p in w.pods && w.pods[p].Running?
    ensures Safe(Turn(w, files, p, w.pods[p], ok), files)
  {
    var pod, s := w.pods[p], w.schema;
    var w' := Turn(w, files, p, pod, ok);
    assert PodSafe(s, files, pod);
    if pod.next < |files| {
      var f := files[pod.next];
      if f.name in pod.applied {
        assert f.name in s.table;
        var i :| 0 <= i < |s.bodies| && files[i].name == f.name;
        assert i == pod.next;
      } else if ok && f.name !in s.table {
        assert pod.next == |s.bodies|;
        RecordNext(s, files);
        forall q | q in w.pods ensures PodSafe(w'.schema, files, w.pods[q]) { PodStaysSafe(s, files, w.pods[q], f); }
      }
    }
  }

  /** In every interleaving of any number of pods over one file set, with failures, crashes, restarts and even a
      lost lock: each body commits at most once, the recorded set is always a prefix of the sorted files with
      their checksums, no pod ever sees a mismatch, and a pod that completes leaves every file applied. */
  lemma {:induction false} MigrationsOnceInOrder(files: seq<File>, events: seq<Event>)
    requires Distinct(files)
    ensures Safe(Run(files, events), files)
  {
    if events == [] {
      assert files[..0] == [];
    } else {
      var w, e := Run(files, events[..|events| - 1]), events[|events| - 1];
      MigrationsOnceInOrder(files, events[..|events| - 1]);
      if e.Advance? && e.p in w.pods && w.pods[e.p].Running? { TurnIsSafe(w, files, e.p, e.ok); }
    }
  }

  /** With the lock, only its holder runs, and it knows of every record it did not make itself. */
  ghost predicate Exclusive(w: World, files: seq<File>) {
    forall p | p in w.pods && !w.pods[p].Ended? ::
      && w.holder == Some(p)
      && (w.pods[p].Running? ==> forall k | k in w.schema.table ::
            k in w.pods[p].applied || exists i :: 0 <= i < w.pods[p].next && i < |files| && files[i].name == k)
  }

  lemma ExclusiveTurn(w: World, files: seq<File>, p: nat, ok: bool)
    requires Exclusive(w, files) && p in w.pods && w.pods[p].Running?
    ensures Exclusive(Turn(w, files, p, w.pods[p], ok), files)
  {
    var pod, w' := w.pods[p], Turn(w, files, p, w.pods[p], ok);
    if w'.pods[p].Running? {
      forall k | k in w'.schema.table
        ensures k in w'.pods[p].applied || exists i :: 0 <= i < w'.pods[p].next && i < |files| && files[i].name == k
      {
        if k in w.schema.table {
          if k !in pod.applied { var i :| 0 <= i < pod.next && i < |files| && files[i].name == k; }
        } else {
          assert files[pod.next].name == k;
        }
      }
    }
  }

  lemma {:induction false} LockIsExclusive(files: seq<File>, events: seq<Event>)
    requires forall e | e in events :: !e.LoseLock?
    ensures Exclusive(Run(files, events), files)
  {
    if events == [] {
    } else {
      var w, e := Run(files, events[..|events| - 1]), events[|events| - 1];
      assert e in events;
      LockIsExclusive(files, events[..|events| - 1]);
      if e.Advance? && e.p in w.pods && w.pods[e.p].Running? { ExclusiveTurn(w, files, e.p, e.ok); }
    }
  }

  /** What the lock is for: while it holds, no pod fails on another pod's record. A turn whose SQL succeeds
      moves the run forward. */
  lemma LockPreventsCollisions(files: seq<File>, events: seq<Event>, p: nat)
    requires Distinct(files) && forall e | e in events :: !e.LoseLock?
    requires var w := Run(files, events); p in w.pods && w.pods[p].Running?
    ensures var w := Run(files, events); var to := Apply(w, files, Advance(p, true)).pods[p];
      if w.pods[p].next < |files| then to == w.pods[p].(next := w.pods[p].next + 1) else to == Ended(Completed)
  {
    var w := Run(files, events);
    LockIsExclusive(files, events);
    MigrationsOnceInOrder(files, events);
    var pod := w.pods[p];
    assert PodSafe(w.schema, files, pod);
    if pod.next < |files| {
      var f := files[pod.next];
      if f.name in pod.applied {
        assert f.name in w.schema.table;
        var i :| 0 <= i < |w.schema.bodies| && files[i].name == f.name;
        assert i == pod.next;
      } else {
        forall i | 0 <= i < pod.next ensures files[i].name != f.name {}
      }
    }
  }

  // ---------- what one turn does ----------

  /** The records change exactly when a running pod executes, with success, a file that it did not find recorded and
      that nobody recorded since; then exactly that file is recorded. A failed SQL body never leaves a trace. */
  lemma SchemaChangesIff(w: World, files: seq<File>, e: Event)
    ensures var changes := e.Advance? && e.ok && e.p in w.pods && w.pods[e.p].Running? && w.pods[e.p].next < |files|
              && files[w.pods[e.p].next].name !in w.pods[e.p].applied
              && files[w.pods[e.p].next].name !in w.schema.table;
      && (Apply(w, files, e).schema != w.schema <==> changes)
      && (changes ==>
            var f := files[w.pods[e.p].next];
            Apply(w, files, e).schema == Schema(w.schema.table[f.name := f.sum], w.schema.bodies + [f.name]))
  {
    if e.Advance? && e.p in w.pods && w.pods[e.p].Running? && w.pods[e.p].next < |files| {
      assert |w.schema.bodies + [files[w.pods[e.p].next].name]| == |w.schema.bodies| + 1;
    }
  }

  /** A pod whose SQL body fails ends with that failure exactly when it had to execute the file. */
  lemma FailureEndsThePod(w: World, files: seq<File>, p: nat)
    requires p in w.pods && w.pods[p].Running? && w.pods[p].next < |files|
    ensures var pod, r := w.pods[p], Apply(w, files, Advance(p, false)); var f := files[pod.next];
      && r.schema == w.schema && r.holder == w.holder
      && (r.pods[p] == Ended(Failure(f.name)) <==> f.name !in pod.applied)
      && (r.pods[p] == Ended(ChecksumMismatch(f.name)) <==> f.name in pod.applied && pod.applied[f.name] != f.sum)
      && (r.pods[p] == pod.(next := pod.next + 1) <==> f.name in pod.applied && pod.applied[f.name] == f.sum)
  {
  }

  /** The lock goes to a new pod exactly when it is free, and becomes free exactly when its holder releases it after its
      run, dies, or loses its session. */
  lemma LockMovesIff(w: World, files: seq<File>, e: Event, p: nat)
    ensures var r := Apply(w, files, e);
      && (w.holder != Some(p) && r.holder == Some(p) <==> e == Acquire(p) && w.holder == None && p !in w.pods)
      && (w.holder == Some(p) && r.holder != Some(p) <==>
            && w.holder == Some(p)
            && (e == Crash(p) || e == LoseLock(p) || (e == Release(p) && p in w.pods && w.pods[p].Ended?)))
      && (w.holder == Some(p) && r.holder != Some(p) ==> r.holder == None)
  {
  }

  // ---------- one pod alone ----------

  function ApplyAll(w: World, files: seq<File>, events: seq<Event>): World
    decreases |events|
  {
    if events == [] then w else ApplyAll(Apply(w, files, events[0]), files, events[1..])
  }

  /** The turns of a pod from the given file on, when exactly the bodies of `broken` fail. */
  function Turns(files: seq<File>, p: nat, broken: set<string>, from: nat): seq<Event>
    decreases |files| - from
  {
    if from >= |files| then [Advance(p, true)]
    else [Advance(p, files[from].name !in broken)] + Turns(files, p, broken, from + 1)
  }

  lemma {:induction false} EndedIsIdle(w: World, files: seq<File>, p: nat, broken: set<string>, from: nat)
    requires p in w.pods && w.pods[p].Ended?
    ensures ApplyAll(w, files, Turns(files, p, broken, from)) == w
    decreases |files| - from
  {
    if from >= |files| {
      assert [Advance(p, true)][1..] == [];
    } else {
      EndedIsIdle(w, files, p, broken, from + 1);
      FirstTurn(w, files, p, broken, from);
    }
  }

  lemma FirstTurn(w: World, files: seq<File>, p: nat, broken: set<string>, from: nat)
    requires from < |files|
    ensures ApplyAll(w, files, Turns(files, p, broken, from)) ==
      ApplyAll(Apply(w, files, Advance(p, files[from].name !in broken)), files, Turns(files, p, broken, from + 1))
  {
    assert Turns(files, p, broken, from)[1..] == Turns(files, p, broken, from + 1);
  }

  lemma {:induction false} TurnsRefineRun(w: World, files: seq<File>, p: nat, broken: set<string>)
    requires p in w.pods && w.pods[p].Running? && w.pods[p].next <= |files|
    ensures var pod := w.pods[p];
      var r, (s, outcome) := ApplyAll(w, files, Turns(files, p, broken, pod.next)),
        RunFiles(w.schema, files[pod.next..], pod.applied, broken);
      r.schema == s && r.pods == w.pods[p := Ended(outcome)]
    decreases |files| - w.pods[p].next
  {
    var pod := w.pods[p];
    if pod.next == |files| {
      assert [Advance(p, true)][1..] == [];
    } else {
      var f := files[pod.next];
      var next := Apply(w, files, Advance(p, f.name !in broken));
      FirstTurn(w, files, p, broken, pod.next);
      assert files[pod.next..][1..] == files[pod.next + 1..];
      if next.pods[p].Ended? {
        EndedIsIdle(next, files, p, broken, pod.next + 1);
      } else {
        TurnsRefineRun(next, files, p, broken);
        assert next.pods[p := w.pods[p]] == w.pods;
      }
    }
  }

  /** One pod alone, from any table: its commands are one sequential run of the files, failures included. */
  lemma OnePodIsOneRun(w: World, files: seq<File>, p: nat, broken: set<string>)
    requires w.holder.None? && p !in w.pods
    ensures var r := ApplyAll(w, files, [Acquire(p)] + ([Load(p)] + Turns(files, p, broken, 0)));
      var (s, outcome) := RunFiles(w.schema, files, w.schema.table, broken);
      r.schema == s && p in r.pods && r.pods[p] == Ended(outcome)
  {
    var turns := Turns(files, p, broken, 0);
    var events := [Acquire(p)] + ([Load(p)] + turns);
    assert events[1..] == [Load(p)] + turns && ([Load(p)] + turns)[1..] == turns;
    var loaded := Apply(Apply(w, files, Acquire(p)), files, Load(p));
    TurnsRefineRun(loaded, files, p, broken);
    assert files[0..] == files;
  }

  /** After the holder of the lock dies, a new pod gets the lock and finishes the job. */
  lemma RestartAfterCrash(w: World, files: seq<File>, p: nat, q: nat, broken: set<string>)
    requires w.holder == Some(p) && q !in w.pods
    ensures var r := ApplyAll(w, files, [Crash(p)] + ([Acquire(q)] + ([Load(q)] + Turns(files, q, broken, 0))));
      var (s, outcome) := RunFiles(w.schema, files, w.schema.table, broken);
      r.schema == s && q in r.pods && r.pods[q] == Ended(outcome)
  {
    var rest := [Acquire(q)] + ([Load(q)] + Turns(files, q, broken, 0));
    assert ([Crash(p)] + rest)[1..] == rest;
    OnePodIsOneRun(Apply(w, files, Crash(p)), files, q, broken);
  }

  /** A rerun after completion changes nothing and completes again. */
  lemma {:induction false} RerunIsIdle(s: Schema, files: seq<File>, applied: map<string, string>, broken: set<string>)
    requires forall f | f in files :: f.name in applied && applied[f.name] == f.sum
    ensures RunFiles(s, files, applied, broken) == (s, Completed)
  {
    if files == [] {
    } else {
      assert files[0] in files;
      RerunIsIdle(s, files[1..], applied, broken);
    }
  }
}
