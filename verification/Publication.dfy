/** The crash-recoverable publisher: the source's statements on one journal and
    one file tree. Any step may be the last one before a crash, and outside
    changes may fall between any two steps. */
module Publication {
  import opened Common
  import opened Trees
  import opened OwnedTrees
  import opened PublicationRows
  import opened PublicationSteps
  import opened Resolution
  import opened Rehearsal

  datatype Outcome = Done | Refused | Crashed
  datatype Phase = Prepared | Applying | Complete
  datatype Journal = Journal(phase: Phase, rows: seq<Row>)

  /** What an observer of one run sees: checks of a target, and renames that
      touch one, with the journal that is durable at that moment. */
  datatype Event = Looked(row: Row, seen: Tree, closely: bool) | Renamed(row: Row, durable: seq<Row>)

  predicate Permitted(e: Event) {
    && e.Looked? && e.row.target != []
    && if e.closely then CheckRow(e.seen, e.row) else Matches(e.seen, e.row.target, e.row.before)
  }

  predicate ChildName(n: Name) {
    n.Private? || (n.text != "" && n.text != "." && n.text != ".." && '/' !in n.text)
  }

  /** Every byte the node needs is retained, and every name in it is a name. */
  predicate Makeable(node: Node, store: map<Digest, Bytes>) {
    match node
    case File(_, digest) => digest in store
    case Symlink(_) => true
    case Directory(_, entries) => forall n | n in entries :: ChildName(n) && Makeable(entries[n], store)
  }

  ghost predicate RowsMakeable(rows: seq<Row>, store: map<Digest, Bytes>) {
    forall i | 0 <= i < |rows| && rows[i].after.Some? :: Makeable(rows[i].after.value, store)
  }

  function WithMode(t: Tree, mode: Mode): Tree
    requires t.Dir?
  {
    Dir(mode, t.ino, t.entries)
  }

  predicate Deletable(t: Tree) {
    t.Dir? ==> t.entries == map[]
  }

  /** A row has a workspace recorded exactly while it is between intent and cleanup. */
  ghost predicate Tracked(rows: seq<Row>) {
    forall i | 0 <= i < |rows| ::
      && OwnNames(rows[i].target)
      && (rows[i].status.Pending? ==> rows[i].work.None?)
      && (rows[i].status.Installing? ==> rows[i].work.Some? && OwnWork(rows[i]))
  }

  // ---- what the observer may conclude ----

  /** A check that fails is the last thing the run does. */
  ghost predicate Heeded(log: seq<Event>) {
    forall e | 0 <= e < |log| - 1 && log[e].Looked? :: Permitted(log[e])
  }

  predicate AllClear(log: seq<Event>) {
    forall e | 0 <= e < |log| && log[e].Looked? :: Permitted(log[e])
  }

  /** A look at this very row that passed. */
  predicate Authorises(e: Event, row: Row) {
    e.Looked? && e.closely && e.row == row && Permitted(e)
  }

  /** The row whose rename this is is durable, with its intent. */
  predicate Intended(e: Event) {
    e.Renamed? && e.row in e.durable && e.row.status.Installing? && e.row.work.Some?
  }

  /** Every rename follows durable intent, and a check of that very row that passed,
      with at most the first rename of the same swap in between. */
  ghost predicate Guarded(log: seq<Event>) {
    forall e: nat | e < |log| && log[e].Renamed? :: Intended(log[e]) && GuardedAt(log, e)
  }

  predicate GuardedAt(log: seq<Event>, e: nat)
    requires e < |log| && log[e].Renamed?
  {
    || (e >= 1 && Authorises(log[e - 1], log[e].row))
    || (e >= 2 && log[e - 1] == log[e] && Authorises(log[e - 2], log[e].row))
  }

  /** The last event is a check that passed for this row, or the first rename
      of the same swap right after one. */
  predicate ReadyToRename(log: seq<Event>, row: Row, durable: seq<Row>) {
    || (|log| >= 1 && Authorises(log[|log| - 1], row))
    || (|log| >= 2 && log[|log| - 1] == Renamed(row, durable) && Authorises(log[|log| - 2], row))
  }

  lemma EarlierGuards(log: seq<Event>, last: Event)
    requires Guarded(log)
    ensures forall e: nat | e < |log| && log[e].Renamed? :: (log + [last])[e].Renamed? && GuardedAt(log + [last], e)
  {
    forall e: nat | e < |log| && log[e].Renamed?
      ensures (log + [last])[e].Renamed? && GuardedAt(log + [last], e)
    {
      assert GuardedAt(log, e);
    }
  }

  lemma LookKeepsGuard(log: seq<Event>, last: Event)
    requires Guarded(log) && AllClear(log) && last.Looked?
    ensures Guarded(log + [last]) && Heeded(log + [last])
    ensures Permitted(last) ==> AllClear(log + [last])
  {
    EarlierGuards(log, last);
  }

  /** A rename keeps the record exactly when its row's intent is durable and the check
      of that row was the last event but the swap's own first rename. */
  lemma RenameKeepsGuard(log: seq<Event>, last: Event)
    requires Guarded(log) && AllClear(log) && last.Renamed?
    ensures Guarded(log + [last]) && AllClear(log + [last]) <==> Intended(last) && ReadyToRename(log, last.row, last.durable)
  {
    EarlierGuards(log, last);
    assert GuardedAt(log + [last], |log|) <==> ReadyToRename(log, last.row, last.durable);
  }

  /** A tree and a journal from which the publication can go on. */
  ghost predicate GoesOn(first: Tree, t: Tree, rows: seq<Row>, store: map<Digest, Bytes>, k: nat, used: set<Identity>, inodes: nat) {
    Progress(t, rows, k) && RowsMakeable(rows, store) && Framed(first, t, rows, k, used, inodes)
  }

  lemma BehindIsEnded(t: Tree, rows: seq<Row>, k: nat, i: nat)
    requires Progress(t, rows, k) && i < k
    ensures Ended(rows[i])
  {
    assert Settled(t, rows[i]);
  }

  class Publisher {
    /** Nothing outside changes the tree during this life of the publisher. */
    ghost const quiet: bool
    /** The retained bytes: the publication's backups and the plan's staged files. */
    const store: map<Digest, Bytes>
    var tree: Tree
    var saved: Journal
    var rows: seq<Row>
    var phase: Phase
    /** Steps left before a crash; `None` never crashes. */
    var life: Option<nat>
    /** What outside processes do before each coming step. */
    var outside: seq<Option<Tree>>
    var inodes: nat
    ghost var log: seq<Event>
    /** The tree this publisher was given. */
    const origin: Tree
    /** The journal this publisher was given. */
    ghost const plan: seq<Row>
    /** Every workspace a durable journal has named. */
    ghost var used: set<Identity>

    ghost predicate Valid()
      reads this
    {
      && (quiet ==> outside == [])
      && (forall d | d in store :: Sha256(store[d]) == d)
      && Tracked(rows) && Tracked(saved.rows) && SamePlan(plan, rows) && SamePlan(plan, saved.rows)
    }

    constructor (tree: Tree, rows: seq<Row>, store: map<Digest, Bytes>, outside: seq<Option<Tree>>, inodes: nat)
      requires (forall d | d in store :: Sha256(store[d]) == d) && Tracked(rows)
      ensures origin == tree && plan == rows && used == WorksOf(rows)
      ensures Valid() && this.tree == tree && this.store == store && this.outside == outside
      ensures saved == Journal(Prepared, rows) && this.rows == rows && phase == Prepared && log == []
      ensures quiet <==> outside == []
      ensures life == None
    {
      this.quiet := outside == [];
      this.store := store;
      this.tree := tree;
      this.saved := Journal(Prepared, rows);
      this.rows := rows;
      this.phase := Prepared;
      this.life := None;
      this.outside := outside;
      this.inodes := inodes;
      this.log := [];
      this.origin := tree;
      this.plan := rows;
      this.used := WorksOf(rows);
    }

    // ---- single steps ----

    /** Between two steps: outside changes land, and the process may die. */
    method Tick() returns (alive: bool)
      requires Valid()
      modifies this`tree, this`life, this`outside
      ensures Valid()
      ensures quiet ==> tree == old(tree)
      ensures life.None? <==> old(life).None?
      ensures !alive ==> life.Some?
    {
      if outside != [] {
        if outside[0].Some? {
          tree := outside[0].value;
        }
        outside := outside[1..];
      }
      if life == Some(0) {
        return false;
      }
      if life.Some? {
        life := Some(life.value - 1);
      }
      alive := true;
    }

    /** `_save`: the whole journal becomes durable at once. */
    method Save() returns (r: Outcome)
      requires Valid()
      modifies this`tree, this`life, this`outside, this`saved, this`used
      ensures Valid() && !r.Refused?
      ensures quiet ==> tree == old(tree)
      ensures life.None? <==> old(life).None?
      ensures r.Crashed? ==> life.Some? && saved == old(saved)
      ensures r.Done? ==> saved == Journal(phase, rows)
      ensures used == if r.Done? then old(used) + WorksOf(rows) else old(used)
    {
      var alive := Tick();
      if !alive { return Crashed; }
      saved := Journal(phase, rows);
      used := used + WorksOf(rows);
      r := Done;
    }

    /** One row changes, and then the whole journal becomes durable. */
    method SaveRow(i: nat, row: Row) returns (r: Outcome)
      requires Valid() && i < |rows| && Tracked([row]) && SameContract(rows[i], row)
      modifies this`tree, this`life, this`outside, this`rows, this`saved, this`used
      ensures Valid() && !r.Refused? && rows == old(rows)[i := row] && SamePlan(old(rows), rows)
      ensures quiet ==> tree == old(tree)
      ensures life.None? <==> old(life).None?
      ensures r.Crashed? ==> life.Some? && saved == old(saved)
      ensures r.Done? ==> saved == Journal(phase, rows)
      ensures used == if r.Done? then old(used) + WorksOf(rows) else old(used)
    {
      assert [row][0] == row;
      rows := rows[i := row];
      r := Save();
    }

    /** mkdir, exclusive create or symlink. */
    method Create(path: Path, thing: Tree) returns (r: Outcome)
      requires Valid() && path != []
      modifies this`tree, this`life, this`outside
      ensures Valid()
      ensures life.None? <==> old(life).None?
      ensures r.Crashed? ==> life.Some?
      ensures quiet && IsDir(old(tree), Parent(path)) && Lookup(old(tree), path).None? ==> !r.Refused?
      ensures quiet && r.Done? ==> tree == Put(old(tree), path, Some(thing))
      ensures quiet && !r.Done? ==> tree == old(tree)
    {
      var alive := Tick();
      if !alive { return Crashed; }
      if !IsDir(tree, Parent(path)) || Lookup(tree, path).Some? { return Refused; }
      tree := Put(tree, path, Some(thing));
      r := Done;
    }

    method SetMode(path: Path, mode: Mode) returns (r: Outcome)
      requires Valid() && path != []
      modifies this`tree, this`life, this`outside
      ensures Valid()
      ensures life.None? <==> old(life).None?
      ensures r.Crashed? ==> life.Some?
      ensures quiet && IsDir(old(tree), path) ==> !r.Refused?
      ensures quiet && IsDir(old(tree), path) && r.Done? ==>
                tree == Put(old(tree), path, Some(WithMode(Lookup(old(tree), path).value, mode)))
      ensures quiet && !r.Done? ==> tree == old(tree)
    {
      var alive := Tick();
      if !alive { return Crashed; }
      if !IsDir(tree, path) { return Refused; }
      tree := Put(tree, path, Some(WithMode(Lookup(tree, path).value, mode)));
      r := Done;
    }

    /** unlink or rmdir. */
    method Delete(path: Path) returns (r: Outcome)
      requires Valid() && path != []
      modifies this`tree, this`life, this`outside
      ensures Valid()
      ensures life.None? <==> old(life).None?
      ensures r.Crashed? ==> life.Some?
      ensures quiet && Lookup(old(tree), path).Some? && Deletable(Lookup(old(tree), path).value) ==> !r.Refused?
      ensures quiet && r.Done? ==> tree == Put(old(tree), path, None)
      ensures quiet && !r.Done? ==> tree == old(tree)
    {
      var alive := Tick();
      if !alive { return Crashed; }
      if Lookup(tree, path).None? || !Deletable(Lookup(tree, path).value) { return Refused; }
      tree := Put(tree, path, None);
      r := Done;
    }

    /** os.replace between a target and its workspace; the observer sees it. */
    method Rename(source: Path, dest: Path, ghost row: Row) returns (r: Outcome)
      requires Valid() && (source == row.target || dest == row.target)
      modifies this`tree, this`life, this`outside, this`log
      ensures Valid()
      ensures life.None? <==> old(life).None?
      ensures r.Crashed? ==> life.Some?
      ensures quiet && CanMove(old(tree), source, dest) ==> !r.Refused?
      ensures quiet && r.Done? ==> tree == Moved(old(tree), source, dest)
      ensures quiet && !r.Done? ==> tree == old(tree)
      ensures log == if r.Done? then old(log) + [Renamed(row, saved.rows)] else old(log)
    {
      var alive := Tick();
      if !alive { return Crashed; }
      if !CanMove(tree, source, dest) { return Refused; }
      tree := Moved(tree, source, dest);
      log := log + [Renamed(row, saved.rows)];
      r := Done;
    }

    /** One step in which row `i` is looked at. */
    method Look(i: nat, ghost closely: bool) returns (r: Outcome)
      requires Valid() && i < |rows|
      modifies this`tree, this`life, this`outside, this`log
      ensures Valid() && !r.Refused?
      ensures life.None? <==> old(life).None?
      ensures r.Crashed? ==> life.Some?
      ensures quiet ==> tree == old(tree)
      ensures log == if r.Done? then old(log) + [Looked(rows[i], tree, closely)] else old(log)
    {
      var alive := Tick();
      if !alive { return Crashed; }
      log := log + [Looked(rows[i], tree, closely)];
      r := Done;
    }

    // ---- building and deleting private subtrees ----

    /** `_materialize`: create a node entry by entry, its directories unlocked
        until they are complete. */
    method Materialize(path: Path, node: Node) returns (r: Outcome)
      requires Valid() && path != []
      requires quiet ==> IsDir(tree, Parent(path)) && Lookup(tree, path).None?
      modifies this`tree, this`life, this`outside, this`inodes
      ensures Valid()
      ensures life.None? <==> old(life).None?
      ensures r.Crashed? ==> life.Some?
      ensures quiet ==> tree == Put(old(tree), path, Lookup(tree, path))
      ensures quiet && r.Done? ==> State(Lookup(tree, path)) == Some(node)
      ensures quiet && Makeable(node, store) ==> !r.Refused?
      ensures old(inodes) <= inodes
      decreases node, 1
    {
      ghost var start := tree;
      if quiet { PutSame(tree, path); }
      match node
      case File(mode, digest) =>
        if digest !in store { return Refused; }
        r := Create(path, Reg(mode, store[digest]));
        if quiet && r.Done? { PutAt(start, path, Some(Reg(mode, store[digest]))); }
      case Symlink(target) =>
        r := Create(path, Link(target));
        if quiet && r.Done? { PutAt(start, path, Some(Link(target))); }
      case Directory(_, _) =>
        r := MaterializeDirectory(path, node);
    }

    method MaterializeDirectory(path: Path, node: Node) returns (r: Outcome)
      requires Valid() && path != [] && node.Directory?
      requires quiet ==> IsDir(tree, Parent(path)) && Lookup(tree, path).None?
      modifies this`tree, this`life, this`outside, this`inodes
      ensures Valid()
      ensures life.None? <==> old(life).None?
      ensures r.Crashed? ==> life.Some?
      ensures quiet ==> tree == Put(old(tree), path, Lookup(tree, path))
      ensures quiet && r.Done? ==> State(Lookup(tree, path)) == Some(node)
      ensures quiet && Makeable(node, store) ==> !r.Refused?
      ensures old(inodes) <= inodes
      decreases node, 0
    {
      ghost var start := tree;
      if quiet { PutSame(tree, path); }
      r := Create(path, Dir(OWNER_ALL, inodes, map[]));
      if !r.Done? { return; }
      if quiet { PutAt(start, path, Some(Dir(OWNER_ALL, inodes, map[]))); }
      inodes := inodes + 1;
      var entries := node.entries;
      var todo := entries.Keys;
      while todo != {}
        invariant Valid() && todo <= entries.Keys && old(inodes) <= inodes
        invariant life.None? <==> old(life).None?
        invariant quiet ==> IsDir(tree, path) && tree == Put(start, path, Lookup(tree, path))
        invariant quiet ==> PartlyMade(Lookup(tree, path).value, entries, todo)
        decreases todo
      {
        var n :| n in todo;
        if !ChildName(n) { return Refused; }
        ghost var before := tree;
        if quiet { LookupSplit(tree, path, [n]); assert Parent(path + [n]) == path; }
        r := Materialize(path + [n], entries[n]);
        if quiet { NestedStep(start, before, tree, path, n); }
        if !r.Done? { return; }
        todo := todo - {n};
      }
      ghost var made := tree;
      r := SetMode(path, node.mode);
      if quiet && r.Done? {
        var d := Lookup(made, path).value;
        PutTwice(start, path, Some(d), Some(WithMode(d, node.mode)));
        PutAt(start, path, Some(WithMode(d, node.mode)));
        assert PathState(WithMode(d, node.mode)).entries == entries;
      }
    }

    /** The os.walk pass: owner bits on the workspace and every directory in it. */
    method Unlock(path: Path, listed: Tree) returns (r: Outcome)
      requires Valid() && path != [] && listed.Dir?
      requires quiet ==> Lookup(tree, path) == Some(listed)
      modifies this`tree, this`life, this`outside
      ensures Valid()
      ensures life.None? <==> old(life).None?
      ensures r.Crashed? ==> life.Some?
      ensures quiet ==> !r.Refused? && IsDir(tree, path) && Shrunk(Lookup(tree, path).value, listed)
      ensures quiet ==> tree == Put(old(tree), path, Lookup(tree, path))
      decreases listed
    {
      ghost var start := tree;
      if quiet { FoundThroughDirectories(tree, path, Parent(path)); PutSame(tree, path); }
      r := SetMode(path, listed.mode | OWNER_ALL);
      if !r.Done? { return; }
      if quiet {
        PutAt(start, path, Some(WithMode(listed, listed.mode | OWNER_ALL)));
        UnlockStart(listed);
      }
      var todo := listed.entries.Keys;
      while todo != {}
        invariant Valid() && todo <= listed.entries.Keys && r.Done?
        invariant life.None? <==> old(life).None?
        invariant quiet ==> IsDir(tree, path) && tree == Put(start, path, Lookup(tree, path))
        invariant quiet ==> Unlocking(Lookup(tree, path).value, listed, todo)
        decreases todo
      {
        var n :| n in todo;
        if listed.entries[n].Dir? {
          ghost var before := tree;
          if quiet { LookupSplit(tree, path, [n]); }
          r := Unlock(path + [n], listed.entries[n]);
          if quiet {
            NestedStep(start, before, tree, path, n);
            UnlockStep(Lookup(before, path).value, listed, todo, n, Lookup(tree, path + [n]).value);
          }
          if !r.Done? { return; }
        } else if quiet {
          UnlockSkip(Lookup(tree, path).value, listed, todo, n);
        }
        todo := todo - {n};
      }
      if quiet { UnlockDone(Lookup(tree, path).value, listed); }
    }

    /** shutil.rmtree: children first, then the thing itself. */
    method RemoveAll(path: Path, listed: Tree) returns (r: Outcome)
      requires Valid() && path != []
      requires quiet ==> Lookup(tree, path) == Some(listed)
      modifies this`tree, this`life, this`outside
      ensures Valid()
      ensures life.None? <==> old(life).None?
      ensures r.Crashed? ==> life.Some?
      ensures quiet ==> !r.Refused? && (Lookup(tree, path).Some? ==> Shrunk(Lookup(tree, path).value, listed))
      ensures quiet ==> tree == Put(old(tree), path, Lookup(tree, path))
      ensures quiet && r.Done? ==> Lookup(tree, path) == None
      decreases listed
    {
      ghost var start := tree;
      if quiet { FoundThroughDirectories(tree, path, Parent(path)); PutSame(tree, path); }
      if listed.Dir? {
        var todo := listed.entries.Keys;
        while todo != {}
          invariant Valid() && todo <= listed.entries.Keys
          invariant life.None? <==> old(life).None?
          invariant quiet ==> IsDir(tree, path) && tree == Put(start, path, Lookup(tree, path))
          invariant quiet ==> Emptying(Lookup(tree, path).value, listed, todo)
          decreases todo
        {
          var n :| n in todo;
          ghost var before := tree;
          if quiet { LookupSplit(tree, path, [n]); }
          r := RemoveAll(path + [n], listed.entries[n]);
          if quiet { NestedStep(start, before, tree, path, n); }
          if !r.Done? { return; }
          todo := todo - {n};
        }
      }
      ghost var left := Lookup(tree, path);
      r := Delete(path);
      if quiet && r.Done? {
        PutTwice(start, path, left, None);
        PutAt(start, path, None);
      }
    }

    // ---- the row machine ----

    /** The journal is as saved and row `k` is the one in hand. */
    ghost predicate InHand(k: nat)
      reads this
    {
      saved.rows == rows && k < |rows| && Others(tree, rows, k) && RowsMakeable(rows, store) && Framed(origin, tree, saved.rows, k, used, inodes)
    }

    /** What a crash at this point leaves behind is recoverable. */
    ghost predicate Safe(k: nat)
      reads this
    {
      GoesOn(origin, tree, saved.rows, store, k, used, inodes)
    }

    /** It can be resumed, but the next check of row `k` fails. */
    ghost predicate Stuck(k: nat)
      reads this
    {
      Safe(k) && k < |saved.rows| && !Legible(tree, saved.rows[k])
    }

    /** The publication began as it was prepared. */
    ghost predicate FromPlan() {
      AsPlanned(origin, plan)
    }

    /** mkdtemp beside the target: a private name nothing there uses. */
    method MakeWorkspace(i: nat) returns (r: Outcome, ws: Path, ino: nat)
      requires Valid() && i < |rows| && rows[i].target != []
      modifies this`tree, this`life, this`outside, this`inodes
      ensures Valid()
      ensures life.None? <==> old(life).None?
      ensures r.Crashed? ==> life.Some?
      ensures r.Done? ==> ws != [] && Parent(ws) == Parent(rows[i].target) && ws[|rows[i].target| - 1].Private?
      ensures quiet && IsDir(old(tree), Parent(rows[i].target)) ==> !r.Refused?
      ensures quiet && !r.Done? ==> tree == old(tree)
      ensures quiet && r.Done? ==> IsDir(old(tree), Parent(ws))
      ensures quiet && r.Done? ==> tree == Put(old(tree), ws, Some(Dir(OWNER_ALL, ino, map[])))
      ensures r.Done? ==> old(inodes) <= ino < inodes
      ensures !r.Done? ==> inodes == old(inodes)
    {
      var home := Parent(rows[i].target);
      ws, ino := [], inodes;
      var alive := Tick();
      if !alive { return Crashed, ws, ino; }
      if !IsDir(tree, home) { return Refused, ws, ino; }
      var taken := Lookup(tree, home).value.entries.Keys;
      var serial: nat := 0;
      while Private(serial) in taken
        invariant forall s: nat | s < serial :: Private(s) !in taken && Private(s) in Lookup(tree, home).value.entries
        invariant taken <= Lookup(tree, home).value.entries.Keys
        invariant forall s: nat | s >= serial && Private(s) in Lookup(tree, home).value.entries :: Private(s) in taken
        decreases taken
      {
        taken := taken - {Private(serial)};
        serial := serial + 1;
      }
      ws := home + [Private(serial)];
      assert Parent(ws) == home;
      LookupSplit(tree, home, [Private(serial)]);
      tree := Put(tree, ws, Some(Dir(OWNER_ALL, ino, map[])));
      inodes := inodes + 1;
      r := Done;
    }

    /** The desired node, materialised as the workspace's `next`. */
    method StageNext(i: nat, ws: Path, ghost ino: nat, ghost start: Tree) returns (r: Outcome)
      requires Valid() && i < |rows| && ws != []
      requires quiet ==> IsDir(start, Parent(ws)) && tree == Put(start, ws, Some(Dir(OWNER_ALL, ino, map[])))
      modifies this`tree, this`life, this`outside, this`inodes
      ensures Valid()
      ensures life.None? <==> old(life).None?
      ensures r.Crashed? ==> life.Some?
      ensures quiet ==> tree == Put(start, ws, Lookup(tree, ws))
      ensures quiet && RowsMakeable(rows, store) ==> !r.Refused?
      ensures quiet && r.Done? ==> StagedNext(Lookup(tree, ws), ino, rows[i].after)
      ensures quiet ==> Is(Lookup(tree, ws), Identity(ws, ino))
      ensures old(inodes) <= inodes
    {
      ghost var empty := Dir(OWNER_ALL, ino, map[]);
      if quiet { PutAt(start, ws, Some(empty)); }
      if rows[i].after.None? { return Done; }
      ghost var before := tree;
      if quiet {
        LookupSplit(tree, ws, [NEXT]);
        assert Parent(ws + [NEXT]) == ws;
      }
      r := Materialize(ws + [NEXT], rows[i].after.value);
      if quiet { NestedStep(start, before, tree, ws, NEXT); }
    }

    /** The end of `_begin`: the workspace enters the row, and intent becomes durable. */
    method RecordIntent(i: nat, ws: Path, ino: nat) returns (r: Outcome)
      requires Valid() && i < |rows| && rows[i].status.Pending? && rows[i].before != rows[i].after
      requires ws != [] && Parent(ws) == Parent(rows[i].target) && ws[|rows[i].target| - 1].Private?
      requires quiet ==> InHand(i) && Waiting(tree, rows[i]) && HasHome(tree, rows, i)
      requires quiet ==> StagedNext(Lookup(tree, ws), ino, rows[i].after) && ino < inodes
      modifies this`tree, this`life, this`outside, this`rows, this`saved, this`used
      ensures Valid()
      ensures life.None? <==> old(life).None?
      ensures r.Crashed? ==> life.Some?
      ensures SamePlan(old(rows), rows) && |rows| == |old(rows)|
      ensures r.Done? ==> rows[i].status.Installing? && rows == old(rows)[i := rows[i]]
      ensures quiet ==> !r.Refused?
      ensures quiet && r.Done? ==> InHand(i) && InWork(tree, rows[i])
      ensures quiet && r.Crashed? ==> Safe(i)
      ensures r.Done? ==> saved.rows == rows
      ensures old(used) <= used
      ensures quiet && r.Done? ==> HasNode(tree, rows[i].target, rows[i].before)
    {
      var next := Lookup(tree, ws + [NEXT]);
      if quiet { IntentKeeps(i, ws, ino, next); }
      if rows[i].ensure && next.None? { return Refused; }
      r := SaveRow(i, WithIntent(rows[i], ws, ino, next));
    }

    /** The recorded intent leaves the row in work and everything else as it was. */
    lemma IntentKeeps(i: nat, ws: Path, ino: nat, next: Option<Tree>)
      requires InHand(i) && rows[i].status.Pending? && rows[i].before != rows[i].after && Waiting(tree, rows[i])
      requires Beside(rows[i], ws) && next == Lookup(tree, ws + [NEXT])
      requires StagedNext(Lookup(tree, ws), ino, rows[i].after) && ino < inodes
      ensures rows[i].ensure ==> next.Some?
      ensures var row := WithIntent(rows[i], ws, ino, next); var more := rows[i := row];
                                                             && InWork(tree, row) && Others(tree, more, i) && RowsMakeable(more, store)
                                                             && Framed(origin, tree, more, i, used + WorksOf(more), inodes)
    {
      LookupSplit(tree, ws, [NEXT]);
      assert OwnNames(rows[i].target);
      assert rows[i].ensure ==> rows[i].after == Some(EmptyDirectory());
      var row := WithIntent(rows[i], ws, ino, next);
      IntentRecorded(tree, rows, i, row);
      FramedRow(origin, tree, rows, i, row, used, inodes);
    }

    /** `_begin`: stage the desired node privately, then record intent. */
    method Begin(i: nat) returns (r: Outcome)
      requires Valid() && i < |rows| && rows[i].status.Pending? && rows[i].before != rows[i].after
      requires AllClear(log) && Guarded(log)
      requires quiet ==> InHand(i) && Waiting(tree, rows[i]) && HasHome(tree, rows, i)
      modifies this`tree, this`life, this`outside, this`inodes, this`log, this`rows, this`saved, this`used
      ensures Valid() && Guarded(log) && Heeded(log) && (!r.Refused? ==> AllClear(log))
      ensures life.None? <==> old(life).None?
      ensures r.Crashed? ==> life.Some?
      ensures SamePlan(old(rows), rows)
      ensures r.Done? ==> rows[i].status.Installing? && rows == old(rows)[i := rows[i]]
      ensures quiet && r.Done? ==> InHand(i) && InWork(tree, rows[i]) && StandsAt(tree, rows, Staged(i))
      ensures quiet && r.Crashed? ==> Safe(i)
      ensures quiet && r.Refused? ==> Stuck(i) && (FromPlan() ==> !Passes(origin, plan, i))
      ensures old(log) <= log
      ensures r.Done? ==> saved.rows == rows
      ensures old(used) <= used
    {
      r := Look(i, false);
      if r.Done? {
        LookKeepsGuard(old(log), Looked(rows[i], tree, false));
        if Matches(tree, rows[i].target, rows[i].before) {
          r := StageRow(i);
          if quiet && r.Done? { StagedStands(tree, rows, i); }
        } else {
          r := Refused;
          if quiet { TurnRefused(i); }
        }
      }
    }

    /** A target whose turn it is, on a loop of links. */
    lemma TurnRefused(i: nat)
      requires Valid() && InHand(i) && Waiting(tree, rows[i]) && HasHome(tree, rows, i)
      requires Changes(rows[i]) && !Reads(tree, rows[i].target)
      ensures Stuck(i) && (FromPlan() ==> !Passes(origin, plan, i))
    {
      if FromPlan() { PlanUnreadable(origin, tree, plan, rows, i); }
    }

    /** A private workspace holding the desired node, then the intent to use it. */
    method StageRow(i: nat) returns (r: Outcome)
      requires Valid() && i < |rows| && rows[i].status.Pending? && rows[i].before != rows[i].after
      requires quiet ==> InHand(i) && Waiting(tree, rows[i]) && HasHome(tree, rows, i)
      modifies this`tree, this`life, this`outside, this`inodes, this`rows, this`saved, this`used
      ensures Valid()
      ensures life.None? <==> old(life).None?
      ensures r.Crashed? ==> life.Some?
      ensures SamePlan(old(rows), rows)
      ensures r.Done? ==> rows[i].status.Installing? && rows == old(rows)[i := rows[i]]
      ensures quiet ==> !r.Refused?
      ensures quiet && r.Done? ==> InHand(i) && InWork(tree, rows[i])
      ensures quiet && r.Crashed? ==> Safe(i)
      ensures r.Done? ==> saved.rows == rows
      ensures old(used) <= used
      ensures quiet && r.Done? ==> HasNode(tree, rows[i].target, rows[i].before)
    {
      ghost var start, before := tree, inodes;
      if quiet { HomeIsThere(tree, rows, i); }
      var made, ws, ino := MakeWorkspace(i);
      if !made.Done? { return made; }
      r := StageNext(i, ws, ino, start);
      if quiet {
        WorkspaceMade(start, rows, i, ws, Lookup(tree, ws));
        FramedNew(origin, start, Identity(ws, ino), Lookup(tree, ws), rows, i, used, before, inodes);
      }
      if !r.Done? { return; }
      r := RecordIntent(i, ws, ino);
    }

    /** Deletes a verified private workspace, entry by entry. */
    method DeleteWorkspace(i: nat) returns (r: Outcome)
      requires Valid() && i < |rows| && rows[i].work.Some? && rows[i].work.value.path != []
      requires quiet ==> InHand(i) && Ending(tree, rows[i]) && rows[i].work.value.cleaning
      requires quiet ==> SpaceOf(tree, rows[i]).Intact?
      modifies this`tree, this`life, this`outside
      ensures Valid()
      ensures life.None? <==> old(life).None?
      ensures r.Crashed? ==> life.Some?
      ensures quiet ==> !r.Refused? && InHand(i) && Ending(tree, rows[i])
      ensures quiet && r.Done? ==> Lookup(tree, rows[i].work.value.path) == None
    {
      ghost var start := tree;
      var ws := rows[i].work.value.path;
      if !IsDir(tree, ws) { return Refused; }
      r := Unlock(ws, Lookup(tree, ws).value);
      if quiet {
        CleaningShrinks(start, rows, i, Lookup(tree, ws));
        CleaningFrame(origin, start, rows, i, Lookup(tree, ws), used, inodes);
      }
      if !r.Done? { return; }
      if !IsDir(tree, ws) { return Refused; }
      ghost var unlocked := tree;
      r := RemoveAll(ws, Lookup(tree, ws).value);
      if quiet {
        CleaningShrinks(unlocked, rows, i, Lookup(tree, ws));
        CleaningFrame(origin, unlocked, rows, i, Lookup(tree, ws), used, inodes);
      }
    }

    /** Cleanup intent becomes durable; says what is left to delete. */
    method BeginCleaning(i: nat) returns (r: Outcome, left: Space)
      requires Valid() && i < |rows| && rows[i].status.Applied? && rows[i].work.Some?
      requires quiet ==> InHand(i) && Ending(tree, rows[i])
      modifies this`tree, this`life, this`outside, this`rows, this`saved, this`used
      ensures Valid()
      ensures life.None? <==> old(life).None?
      ensures r.Crashed? ==> life.Some?
      ensures rows == old(rows) || rows == old(rows)[i := Cleaning(old(rows)[i])]
      ensures r.Done? ==> rows == old(rows)[i := Cleaning(old(rows)[i])] && !left.Changed?
      ensures r.Done? && left.Intact? ==> rows[i].work.value.path != []
      ensures quiet ==> Tells(r, old(WorkReads(tree, rows[i])))
      ensures quiet && r.Done? ==> InHand(i) && Ending(tree, rows[i]) && left == SpaceOf(tree, rows[i])
      ensures quiet && r.Crashed? ==> Safe(i)
      ensures quiet && r.Refused? ==> Stuck(i)
      ensures old(used) <= used
    {
      left := Changed;
      var alive := Tick();
      if !alive { return Crashed, left; }
      left := Workspace(tree, rows[i]);
      if left.Changed? { return Refused, left; }
      var row := Cleaning(rows[i]);
      if quiet {
        CleaningBegins(tree, rows, i, row);
        FramedRow(origin, tree, rows, i, row, used, inodes);
      }
      r := SaveRow(i, row);
    }

    /** The last step of `_cleanup`: the workspace leaves the row. */
    method Forget(i: nat) returns (r: Outcome)
      requires Valid() && i < |rows| && rows[i].status.Applied? && rows[i].work.Some?
      requires quiet ==> InHand(i) && Ending(tree, rows[i])
      requires quiet ==> Gone(tree, IdentityOf(rows[i].work.value))
      modifies this`tree, this`life, this`outside, this`rows, this`saved, this`used
      ensures Valid()
      ensures life.None? <==> old(life).None?
      ensures r.Crashed? ==> life.Some?
      ensures rows == old(rows)[i := old(rows)[i].(work := None)]
      ensures quiet ==> tree == old(tree)
      ensures quiet ==> !r.Refused?
      ensures quiet && r.Done? ==> InHand(i) && Settled(tree, rows[i])
      ensures quiet && r.Crashed? ==> Safe(i)
      ensures r.Done? ==> saved.rows == rows
      ensures old(used) <= used
    {
      var row := rows[i].(work := None);
      if quiet {
        CleanedSettles(tree, rows, i, row);
        FramedRow(origin, tree, rows, i, row, used, inodes);
      }
      r := SaveRow(i, row);
    }

    /** What is left of a workspace whose deletion has begun goes. */
    method DeleteRest(i: nat, left: Space) returns (r: Outcome)
      requires Valid() && i < |rows| && rows[i].work.Some? && (left.Intact? ==> rows[i].work.value.path != [])
      requires !left.Changed?
      requires quiet ==> InHand(i) && Ending(tree, rows[i]) && rows[i].work.value.cleaning && left == SpaceOf(tree, rows[i])
      modifies this`tree, this`life, this`outside
      ensures Valid()
      ensures life.None? <==> old(life).None?
      ensures r.Crashed? ==> life.Some?
      ensures quiet ==> !r.Refused? && InHand(i) && Ending(tree, rows[i])
      ensures quiet && r.Done? ==> Lookup(tree, rows[i].work.value.path) == None
    {
      if left.Intact? {
        r := DeleteWorkspace(i);
      } else {
        r := Done;
      }
    }

    /** Up to its last step: deletion is durable intent, then fact. */
    method ClearWork(i: nat) returns (r: Outcome)
      requires Valid() && i < |rows| && rows[i].status.Applied? && rows[i].work.Some?
      requires quiet ==> InHand(i) && Ending(tree, rows[i])
      modifies this`tree, this`life, this`outside, this`rows, this`saved, this`used
      ensures Valid() && old(used) <= used
      ensures life.None? <==> old(life).None?
      ensures r.Crashed? ==> life.Some?
      ensures rows == old(rows) || rows == old(rows)[i := Cleaning(old(rows)[i])]
      ensures r.Done? ==> rows == old(rows)[i := Cleaning(old(rows)[i])]
      ensures quiet ==> Tells(r, old(WorkReads(tree, rows[i])))
      ensures quiet && r.Done? ==> InHand(i) && Ending(tree, rows[i]) && Lookup(tree, rows[i].work.value.path) == None
      ensures quiet && r.Crashed? ==> Safe(i)
      ensures quiet && r.Refused? ==> Stuck(i)
    {
      var left;
      r, left := BeginCleaning(i);
      if r.Done? {
        r := DeleteRest(i, left);
      }
    }

    /** `_cleanup` of a row with a workspace: record that deletion has begun,
        delete, forget the workspace. */
    method CleanupWork(i: nat) returns (r: Outcome)
      requires Valid() && i < |rows| && rows[i].status.Applied? && rows[i].work.Some?
      requires quiet ==> InHand(i) && Ending(tree, rows[i])
      modifies this`tree, this`life, this`outside, this`rows, this`saved, this`used
      ensures Valid()
      ensures life.None? <==> old(life).None?
      ensures r.Crashed? ==> life.Some?
      ensures r.Done? ==> rows == old(rows)[i := old(rows)[i].(work := None)]
      ensures quiet ==> Tells(r, old(WorkReads(tree, rows[i])))
      ensures quiet && r.Done? ==> InHand(i) && Settled(tree, rows[i])
      ensures quiet && r.Done? ==> Lookup(tree, old(rows)[i].work.value.path) == None
      ensures quiet && r.Crashed? ==> Safe(i)
      ensures quiet && r.Refused? ==> Stuck(i)
      ensures r.Done? ==> saved.rows == rows
      ensures old(used) <= used
    {
      r := ClearWork(i);
      if r.Done? {
        r := Forget(i);
      }
    }

    /** `_cleanup`: a row without a workspace needs none. */
    method Cleanup(i: nat) returns (r: Outcome)
      requires Valid() && i < |rows| && rows[i].status.Applied?
      requires quiet && rows[i].work.Some? ==> InHand(i) && Ending(tree, rows[i])
      modifies this`tree, this`life, this`outside, this`rows, this`saved, this`used
      ensures Valid()
      ensures life.None? <==> old(life).None?
      ensures r.Crashed? ==> life.Some?
      ensures SamePlan(old(rows), rows)
      ensures old(rows)[i].work.None? ==> r.Done? && tree == old(tree) && saved == old(saved) && rows == old(rows) && used == old(used)
      ensures r.Done? ==> rows == old(rows)[i := old(rows)[i].(work := None)]
      ensures quiet && old(rows)[i].work.Some? ==> Tells(r, old(WorkReads(tree, rows[i])))
      ensures quiet && r.Refused? ==> Stuck(i)
      ensures quiet && old(rows)[i].work.Some? && r.Done? ==> InHand(i) && Settled(tree, rows[i])
      ensures quiet && old(rows)[i].work.Some? && r.Done? ==> Lookup(tree, old(rows)[i].work.value.path) == None
      ensures quiet && old(rows)[i].work.Some? && r.Crashed? ==> Safe(i)
      ensures old(rows)[i].work.Some? && r.Done? ==> saved.rows == rows
      ensures old(used) <= used
    {
      if rows[i].work.None? {
        assert rows[i].(work := None) == rows[i];
        r := Done;
      } else {
        r := CleanupWork(i);
      }
    }

    /** Renaming the original away is possible and leaves the row half-way. */
    lemma OriginalMoves(i: nat)
      requires Valid() && saved.rows == rows && InHand(i) && InWork(tree, rows[i])
      requires NodeView(tree, rows[i]).AtOriginal? && MovesOut(rows[i].before, rows[i].after)
      ensures var previous := rows[i].work.value.path + [PREVIOUS]; var moved := Moved(tree, rows[i].target, previous);
                                                                    && CanMove(tree, rows[i].target, previous)
                                                                    && Others(moved, rows, i) && InWork(moved, rows[i]) && AtWork(moved, rows[i], Displaced)
                                                                    && Framed(origin, moved, rows, i, used, inodes)
    {
      RenameAway(tree, rows, i);
      RenameFrame(origin, tree, rows, i, rows[i].target, rows[i].work.value.path + [PREVIOUS], used, inodes);
    }

    /** The first rename of `_finish`, where the original has to make way. */
    method MoveAway(i: nat) returns (r: Outcome)
      requires saved.rows == rows
      requires Valid() && i < |rows| && rows[i].status.Installing? && MovesOut(rows[i].before, rows[i].after)
      requires AllClear(log) && Guarded(log) && |log| > 0 && Authorises(log[|log| - 1], rows[i])
      requires quiet ==> InHand(i) && InWork(tree, rows[i]) && NodeView(tree, rows[i]).AtOriginal?
      modifies this`tree, this`life, this`outside, this`log
      ensures Valid() && Guarded(log) && AllClear(log)
      ensures life.None? <==> old(life).None?
      ensures r.Crashed? ==> life.Some?
      ensures log == if r.Done? then old(log) + [Renamed(rows[i], saved.rows)] else old(log)
      ensures quiet ==> !r.Refused? && InHand(i) && InWork(tree, rows[i])
      ensures quiet && r.Done? ==> AtWork(tree, rows[i], Displaced)
    {
      if quiet { OriginalMoves(i); }
      r := RenameGuarded(i, rows[i].target, rows[i].work.value.path + [PREVIOUS]);
    }

    /** The last rename of `_finish`, after proving the replacement's content. */
    method MoveIn(i: nat, ghost stage: Stage) returns (r: Outcome)
      requires saved.rows == rows
      requires Valid() && i < |rows| && rows[i].status.Installing? && rows[i].after.Some?
      requires AllClear(log) && Guarded(log)
      requires ReadyToRename(log, rows[i], saved.rows)
      requires quiet ==> InHand(i) && InWork(tree, rows[i])
      requires quiet ==> AtWork(tree, rows[i], stage)
      requires quiet ==> stage.Displaced? || (stage.Ready? && !MovesOut(rows[i].before, rows[i].after))
      modifies this`tree, this`life, this`outside, this`log
      ensures Valid() && Guarded(log) && AllClear(log)
      ensures life.None? <==> old(life).None?
      ensures r.Crashed? ==> life.Some?
      ensures quiet ==> InHand(i) && InWork(tree, rows[i]) && Tells(r, old(NextReads(tree, rows[i])))
      ensures quiet && r.Done? ==> AtWork(tree, rows[i], Swapped)
      ensures quiet && r.Refused? ==> tree == old(tree)
      ensures old(log) <= log
    {
      if quiet { NextMoves(i, stage); }
      var alive := Tick();
      if !alive { return Crashed; }
      if !NextReads(tree, rows[i]) || State(Lookup(tree, rows[i].work.value.path + [NEXT])) != rows[i].after {
        return Refused;
      }
      r := RenameGuarded(i, rows[i].work.value.path + [NEXT], rows[i].target);
    }

    /** Renaming the desired node in is possible and leaves the row at its last stage. */
    lemma NextMoves(i: nat, stage: Stage)
      requires Valid() && saved.rows == rows && InHand(i) && InWork(tree, rows[i]) && rows[i].after.Some?
      requires AtWork(tree, rows[i], stage) && (stage.Displaced? || (stage.Ready? && !MovesOut(rows[i].before, rows[i].after)))
      ensures var next := rows[i].work.value.path + [NEXT]; var moved := Moved(tree, next, rows[i].target);
                                                            && State(Lookup(tree, next)) == rows[i].after && CanMove(tree, next, rows[i].target)
                                                            && Others(moved, rows, i) && InWork(moved, rows[i]) && AtWork(moved, rows[i], Swapped)
                                                            && Framed(origin, moved, rows, i, used, inodes)
    {
      RenameIn(tree, rows, i, stage);
      RenameFrame(origin, tree, rows, i, rows[i].work.value.path + [NEXT], rows[i].target, used, inodes);
    }

    /** A rename that the observer's record allows. */
    method RenameGuarded(i: nat, source: Path, dest: Path) returns (r: Outcome)
      requires Valid() && saved.rows == rows && i < |rows| && rows[i].status.Installing?
      requires source == rows[i].target || dest == rows[i].target
      requires AllClear(log) && Guarded(log) && ReadyToRename(log, rows[i], saved.rows)
      modifies this`tree, this`life, this`outside, this`log
      ensures Valid() && Guarded(log) && AllClear(log)
      ensures log == if r.Done? then old(log) + [Renamed(rows[i], saved.rows)] else old(log)
      ensures life.None? <==> old(life).None?
      ensures r.Crashed? ==> life.Some?
      ensures quiet && CanMove(old(tree), source, dest) ==> !r.Refused?
      ensures quiet && r.Done? ==> tree == Moved(old(tree), source, dest)
      ensures quiet && !r.Done? ==> tree == old(tree)
    {
      RenameKeepsGuard(log, Renamed(rows[i], saved.rows));
      r := Rename(source, dest, rows[i]);
    }

    /** Up to the last rename: the original out of the way, where it has to be. */
    method MakeWay(i: nat, view: View) returns (r: Outcome, ghost stage: Stage)
      requires saved.rows == rows
      requires Valid() && i < |rows| && rows[i].status.Installing?
      requires AllClear(log) && Guarded(log) && |log| > 0 && Authorises(log[|log| - 1], rows[i])
      requires view.AtOriginal? || view.MovedOut?
      requires quiet ==> InHand(i) && InWork(tree, rows[i]) && view == NodeView(tree, rows[i])
      modifies this`tree, this`life, this`outside, this`log
      ensures Valid() && Guarded(log) && AllClear(log) && old(log) <= log
      ensures life.None? <==> old(life).None?
      ensures r.Crashed? ==> life.Some?
      ensures r.Done? ==> ReadyToRename(log, rows[i], saved.rows)
      ensures quiet ==> !r.Refused? && InHand(i) && InWork(tree, rows[i])
      ensures quiet && r.Done? ==> AtWork(tree, rows[i], stage)
      ensures quiet && r.Done? ==> stage.Displaced? || (stage.Ready? && !MovesOut(rows[i].before, rows[i].after))
      ensures view.MovedOut? || !MovesOut(rows[i].before, rows[i].after) ==> r.Done? && tree == old(tree)
    {
      if view.AtOriginal? && MovesOut(rows[i].before, rows[i].after) {
        stage := Displaced;
        r := MoveAway(i);
      } else {
        r, stage := Done, Displaced;
        if quiet { stage := StageOf(tree, rows[i]); }
      }
    }

    /** The renames of `_finish`, from wherever an earlier life left the row. */
    method Swap(i: nat, view: View) returns (r: Outcome)
      requires saved.rows == rows
      requires Valid() && i < |rows| && rows[i].status.Installing?
      requires AllClear(log) && Guarded(log) && |log| > 0 && Authorises(log[|log| - 1], rows[i])
      requires !view.Foreign?
      requires quiet ==> InHand(i) && InWork(tree, rows[i]) && view == NodeView(tree, rows[i]) && Legible(tree, rows[i])
      modifies this`tree, this`life, this`outside, this`log
      ensures Valid() && Guarded(log) && AllClear(log)
      ensures life.None? <==> old(life).None?
      ensures r.Crashed? ==> life.Some?
      ensures quiet ==> InHand(i) && InWork(tree, rows[i])
      ensures quiet && r.Done? ==> NodeView(tree, rows[i]).AtDesired?
      ensures quiet && r.Refused? ==> Stuck(i)
      ensures quiet && FromPlan() && old(StandsAt(tree, rows, Staged(i))) ==> Tells(r, NextStays(origin, plan, i))
      ensures old(log) <= log
    {
      r := Done;
      if !view.AtDesired? {
        ghost var stage;
        r, stage := MakeWay(i, view);
        if r.Done? {
          if quiet { WayMade(i, view, old(tree), stage); }
          r := PutNext(i, stage);
        }
      }
    }

    /** The way made, the desired node can be read unless the first rename itself has put
        it on a loop of links. */
    lemma WayMade(i: nat, view: View, before: Tree, stage: Stage)
      requires Valid() && InHand(i) && InWork(tree, rows[i]) && AtWork(tree, rows[i], stage)
      requires stage.Displaced? || (stage.Ready? && !MovesOut(rows[i].before, rows[i].after))
      requires InWork(before, rows[i]) && Legible(before, rows[i]) && (view.AtOriginal? || view.MovedOut?)
      requires view.MovedOut? || !MovesOut(rows[i].before, rows[i].after) ==> tree == before
      ensures rows[i].after.Some? && !(view.AtOriginal? && TwoRenames(rows[i])) ==> NextReads(tree, rows[i])
      ensures FromPlan() && TwoRenames(rows[i]) ==> (NextReads(tree, rows[i]) || rows[i].after.None? <==> NextStays(origin, plan, i))
    {
      assert SameContract(plan[i], rows[i]);
      assert rows[i].after.Some? ==> NEXT in Lookup(tree, rows[i].work.value.path).value.entries;
      if stage.Displaced? && FromPlan() { PlanNext(origin, tree, plan, rows, i); }
    }

    /** The second rename, unless there is nothing to rename in. */
    method PutNext(i: nat, ghost stage: Stage) returns (r: Outcome)
      requires saved.rows == rows
      requires Valid() && i < |rows| && rows[i].status.Installing?
      requires AllClear(log) && Guarded(log) && ReadyToRename(log, rows[i], saved.rows)
      requires quiet ==> InHand(i) && InWork(tree, rows[i]) && AtWork(tree, rows[i], stage)
      requires quiet ==> stage.Displaced? || (stage.Ready? && !MovesOut(rows[i].before, rows[i].after))
      modifies this`tree, this`life, this`outside, this`log
      ensures Valid() && Guarded(log) && AllClear(log) && old(log) <= log
      ensures life.None? <==> old(life).None?
      ensures r.Crashed? ==> life.Some?
      ensures quiet ==> InHand(i) && InWork(tree, rows[i])
      ensures quiet ==> Tells(r, old(rows[i].after.None? || NextReads(tree, rows[i])))
      ensures quiet && r.Done? ==> NodeView(tree, rows[i]).AtDesired?
      ensures quiet && r.Refused? ==> Stuck(i)
    {
      r := Done;
      ghost var at := stage;
      if rows[i].after.Some? {
        r := MoveIn(i, stage);
        at := Swapped;
      }
      if quiet && r.Done? { SwapIsDesired(tree, rows, i, at); }
      if quiet && r.Refused? { NextUnread(tree, rows[i], stage); }
    }

    /** The row is published: durable before its workspace is touched. */
    method Publish(i: nat) returns (r: Outcome)
      requires Valid() && i < |rows| && rows[i].status.Installing?
      requires quiet ==> InHand(i) && InWork(tree, rows[i]) && NodeView(tree, rows[i]).AtDesired?
      modifies this`tree, this`life, this`outside, this`rows, this`saved, this`used
      ensures Valid()
      ensures life.None? <==> old(life).None?
      ensures r.Crashed? ==> life.Some?
      ensures rows == old(rows)[i := old(rows)[i].(status := Applied)]
      ensures quiet ==> !r.Refused?
      ensures quiet && r.Done? ==> InHand(i) && Ending(tree, rows[i]) && StandsAt(tree, rows, Published(i))
      ensures quiet && r.Crashed? ==> Safe(i)
      ensures r.Done? ==> saved.rows == rows
      ensures old(used) <= used
    {
      var row := rows[i].(status := Applied);
      if quiet {
        DesiredStands(tree, rows[i], row);
        PublishedEnds(tree, rows, i, row);
        FramedRow(origin, tree, rows, i, row, used, inodes);
      }
      r := SaveRow(i, row);
    }

    /** The check of `_finish` and the renames it authorises. */
    method CheckedSwap(i: nat) returns (r: Outcome)
      requires saved.rows == rows
      requires Valid() && i < |rows| && rows[i].status.Installing?
      requires AllClear(log) && Guarded(log)
      requires quiet ==> InHand(i) && InWork(tree, rows[i])
      modifies this`tree, this`life, this`outside, this`log
      ensures Valid() && Guarded(log) && Heeded(log) && (!r.Refused? ==> AllClear(log))
      ensures life.None? <==> old(life).None?
      ensures r.Crashed? ==> life.Some?
      ensures quiet ==> InHand(i) && InWork(tree, rows[i])
      ensures quiet && r.Done? ==> NodeView(tree, rows[i]).AtDesired?
      ensures quiet && r.Refused? ==> Stuck(i)
      ensures quiet && FromPlan() && old(StandsAt(tree, rows, Staged(i))) ==> Tells(r, Swaps(origin, plan, i))
      ensures old(log) <= log
    {
      r := Look(i, true);
      if r.Done? {
        LookKeepsGuard(old(log), Looked(rows[i], tree, true));
        if quiet {
          InWorkChecks(tree, rows[i]);
          StagedLegible(i);
        }
        var view := FinishView(tree, rows[i]);
        if !Workspace(tree, rows[i]).Intact? || view.Foreign? {
          r := Refused;
        } else {
          FinishIsStricter(tree, rows[i]);
          r := Swap(i, view);
        }
      }
    }

    lemma StagedLegible(i: nat)
      requires Valid() && InHand(i)
      ensures FromPlan() && StandsAt(tree, rows, Staged(i)) ==>
                Changes(plan[i]) && (Legible(tree, rows[i]) <==> LegibleAt(origin, plan, Staged(i), i))
    {
      if FromPlan() && StandsAt(tree, rows, Staged(i)) { PlanRowLegible(origin, tree, plan, rows, Staged(i)); }
    }

    /** The end of `_finish`: mark the row applied, clean up. */
    method Close(i: nat) returns (r: Outcome)
      requires Valid() && i < |rows| && rows[i].status.Installing?
      requires quiet ==> InHand(i) && InWork(tree, rows[i]) && NodeView(tree, rows[i]).AtDesired?
      modifies this`tree, this`life, this`outside, this`rows, this`saved, this`used
      ensures Valid() && old(used) <= used
      ensures life.None? <==> old(life).None?
      ensures r.Crashed? ==> life.Some?
      ensures r.Done? ==> saved.rows == rows && rows == old(rows)[i := old(rows)[i].(status := Applied, work := None)]
      ensures quiet && r.Done? ==> InHand(i) && Settled(tree, rows[i])
      ensures quiet && r.Done? ==> Lookup(tree, old(rows)[i].work.value.path) == None
      ensures quiet && r.Crashed? ==> Safe(i)
      ensures quiet && r.Refused? ==> Stuck(i)
      ensures quiet && FromPlan() ==> Tells(r, Cleans(origin, plan, i))
    {
      r := Publish(i);
      if r.Done? {
        if quiet && FromPlan() { PlanCleans(origin, tree, plan, rows, i); }
        r := CleanupWork(i);
      }
    }

    /** `_finish`: swap, mark the row applied, clean up. */
    method Finish(i: nat) returns (r: Outcome)
      requires saved.rows == rows
      requires Valid() && i < |rows| && rows[i].status.Installing?
      requires AllClear(log) && Guarded(log)
      requires quiet ==> InHand(i) && InWork(tree, rows[i])
      modifies this`tree, this`life, this`outside, this`log, this`rows, this`saved, this`used
      ensures Valid() && Guarded(log) && Heeded(log) && (!r.Refused? ==> AllClear(log))
      ensures life.None? <==> old(life).None?
      ensures r.Crashed? ==> life.Some?
      ensures r.Done? ==> rows == old(rows)[i := old(rows)[i].(status := Applied, work := None)]
      ensures quiet && r.Done? ==> InHand(i) && Settled(tree, rows[i])
      ensures quiet && r.Done? ==> Lookup(tree, old(rows)[i].work.value.path) == None
      ensures quiet && r.Crashed? ==> Safe(i)
      ensures quiet && r.Refused? ==> Stuck(i)
      ensures quiet && FromPlan() && old(StandsAt(tree, rows, Staged(i))) ==> Tells(r, Passes(origin, plan, i))
      ensures old(log) <= log
      ensures r.Done? ==> saved.rows == rows
      ensures old(used) <= used
    {
      r := CheckedSwap(i);
      if r.Done? {
        r := Close(i);
      }
    }

    // ---- a whole run ----

    /** The journal is as saved, and the rows before `k` are done. */
    ghost predicate OnCourse(k: nat)
      reads this
    {
      saved.rows == rows && Safe(k)
    }

    /** What a crash leaves behind can be resumed. */
    ghost predicate Resumable()
      reads this
    {
      exists k :: Safe(k)
    }

    /** One row of it. */
    method CheckOne(i: nat, ghost k: nat) returns (r: Outcome)
      requires Valid() && AllClear(log) && Guarded(log) && i < |rows|
      requires quiet ==> OnCourse(k)
      modifies this`tree, this`life, this`outside, this`log
      ensures Valid() && Guarded(log) && Heeded(log) && (!r.Refused? ==> AllClear(log))
      ensures life.None? <==> old(life).None?
      ensures r.Crashed? ==> life.Some?
      ensures quiet ==> tree == old(tree)
      ensures quiet && r.Done? ==> Legible(tree, rows[i])
      ensures quiet && r.Refused? ==> !Legible(tree, rows[i])
      ensures BeginsWithLooks(old(log), log, [rows[i]]) && |log| <= |old(log)| + 1
      ensures r.Done? ==> log == old(log) + [Looked(rows[i], tree, true)]
    {
      ghost var before := log;
      r := Look(i, true);
      if r.Done? {
        LookKeepsGuard(before, Looked(rows[i], tree, true));
        if quiet { AllRowsCheck(tree, rows, k, i); }
        if !CheckRow(tree, rows[i]) { r := Refused; }
      }
    }

    /** What the loop over the rows keeps, up to row `i`. */
    ghost predicate Checking(before: seq<Event>, i: nat, r: Outcome)
      reads this
    {
      && i <= |rows| && Valid() && Guarded(log) && Heeded(log) && (!r.Refused? ==> AllClear(log))
      && BeginsWithLooks(before, log, rows)
      && (r.Done? ==> |log| == |before| + i) && (!r.Done? ==> i < |rows| && |log| <= |before| + i + 1)
      && (quiet && r.Done? ==> PassedUpTo(tree, rows, i)) && (quiet && r.Refused? ==> !Legible(tree, rows[i]))
    }

    method CheckNext(i: nat, ghost k: nat, ghost before: seq<Event>) returns (r: Outcome)
      requires Checking(before, i, Done) && i < |rows|
      requires quiet ==> OnCourse(k)
      modifies this`tree, this`life, this`outside, this`log
      ensures Checking(before, if r.Done? then i + 1 else i, r)
      ensures life.None? <==> old(life).None?
      ensures r.Crashed? ==> life.Some?
      ensures quiet ==> tree == old(tree)
    {
      r := CheckOne(i, k);
      LooksMore(before, old(log), log, rows, i);
    }

    /** `_check_rows`, one row a step. */
    method CheckRows(ghost k: nat) returns (r: Outcome)
      requires Valid() && AllClear(log) && Guarded(log)
      requires quiet ==> OnCourse(k)
      modifies this`tree, this`life, this`outside, this`log
      ensures Valid() && Guarded(log) && Heeded(log) && (!r.Refused? ==> AllClear(log))
      ensures life.None? <==> old(life).None?
      ensures r.Crashed? ==> life.Some?
      ensures quiet ==> tree == old(tree)
      ensures quiet ==> Tells(r, AllLegible(tree, rows))
      ensures r.Done? ==> LooksAt(old(log), log, rows)
      ensures BeginsWithLooks(old(log), log, rows)
    {
      r := Done;
      var i := 0;
      while i < |rows| && r.Done?
        invariant 0 <= i <= |rows| && Checking(old(log), i, r)
        invariant life.None? <==> old(life).None?
        invariant r.Crashed? ==> life.Some?
        invariant quiet ==> tree == old(tree)
        decreases |rows| - i, r.Done?
      {
        r := CheckNext(i, k, old(log));
        if r.Done? {
          i := i + 1;
        }
      }
      LooksAll(old(log), log, rows);
    }

    /** A row that changes nothing is only marked. */
    method MarkUnchanged(i: nat) returns (r: Outcome)
      requires Valid() && i < |rows| && rows[i].status.Pending? && rows[i].before == rows[i].after
      requires quiet ==> InHand(i) && Waiting(tree, rows[i])
      modifies this`tree, this`life, this`outside, this`rows, this`saved, this`used
      ensures Valid()
      ensures life.None? <==> old(life).None?
      ensures r.Crashed? ==> life.Some?
      ensures rows == old(rows)[i := old(rows)[i].(status := Applied)]
      ensures quiet ==> !r.Refused?
      ensures quiet && r.Done? ==> InHand(i) && Settled(tree, rows[i])
      ensures quiet && r.Crashed? ==> Safe(i)
      ensures r.Done? ==> saved.rows == rows
      ensures old(used) <= used
    {
      var row := rows[i].(status := Applied);
      if quiet {
        UnchangedSettles(tree, rows, i, row);
        FramedRow(origin, tree, rows, i, row, used, inodes);
      }
      r := SaveRow(i, row);
    }

    /** A pending row from its first check to its settled end. */
    method StartRow(i: nat) returns (r: Outcome)
      requires Valid() && i < |rows| && rows[i].status.Pending? && AllClear(log) && Guarded(log)
      requires quiet ==> InHand(i) && Waiting(tree, rows[i])
      requires quiet ==> rows[i].before != rows[i].after ==> HasHome(tree, rows, i)
      modifies this`tree, this`life, this`outside, this`inodes, this`log, this`rows, this`saved, this`used
      ensures Valid() && Guarded(log) && Heeded(log) && (!r.Refused? ==> AllClear(log))
      ensures life.None? <==> old(life).None?
      ensures r.Crashed? ==> life.Some?
      ensures quiet && r.Done? ==> InHand(i) && Settled(tree, rows[i])
      ensures quiet && r.Crashed? ==> Safe(i)
      ensures quiet && r.Refused? ==> Stuck(i)
      ensures quiet && FromPlan() ==> Tells(r, Passes(origin, plan, i))
      ensures old(log) <= log
      ensures r.Done? ==> rows == old(rows)[i := rows[i]] && Ended(rows[i])
      ensures r.Done? ==> saved.rows == rows
      ensures old(used) <= used
    {
      assert SameContract(plan[i], rows[i]);
      if rows[i].before == rows[i].after {
        r := MarkUnchanged(i);
      } else {
        r := Begin(i);
        if r.Done? {
          r := Finish(i);
        }
      }
    }

    /** A row from wherever it stands to its end; a row at its end is left alone. */
    method TakeRow(i: nat) returns (r: Outcome)
      requires saved.rows == rows
      requires Valid() && i < |rows| && AllClear(log) && Guarded(log)
      requires quiet ==> Ended(rows[i]) || OnCourse(i)
      modifies this`tree, this`life, this`outside, this`inodes, this`log, this`rows, this`saved, this`used
      ensures Valid() && Guarded(log) && Heeded(log) && (!r.Refused? ==> AllClear(log))
      ensures life.None? <==> old(life).None?
      ensures r.Crashed? ==> life.Some?
      ensures old(log) <= log
      ensures r.Done? ==> rows == old(rows)[i := rows[i]] && Ended(rows[i])
      ensures Ended(old(rows)[i]) ==> r.Done? && tree == old(tree) && rows == old(rows) && saved == old(saved)
      ensures Ended(old(rows)[i]) ==> used == old(used) && inodes == old(inodes)
      ensures quiet && r.Refused? ==> Stuck(i)
      ensures quiet && FromPlan() && old(rows)[i].status.Pending? ==> Tells(r, Passes(origin, plan, i))
      ensures quiet && !Ended(old(rows)[i]) && r.Done? ==> InHand(i) && Settled(tree, rows[i])
      ensures quiet && !Ended(old(rows)[i]) && r.Crashed? ==> Safe(i)
      ensures r.Done? ==> saved.rows == rows
      ensures old(used) <= used
    {
      match rows[i].status {
        case Pending => r := StartRow(i);
        case Installing => r := Finish(i);
        case Applied => r := Cleanup(i);
      }
    }

    /** One turn of the loop of `_apply`. */
    method ApplyRow(i: nat, ghost k: nat) returns (r: Outcome, ghost next: nat)
      requires saved.rows == rows
      requires Valid() && i < |rows| && AllClear(log) && Guarded(log)
      requires quiet ==> i <= k && OnCourse(k)
      modifies this`tree, this`life, this`outside, this`inodes, this`log, this`rows, this`saved, this`used
      ensures Valid() && Guarded(log) && Heeded(log) && (!r.Refused? ==> AllClear(log))
      ensures life.None? <==> old(life).None?
      ensures r.Crashed? ==> life.Some?
      ensures old(log) <= log
      ensures r.Done? ==> rows == old(rows)[i := rows[i]] && Ended(rows[i])
      ensures quiet && r.Refused? ==> Stuck(i)
      ensures quiet && FromPlan() && old(rows)[i].status.Pending? ==> Tells(r, Passes(origin, plan, i))
      ensures quiet && r.Done? ==> i < next && OnCourse(next) && (i == k ==> next == i + 1)
      ensures quiet && r.Crashed? ==> Resumable()
      ensures r.Done? ==> saved.rows == rows
      ensures old(used) <= used
    {
      next := k;
      if quiet && i < k { BehindIsEnded(tree, rows, k, i); }
      r := TakeRow(i);
      if quiet && k == i && r.Done? {
        GoOn(i);
        next := i + 1;
      }
    }

    lemma GoOn(i: nat)
      requires InHand(i) && Settled(tree, rows[i])
      ensures OnCourse(i + 1)
    {
      Advance(tree, rows, i);
      FramedAdvance(origin, tree, rows, i, used, inodes);
    }

    /** What the loop over the rows keeps, up to row `i`. */
    ghost predicate Going(i: nat, k: nat, r: Outcome)
      reads this
    {
      && i <= |rows| && Valid() && Guarded(log) && Heeded(log) && (!r.Refused? ==> AllClear(log))
      && (r.Done? ==> saved.rows == rows && forall e | 0 <= e < i :: Ended(rows[e]))
      && (quiet && r.Done? ==> i <= k && OnCourse(k))
      && (quiet && !r.Done? ==> Resumable()) && (quiet && r.Refused? ==> !AllLegible(tree, saved.rows))
    }

    /** The rows so far passed, and a refused one does not. */
    ghost predicate Told(i: nat, r: Outcome) {
      (r.Done? ==> forall j | 0 <= j < i && j < |plan| :: Passes(origin, plan, j)) && (r.Refused? ==> !AllPass(origin, plan))
    }

    /** From a start where nothing had begun, what has been learned on the way too. */
    ghost predicate Learning(i: nat, k: nat, r: Outcome, fromStart: bool)
      reads this
    {
      Going(i, k, r) && (fromStart ==> quiet && FromPlan() && Told(i, r) && (r.Done? ==> Unbegun(rows, i)))
    }

    method ApplyNext(i: nat, ghost k: nat, ghost fromStart: bool) returns (r: Outcome, ghost next: nat)
      requires Learning(i, k, Done, fromStart) && i < |rows|
      modifies this`tree, this`life, this`outside, this`inodes, this`log, this`rows, this`saved, this`used
      ensures Learning(if r.Done? then i + 1 else i, next, r, fromStart)
      ensures quiet && i == k && r.Done? ==> next == i + 1
      ensures life.None? <==> old(life).None?
      ensures r.Crashed? ==> life.Some?
      ensures old(log) <= log && old(used) <= used && |rows| == |old(rows)|
    {
      r, next := ApplyRow(i, k);
      assert |rows| == |plan| == |old(rows)|;
      if fromStart { TellsMore(i, r); }
    }

    lemma TellsMore(i: nat, r: Outcome)
      requires i < |plan| && Told(i, Done) && Tells(r, Passes(origin, plan, i))
      ensures Told(if r.Done? then i + 1 else i, r)
    {
    }

    /** The loop of `_apply`: each row in turn, as far as it goes. */
    method ApplyRows(ghost first: nat) returns (r: Outcome)
      requires saved.rows == rows
      requires Valid() && AllClear(log) && Guarded(log)
      requires quiet ==> OnCourse(first)
      modifies this`tree, this`life, this`outside, this`inodes, this`log, this`rows, this`saved, this`used
      ensures Valid() && Guarded(log) && Heeded(log) && (!r.Refused? ==> AllClear(log))
      ensures life.None? <==> old(life).None?
      ensures r.Crashed? ==> life.Some?
      ensures quiet && r.Done? ==> OnCourse(|rows|)
      ensures quiet && !r.Done? ==> Resumable()
      ensures quiet && r.Refused? ==> !AllLegible(tree, saved.rows)
      ensures quiet && FromPlan() && Unbegun(old(rows), 0) ==> Tells(r, AllPass(origin, plan))
      ensures old(log) <= log
      ensures r.Done? ==> AllEnded(rows)
      ensures r.Done? ==> saved.rows == rows
      ensures old(used) <= used
    {
      ghost var k := first;
      ghost var fromStart := quiet && FromPlan() && Unbegun(rows, 0);
      r := Done;
      var i := 0;
      while i < |rows| && r.Done?
        invariant 0 <= i && Learning(i, k, r, fromStart)
        invariant life.None? <==> old(life).None?
        invariant r.Crashed? ==> life.Some?
        invariant old(log) <= log && old(used) <= used
        decreases |rows| - i, r.Done?
      {
        r, k := ApplyNext(i, k, fromStart);
        if r.Done? {
          i := i + 1;
        }
      }
    }

    /** `_apply`: check everything, take every row to its end, check again. */
    method Apply() returns (r: Outcome)
      requires Valid() && AllClear(log) && Guarded(log)
      requires saved.rows == rows && (quiet ==> Resumable())
      modifies this`tree, this`life, this`outside, this`inodes, this`log, this`rows, this`phase, this`saved, this`used
      ensures Valid() && Guarded(log) && Heeded(log) && (!r.Refused? ==> AllClear(log))
      ensures life.None? <==> old(life).None?
      ensures r.Crashed? ==> life.Some?
      ensures quiet ==> Resumable()
      ensures quiet && r.Refused? ==> !AllLegible(tree, saved.rows)
      ensures quiet && !old(AllLegible(tree, rows)) ==> !r.Done? && tree == old(tree) && saved == old(saved)
      ensures quiet && FromPlan() && old(Unbegun(rows, 0)) ==> Tells(r, Smooth(origin, plan))
      ensures quiet && r.Done? ==> saved == Journal(Complete, rows) && AllSettled(tree, rows)
      ensures quiet && r.Done? ==> Lingering(tree, used) == {} && Untouched(origin, tree, rows)
      ensures BeginsWithLooks(old(log), log, old(rows))
      ensures r.Done? ==> AllEnded(rows) && LastSeen(log, rows)
      ensures old(used) <= used
    {
      ghost var k: nat := 0;
      if quiet {
        k :| Safe(k);
        if FromPlan() && Unbegun(rows, 0) { AtTheStart(k); }
      }
      r := Commence(k);
      if r.Done? {
        r := Proceed(k);
      }
    }

    /** The loop, and the last check. */
    method Proceed(ghost first: nat) returns (r: Outcome)
      requires Valid() && AllClear(log) && Guarded(log)
      requires saved.rows == rows && (quiet ==> OnCourse(first))
      modifies this`tree, this`life, this`outside, this`inodes, this`log, this`rows, this`phase, this`saved, this`used
      ensures Valid() && Guarded(log) && Heeded(log) && (!r.Refused? ==> AllClear(log))
      ensures life.None? <==> old(life).None?
      ensures r.Crashed? ==> life.Some?
      ensures quiet ==> Resumable()
      ensures quiet && r.Refused? ==> !AllLegible(tree, saved.rows)
      ensures quiet && FromPlan() && old(Unbegun(rows, 0)) ==>
                Tells(r, AllPass(origin, plan) && AllLegibleAt(origin, plan, Between(|plan|)))
      ensures quiet && r.Done? ==> saved == Journal(Complete, rows) && AllSettled(tree, rows)
      ensures quiet && r.Done? ==> Lingering(tree, used) == {} && Untouched(origin, tree, rows)
      ensures r.Done? ==> AllEnded(rows) && LastSeen(log, rows)
      ensures old(used) <= used && old(log) <= log
    {
      r := ApplyRows(first);
      if r.Done? {
        if quiet && FromPlan() { PlanLegible(origin, tree, plan, rows, Between(|rows|)); }
        r := Conclude();
        assert quiet ==> Safe(|rows|);
      }
    }

    /** Before anything has begun, the first row is the one whose turn it is. */
    lemma AtTheStart(k: nat)
      requires Valid() && OnCourse(k) && FromPlan() && Unbegun(rows, 0)
      ensures AllLegible(tree, rows) <==> AllLegibleAt(origin, plan, Between(0))
    {
      UnbegunIsFirst(tree, rows, k);
      PlanLegible(origin, tree, plan, rows, Between(0));
    }

    /** The first check, and the journal's word that the publication has begun. */
    method Commence(ghost k: nat) returns (r: Outcome)
      requires Valid() && AllClear(log) && Guarded(log) && saved.rows == rows
      requires quiet ==> OnCourse(k)
      modifies this`tree, this`life, this`outside, this`log, this`phase, this`saved, this`used
      ensures Valid() && Guarded(log) && Heeded(log) && (!r.Refused? ==> AllClear(log))
      ensures life.None? <==> old(life).None?
      ensures r.Crashed? ==> life.Some?
      ensures quiet ==> OnCourse(k) && tree == old(tree)
      ensures quiet ==> Tells(r, AllLegible(tree, rows))
      ensures !r.Done? ==> saved == old(saved)
      ensures BeginsWithLooks(old(log), log, rows) && (r.Done? ==> LooksAt(old(log), log, rows))
      ensures old(used) <= used && saved.rows == rows
    {
      r := CheckRows(k);
      if r.Done? {
        r := SavePhase(Applying);
      }
      assert quiet ==> Safe(k);
    }

    /** The last check, and the journal's end. */
    method Conclude() returns (r: Outcome)
      requires Valid() && AllClear(log) && Guarded(log)
      requires saved.rows == rows
      requires quiet ==> OnCourse(|rows|)
      modifies this`tree, this`life, this`outside, this`log, this`phase, this`saved, this`used
      ensures Valid() && Guarded(log) && Heeded(log) && (!r.Refused? ==> AllClear(log))
      ensures life.None? <==> old(life).None?
      ensures r.Crashed? ==> life.Some?
      ensures quiet ==> Tells(r, AllLegible(tree, rows))
      ensures quiet ==> saved.rows == old(saved.rows) && tree == old(tree) && used == old(used)
      ensures old(log) <= log
      ensures r.Done? ==> saved == Journal(Complete, rows) && LastSeen(log, rows)
      ensures old(used) <= used
    {
      r := CheckRows(|rows|);
      if r.Done? {
        LastLooks(old(log), log, rows);
        r := SavePhase(Complete);
      }
    }

    /** The journal's own status becomes durable; its rows already are. */
    method SavePhase(next: Phase) returns (r: Outcome)
      requires Valid()
      requires saved.rows == rows && (quiet ==> WorksOf(rows) <= used)
      modifies this`tree, this`life, this`outside, this`phase, this`saved, this`used
      ensures Valid() && !r.Refused? && old(used) <= used && saved.rows == rows
      ensures quiet ==> tree == old(tree) && used == old(used)
      ensures life.None? <==> old(life).None?
      ensures r.Crashed? ==> life.Some? && saved == old(saved)
      ensures r.Done? ==> saved == Journal(next, rows)
    {
      phase := next;
      r := Save();
      assert WorksOf(rows) <= old(used) ==> old(used) + WorksOf(rows) == old(used);
    }

    /** A new process starts from the saved journal alone. */
    method Reload()
      requires Valid()
      modifies this`rows, this`phase
      ensures Valid() && rows == saved.rows && phase == saved.phase
    {
      rows, phase := saved.rows, saved.phase;
    }

    /** One life: a new process takes up the saved journal and goes as far as it gets. It
        refuses at once, changing nothing, what it cannot read; and wherever it refuses, it
        leaves a journal that every later life refuses so. */
    method Live(steps: Option<nat>) returns (r: Outcome)
      requires Valid() && quiet && Resumable()
      modifies this`tree, this`life, this`outside, this`inodes, this`log, this`rows, this`phase, this`saved, this`used
      ensures Valid() && Guarded(log) && Heeded(log) && Resumable() && SamePlan(old(saved.rows), saved.rows) && old(used) <= used
      ensures steps.None? ==> !r.Crashed?
      ensures r.Refused? ==> !AllLegible(tree, saved.rows)
      ensures !old(AllLegible(tree, saved.rows)) ==> !r.Done? && tree == old(tree) && saved == old(saved)
      ensures FromPlan() && old(Unbegun(saved.rows, 0)) ==> Tells(r, Smooth(origin, plan))
      ensures r.Done? ==> saved == Journal(Complete, rows) && AllSettled(tree, rows)
      ensures r.Done? ==> Lingering(tree, used) == {} && Untouched(origin, tree, rows)
    {
      ghost var k :| Safe(k);
      life := steps;
      log := [];
      Reload();
      assert Safe(k);
      r := Apply();
      PlansAgree(plan, old(saved.rows), saved.rows);
    }

    /** In a steady publication, however often and wherever earlier lives end, the next
        whole run converges: every row settled, no workspace that a durable journal ever
        named still there, and nothing apart from the outputs changed. Without a crash,
        exactly a smooth one does. Whatever does not converge is refused for good. */
    method Recover(lives: seq<nat>) returns (r: Outcome)
      requires Valid() && quiet && Resumable()
      modifies this`tree, this`life, this`outside, this`inodes, this`log, this`rows, this`phase, this`saved, this`used
      ensures Steady(origin, plan) ==> r.Done?
      ensures lives == [] && FromPlan() && old(Unbegun(saved.rows, 0)) ==> (r.Done? <==> Smooth(origin, plan))
      ensures !r.Crashed? && Valid() && Resumable() && (r.Refused? ==> !AllLegible(tree, saved.rows))
      ensures SamePlan(old(saved.rows), saved.rows)
      ensures r.Done? ==> AllSettled(tree, rows) && saved == Journal(Complete, rows)
      ensures old(used) <= used && (r.Done? ==> Lingering(tree, used) == {})
      ensures r.Done? ==> Untouched(old(tree), tree, old(saved.rows))
    {
      ghost var first, planned := tree, saved.rows;
      assert Untouched(origin, first, planned);
      for c := 0 to |lives|
        invariant Valid() && Resumable() && SamePlan(planned, saved.rows) && old(used) <= used
        invariant c == 0 ==> tree == first && saved.rows == planned
      {
        var _ := Live(Some(lives[c]));
      }
      r := Live(None);
      SteadyGoesOn();
      UntouchedPlan(origin, tree, saved.rows, planned);
    }

    lemma SteadyGoesOn()
      requires Valid() && Resumable()
      ensures Steady(origin, plan) ==> AllLegible(tree, saved.rows)
    {
      if Steady(origin, plan) {
        var k :| Safe(k);
        SteadyPlan(origin, plan, saved.rows);
        SteadyHolds(origin, tree, saved.rows, k);
      }
    }

    // ---- what is not steady can be stranded ----

    /** A publication as it was prepared, about to be applied for the first time. */
    ghost predicate AtRest()
      reads this
    {
      && Valid() && quiet && life == None && log == [] && FromPlan()
      && saved.rows == rows && rows == Marked(rows, 0) && Safe(0) && AllLegible(tree, rows)
    }

    /** A journal of this plan that every later life refuses, among untouched surroundings. */
    ghost predicate Stranded()
      reads this
    {
      Valid() && Resumable() && !AllLegible(tree, saved.rows) && Untouched(origin, tree, saved.rows)
    }

    /** The start of a first life. */
    method SetOut() returns (r: Outcome)
      requires AtRest()
      modifies this`tree, this`life, this`outside, this`log, this`phase, this`saved, this`used
      ensures r.Done? && life == None && Learning(0, 0, Done, true)
    {
      r := Commence(0);
    }

    /** The statements of a first life up to row `k`'s turn. */
    method ReachRow(k: nat) returns (r: Outcome)
      requires AtRest() && k <= |rows|
      modifies this`tree, this`life, this`outside, this`inodes, this`log, this`rows, this`phase, this`saved, this`used
      ensures Valid() && life == None && !r.Crashed?
      ensures r.Done? ==> AtTurn(k)
      ensures r.Refused? ==> Stranded()
    {
      r := SetOut();
      r := GoTo(k);
    }

    method GoTo(k: nat) returns (r: Outcome)
      requires Learning(0, 0, Done, true) && life == None && k <= |rows|
      modifies this`tree, this`life, this`outside, this`inodes, this`log, this`rows, this`saved, this`used
      ensures Valid() && life == None && !r.Crashed?
      ensures r.Done? ==> AtTurn(k)
      ensures r.Refused? ==> Stranded()
    {
      ghost var at: nat := 0;
      r := Done;
      var i := 0;
      while i < k && r.Done?
        invariant 0 <= i <= k <= |rows| && life == None && !r.Crashed?
        invariant Learning(i, at, r, true)
        invariant r.Done? ==> i == at
        decreases k - i, r.Done?
      {
        r, at := ApplyNext(i, at, true);
        if r.Done? {
          i := i + 1;
        }
      }
      if r.Refused? { StuckIsStranded(); }
    }

    lemma StuckIsStranded()
      requires Valid() && Resumable() && !AllLegible(tree, saved.rows)
      ensures Stranded()
    {
    }

    ghost predicate AtTurn(i: nat)
      reads this
    {
      i <= |rows| && saved.rows == rows && OnCourse(i) && AllClear(log) && Guarded(log) && Unbegun(rows, i)
    }

    /** On from a row's turn to a point within it. */
    method ReachPoint(p: Point) returns (r: Outcome)
      requires Valid() && quiet && life == None && AtTurn(p.k) && InPlan(rows, p)
      modifies this`tree, this`life, this`outside, this`inodes, this`log, this`rows, this`saved, this`used
      ensures Valid() && life == None && !r.Crashed?
      ensures r.Done? ==> saved.rows == rows && Safe(p.k) && StandsAt(tree, rows, p)
      ensures r.Refused? ==> Stranded()
    {
      r := Done;
      if !p.Between? {
        r := Begin(p.k);
        if r.Done? && !p.Staged? {
          if p.Halfway? {
            r := TearRow(p.k);
          } else {
            r := SwapRow(p.k);
          }
        }
      }
    }

    /** A row's turn as far as its first rename. */
    method TearRow(k: nat) returns (r: Outcome)
      requires Valid() && quiet && life == None && saved.rows == rows && InHand(k) && StandsAt(tree, rows, Staged(k))
      requires AllClear(log) && Guarded(log) && InWork(tree, rows[k]) && TwoRenames(rows[k])
      modifies this`tree, this`life, this`outside, this`log
      ensures Valid() && life == None && !r.Crashed?
      ensures r.Done? ==> Safe(k) && StandsAt(tree, rows, Halfway(k))
      ensures r.Refused? ==> Stranded()
    {
      r := Look(k, true);
      InWorkChecks(tree, rows[k]);
      if Legible(tree, rows[k]) {
        LookKeepsGuard(old(log), Looked(rows[k], tree, true));
        r := MoveAway(k);
      } else {
        r := Refused;
        assert Stuck(k);
      }
    }

    /** Its turn up to where it is published. */
    method SwapRow(k: nat) returns (r: Outcome)
      requires Valid() && quiet && life == None && saved.rows == rows && InHand(k) && k < |rows| && InWork(tree, rows[k])
      requires AllClear(log) && Guarded(log)
      modifies this`tree, this`life, this`outside, this`log, this`rows, this`saved, this`used
      ensures Valid() && life == None && !r.Crashed?
      ensures r.Done? ==> saved.rows == rows && Safe(k) && StandsAt(tree, rows, Published(k))
      ensures r.Refused? ==> Stranded()
    {
      r := CheckedSwap(k);
      if r.Done? {
        r := Publish(k);
      } else {
        assert Stuck(k);
      }
    }

    /** A process that dies at a point of the plan where not everything can be read, or one
        that is refused on the way there. */
    method StrandAt(p: Point) returns (r: Outcome)
      requires AtRest() && InPlan(rows, p) && !AllLegibleAt(origin, plan, p)
      modifies this`tree, this`life, this`outside, this`inodes, this`log, this`rows, this`phase, this`saved, this`used
      ensures r.Refused? && SamePlan(old(rows), saved.rows) && Stranded()
    {
      ghost var planned := rows;
      r := ReachRow(p.k);
      if r.Done? {
        SameInPlan(plan, planned, rows, p);
        r := ReachPoint(p);
        if r.Done? { PlanLegible(origin, tree, plan, rows, p); }
      }
      PlansAgree(plan, planned, saved.rows);
      r := Live(None);
      PlansAgree(plan, planned, saved.rows);
    }

    /** Whatever is not steady has a point where the process may die so that every later
        life refuses. */
    method Strand() returns (r: Outcome)
      requires AtRest() && !Steady(origin, plan)
      modifies this`tree, this`life, this`outside, this`inodes, this`log, this`rows, this`phase, this`saved, this`used
      ensures r.Refused? && SamePlan(old(rows), saved.rows) && Stranded()
    {
      SteadyPlan(origin, plan, rows);
      PlansAgree(plan, rows, plan);
      assert !Steady(origin, rows);
      var p := Misfit(origin, rows);
      AllLegiblePlan(origin, rows, plan, p);
      r := StrandAt(p);
    }
  }

  /** In every state a run or a crash can leave: a target is its original, its
      desired node, or absent with the exact original kept beside it; between
      files and links it is never absent; and an untouched target is what a
      row without recorded intent has. */
  lemma NothingTorn(t: Tree, rows: seq<Row>, i: nat)
    requires Recoverable(t, rows) && i < |rows|
    ensures rows[i].status.Pending? ==> HasNode(t, rows[i].target, rows[i].before)
    ensures !rows[i].ensure ==>
              || HasNode(t, rows[i].target, rows[i].before)
              || HasNode(t, rows[i].target, rows[i].after)
              || (&& HasNode(t, rows[i].target, None)
                  && rows[i].status.Installing? && rows[i].work.Some?
                  && State(Lookup(t, rows[i].work.value.path + [PREVIOUS])) == rows[i].before)
    ensures (!rows[i].ensure && rows[i].before.Some? && rows[i].after.Some?
             && !rows[i].before.value.Directory? && !rows[i].after.value.Directory?) ==>
              Lookup(t, rows[i].target).Some?
    ensures rows[i].ensure ==> HasNode(t, rows[i].target, None) || IsDir(t, rows[i].target)
  {
    var k :| Progress(t, rows, k);
    if i == k && InWork(t, rows[i]) {
      LookupSplit(t, rows[i].work.value.path, [PREVIOUS]);
      InWorkChecks(t, rows[i]);
    }
  }

  /** Every row was looked at, in order. */
  ghost predicate LooksAt(before: seq<Event>, log: seq<Event>, rows: seq<Row>) {
    && |log| == |before| + |rows| && before <= log
    && forall e | |before| <= e < |log| :: log[e].Looked? && log[e].closely && log[e].row == rows[e - |before|]
  }

  /** Nothing precedes a look at every row, in order. */
  ghost predicate BeginsWithLooks(before: seq<Event>, log: seq<Event>, rows: seq<Row>) {
    && before <= log
    && forall e | |before| <= e < |log| && e < |before| + |rows| :: log[e].Looked? && log[e].closely && log[e].row == rows[e - |before|]
  }

  /** The rows looked at so far pass. */
  ghost predicate PassedUpTo(t: Tree, rows: seq<Row>, i: nat)
    requires i <= |rows|
  {
    forall j | 0 <= j < i :: Legible(t, rows[j])
  }

  lemma LooksMore(before: seq<Event>, log: seq<Event>, next: seq<Event>, rows: seq<Row>, i: nat)
    requires i < |rows| && BeginsWithLooks(before, log, rows) && |log| == |before| + i
    requires BeginsWithLooks(log, next, [rows[i]]) && |next| <= |log| + 1
    ensures BeginsWithLooks(before, next, rows)
  {
  }

  lemma LooksAll(before: seq<Event>, log: seq<Event>, rows: seq<Row>)
    requires BeginsWithLooks(before, log, rows)
    ensures |log| == |before| + |rows| ==> LooksAt(before, log, rows)
  {
  }

  /** Every row was looked at once more, at the very end. */
  ghost predicate LastSeen(log: seq<Event>, rows: seq<Row>) {
    |rows| <= |log| && LooksAt(log[..|log| - |rows|], log, rows)
  }

  lemma LastLooks(before: seq<Event>, log: seq<Event>, rows: seq<Row>)
    requires LooksAt(before, log, rows)
    ensures LastSeen(log, rows)
  {
    assert log[..|log| - |rows|] == before;
  }

  predicate Ended(row: Row) {
    row.status.Applied? && row.work.None?
  }

  ghost predicate AllEnded(rows: seq<Row>) {
    forall i | 0 <= i < |rows| :: Ended(rows[i])
  }

  ghost predicate AllSettled(t: Tree, rows: seq<Row>) {
    forall j | 0 <= j < |rows| :: Settled(t, rows[j])
  }

  function WithIntent(row: Row, ws: Path, ino: nat, next: Option<Tree>): Row {
    row.(status := Installing, work := Some(Work(ws, ino, row.before, row.after, false)),
    identity := if row.ensure && next.Some? && next.value.Dir? then Some(next.value.ino) else row.identity)
  }

  function Cleaning(row: Row): Row {
    if row.work.Some? then row.(work := Some(row.work.value.(cleaning := true))) else row
  }

  /** A completed swap, a removal included, leaves the desired node live. */
  lemma SwapIsDesired(t: Tree, rows: seq<Row>, k: nat, stage: Stage)
    requires k < |rows| && Others(t, rows, k) && InWork(t, rows[k])
    requires AtStage(t, rows[k], Lookup(t, rows[k].work.value.path).value.entries, stage)
    requires stage.Swapped? || (rows[k].after.None? && (stage.Ready? ==> !MovesOut(rows[k].before, rows[k].after)))
    ensures NodeView(t, rows[k]).AtDesired?
  {
    assert rows[k].ensure ==> rows[k].after.Some?;
  }

  /** A row whose desired node is live is at the last stage. */
  lemma DesiredStands(t: Tree, row: Row, next: Row)
    requires InWork(t, row) && NodeView(t, row).AtDesired? && next == row.(status := Applied)
    ensures AtWork(t, row, Swapped) && AtWork(t, next, Swapped)
  {
    var stage :| AtStage(t, row, Lookup(t, row.work.value.path).value.entries, stage);
  }

  /** One whose original is still live is at the first. */
  lemma StagedStands(t: Tree, rows: seq<Row>, k: nat)
    requires k < |rows| && Others(t, rows, k) && InWork(t, rows[k]) && HasNode(t, rows[k].target, rows[k].before)
    ensures StandsAt(t, rows, Staged(k))
  {
    var stage :| AtStage(t, rows[k], Lookup(t, rows[k].work.value.path).value.entries, stage);
  }

  lemma NextUnread(t: Tree, row: Row, stage: Stage)
    requires OwnWork(row) && row.status.Installing? && AtWork(t, row, stage) && !stage.Swapped?
    requires row.after.Some? && !NextReads(t, row)
    ensures !Legible(t, row)
  {
    assert NEXT in Lookup(t, row.work.value.path).value.entries;
  }

  /** What a run that goes on says of a fact that lets it. */
  predicate Tells(r: Outcome, fact: bool) {
    (r.Done? ==> fact) && (r.Refused? ==> !fact)
  }

  predicate Unbegun(rows: seq<Row>, k: nat) {
    forall j | k <= j < |rows| :: rows[j].status.Pending?
  }

  lemma UnbegunIsFirst(t: Tree, rows: seq<Row>, k: nat)
    requires Progress(t, rows, k) && Unbegun(rows, 0)
    ensures k == 0
  {
    if rows != [] {
      var row := rows[0];
      assert row.status.Pending? && !Settled(t, row);
    }
  }

  lemma PlansAgree(plan: seq<Row>, a: seq<Row>, b: seq<Row>)
    requires SamePlan(plan, a) && SamePlan(plan, b)
    ensures SamePlan(a, b)
  {
    assert forall i | 0 <= i < |plan| :: SameContract(plan[i], a[i]) && SameContract(plan[i], b[i]);
  }

  lemma SameInPlan(plan: seq<Row>, a: seq<Row>, b: seq<Row>, p: Point)
    requires SamePlan(plan, a) && SamePlan(plan, b) && InPlan(a, p)
    ensures InPlan(b, p)
  {
    assert p.k < |plan| ==> SameContract(plan[p.k], a[p.k]) && SameContract(plan[p.k], b[p.k]);
  }

  lemma StageOf(t: Tree, row: Row) returns (stage: Stage)
    requires InWork(t, row) && !NodeView(t, row).AtDesired?
    ensures AtStage(t, row, Lookup(t, row.work.value.path).value.entries, stage)
    ensures NodeView(t, row).AtOriginal? ==> stage.Ready?
    ensures NodeView(t, row).MovedOut? ==> stage.Displaced?
    ensures !NodeView(t, row).Foreign?
  {
    InWorkChecks(t, row);
    stage :| AtStage(t, row, Lookup(t, row.work.value.path).value.entries, stage);
  }

  ghost predicate StagedNext(o: Option<Tree>, ino: nat, after: Option<Node>) {
    o.Some? && o.value.Dir? && o.value.ino == ino && o.value.entries.Keys <= {NEXT} && Holds(o.value.entries, NEXT, after)
  }

  /** Part-way through the walk: the directories still to visit are untouched. */
  ghost predicate Unlocking(d: Tree, listed: Tree, todo: set<Name>)
    requires listed.Dir?
  {
    && d.Dir? && d.ino == listed.ino && d.mode == listed.mode | OWNER_ALL
    && d.entries.Keys == listed.entries.Keys
    && forall n | n in d.entries :: n in listed.entries &&
                                    (if n in todo then d.entries[n] == listed.entries[n] else Shrunk(d.entries[n], listed.entries[n]))
  }

  lemma UnlockStart(listed: Tree)
    requires listed.Dir?
    ensures Unlocking(WithMode(listed, listed.mode | OWNER_ALL), listed, listed.entries.Keys)
  {
  }

  lemma UnlockSkip(d: Tree, listed: Tree, todo: set<Name>, n: Name)
    requires listed.Dir? && Unlocking(d, listed, todo) && n in todo
    ensures Unlocking(d, listed, todo - {n})
  {
  }

  lemma UnlockDone(d: Tree, listed: Tree)
    requires listed.Dir? && Unlocking(d, listed, {})
    ensures Shrunk(d, listed)
  {
  }

  lemma UnlockStep(d: Tree, listed: Tree, todo: set<Name>, n: Name, child: Tree)
    requires listed.Dir? && Unlocking(d, listed, todo) && n in todo && n in listed.entries
    requires Shrunk(child, listed.entries[n])
    ensures Unlocking(Put(d, [n], Some(child)), listed, todo - {n})
    ensures Shrunk(Put(d, [n], Some(child)), listed)
  {
    var grown := Put(d, [n], Some(child));
    assert grown == Dir(d.mode, d.ino, d.entries[n := child]);
    forall m | m in grown.entries ensures m in listed.entries && Shrunk(grown.entries[m], listed.entries[m]) { }
  }

  /** Part-way through the deletion: exactly the entries still to do are left. */
  ghost predicate Emptying(d: Tree, listed: Tree, todo: set<Name>)
    requires listed.Dir?
  {
    && d.Dir? && d.ino == listed.ino && d.mode == listed.mode && d.entries.Keys == todo
    && forall n | n in d.entries :: n in listed.entries && d.entries[n] == listed.entries[n]
  }

  ghost predicate PartlyMade(d: Tree, entries: map<Name, Node>, todo: set<Name>) {
    && d.Dir? && d.entries.Keys == entries.Keys - todo
    && forall n | n in d.entries :: n in entries && PathState(d.entries[n]) == entries[n]
  }
}
