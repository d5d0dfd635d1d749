/** What each durable step of a publication does to a row that is in hand. */
module PublicationSteps {
  import opened Common
  import opened Trees
  import opened Resolution
  import opened PublicationRows

  /** os.replace: the whole subtree moves in one step. */
  function Moved(t: Tree, source: Path, dest: Path): Tree {
    Put(Put(t, source, None), dest, Lookup(t, source))
  }

  /** When rename(2) accepts: a directory replaces only an empty directory, and
      anything else replaces only what is not a directory. */
  predicate CanMove(t: Tree, source: Path, dest: Path) {
    && source != [] && dest != [] && Apart(source, dest)
    && Lookup(t, source).Some? && IsDir(t, Parent(dest))
    && (Lookup(t, dest).Some? ==>
          var there := Lookup(t, dest).value;
          if Lookup(t, source).value.Dir? then there.Dir? && there.entries == map[] else !there.Dir?)
  }

  /** One change inside a subtree, seen from outside it. */
  lemma NestedStep(t0: Tree, t1: Tree, t2: Tree, path: Path, n: Name)
    requires path != [] && IsDir(t0, Parent(path)) && IsDir(t1, path)
    requires t1 == Put(t0, path, Lookup(t1, path))
    requires t2 == Put(t1, path + [n], Lookup(t2, path + [n]))
    ensures Lookup(t2, path) == Some(Put(Lookup(t1, path).value, [n], Lookup(t2, path + [n])))
    ensures t2 == Put(t0, path, Lookup(t2, path))
  {
    var d, o := Lookup(t1, path).value, Lookup(t2, path + [n]);
    PutNested(t1, path, [n], o);
    PutTwice(t0, path, Some(d), Some(Put(d, [n], o)));
    PutAt(t0, path, Some(Put(d, [n], o)));
  }

  lemma MovedLooks(t: Tree, source: Path, dest: Path)
    requires CanMove(t, source, dest)
    ensures IsDir(t, Parent(source)) && IsDir(Put(t, source, None), Parent(dest))
    ensures Lookup(Moved(t, source, dest), dest) == Lookup(t, source)
    ensures Lookup(Moved(t, source, dest), source) == None
    ensures !Redirected(Moved(t, source, dest), source) && !Redirected(Moved(t, source, dest), dest)
  {
    FoundThroughDirectories(t, source, Parent(source));
    var mid := Put(t, source, None);
    PutAt(t, source, None);
    var home := Parent(dest);
    if Apart(source, home) {
      PutApart(t, source, None, home);
    } else {
      assert !(source <= home);
      PutBeneath(t, source, None, home);
    }
    PutAt(mid, dest, Lookup(t, source));
    PutApart(mid, dest, Lookup(t, source), source);
  }

  /** The workspace's directory after one of its entries is set. */
  lemma EntrySet(t: Tree, ws: Path, n: Name, o: Option<Tree>)
    requires ws != [] && IsDir(t, ws)
    ensures IsDir(Put(t, ws + [n], o), ws)
    ensures Lookup(Put(t, ws + [n], o), ws).value.ino == Lookup(t, ws).value.ino
    ensures Lookup(Put(t, ws + [n], o), ws).value.entries ==
            var es := Lookup(t, ws).value.entries; if o.Some? then es[n := o.value] else es - {n}
  {
    assert Parent(ws + [n]) == ws;
    PutBeneath(t, ws + [n], o, ws);
    assert (ws + [n])[|ws|..] == [n];
  }

  lemma BesideTarget(row: Row)
    requires OwnWork(row) && OwnNames(row.target)
    ensures var ws := row.work.value.path;
            && InRegion(row, ws) && InRegion(row, ws + [NEXT]) && InRegion(row, ws + [PREVIOUS])
            && Apart(ws, row.target) && Apart(ws + [NEXT], row.target) && Apart(ws + [PREVIOUS], row.target)
            && ws != row.target
  {
    var ws := row.work.value.path;
    assert ws[|row.target| - 1].Private? && row.target[|row.target| - 1].Named?;
    forall n: Name ensures Apart(ws + [n], row.target) && InRegion(row, ws + [n]) {
      assert (ws + [n])[|row.target| - 1] == ws[|row.target| - 1];
      assert (ws + [n])[..|row.target|] == ws;
    }
  }

  /** First rename of a two-rename swap: the original goes into the workspace. */
  lemma {:induction false} RenameAway(t: Tree, rows: seq<Row>, k: nat)
    requires k < |rows| && Others(t, rows, k) && InWork(t, rows[k])
    requires NodeView(t, rows[k]).AtOriginal? && MovesOut(rows[k].before, rows[k].after)
    ensures var row := rows[k]; var previous := row.work.value.path + [PREVIOUS];
                                && CanMove(t, row.target, previous)
                                && Others(Moved(t, row.target, previous), rows, k)
                                && InWork(Moved(t, row.target, previous), row)
                                && AtStage(Moved(t, row.target, previous), row,
                                           Lookup(Moved(t, row.target, previous), row.work.value.path).value.entries, Displaced)
  {
    var row := rows[k];
    assert OwnNames(row.target);
    var ws := row.work.value.path;
    var entries := Lookup(t, ws).value.entries;
    var stage :| AtStage(t, row, entries, stage);
    assert stage == Ready;
    BesideTarget(row);
    assert Parent(ws + [PREVIOUS]) == ws;
    LookupSplit(t, ws, [PREVIOUS]);
    assert CanMove(t, row.target, ws + [PREVIOUS]);
    MovedLooks(t, row.target, ws + [PREVIOUS]);
    var mid, gone := Put(t, row.target, None), Lookup(t, row.target);
    KeepOthers(t, row.target, None, rows, k);
    KeepOthers(mid, ws + [PREVIOUS], gone, rows, k);
    PutApart(t, row.target, None, ws);
    EntrySet(mid, ws, PREVIOUS, gone);
    assert AtStage(Moved(t, row.target, ws + [PREVIOUS]), row, entries[PREVIOUS := gone.value], Displaced);
  }

  /** Last rename of a swap: the desired node goes live. */
  lemma {:induction false} RenameIn(t: Tree, rows: seq<Row>, k: nat, stage: Stage)
    requires k < |rows| && Others(t, rows, k) && InWork(t, rows[k]) && rows[k].after.Some?
    requires AtStage(t, rows[k], Lookup(t, rows[k].work.value.path).value.entries, stage)
    requires stage.Displaced? || (stage.Ready? && !MovesOut(rows[k].before, rows[k].after))
    ensures var row := rows[k]; var next := row.work.value.path + [NEXT];
                                && State(Lookup(t, next)) == row.after
                                && CanMove(t, next, row.target)
                                && Others(Moved(t, next, row.target), rows, k)
                                && InWork(Moved(t, next, row.target), row)
                                && AtStage(Moved(t, next, row.target), row,
                                           Lookup(Moved(t, next, row.target), row.work.value.path).value.entries, Swapped)
  {
    var row := rows[k];
    assert OwnNames(row.target);
    var ws := row.work.value.path;
    var next := ws + [NEXT];
    var entries := Lookup(t, ws).value.entries;
    BesideTarget(row);
    assert Parent(next) == ws;
    LookupSplit(t, ws, [NEXT]);
    FoundThroughDirectories(t, ws, Parent(row.target));
    assert CanMove(t, next, row.target);
    MovedLooks(t, next, row.target);
    var mid, incoming := Put(t, next, None), Lookup(t, next);
    KeepOthers(t, next, None, rows, k);
    PutApart(t, next, None, row.target);
    EnsuredIsEmpty(row, incoming.value);
    KeepOthers(mid, row.target, incoming, rows, k);
    EntrySet(t, ws, NEXT, None);
    PutApart(mid, row.target, incoming, ws);
    var after := Moved(t, next, row.target);
    assert AtStage(after, row, entries - {NEXT}, Swapped);
  }

  lemma EnsuredIsEmpty(row: Row, incoming: Tree)
    requires row.ensure ==> PathState(incoming) == EmptyDirectory()
    ensures EmptyIfEnsured(row, row.target, Some(incoming))
  {
    if row.ensure {
      assert PathState(incoming).entries.Keys == incoming.entries.Keys;
      assert incoming.entries.Keys == {};
    }
  }

  /** The status update after a swap: the row is published. */
  lemma PublishedEnds(t: Tree, rows: seq<Row>, k: nat, row: Row)
    requires k < |rows| && Others(t, rows, k) && InWork(t, rows[k])
    requires NodeView(t, rows[k]).AtDesired?
    requires row == rows[k].(status := Applied)
    ensures Ending(t, row) && Others(t, rows[k := row], k)
  {
    InWorkChecks(t, rows[k]);
    UpdateRow(t, rows, k, row);
    FoundThroughDirectories(t, row.work.value.path, Parent(row.work.value.path));
  }

  /** Recording that cleanup has begun. */
  lemma CleaningBegins(t: Tree, rows: seq<Row>, k: nat, row: Row)
    requires k < |rows| && Others(t, rows, k) && Ending(t, rows[k])
    requires row == rows[k].(work := Some(rows[k].work.value.(cleaning := true)))
    ensures Ending(t, row) && Others(t, rows[k := row], k)
    ensures SpaceOf(t, row) == SpaceOf(t, rows[k])
  {
    var was := rows[k];
    UpdateRow(t, rows, k, row);
    if !SpaceOf(t, was).Deleted? {
      var entries := Lookup(t, was.work.value.path).value.entries;
      forall n | n in entries ensures Allowed(row.work.value, n, entries[n]) {
        assert Allowed(was.work.value, n, entries[n]);
        RemainingReflexive(PathState(entries[n]));
      }
    }
  }

  /** Any amount of deletion keeps a row acceptable; a completed one settles it. */
  lemma CleaningShrinks(t: Tree, rows: seq<Row>, k: nat, o: Option<Tree>)
    requires k < |rows| && Others(t, rows, k) && Ending(t, rows[k])
    requires rows[k].work.value.cleaning && SpaceOf(t, rows[k]).Intact?
    requires o.Some? ==> Shrunk(o.value, Lookup(t, rows[k].work.value.path).value)
    ensures var ws := rows[k].work.value.path;
            && Others(Put(t, ws, o), rows, k) && Ending(Put(t, ws, o), rows[k])
            && (o.Some? ==> SpaceOf(Put(t, ws, o), rows[k]).Intact?)
            && (o.None? ==> SpaceOf(Put(t, ws, o), rows[k]).Deleted?)
  {
    var row := rows[k];
    assert OwnNames(row.target);
    var ws := row.work.value.path;
    BesideTarget(row);
    FoundThroughDirectories(t, ws, Parent(ws));
    KeepOthers(t, ws, o, rows, k);
    PutApart(t, ws, o, row.target);
    PutAt(t, ws, o);
    if o.Some? {
      var entries, fewer := Lookup(t, ws).value.entries, o.value.entries;
      forall n | n in fewer ensures Allowed(row.work.value, n, fewer[n]) {
        assert n in entries && Allowed(row.work.value, n, entries[n]);
        assert Shrunk(fewer[n], entries[n]);
        RemainingShrunk(fewer[n], entries[n], Expected(row.work.value, n).value);
      }
    }
  }

  /** The two deletions of a workspace, seen from outside it. */
  lemma CleaningFrame(before: Tree, t: Tree, rows: seq<Row>, k: nat, o: Option<Tree>, used: set<Identity>, inodes: nat)
    requires k < |rows| && Others(t, rows, k) && Ending(t, rows[k]) && SpaceOf(t, rows[k]).Intact?
    requires o.Some? ==> Shrunk(o.value, Lookup(t, rows[k].work.value.path).value)
    requires Framed(before, t, rows, k, used, inodes)
    ensures Framed(before, Put(t, rows[k].work.value.path, o), rows, k, used, inodes)
  {
    var ws := rows[k].work.value.path;
    assert OwnNames(rows[k].target);
    BesideTarget(rows[k]);
    FoundThroughDirectories(t, ws, Parent(ws));
    FramedPut(before, t, ws, o, rows, k, used, inodes);
  }

  lemma CleanedSettles(t: Tree, rows: seq<Row>, k: nat, row: Row)
    requires k < |rows| && Others(t, rows, k) && Ending(t, rows[k])
    requires row == rows[k].(work := None)
    ensures Settled(t, row) && Others(t, rows[k := row], k)
  {
    UpdateRow(t, rows, k, row);
  }

  /** A row whose before and after agree has nothing to do. */
  lemma UnchangedSettles(t: Tree, rows: seq<Row>, k: nat, row: Row)
    requires k < |rows| && Others(t, rows, k) && Waiting(t, rows[k]) && rows[k].before == rows[k].after
    requires row == rows[k].(status := Applied)
    ensures Settled(t, row) && Others(t, rows[k := row], k)
  {
    UpdateRow(t, rows, k, row);
    assert !rows[k].ensure;
  }

  /** A finished workspace, before its intent is recorded, concerns no row. */
  lemma WorkspaceMade(t: Tree, rows: seq<Row>, k: nat, ws: Path, o: Option<Tree>)
    requires k < |rows| && Others(t, rows, k) && Waiting(t, rows[k]) && OwnNames(rows[k].target)
    requires rows[k].before != rows[k].after ==> HasHome(t, rows, k)
    requires IsDir(t, Parent(rows[k].target))
    requires ws != [] && Parent(ws) == Parent(rows[k].target) && ws[|rows[k].target| - 1].Private?
    ensures Others(Put(t, ws, o), rows, k) && Waiting(Put(t, ws, o), rows[k])
    ensures rows[k].before != rows[k].after ==> HasHome(Put(t, ws, o), rows, k)
  {
    var target := rows[k].target;
    assert InRegion(rows[k], ws);
    KeepOthers(t, ws, o, rows, k);
    assert ws[|target| - 1] != target[|target| - 1];
    PutApart(t, ws, o, target);
    if !exists i | 0 <= i < k :: rows[i].ensure && rows[i].target == Parent(target) {
      PutBeneath(t, ws, o, Parent(target));
    }
  }

  /** Recording intent: the row is in work with its original still in place. */
  lemma IntentRecorded(t: Tree, rows: seq<Row>, k: nat, row: Row)
    requires k < |rows| && Others(t, rows, k) && Waiting(t, rows[k]) && OwnNames(rows[k].target)
    requires rows[k].before != rows[k].after && SameContract(rows[k], row)
    requires row.status.Installing? && OwnWork(row) && !row.work.value.cleaning
    requires var ws := row.work.value.path;
             && IsDir(t, ws) && Lookup(t, ws).value.ino == row.work.value.ino
             && Lookup(t, ws).value.entries.Keys <= {NEXT}
             && Holds(Lookup(t, ws).value.entries, NEXT, row.after)
             && (row.ensure ==>
                   (Lookup(t, ws).value.entries[NEXT].Dir?
                    && Some(Lookup(t, ws).value.entries[NEXT].ino) == row.identity))
    ensures InWork(t, row) && Others(t, rows[k := row], k)
  {
    UpdateRow(t, rows, k, row);
    assert AtStage(t, row, Lookup(t, row.work.value.path).value.entries, Ready);
  }

  /** One of the two renames of a swap, in a state that leads to it. */
  predicate IsRename(t: Tree, row: Row, source: Path, dest: Path)
    requires row.work.Some?
  {
    || (source == row.target && dest == row.work.value.path + [PREVIOUS] && row.before.Some?)
    || (source == row.work.value.path + [NEXT] && dest == row.target && State(Lookup(t, source)) == row.after
        && (row.ensure ==> Lookup(t, dest).None?))
  }

  /** A rename between a target and its workspace leaves everything else, and every
      workspace that is gone, as it was. */
  lemma RenameFrame(before: Tree, t: Tree, rows: seq<Row>, k: nat, source: Path, dest: Path,
                    used: set<Identity>, inodes: nat)
    requires k < |rows| && Others(t, rows, k) && OwnWork(rows[k]) && CanMove(t, source, dest)
    requires Framed(before, t, rows, k, used, inodes)
    requires IsRename(t, rows[k], source, dest)
    ensures Framed(before, Moved(t, source, dest), rows, k, used, inodes)
  {
    var row, o := rows[k], Lookup(t, source);
    assert OwnNames(row.target);
    BesideTarget(row);
    MovedLooks(t, source, dest);
    if dest == row.target {
      EnsuredIsEmpty(row, o.value);
      PutApart(t, source, None, dest);
    }
    forall w | w in used ensures w.path != source && w.path != dest {
      assert w in Places(rows);
      NotInside(rows, k, w.path);
    }
    FramedPut(before, t, source, None, rows, k, used, inodes);
    FramedPut(before, Put(t, source, None), dest, o, rows, k, used, inodes);
  }

  lemma NotInside(rows: seq<Row>, k: nat, w: Path)
    requires Planned(rows) && k < |rows| && OwnWork(rows[k]) && Placed(rows, w)
    ensures w != rows[k].target && w != rows[k].work.value.path + [NEXT] && w != rows[k].work.value.path + [PREVIOUS]
  {
    var j :| 0 <= j < |rows| && Beside(rows[j], w);
    assert OwnNames(rows[k].target) && w[|w| - 1].Private?;
    assert rows[k].target[|rows[k].target| - 1].Named?;
    forall n | n == NEXT || n == PREVIOUS ensures w != rows[k].work.value.path + [n] {
      assert (rows[k].work.value.path + [n])[|rows[k].work.value.path|] == n;
    }
  }
}
