/** The journal rows of a publication: what each status permits on disk, the
    checks the code makes, and why one row's work never disturbs another's. */
module PublicationRows {
  import opened Common
  import opened Trees
  import opened Resolution

  datatype Status = Pending | Installing | Applied

  /** The private replacement workspace a row works through. */
  datatype Work = Work(path: Path, ino: nat, original: Option<Node>, desired: Option<Node>, cleaning: bool)

  datatype Row = Row(
    target: Path, resolved: Path, before: Option<Node>, after: Option<Node>, ensure: bool,
    status: Status, work: Option<Work>, identity: Option<nat>)

  const NEXT := Named("next")
  const PREVIOUS := Named("previous")

  // ---- what the checks compare ----

  /** The node at a target reached through directories alone. */
  predicate HasNode(t: Tree, target: Path, node: Option<Node>) {
    !Redirected(t, target) && State(Lookup(t, target)) == node
  }

  /** `_ensured`: the very directory that was published, whatever it holds by now. */
  predicate Ensured(t: Tree, row: Row) {
    && IsDir(t, row.target)
    && Some(Lookup(t, row.target).value.ino) == row.identity
    && row.after.Some? && row.after.value.Directory?
    && Lookup(t, row.target).value.mode & ORDINARY == row.after.value.mode
  }

  /** What deletion can have left of a node: fewer entries, each still its own, in
      directories whose owner may have been given every right. */
  predicate Remaining(actual: Node, expected: Node) {
    if actual.Directory? && expected.Directory? then
      && (actual.mode == expected.mode || actual.mode == expected.mode | OWNER_ALL)
      && forall n | n in actual.entries ::
           n in expected.entries && Remaining(actual.entries[n], expected.entries[n])
    else actual == expected
  }

  function Expected(work: Work, name: Name): Option<Node> {
    if name == NEXT then work.desired else if name == PREVIOUS then work.original else None
  }

  predicate Allowed(work: Work, name: Name, child: Tree) {
    && (name == NEXT || name == PREVIOUS)
    && Expected(work, name).Some?
    && if work.cleaning then Remaining(PathState(child), Expected(work, name).value)
       else PathState(child) == Expected(work, name).value
  }

  datatype Space = Deleted | Intact | Changed

  /** A workspace by its nodes. */
  function SpaceOf(t: Tree, row: Row): Space
    requires row.work.Some? && row.target != []
  {
    var work := row.work.value;
    if work.cleaning && row.status.Applied? && HasNode(t, work.path, None) then Deleted
    else if work.path == [] || Parent(work.path) != Parent(row.target) || !IsDir(t, work.path)
            || Lookup(t, work.path).value.ino != work.ino then Changed
    else
      var entries := Lookup(t, work.path).value.entries;
      if forall n | n in entries :: Allowed(work, n, entries[n]) then Intact else Changed
  }

  datatype View = AtDesired | AtOriginal | MovedOut | Foreign

  predicate Previous(t: Tree, work: Work) {
    State(Lookup(t, work.path + [PREVIOUS])) == work.original
  }

  /** A row's target by its node. */
  function NodeView(t: Tree, row: Row): View
    requires row.work.Some?
  {
    var work := row.work.value;
    if HasNode(t, row.target, work.desired)
       && (row.ensure && row.status.Installing? ==> Ensured(t, row)) then AtDesired
    else if HasNode(t, row.target, work.original) then AtOriginal
    else if HasNode(t, row.target, None) && Previous(t, work) then MovedOut
    else Foreign
  }

  /** The nodes a row is checked for are as they should be. */
  predicate NodesPass(t: Tree, row: Row)
    requires row.target != []
  {
    && (row.work.Some? ==> !SpaceOf(t, row).Changed?)
    && match row.status
       case Pending => HasNode(t, row.target, row.before)
       case Applied => if row.ensure then Ensured(t, row) else HasNode(t, row.target, row.after)
       case Installing =>
         && row.work.Some? && SpaceOf(t, row).Intact?
         && var work := row.work.value;
         || HasNode(t, row.target, work.original) || HasNode(t, row.target, work.desired)
         || (HasNode(t, row.target, None) && Previous(t, work))
  }

  // ---- the code's checks, which read every path they look at ----

  /** `_matches` */
  predicate Matches(t: Tree, target: Path, node: Option<Node>) {
    HasNode(t, target, node) && Reads(t, target)
  }

  /** `path_state` gets past every path in the workspace. */
  predicate WorkReads(t: Tree, row: Row)
    requires row.work.Some?
  {
    var work := row.work.value;
    && (work.cleaning && row.status.Applied? ==> Reads(t, work.path))
    && (IsDir(t, work.path) ==> forall n | n in Lookup(t, work.path).value.entries :: Reads(t, work.path + [n]))
  }

  /** `_workspace` */
  function Workspace(t: Tree, row: Row): Space
    requires row.work.Some? && row.target != []
  {
    if WorkReads(t, row) then SpaceOf(t, row) else Changed
  }

  /** A pending row's target still resolves to where it did. */
  predicate SamePath(t: Tree, row: Row) {
    Resolve(t, row.target) == Some(row.resolved)
  }

  /** One row of `_check_rows`. */
  predicate CheckRow(t: Tree, row: Row)
    requires row.target != []
  {
    match row.status
    case Pending =>
      SamePath(t, row) && Matches(t, row.target, row.before) && (row.work.Some? ==> !Workspace(t, row).Changed?)
    case Applied =>
      && (if row.ensure then Ensured(t, row) else Matches(t, row.target, row.after))
      && (row.work.Some? ==> !Workspace(t, row).Changed?)
    case Installing =>
      && row.work.Some? && Workspace(t, row).Intact?
      && var work := row.work.value;
      || Matches(t, row.target, work.original) || Matches(t, row.target, work.desired)
      || (Matches(t, row.target, None) && Previous(t, work))
  }

  /** Where `_finish` finds a row's target; one on a loop of links is foreign to it. */
  function FinishView(t: Tree, row: Row): View
    requires row.work.Some?
  {
    if Reads(t, row.target) then NodeView(t, row) else Foreign
  }

  /** `_finish` proceeds only where `_check_rows` would have passed the row too. */
  lemma FinishIsStricter(t: Tree, row: Row)
    requires row.target != [] && row.work.Some? && row.status.Installing?
    requires Workspace(t, row).Intact? && !FinishView(t, row).Foreign?
    ensures CheckRow(t, row)
  {
  }

  /** All that a row is checked for resolves, and a pending target to where it did. */
  predicate Legible(t: Tree, row: Row) {
    && (row.work.Some? ==> WorkReads(t, row))
    && match row.status
       case Pending => SamePath(t, row)
       case Installing => Reads(t, row.target)
       case Applied => row.ensure || Reads(t, row.target)
  }

  predicate AllLegible(t: Tree, rows: seq<Row>) {
    forall j | 0 <= j < |rows| :: Legible(t, rows[j])
  }

  /** A check is one of nodes and one of where paths resolve to. */
  lemma CheckSplits(t: Tree, row: Row)
    requires row.target != []
    ensures CheckRow(t, row) <==> NodesPass(t, row) && Legible(t, row)
  {
  }

  /** Whether the original has to be renamed away first: rename cannot replace
      or be replaced by a directory, and a removal has nothing to rename in. */
  predicate MovesOut(original: Option<Node>, desired: Option<Node>) {
    original.Some? && (original.value.Directory? || desired.None? || desired.value.Directory?)
  }

  /** The directory that an ensured row publishes: empty, with ordinary bits. */
  function EmptyDirectory(): Node {
    Directory(DIRECTORY_MODE, map[])
  }

  // ---- what a plan's rows look like, whatever their progress ----

  ghost predicate Nested(rows: seq<Row>, i: nat, j: nat)
    requires i < |rows| && j < |rows|
  {
    rows[i].target <= rows[j].target
  }

  /** Outputs are distinct, and only ensured directories have outputs below
      them, which come later. */
  ghost predicate Planned(rows: seq<Row>) {
    && (forall i | 0 <= i < |rows| :: OwnNames(rows[i].target))
    && (forall i | 0 <= i < |rows| && rows[i].ensure ::
          rows[i].before == None && rows[i].after == Some(EmptyDirectory()))
    && forall i, j | 0 <= i < |rows| && 0 <= j < |rows| && i != j && Nested(rows, i, j) ::
         rows[i].ensure && i < j
  }

  /** Everything of a row but its progress. */
  predicate SameContract(a: Row, b: Row) {
    a.target == b.target && a.resolved == b.resolved && a.before == b.before && a.after == b.after && a.ensure == b.ensure
  }

  ghost predicate SamePlan(a: seq<Row>, b: seq<Row>) {
    |a| == |b| && forall i | 0 <= i < |a| :: SameContract(a[i], b[i])
  }

  // ---- how a row may stand when nothing foreign has happened ----

  ghost predicate Settled(t: Tree, row: Row) {
    && row.status.Applied? && row.work.None?
    && if row.ensure then Ensured(t, row) else HasNode(t, row.target, row.after)
  }

  ghost predicate Waiting(t: Tree, row: Row) {
    row.status.Pending? && row.work.None? && HasNode(t, row.target, row.before)
  }

  /** The recorded workspace is this row's own, beside its target. */
  ghost predicate OwnWork(row: Row) {
    && row.target != [] && row.work.Some?
    && row.work.value.original == row.before && row.work.value.desired == row.after
    && row.before != row.after
    && row.work.value.path != [] && Parent(row.work.value.path) == Parent(row.target)
    && row.work.value.path[|row.target| - 1].Private?
  }

  predicate Holds(entries: map<Name, Tree>, name: Name, node: Option<Node>) {
    if node.Some? then name in entries && PathState(entries[name]) == node.value else name !in entries
  }

  datatype Stage = Ready | Displaced | Swapped

  /** The three disk states of a row whose intent is recorded. */
  ghost predicate AtStage(t: Tree, row: Row, entries: map<Name, Tree>, stage: Stage) {
    && entries.Keys <= {NEXT, PREVIOUS}
    && match stage
       case Ready =>
         && HasNode(t, row.target, row.before)
         && Holds(entries, NEXT, row.after) && PREVIOUS !in entries
         && (row.ensure ==> NEXT in entries && entries[NEXT].Dir? && Some(entries[NEXT].ino) == row.identity)
       case Displaced =>
         && MovesOut(row.before, row.after)
         && HasNode(t, row.target, None)
         && Holds(entries, NEXT, row.after) && Holds(entries, PREVIOUS, row.before)
       case Swapped =>
         && HasNode(t, row.target, row.after) && (row.ensure ==> Ensured(t, row))
         && NEXT !in entries
         && Holds(entries, PREVIOUS, if MovesOut(row.before, row.after) then row.before else None)
  }

  ghost predicate InWork(t: Tree, row: Row) {
    && OwnWork(row) && row.status.Installing? && !row.work.value.cleaning
    && IsDir(t, row.work.value.path) && Lookup(t, row.work.value.path).value.ino == row.work.value.ino
    && exists stage :: AtStage(t, row, Lookup(t, row.work.value.path).value.entries, stage)
  }

  /** Published, with a workspace still to delete or to forget. */
  ghost predicate Ending(t: Tree, row: Row) {
    && OwnWork(row) && row.status.Applied?
    && (if row.ensure then Ensured(t, row) else HasNode(t, row.target, row.after))
    && !SpaceOf(t, row).Changed?
    && !Redirected(t, row.work.value.path)
    && (IsDir(t, row.work.value.path) ==> Lookup(t, row.work.value.path).value.entries.Keys <= Kept(row))
  }

  /** What a workspace holds once its row is published. */
  function Kept(row: Row): set<Name> {
    if MovesOut(row.before, row.after) then {PREVIOUS} else {}
  }

  ghost predicate Current(t: Tree, row: Row) {
    Waiting(t, row) || InWork(t, row) || Ending(t, row)
  }

  /** A changed row's parent exists, or an earlier row will have made it. */
  ghost predicate HasHome(t: Tree, rows: seq<Row>, j: nat)
    requires j < |rows| && rows[j].target != []
  {
    || (exists i | 0 <= i < j :: rows[i].ensure && rows[i].target == Parent(rows[j].target))
    || (IsDir(t, Parent(rows[j].target))
        && forall i | 0 <= i < |rows| :: !(rows[i].target <= Parent(rows[j].target)))
  }

  /** The rows before `k` are done and those after it untouched. */
  ghost predicate Others(t: Tree, rows: seq<Row>, k: nat) {
    && k <= |rows| && Planned(rows)
    && (forall j | 0 <= j < k :: Settled(t, rows[j]))
    && (forall j | k < j < |rows| :: Waiting(t, rows[j]))
    && forall j | k < j < |rows| && rows[j].before != rows[j].after :: HasHome(t, rows, j)
  }

  /** Row `k` is in hand. */
  ghost predicate Progress(t: Tree, rows: seq<Row>, k: nat) {
    && Others(t, rows, k)
    && (k < |rows| ==> Current(t, rows[k]))
    && (k < |rows| && rows[k].status.Pending? && rows[k].before != rows[k].after ==> HasHome(t, rows, k))
  }

  ghost predicate Recoverable(t: Tree, rows: seq<Row>) {
    exists k :: Progress(t, rows, k)
  }

  // ---- every check passes in a recoverable state ----

  lemma {:induction false} RemainingReflexive(n: Node)
    ensures Remaining(n, n)
    decreases n
  {
    if n.Directory? {
      forall k | k in n.entries ensures Remaining(n.entries[k], n.entries[k]) {
        RemainingReflexive(n.entries[k]);
      }
    }
  }

  /** Removing and unlocking more of a partly deleted tree leaves it acceptable. */
  lemma {:induction false} RemainingShrunk(g: Tree, f: Tree, expected: Node)
    requires Shrunk(g, f) && Remaining(PathState(f), expected)
    ensures Remaining(PathState(g), expected)
    decreases g
  {
    if g != f {
      assert expected.Directory?;
      assert expected.mode | OWNER_ALL | OWNER_ALL == expected.mode | OWNER_ALL;
      forall n | n in g.entries
        ensures n in expected.entries && Remaining(PathState(g.entries[n]), expected.entries[n])
      {
        assert n in PathState(f).entries;
        RemainingShrunk(g.entries[n], f.entries[n], expected.entries[n]);
      }
    }
  }

  lemma InWorkChecks(t: Tree, row: Row)
    requires InWork(t, row)
    ensures SpaceOf(t, row).Intact? && NodesPass(t, row) && !NodeView(t, row).Foreign?
    ensures CheckRow(t, row) <==> Legible(t, row)
    ensures Workspace(t, row).Intact? && !FinishView(t, row).Foreign? <==> Legible(t, row)
  {
    var path := row.work.value.path;
    var entries := Lookup(t, path).value.entries;
    LookupSplit(t, path, [PREVIOUS]);
    var stage :| AtStage(t, row, entries, stage);
    forall n | n in entries ensures Allowed(row.work.value, n, entries[n]) {
      assert n in {NEXT, PREVIOUS};
    }
    CheckSplits(t, row);
  }

  /** In a recoverable state the one thing that can fail a row is what links lead to: a
      pending target that resolves elsewhere by now, or a path looked at that is on a loop. */
  lemma AllRowsCheck(t: Tree, rows: seq<Row>, k: nat, j: nat)
    requires Progress(t, rows, k) && j < |rows|
    ensures rows[j].target != []
    ensures CheckRow(t, rows[j]) <==> Legible(t, rows[j])
  {
    assert OwnNames(rows[j].target);
    CheckSplits(t, rows[j]);
    if j == k && InWork(t, rows[j]) {
      InWorkChecks(t, rows[j]);
    }
  }

  // ---- one row's work leaves every other row as it was ----

  /** Where the work on a row may change the tree: at its target and in private
      workspaces beside it. */
  ghost predicate InRegion(row: Row, p: Path) {
    && row.target != [] && p != []
    && (p == row.target
        || (|row.target| <= |p| && Parent(row.target) <= p && p[|row.target| - 1].Private?))
  }

  /** A private workspace is on no output's path. */
  lemma PrivateApart(row: Row, p: Path, q: Path)
    requires InRegion(row, p) && p != row.target && OwnNames(q)
    ensures !(p <= q)
    ensures q <= p ==> q <= Parent(row.target)
  {
    var at := |row.target| - 1;
    if |p| <= |q| {
      assert q[..|p|][at] == q[at] && q[at].Named?;
    } else if at < |q| {
      assert p[..|q|][at] == p[at] && q[at].Named?;
    } else {
      assert p[..|q|] == Parent(row.target)[..|q|];
    }
  }

  /** The region of row `k` does not meet the target of an earlier row, except
      below an ensured directory. */
  lemma RegionMeetsEarlier(rows: seq<Row>, k: nat, j: nat, p: Path)
    requires Planned(rows) && j < k < |rows| && InRegion(rows[k], p)
    ensures Apart(p, rows[j].target) || (rows[j].ensure && rows[j].target < p)
  {
    assert OwnNames(rows[j].target) && OwnNames(rows[k].target);
    assert !Nested(rows, k, j);
    assert Nested(rows, j, k) ==> rows[j].ensure;
    if p != rows[k].target { PrivateApart(rows[k], p, rows[j].target); }
  }

  lemma RegionMeetsLater(rows: seq<Row>, k: nat, j: nat, p: Path)
    requires Planned(rows) && k < j < |rows| && InRegion(rows[k], p)
    ensures Apart(p, rows[j].target) || (rows[k].ensure && p == rows[k].target && p < rows[j].target)
  {
    assert OwnNames(rows[j].target) && OwnNames(rows[k].target);
    assert !Nested(rows, j, k);
    assert Nested(rows, k, j) ==> rows[k].ensure;
    if p != rows[k].target { PrivateApart(rows[k], p, rows[j].target); }
  }

  lemma KeepSettled(t: Tree, p: Path, o: Option<Tree>, rows: seq<Row>, k: nat, j: nat)
    requires Planned(rows) && j < k < |rows| && InRegion(rows[k], p) && IsDir(t, Parent(p))
    requires Settled(t, rows[j])
    ensures Settled(Put(t, p, o), rows[j])
  {
    RegionMeetsEarlier(rows, k, j, p);
    if Apart(p, rows[j].target) {
      SettledApart(t, p, o, rows[j]);
    } else {
      SettledAbove(t, p, o, rows[j]);
    }
  }

  lemma SettledApart(t: Tree, p: Path, o: Option<Tree>, row: Row)
    requires p != [] && IsDir(t, Parent(p)) && Apart(p, row.target) && Settled(t, row)
    ensures Settled(Put(t, p, o), row)
  {
    PutApart(t, p, o, row.target);
  }

  /** An ensured directory stays so whatever comes to lie beneath it. */
  lemma SettledAbove(t: Tree, p: Path, o: Option<Tree>, row: Row)
    requires p != [] && IsDir(t, Parent(p)) && row.ensure && row.target < p && Settled(t, row)
    ensures Settled(Put(t, p, o), row)
  {
    PutBeneath(t, p, o, row.target);
  }

  /** A published ensured directory is empty while later rows still wait. */
  ghost predicate EmptyIfEnsured(row: Row, p: Path, o: Option<Tree>) {
    row.ensure && p == row.target ==> o.None? || (o.value.Dir? && o.value.entries == map[])
  }

  lemma KeepWaiting(t: Tree, p: Path, o: Option<Tree>, rows: seq<Row>, k: nat, j: nat)
    requires Planned(rows) && k < j < |rows| && InRegion(rows[k], p) && IsDir(t, Parent(p))
    requires Waiting(t, rows[j]) && EmptyIfEnsured(rows[k], p, o) && EmptyIfEnsured(rows[k], p, Lookup(t, p))
    ensures Waiting(Put(t, p, o), rows[j])
  {
    RegionMeetsLater(rows, k, j, p);
    if Apart(p, rows[j].target) {
      PutApart(t, p, o, rows[j].target);
    } else {
      var r := rows[j].target[|p|..];
      assert rows[j].target == p + r;
      PutOver(t, p, o, r);
      LookupSplit(t, p, r);
    }
  }

  lemma KeepHome(t: Tree, p: Path, o: Option<Tree>, rows: seq<Row>, k: nat, j: nat)
    requires Planned(rows) && k < j < |rows| && InRegion(rows[k], p) && IsDir(t, Parent(p))
    requires HasHome(t, rows, j)
    ensures HasHome(Put(t, p, o), rows, j)
  {
    if !exists i | 0 <= i < j :: rows[i].ensure && rows[i].target == Parent(rows[j].target) {
      var home := Parent(rows[j].target);
      assert OwnNames(rows[j].target) && !(rows[k].target <= home);
      if home < p {
        PutBeneath(t, p, o, home);
      } else {
        if p != rows[k].target && home != [] { PrivateApart(rows[k], p, home); }
        PutApart(t, p, o, home);
      }
    }
  }

  lemma KeepOthers(t: Tree, p: Path, o: Option<Tree>, rows: seq<Row>, k: nat)
    requires k < |rows| && Others(t, rows, k) && InRegion(rows[k], p) && IsDir(t, Parent(p))
    requires EmptyIfEnsured(rows[k], p, o) && EmptyIfEnsured(rows[k], p, Lookup(t, p))
    ensures Others(Put(t, p, o), rows, k)
  {
    forall j | 0 <= j < k ensures Settled(Put(t, p, o), rows[j]) { KeepSettled(t, p, o, rows, k, j); }
    forall j | k < j < |rows| ensures Waiting(Put(t, p, o), rows[j]) { KeepWaiting(t, p, o, rows, k, j); }
    forall j | k < j < |rows| && rows[j].before != rows[j].after ensures HasHome(Put(t, p, o), rows, j) {
      KeepHome(t, p, o, rows, k, j);
    }
  }

  /** Progress of row `k` alone concerns no other row. */
  lemma UpdateRow(t: Tree, rows: seq<Row>, k: nat, row: Row)
    requires k < |rows| && Others(t, rows, k) && SameContract(rows[k], row)
    ensures Others(t, rows[k := row], k)
    ensures HasHome(t, rows, k) ==> HasHome(t, rows[k := row], k)
  {
    var next := rows[k := row];
    forall i, j | 0 <= i < |rows| && 0 <= j < |rows| && i != j && Nested(next, i, j)
      ensures next[i].ensure && i < j
    {
      assert Nested(rows, i, j);
    }
    forall j | k < j < |rows| && next[j].before != next[j].after ensures HasHome(t, next, j) {
      assert HasHome(t, rows, j);
      SameHome(t, rows, next, j);
    }
    if HasHome(t, rows, k) { SameHome(t, rows, next, k); }
  }

  lemma SameHome(t: Tree, rows: seq<Row>, next: seq<Row>, j: nat)
    requires SamePlan(rows, next) && j < |rows| && rows[j].target != [] && HasHome(t, rows, j)
    ensures HasHome(t, next, j)
  {
    if i :| 0 <= i < j && rows[i].ensure && rows[i].target == Parent(rows[j].target) {
      assert next[i].ensure && next[i].target == Parent(next[j].target);
    } else {
      forall i | 0 <= i < |next| ensures !(next[i].target <= Parent(next[j].target)) {
        assert SameContract(rows[i], next[i]);
      }
    }
  }

  /** A settled row is left behind. */
  lemma Advance(t: Tree, rows: seq<Row>, k: nat)
    requires k < |rows| && Others(t, rows, k) && Settled(t, rows[k])
    ensures Progress(t, rows, k + 1)
  {
  }

  /** When a changed row's turn comes, its parent is a directory. */
  lemma HomeIsThere(t: Tree, rows: seq<Row>, k: nat)
    requires k < |rows| && Others(t, rows, k) && rows[k].target != [] && HasHome(t, rows, k)
    ensures IsDir(t, Parent(rows[k].target))
  {
  }

  // ---- what a publication leaves behind ----

  /** A workspace as the journal names it: its path and its identity on disk. */
  datatype Identity = Identity(path: Path, ino: nat)

  function IdentityOf(work: Work): Identity {
    Identity(work.path, work.ino)
  }

  ghost function WorksOf(rows: seq<Row>): set<Identity> {
    set i | 0 <= i < |rows| && rows[i].work.Some? :: IdentityOf(rows[i].work.value)
  }

  predicate Is(o: Option<Tree>, w: Identity) {
    o.Some? && o.value.Dir? && o.value.ino == w.ino
  }

  predicate Gone(t: Tree, w: Identity) {
    !Is(Lookup(t, w.path), w)
  }

  predicate Beside(row: Row, path: Path) {
    row.target != [] && path != [] && Parent(path) == Parent(row.target) && path[|row.target| - 1].Private?
  }

  ghost predicate Placed(rows: seq<Row>, path: Path) {
    exists j | 0 <= j < |rows| :: Beside(rows[j], path)
  }

  /** The workspaces ever named that are still there. */
  ghost function Lingering(t: Tree, used: set<Identity>): set<Identity> {
    set w | w in used && !Gone(t, w)
  }

  function Held(rows: seq<Row>, k: nat): set<Identity> {
    if k < |rows| && rows[k].work.Some? then {IdentityOf(rows[k].work.value)} else {}
  }

  ghost function Places(rows: seq<Row>): iset<Identity> {
    iset w: Identity | Placed(rows, w.path)
  }

  /** Of all the workspaces a journal ever named, only the one in hand is still there. */
  ghost predicate Tidy(t: Tree, rows: seq<Row>, k: nat, used: set<Identity>) {
    Lingering(t, used) <= Held(rows, k) && (iset w | w in used) <= Places(rows)
  }

  /** A path of ordinary names apart from every output, or within an ensured directory. */
  ghost predicate Elsewhere(rows: seq<Row>, q: Path) {
    OwnNames(q) && forall i | 0 <= i < |rows| :: Spared(q, rows[i])
  }

  predicate Spared(q: Path, row: Row) {
    Apart(q, row.target) || (row.ensure && row.target < q)
  }

  ghost function Surroundings(t: Tree, rows: seq<Row>): imap<Path, Option<Tree>> {
    imap q | Elsewhere(rows, q) :: Lookup(t, q)
  }

  /** Nothing apart from the outputs has changed. */
  ghost predicate Untouched(before: Tree, after: Tree, rows: seq<Row>) {
    Surroundings(after, rows) == Surroundings(before, rows)
  }

  /** What a publication keeps all the way: its surroundings, and no workspace of a
      durable journal but the one in hand. */
  ghost predicate Framed(before: Tree, t: Tree, rows: seq<Row>, k: nat, used: set<Identity>, inodes: nat) {
    && Untouched(before, t, rows) && Tidy(t, rows, k, used)
    && WorksOf(rows) <= used && Numbered(used, inodes)
  }

  predicate Numbered(works: set<Identity>, inodes: nat) {
    forall w | w in works :: w.ino < inodes
  }

  lemma UntouchedStays(before: Tree, t: Tree, p: Path, o: Option<Tree>, rows: seq<Row>, k: nat)
    requires k < |rows| && InRegion(rows[k], p) && OwnNames(rows[k].target) && Untouched(before, t, rows)
    requires IsDir(t, Parent(p)) && EmptyIfEnsured(rows[k], p, o) && EmptyIfEnsured(rows[k], p, Lookup(t, p))
    ensures Untouched(before, Put(t, p, o), rows)
  {
    forall q | Elsewhere(rows, q) ensures Lookup(Put(t, p, o), q) == Lookup(t, q) {
      assert Spared(q, rows[k]);
      if p == rows[k].target && p < q {
        var r := q[|p|..];
        assert q == p + r && r != [];
        PutOver(t, p, o, r);
        LookupSplit(t, p, r);
      } else {
        if p != rows[k].target { PrivateApart(rows[k], p, q); }
        PutApart(t, p, o, q);
      }
    }
  }

  /** A workspace's own path and an output in whose region a change falls. */
  lemma PlacedMeets(rows: seq<Row>, k: nat, p: Path, w: Path)
    requires Planned(rows) && k < |rows| && InRegion(rows[k], p) && Placed(rows, w)
    ensures Apart(p, w) || w <= p || (p == rows[k].target && rows[k].ensure && p < w)
    ensures p == rows[k].target ==> p != w
  {
    var j :| 0 <= j < |rows| && Beside(rows[j], w);
    var a, b := rows[k].target, rows[j].target;
    assert OwnNames(a) && OwnNames(b);
    assert w[|b| - 1].Private? && forall i | 0 <= i < |b| - 1 :: w[i] == b[i];
    if p < w {
      assert forall i | 0 <= i < |p| :: p[i] == w[i] && p[i].Named?;
      assert p == a;
      assert a == w[..|a|] == Parent(b)[..|a|] == b[..|a|];
      assert Nested(rows, k, j);
    }
    assert w[|w| - 1].Private? && a[|a| - 1].Named?;
  }

  lemma GoneStays(t: Tree, p: Path, o: Option<Tree>, rows: seq<Row>, k: nat, w: Identity)
    requires Planned(rows) && k < |rows| && InRegion(rows[k], p) && IsDir(t, Parent(p))
    requires Placed(rows, w.path) && EmptyIfEnsured(rows[k], p, o)
    requires Gone(t, w) && (p == w.path ==> !Is(o, w))
    ensures Gone(Put(t, p, o), w)
  {
    PlacedMeets(rows, k, p, w.path);
    if p == w.path {
      PutAt(t, p, o);
    } else if Apart(p, w.path) {
      PutApart(t, p, o, w.path);
    } else if w.path < p {
      PutBeneath(t, p, o, w.path);
    } else {
      var r := w.path[|p|..];
      assert w.path == p + r && r != [];
      PutOver(t, p, o, r);
    }
  }

  lemma TidyStays(t: Tree, p: Path, o: Option<Tree>, rows: seq<Row>, k: nat, used: set<Identity>)
    requires Planned(rows) && k < |rows| && InRegion(rows[k], p) && IsDir(t, Parent(p))
    requires EmptyIfEnsured(rows[k], p, o) && Tidy(t, rows, k, used)
    requires forall w | w in used && w.path == p && w !in Held(rows, k) :: !Is(o, w)
    ensures Tidy(Put(t, p, o), rows, k, used)
  {
    forall w | w in used && w !in Held(rows, k) ensures Gone(Put(t, p, o), w) {
      assert w !in Lingering(t, used) && w in Places(rows);
      GoneStays(t, p, o, rows, k, w);
    }
  }

  /** The journal's next state names no workspace but the one in hand, and drops
      only one that is gone. */
  lemma TidyRow(t: Tree, rows: seq<Row>, k: nat, row: Row, used: set<Identity>)
    requires k < |rows| && SameContract(rows[k], row) && Tidy(t, rows, k, used) && WorksOf(rows) <= used
    requires row.work.Some? ==> Beside(row, row.work.value.path)
    requires rows[k].work.Some? ==>
               Gone(t, IdentityOf(rows[k].work.value)) || IdentityOf(rows[k].work.value) in Held([row], 0)
    ensures Tidy(t, rows[k := row], k, used + WorksOf(rows[k := row]))
  {
    var next := rows[k := row];
    var more := used + WorksOf(next);
    forall w | w in more ensures Placed(next, w.path) && (Gone(t, w) || w in Held(next, k)) {
      if w in used {
        assert w in Places(rows);
        var j :| 0 <= j < |rows| && Beside(rows[j], w.path);
        assert Beside(next[j], w.path);
        assert Gone(t, w) || w in Lingering(t, used);
      } else {
        var i :| 0 <= i < |next| && next[i].work.Some? && IdentityOf(next[i].work.value) == w;
        assert w !in WorksOf(rows);
        assert Beside(next[k], w.path);
      }
    }
  }

  lemma UntouchedPlan(before: Tree, after: Tree, rows: seq<Row>, next: seq<Row>)
    requires (SamePlan(rows, next) || SamePlan(next, rows)) && Untouched(before, after, rows)
    ensures Untouched(before, after, next)
  {
    SameElsewhere(rows, next);
    assert forall t: Tree :: Surroundings(t, next) == Surroundings(t, rows);
  }

  lemma SameElsewhere(rows: seq<Row>, next: seq<Row>)
    requires SamePlan(rows, next)
    ensures forall q :: Elsewhere(rows, q) <==> Elsewhere(next, q)
  {
    forall q ensures Elsewhere(rows, q) <==> Elsewhere(next, q) {
      forall i | 0 <= i < |rows| ensures Spared(q, rows[i]) <==> Spared(q, next[i]) {
        assert SameContract(rows[i], next[i]);
      }
    }
  }

  /** A change in the region of the row in hand. */
  lemma FramedPut(before: Tree, t: Tree, p: Path, o: Option<Tree>, rows: seq<Row>, k: nat, used: set<Identity>, inodes: nat)
    requires Planned(rows) && k < |rows| && InRegion(rows[k], p) && IsDir(t, Parent(p))
    requires EmptyIfEnsured(rows[k], p, o) && EmptyIfEnsured(rows[k], p, Lookup(t, p))
    requires Framed(before, t, rows, k, used, inodes)
    requires forall w | w in used && w.path == p && w !in Held(rows, k) :: !Is(o, w)
    ensures Framed(before, Put(t, p, o), rows, k, used, inodes)
  {
    assert OwnNames(rows[k].target);
    UntouchedStays(before, t, p, o, rows, k);
    TidyStays(t, p, o, rows, k, used);
  }

  /** A new workspace is none that was ever there. */
  lemma FramedNew(before: Tree, t: Tree, ws: Identity, o: Option<Tree>, rows: seq<Row>, k: nat, used: set<Identity>,
                  inodes: nat, more: nat)
    requires Planned(rows) && k < |rows| && Beside(rows[k], ws.path) && IsDir(t, Parent(ws.path))
    requires Framed(before, t, rows, k, used, inodes) && inodes <= ws.ino < more && Is(o, ws)
    ensures Framed(before, Put(t, ws.path, o), rows, k, used, more)
  {
    assert OwnNames(rows[k].target);
    assert rows[k].target[|rows[k].target| - 1].Named?;
    FramedPut(before, t, ws.path, o, rows, k, used, inodes);
  }

  /** The next journal, once it is durable. */
  lemma FramedRow(before: Tree, t: Tree, rows: seq<Row>, k: nat, row: Row, used: set<Identity>, inodes: nat)
    requires k < |rows| && SameContract(rows[k], row) && Framed(before, t, rows, k, used, inodes)
    requires row.work.Some? ==> Beside(row, row.work.value.path)
    requires row.work.Some? ==> row.work.value.ino < inodes || IdentityOf(row.work.value) in Held(rows, k)
    requires rows[k].work.Some? ==>
               Gone(t, IdentityOf(rows[k].work.value)) || IdentityOf(rows[k].work.value) in Held([row], 0)
    ensures Framed(before, t, rows[k := row], k, used + WorksOf(rows[k := row]), inodes)
  {
    var next := rows[k := row];
    UntouchedPlan(before, t, rows, next);
    TidyRow(t, rows, k, row, used);
    forall w | w in WorksOf(next) ensures w.ino < inodes {
      var i :| 0 <= i < |next| && next[i].work.Some? && IdentityOf(next[i].work.value) == w;
      assert w in WorksOf(rows) || w == IdentityOf(row.work.value);
    }
  }

  lemma FramedAdvance(before: Tree, t: Tree, rows: seq<Row>, k: nat, used: set<Identity>, inodes: nat)
    requires k < |rows| && rows[k].work.None? && Framed(before, t, rows, k, used, inodes)
    ensures Framed(before, t, rows, k + 1, used, inodes)
  {
  }
}
